/** Content-derived stable ids: a hash prefix, widened until no other hash of
    the same group shares it; and the keys that are hashed. */
module StableIds {
  import opened Basics
  import opened PolicyAlgebra
  import opened PolicyCompile

  const FIRST := 6
  const STEP := 2

  // ---------------------------------------------------------------- widening

  ghost predicate Hashes(hs: set<string>, length: nat) {
    forall h :: h in hs ==> |h| == length
  }

  predicate Clash(hs: set<string>, h: string, n: nat)
    requires n <= |h| && forall other :: other in hs ==> |other| == |h|
  {
    exists other :: other in hs && other != h && other[..n] == h[..n]
  }

  /** All hashes that share the first six digits, as the map of groups has them. */
  function Group(hs: set<string>, h: string): (g: set<string>)
    requires |h| >= FIRST && forall other :: other in hs ==> |other| == |h|
  {
    set other | other in hs && other[..FIRST] == h[..FIRST]
  }

  /** The widening loop: it stops at the first width, in steps of two, at which
      nothing else in the group clashes, or at the full hash. */
  method Widen(group: set<string>, h: string) returns (n: nat)
    requires |h| >= FIRST && |h| % STEP == 0 && Hashes(group, |h|)
    ensures FIRST <= n <= |h| && n % STEP == 0
    ensures n == |h| || !Clash(group, h, n)
    ensures forall m: nat :: FIRST <= m < n && m % STEP == 0 ==> Clash(group, h, m)
  {
    n := FIRST;
    while n < |h| && Clash(group, h, n)
      invariant FIRST <= n <= |h| && n % STEP == 0
      invariant forall m: nat :: FIRST <= m < n && m % STEP == 0 ==> Clash(group, h, m)
    {
      n := n + STEP;
    }
  }

  /** One id per hash, in order: the shortest of its even-width prefixes, from six
      digits on, that no other hash shares. Equal hashes get equal ids; the ids of different
      hashes are different and neither is a prefix of the other. */
  method Ids(hashes: seq<string>, length: nat) returns (ids: seq<string>)
    requires length >= FIRST && length % STEP == 0 && forall i :: 0 <= i < |hashes| ==> |hashes[i]| == length
    ensures |ids| == |hashes|
    ensures forall i :: 0 <= i < |ids| ==> Widest((set h | h in hashes), hashes[i], length, ids[i])
    ensures forall i :: 0 <= i < |ids| ==> ids[i] <= hashes[i] && FIRST <= |ids[i]|
    ensures forall i, j :: 0 <= i < |ids| && 0 <= j < |ids| && hashes[i] == hashes[j] ==> ids[i] == ids[j]
    ensures forall i, j :: 0 <= i < |ids| && 0 <= j < |ids| && hashes[i] != hashes[j] ==> !(ids[i] <= ids[j])
  {
    var hs := set h | h in hashes;
    var byPrefix := GroupByPrefix(hashes, length);
    ids := [];
    for i := 0 to |hashes|
      invariant |ids| == i
      invariant forall j :: 0 <= j < i ==> Widest(hs, hashes[j], length, ids[j])
    {
      var h := hashes[i];
      var n := Widen(byPrefix[h[..FIRST]], h);
      GroupSuffices(hs, h, n);
      forall m: nat | FIRST <= m < n && m % STEP == 0 ensures Clash(hs, h, m) { GroupSuffices(hs, h, m); }
      ids := ids + [h[..n]];
    }
    forall i, j | 0 <= i < |ids| && 0 <= j < |ids|
      ensures hashes[i] == hashes[j] ==> ids[i] == ids[j]
      ensures hashes[i] != hashes[j] ==> !(ids[i] <= ids[j])
    {
      if hashes[i] == hashes[j] {
        WidestUnique(hs, hashes[i], length, ids[i], ids[j]);
      } else {
        PrefixFree(hs, hashes[i], hashes[j], length, ids[i], ids[j]);
      }
    }
  }

  method GroupByPrefix(hashes: seq<string>, length: nat) returns (groups: map<string, set<string>>)
    requires length >= FIRST && forall i :: 0 <= i < |hashes| ==> |hashes[i]| == length
    ensures forall h :: h in hashes ==> h[..FIRST] in groups && groups[h[..FIRST]] == Group((set x | x in hashes), h)
  {
    groups := map[];
    for i := 0 to |hashes|
      invariant forall p, h :: p in groups && h in groups[p] ==> h in hashes[..i] && h[..FIRST] == p
      invariant forall h :: h in hashes[..i] ==> h[..FIRST] in groups && h in groups[h[..FIRST]]
    {
      var p := hashes[i][..FIRST];
      groups := groups[p := (if p in groups then groups[p] else {}) + {hashes[i]}];
      assert hashes[..i + 1] == hashes[..i] + [hashes[i]];
    }
    assert hashes[..|hashes|] == hashes;
  }

  /** The id is the shortest even-width prefix that no other hash shares. */
  ghost predicate Widest(hs: set<string>, h: string, length: nat, id: string)
  {
    && h in hs && Hashes(hs, length) && FIRST <= |id| <= length && |id| % STEP == 0 && id == h[..|id|]
    && (|id| == length || !Clash(hs, h, |id|))
    && forall m: nat :: FIRST <= m < |id| && m % STEP == 0 ==> Clash(hs, h, m)
  }

  /** Only hashes of the same group can clash. */
  lemma GroupSuffices(hs: set<string>, h: string, n: nat)
    requires FIRST <= n <= |h| && Hashes(hs, |h|)
    ensures Clash(Group(hs, h), h, n) <==> Clash(hs, h, n)
  {
    forall other | other in hs && other[..n] == h[..n] ensures other[..FIRST] == h[..FIRST] {
      assert other[..n][..FIRST] == other[..FIRST];
      assert h[..n][..FIRST] == h[..FIRST];
    }
  }

  lemma WidestUnique(hs: set<string>, h: string, length: nat, a: string, b: string)
    requires Widest(hs, h, length, a) && Widest(hs, h, length, b)
    ensures a == b
  {
    assert !(|a| < |b|) && !(|b| < |a|);
  }

  lemma PrefixFree(hs: set<string>, g: string, h: string, length: nat, a: string, b: string)
    requires Widest(hs, g, length, a) && Widest(hs, h, length, b) && g != h
    ensures !(a <= b)
  {
    PrefixOfPrefix(a, b, h);
    assert g == g[..length] && h == h[..length];
  }

  lemma PrefixOfPrefix(a: string, b: string, h: string)
    requires b <= h
    ensures a <= b ==> a <= h && a == h[..|a|]
  {
    assert a <= b ==> b == a + b[|a|..];
  }

  // -------------------------------------------------------------- row keys

  function VerbText(v: RowVerb): string {
    match v
    case OnCreate => "create"
    case OnReassign => "reassign"
    case OnScoped(x) =>
      match x
      case Create => "create"
      case Read => "read"
      case Update => "update"
      case Delete => "delete"
  }

  function CaseText(c: Case): string {
    match c
    case NoCase => "-"
    case Own => "own"
    case Other => "other"
    case OwnTeamed => "own-teamed"
    case OwnTeamless => "own-teamless"
    case Teammate => "teammate"
    case Outsider => "outsider"
  }

  function TargetText(t: Target): string {
    match t
    case NoTarget => "-"
    case AnyTarget => "any"
    case TargetTeammate => "target-teammate"
    case TargetOutsider => "target-outsider"
  }

  /** oracleRow.key: the case, never the verdict. */
  function Key(row: Row): string {
    VerbText(row.verb) + "|" + row.role + "|" + CaseText(row.ownerCase) + "|" + TargetText(row.target)
  }

  /** The text that is hashed, for one row. */
  lemma KeyExample(role: string)
    ensures Key(Row(OnReassign, role, Outsider, TargetTeammate, Allow)) == "reassign|" + role + "|outsider|target-teammate"
  {
    assert "reassign" + "|" == "reassign|" && "|" + "outsider" + "|" + "target-teammate" == "|outsider|target-teammate";
  }

  /** A key determines its verb, role, case and target, even for role names that
      contain the separator. */
  lemma KeyInjective(r: Row, s: Row)
    requires Key(r) == Key(s)
    ensures VerbText(r.verb) == VerbText(s.verb) && r.role == s.role
    ensures CaseText(r.ownerCase) == CaseText(s.ownerCase) && TargetText(r.target) == TargetText(s.target)
  {
    var r1, s1 := VerbText(r.verb) + "|" + r.role, VerbText(s.verb) + "|" + s.role;
    var r2, s2 := r1 + "|" + CaseText(r.ownerCase), s1 + "|" + CaseText(s.ownerCase);
    assert Key(r) == r2 + "|" + TargetText(r.target) && Key(s) == s2 + "|" + TargetText(s.target);
    SplitLast(r2, TargetText(r.target), s2, TargetText(s.target));
    SplitLast(r1, CaseText(r.ownerCase), s1, CaseText(s.ownerCase));
    SplitFirst(VerbText(r.verb), r.role, VerbText(s.verb), s.role);
  }

  lemma CaseTextInjective(c: Case, d: Case)
    requires CaseText(c) == CaseText(d)
    ensures c == d
  {
    assert |CaseText(c)| == |CaseText(d)|;
    assert CaseText(c)[0] == CaseText(d)[0];
    if |CaseText(c)| == 8 { assert CaseText(c)[1] == CaseText(d)[1]; }
  }

  lemma TargetTextInjective(a: Target, b: Target)
    requires TargetText(a) == TargetText(b)
    ensures a == b
  {
    assert |TargetText(a)| == |TargetText(b)|;
    assert TargetText(a)[|TargetText(a)| - 1] == TargetText(b)[|TargetText(b)| - 1];
  }

  lemma VerbTextInjective(a: RowVerb, b: RowVerb)
    requires VerbText(a) == VerbText(b) && a != OnScoped(Create) && b != OnScoped(Create)
    ensures a == b
  {
    assert VerbText(a)[|VerbText(a)| - 2] == VerbText(b)[|VerbText(b)| - 2];
  }

  /** Rows of the table with the same key are the same row: a key never carries
      two verdicts. */
  lemma TableKeysDistinct(p: Policy, r: Row, s: Row)
    requires PolicyOk(p) && InTable(p, r) && InTable(p, s) && Key(r) == Key(s)
    ensures r == s
  {
    KeyInjective(r, s);
    CaseTextInjective(r.ownerCase, s.ownerCase);
    TargetTextInjective(r.target, s.target);
    VerbTextInjective(r.verb, s.verb);
  }
}
