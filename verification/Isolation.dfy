/** The multi-tenant isolation model: every named reference stays inside one
    tenant, so tenancy is constant along chains of references and no referent
    is shared across tenants, in worlds of any size. */
module Isolation {
  import opened Basics

  datatype Card = ManyToOne | OneToOne | OneToMany | ManyToMany

  /** A named reference; lone, exclusive and shareable follow the cardinality. */
  datatype Ref = Ref(from: string, field: string, to: string, card: Card)

  predicate SingleValued(c: Card) { c.ManyToOne? || c.OneToOne? }

  predicate Exclusive(c: Card) { c.OneToOne? || c.OneToMany? }

  datatype Annotation = Annotation(memberOne: bool, records: set<string>, refs: seq<Ref>)

  ghost predicate AnnotationOk(a: Annotation) {
    a.refs != [] && forall i :: 0 <= i < |a.refs| ==> a.refs[i].from in a.records && a.refs[i].to in a.records
  }

  // ------------------------------------------------------------------ worlds

  /** A record is an entity name and an atom. */
  datatype Rec = Rec(entity: string, atom: nat)

  datatype World = World(
    tenants: set<nat>, tenant: map<nat, Option<nat>>,
    owner: map<Rec, nat>, links: seq<set<(Rec, Rec)>>)

  /** pred sameTenant: some a.tenant and a.tenant = b.tenant. */
  predicate SameTenant(w: World, a: nat, b: nat)
    requires a in w.tenant && b in w.tenant
  {
    w.tenant[a].Some? && w.tenant[a] == w.tenant[b]
  }

  ghost predicate OwnersOk(a: Annotation, w: World) {
    && (forall u :: u in w.tenant && w.tenant[u].Some? ==> w.tenant[u].value in w.tenants)
    && (a.memberOne ==> forall u :: u in w.tenant ==> w.tenant[u].Some?)
    && (forall r :: r in w.owner ==> r.entity in a.records && w.owner[r] in w.tenant)
  }

  /** One reference: its field, its Isolation fact stated per element, and its
      Cardinality fact. */
  ghost predicate RefOk(ref: Ref, w: World, links: set<(Rec, Rec)>) {
    && (forall l :: l in links ==> l.0 in w.owner && l.1 in w.owner && l.0.entity == ref.from && l.1.entity == ref.to)
    && (forall l :: l in links && w.owner[l.0] in w.tenant && w.owner[l.1] in w.tenant ==> SameTenant(w, w.owner[l.0], w.owner[l.1]))
    && (SingleValued(ref.card) ==> forall l, m :: l in links && m in links && l.0 == m.0 ==> l.1 == m.1)
    && (Exclusive(ref.card) ==> forall l, m :: l in links && m in links && l.1 == m.1 ==> l.0 == m.0)
  }

  ghost predicate WorldOk(a: Annotation, w: World) {
    && OwnersOk(a, w) && |w.links| == |a.refs|
    && forall i :: 0 <= i < |a.refs| ==> RefOk(a.refs[i], w, w.links[i])
  }

  // ----------------------------------------------------------- transitivity

  ghost predicate Linked(w: World, x: Rec, y: Rec) {
    exists i :: 0 <= i < |w.links| && (x, y) in w.links[i]
  }

  /** A chain of named references, whichever reference each step uses. */
  ghost predicate Chain(w: World, path: seq<Rec>) {
    |path| >= 2 && forall k :: 0 <= k < |path| - 1 ==> Linked(w, path[k], path[k + 1])
  }

  lemma LinkSameTenant(a: Annotation, w: World, x: Rec, y: Rec)
    requires WorldOk(a, w) && Linked(w, x, y)
    ensures x in w.owner && y in w.owner && SameTenant(w, w.owner[x], w.owner[y])
  {
    var i :| 0 <= i < |w.links| && (x, y) in w.links[i];
    assert RefOk(a.refs[i], w, w.links[i]);
  }

  /** All owners along a chain of references share one tenant. */
  lemma {:induction false} ChainOneTenant(a: Annotation, w: World, path: seq<Rec>, j: nat)
    requires WorldOk(a, w) && Chain(w, path) && j < |path|
    ensures forall k :: 0 <= k <= j ==> path[k] in w.owner
    ensures SameTenant(w, w.owner[path[0]], w.owner[path[j]])
  {
    LinkSameTenant(a, w, path[0], path[1]);
    if j > 0 {
      ChainOneTenant(a, w, path, j - 1);
      LinkSameTenant(a, w, path[j - 1], path[j]);
    }
  }

  /** SharedReferent can have no counterexample, at any size: two sources whose
      references overlap in one target are owned in the same tenant. */
  lemma SharedReferent(a: Annotation, w: World, i: nat, x: Rec, y: Rec, target: Rec)
    requires WorldOk(a, w) && i < |a.refs|
    requires (x, target) in w.links[i] && (y, target) in w.links[i]
    ensures SameTenant(w, w.owner[x], w.owner[y])
    ensures a.refs[i].card in {OneToOne, OneToMany} ==> x == y
  {
    assert RefOk(a.refs[i], w, w.links[i]);
    LinkSameTenant(a, w, x, target);
    LinkSameTenant(a, w, y, target);
  }

  /** A record whose owner holds no tenant takes part in no named reference. */
  lemma TeamlessIsUnlinked(a: Annotation, w: World, x: Rec, y: Rec)
    requires WorldOk(a, w) && Linked(w, x, y)
    ensures w.tenant[w.owner[x]].Some? && w.tenant[w.owner[y]].Some?
  {
    LinkSameTenant(a, w, x, y);
  }

  // ------------------------------------------------------------------- runs

  /** Two inhabited tenants and one link of reference i, owned in the first. */
  function TwoTenants(a: Annotation, i: nat): World
    requires i < |a.refs|
  {
    var x, y := Rec(a.refs[i].from, 0), Rec(a.refs[i].to, 1);
    World({0, 1}, map[0 := Some(0), 1 := Some(1)], map[x := 0, y := 0], seq(|a.refs|, j => if j == i then {(x, y)} else {}))
  }

  /** SomeWorld, and Possible for every reference, are satisfiable with two
      tenants, two subjects and at most two records of an entity. */
  lemma EveryReferencePossible(a: Annotation, i: nat)
    requires AnnotationOk(a) && i < |a.refs|
    ensures var w := TwoTenants(a, i);
            && WorldOk(a, w) && w.links[i] != {}
            && w.tenant[0] == Some(0) && w.tenant[1] == Some(1) && |w.tenants| == 2 && |w.tenant| == 2 && |w.owner| == 2
  {
    var w := TwoTenants(a, i);
    var x, y := Rec(a.refs[i].from, 0), Rec(a.refs[i].to, 1);
    assert w.links[i] == {(x, y)};
    assert w.owner.Keys == {x, y} && w.tenant.Keys == {0, 1};
    forall j | 0 <= j < |a.refs| ensures RefOk(a.refs[j], w, w.links[j]) {
      assert w.links[j] == if j == i then {(x, y)} else {};
    }
  }

  // ----------------------------------------------------------------- oracle

  datatype Case = SameTenantCase | CrossTenant | SourceTeamless | TargetTeamless

  const CASES: seq<Case> := [SameTenantCase, CrossTenant, SourceTeamless, TargetTeamless]

  /** The expectation column: only the first case allows the link. */
  predicate Allows(c: Case) { c.SameTenantCase? }

  /** What each case says about the two owners. */
  predicate InCase(w: World, source: nat, target: nat, c: Case)
    requires source in w.tenant && target in w.tenant
  {
    match c
    case SameTenantCase => w.tenant[source].Some? && w.tenant[target].Some? && w.tenant[source] == w.tenant[target]
    case CrossTenant => w.tenant[source].Some? && w.tenant[target].Some? && w.tenant[source] != w.tenant[target]
    case SourceTeamless => w.tenant[source].None?
    case TargetTeamless => w.tenant[target].None?
  }

  /** The four cases cover every pair of owners, and every case that applies,
      also where two overlap, agrees with sameTenant. */
  lemma CasesCoverAndAgree(w: World, source: nat, target: nat)
    requires source in w.tenant && target in w.tenant
    ensures exists c :: c in CASES && InCase(w, source, target, c)
    ensures forall c :: c in CASES && InCase(w, source, target, c) ==> (Allows(c) <==> SameTenant(w, source, target))
  {
    var c := if w.tenant[source].None? then SourceTeamless
             else if w.tenant[target].None? then TargetTeamless
             else if w.tenant[source] == w.tenant[target] then SameTenantCase else CrossTenant;
    assert CASES[0] == SameTenantCase && CASES[1] == CrossTenant && CASES[2] == SourceTeamless && CASES[3] == TargetTeamless;
    assert c in CASES && InCase(w, source, target, c);
  }

  // ------------------------------------------------------------------- keys

  /** The string that the loader's fieldSeen rule keeps distinct. */
  function FieldKey(ref: Ref): (k: string) {
    ref.from + "." + ref.field
  }

  function CaseKey(c: Case): (k: string) {
    match c
    case SameTenantCase => "same-tenant"
    case CrossTenant => "cross-tenant"
    case SourceTeamless => "source-teamless"
    case TargetTeamless => "target-teamless"
  }

  const ARROW := "->"

  function RefKey(ref: Ref): (k: string) {
    FieldKey(ref) + ARROW + ref.to
  }

  function RowKey(ref: Ref, c: Case): (k: string) {
    RefKey(ref) + "|" + CaseKey(c)
  }

  ghost predicate FieldsDistinct(refs: seq<Ref>) {
    forall i, j :: 0 <= i < j < |refs| ==> FieldKey(refs[i]) != FieldKey(refs[j])
  }

  /** An arrow inside a name lets one reference read as the other. */
  ghost predicate Confused(a: Ref, b: Ref) {
    exists w :: FieldKey(b) == FieldKey(a) + ARROW + w && a.to == w + ARROW + b.to
  }

  /** Two texts around an arrow are equal exactly when they have equal parts or
      one continues the other across an arrow. */
  lemma ArrowSplit(a: string, x: string, b: string, y: string) returns (w: string)
    requires a + ARROW + x == b + ARROW + y && |a| < |b|
    ensures b == a + ARROW + w && x == w + ARROW + y
  {
    var s := a + ARROW + x;
    assert s[|a|] == '-' && s[|a| + 1] == '>' && s[|b|] == '-' && s[|b| + 1] == '>';
    assert |b| >= |a| + 2;
    w := b[|a| + 2..];
    assert s[..|b|] == b && s[..|a|] == a;
    assert b[..|a| + 2] == s[..|a| + 2] == a + ARROW;
    assert s[|a| + 2..] == x;
    assert s == b + ARROW + y;
    assert s[|a| + 2..] == w + ARROW + y;
  }

  lemma ConfusedShares(a: Ref, b: Ref)
    requires Confused(a, b)
    ensures RefKey(a) == RefKey(b)
  {
    var w :| FieldKey(b) == FieldKey(a) + ARROW + w && a.to == w + ARROW + b.to;
    assert FieldKey(a) + ARROW + (w + ARROW + b.to) == FieldKey(a) + ARROW + w + ARROW + b.to;
  }

  /** Keys of different references are distinct exactly when none is confused
      with another. */
  lemma RefKeysExact(a: Ref, b: Ref)
    requires FieldKey(a) != FieldKey(b)
    ensures RefKey(a) == RefKey(b) <==> Confused(a, b) || Confused(b, a)
  {
    var x, y := FieldKey(a), FieldKey(b);
    assert RefKey(a)[..|x|] == x && RefKey(b)[..|y|] == y;
    if RefKey(a) == RefKey(b) {
      if |x| < |y| {
        var w := ArrowSplit(x, a.to, y, b.to);
      } else if |y| < |x| {
        var w := ArrowSplit(y, b.to, x, a.to);
      }
    }
    if Confused(a, b) { ConfusedShares(a, b); }
    if Confused(b, a) { ConfusedShares(b, a); }
  }

  /** The rows of the table have distinct keys exactly when no two references
      are confused; entity names without an arrow never are. */
  lemma RowKeysExact(refs: seq<Ref>)
    requires FieldsDistinct(refs)
    ensures (forall i, j, c, d :: 0 <= i < |refs| && 0 <= j < |refs| && RowKey(refs[i], c) == RowKey(refs[j], d) ==> i == j && c == d)
            <==> (forall i, j :: 0 <= i < |refs| && 0 <= j < |refs| && i != j ==> !Confused(refs[i], refs[j]))
  {
    forall i, j, c, d | 0 <= i < |refs| && 0 <= j < |refs| && RowKey(refs[i], c) == RowKey(refs[j], d)
      ensures c == d && RefKey(refs[i]) == RefKey(refs[j])
    {
      RowKeyParts(refs[i], c, refs[j], d);
    }
    forall i, j | 0 <= i < |refs| && 0 <= j < |refs| && i != j
      ensures RefKey(refs[i]) == RefKey(refs[j]) <==> Confused(refs[i], refs[j]) || Confused(refs[j], refs[i])
    {
      assert FieldKey(refs[i]) != FieldKey(refs[j]);
      RefKeysExact(refs[i], refs[j]);
    }
    forall i, j | 0 <= i < |refs| && 0 <= j < |refs| && i != j && Confused(refs[i], refs[j])
      ensures RowKey(refs[i], CrossTenant) == RowKey(refs[j], CrossTenant)
    {
      ConfusedShares(refs[i], refs[j]);
    }
  }

  lemma RowKeyParts(a: Ref, c: Case, b: Ref, d: Case)
    requires RowKey(a, c) == RowKey(b, d)
    ensures c == d && RefKey(a) == RefKey(b)
  {
    SplitLast(RefKey(a), CaseKey(c), RefKey(b), CaseKey(d));
    assert |CaseKey(c)| == |CaseKey(d)| && CaseKey(c)[0] == CaseKey(d)[0];
  }

  /** Two references whose rows share their keys. */
  lemma ConfusedExample()
    ensures var a, b := Ref("A", "f", "B->C", ManyToOne), Ref("A", "f->B", "C", ManyToOne);
            FieldsDistinct([a, b]) && Confused(a, b) && RowKey(a, CrossTenant) == RowKey(b, CrossTenant)
  {
    var a, b := Ref("A", "f", "B->C", ManyToOne), Ref("A", "f->B", "C", ManyToOne);
    assert FieldKey(b) == FieldKey(a) + ARROW + "B" && a.to == "B" + ARROW + b.to;
    assert |FieldKey(a)| != |FieldKey(b)|;
    ConfusedShares(a, b);
  }

  /** The table is the semantics: adding one link that the cardinality has room
      for keeps an admitted world admitted exactly when its case allows it. */
  lemma OracleDecidesLinks(a: Annotation, w: World, i: nat, x: Rec, y: Rec, c: Case)
    requires WorldOk(a, w) && i < |a.refs|
    requires SingleValued(a.refs[i].card) ==> forall l :: l in w.links[i] ==> l.0 != x
    requires Exclusive(a.refs[i].card) ==> forall l :: l in w.links[i] ==> l.1 != y
    requires x in w.owner && y in w.owner && x.entity == a.refs[i].from && y.entity == a.refs[i].to
    requires InCase(w, w.owner[x], w.owner[y], c)
    ensures WorldOk(a, w.(links := w.links[i := w.links[i] + {(x, y)}])) <==> Allows(c)
  {
    var links := w.links[i] + {(x, y)};
    var w' := w.(links := w.links[i := links]);
    CasesCoverAndAgree(w, w.owner[x], w.owner[y]);
    assert RefOk(a.refs[i], w, w.links[i]);
    assert (x, y) in w'.links[i];
    if Allows(c) {
      forall j | 0 <= j < |a.refs| ensures RefOk(a.refs[j], w', w'.links[j]) {
        assert RefOk(a.refs[j], w, w.links[j]);
      }
    } else if WorldOk(a, w') {
      assert Linked(w', x, y);
      LinkSameTenant(a, w', x, y);
      assert false;
    }
  }
}
