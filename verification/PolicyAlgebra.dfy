/** The policy annotation after reconciliation, its scope algebra, and the
    relational worlds that the emitted Alloy model admits. */
module PolicyAlgebra {
  import opened Basics

  datatype Verb = Create | Read | Update | Delete

  /** all | none | a union of own and team. */
  datatype ScopeExpr = ScopeExpr(all: bool, none: bool, own: bool, team: bool)

  datatype Entry = Entry(roles: seq<string>, expr: ScopeExpr)

  datatype Reassign = Reassign(entries: seq<Entry>, anyTarget: set<string>)

  datatype Policy = Policy(
    roles: seq<string>,
    hasTeam: bool, memberOne: bool, requiredFor: seq<string>, teamInvs: seq<string>,
    grants: Option<map<string, seq<Verb>>>,
    scopes: map<Verb, seq<Entry>>,
    reassign: Option<Reassign>)

  // ------------------------------------------------------------- scope terms

  predicate TermFine(t: string, hasTeam: bool) {
    t == "own" || (t == "team" && hasTeam)
  }

  predicate TermsFine(terms: seq<string>, hasTeam: bool) {
    || terms == ["all"] || terms == ["none"]
    || (terms != [] && forall i :: 0 <= i < |terms| ==> TermFine(terms[i], hasTeam))
  }

  /** What one term admits, for an actor that owns the record or shares a team
      with its owner. */
  predicate TermHolds(t: string, own: bool, same: bool) {
    t == "all" || (t == "own" && own) || (t == "team" && same)
  }

  /** evalScope. */
  predicate EvalScope(e: ScopeExpr, own: bool, same: bool) {
    if e.all then true else if e.none then false else (e.own && own) || (e.team && same)
  }

  predicate ExprOk(e: ScopeExpr, hasTeam: bool) {
    && (e.all ==> !e.none && !e.own && !e.team)
    && (e.none ==> !e.own && !e.team)
    && (!e.all && !e.none ==> e.own || e.team)
    && (e.team ==> hasTeam)
  }

  /** parseScopeExpr on trimmed terms: it accepts exactly the algebra, and the
      parsed expression admits what some term admits. */
  method ParseScopeExpr(terms: seq<string>, hasTeam: bool) returns (r: Option<ScopeExpr>)
    ensures r.Some? <==> TermsFine(terms, hasTeam)
    ensures r.Some? ==> ExprOk(r.value, hasTeam)
    ensures r.Some? ==> forall own, same ::
              EvalScope(r.value, own, same) <==> exists i :: 0 <= i < |terms| && TermHolds(terms[i], own, same)
  {
    if |terms| == 1 && (terms[0] == "all" || terms[0] == "none") {
      return Some(ScopeExpr(terms[0] == "all", terms[0] == "none", false, false));
    }
    if terms == [] { return None; }
    var e := ScopeExpr(false, false, false, false);
    for i := 0 to |terms|
      invariant !e.all && !e.none && (e.team ==> hasTeam) && (i > 0 ==> e.own || e.team)
      invariant forall j :: 0 <= j < i ==> TermFine(terms[j], hasTeam)
      invariant e.own <==> exists j :: 0 <= j < i && terms[j] == "own"
      invariant e.team <==> exists j :: 0 <= j < i && terms[j] == "team"
    {
      if !TermFine(terms[i], hasTeam) { return None; }
      if terms[i] == "own" {
        e := e.(own := true);
      } else {
        e := e.(team := true);
      }
    }
    r := Some(e);
  }

  // ---------------------------------------------------------- scope maps

  /** scopeFor: the expression of the first entry that names the role. */
  function ScopeFor(entries: seq<Entry>, role: string): (r: Option<ScopeExpr>) {
    if entries == [] then None
    else if role in entries[0].roles then Some(entries[0].expr)
    else ScopeFor(entries[1..], role)
  }

  ghost predicate Disjoint(entries: seq<Entry>) {
    forall i, j, s :: 0 <= i < j < |entries| && s in entries[i].roles ==> s !in entries[j].roles
  }

  ghost predicate EntriesOk(entries: seq<Entry>, roles: seq<string>, hasTeam: bool) {
    && Disjoint(entries)
    && forall i :: 0 <= i < |entries| ==> ExprOk(entries[i].expr, hasTeam) && forall s :: s in entries[i].roles ==> s in roles
  }

  lemma {:induction false} ScopeForEntry(entries: seq<Entry>, role: string, i: nat)
    requires Disjoint(entries) && i < |entries| && role in entries[i].roles
    ensures ScopeFor(entries, role) == Some(entries[i].expr)
  {
    if i > 0 {
      ScopeForEntry(entries[1..], role, i - 1);
    }
  }

  lemma {:induction false} ScopeForFound(entries: seq<Entry>, role: string)
    ensures ScopeFor(entries, role).Some? ==>
              exists i :: 0 <= i < |entries| && role in entries[i].roles && ScopeFor(entries, role) == Some(entries[i].expr)
    ensures ScopeFor(entries, role).None? ==> forall i :: 0 <= i < |entries| ==> role !in entries[i].roles
  {
    if entries != [] && role !in entries[0].roles {
      ScopeForFound(entries[1..], role);
      if ScopeFor(entries, role).Some? {
        var i :| 0 <= i < |entries[1..]| && role in entries[1..][i].roles && ScopeFor(entries, role) == Some(entries[1..][i].expr);
        assert entries[i + 1] == entries[1..][i];
      }
      forall i | 0 <= i < |entries| && ScopeFor(entries, role).None? ensures role !in entries[i].roles {
        if i > 0 { assert entries[i] == entries[1..][i - 1]; }
      }
    }
  }

  /** One key of the annotation's scope map. */
  datatype RawEntry = RawEntry(key: string, expr: ScopeExpr)

  predicate RawOk(raw: seq<RawEntry>, roles: seq<string>) {
    raw != [] && KeysOk(raw, roles, exists s :: s in roles && !Named(raw, s))
  }

  const STAR := "*"

  /** A key names its role; the wildcard names none, not even a role called "*". */
  predicate Named(raw: seq<RawEntry>, role: string) {
    role != STAR && exists i :: 0 <= i < |raw| && raw[i].key == role
  }

  /** The expression of a role: its own key, else the wildcard's. */
  ghost predicate MeansFor(raw: seq<RawEntry>, role: string, e: ScopeExpr) {
    exists i :: 0 <= i < |raw| && raw[i].expr == e && if raw[i].key == STAR then !Named(raw, role) else raw[i].key == role
  }

  /** parseScopeMap: the wildcard stands for exactly the roles nobody named, so
      the entries are disjoint and every role gets its own key's expression,
      else the wildcard's, else nothing. */
  method ParseScopeMap(raw: seq<RawEntry>, roles: seq<string>, hasTeam: bool) returns (ok: bool, entries: seq<Entry>)
    requires forall i :: 0 <= i < |raw| ==> ExprOk(raw[i].expr, hasTeam)
    ensures ok <==> RawOk(raw, roles)
    ensures ok ==> EntriesOk(entries, roles, hasTeam) && |entries| == |raw|
    ensures ok ==> forall i :: 0 <= i < |entries| ==> entries[i].roles != [] && entries[i].expr == raw[i].expr
    ensures ok ==> forall s, e :: s in roles ==> (ScopeFor(entries, s) == Some(e) <==> MeansFor(raw, s, e))
  {
    entries := [];
    if raw == [] { return false, entries; }
    var rest := UnnamedRoles(raw, roles);
    assert rest != [] <==> exists s :: s in roles && !Named(raw, s) by {
      if rest != [] { assert rest[0] in rest; }
    }
    ok, entries := ExpandEntries(raw, roles, rest);
    if ok { MapMeaning(raw, roles, rest, entries, hasTeam); }
  }

  predicate KeysOk(raw: seq<RawEntry>, roles: seq<string>, starOk: bool) {
    && (forall i :: 0 <= i < |raw| ==> if raw[i].key == STAR then starOk else raw[i].key in roles)
    && (forall i, j :: 0 <= i < j < |raw| ==> raw[i].key != raw[j].key)
  }

  method ExpandEntries(raw: seq<RawEntry>, roles: seq<string>, rest: seq<string>) returns (ok: bool, entries: seq<Entry>)
    ensures ok <==> KeysOk(raw, roles, rest != [])
    ensures ok ==> |entries| == |raw| && forall i :: 0 <= i < |raw| ==> entries[i] == Expanded(raw[i], rest)
  {
    entries := [];
    var seen: set<string> := {};
    for i := 0 to |raw|
      invariant |entries| == i
      invariant forall j :: 0 <= j < i ==> entries[j] == Expanded(raw[j], rest)
      invariant forall s :: s in seen <==> exists j :: 0 <= j < i && raw[j].key == s
      invariant KeysOk(raw[..i], roles, rest != [])
    {
      if raw[i].key in seen { return false, entries; }
      if raw[i].key == STAR && rest == [] { return false, entries; }
      if raw[i].key != STAR && raw[i].key !in roles { return false, entries; }
      seen := seen + {raw[i].key};
      entries := entries + [Expanded(raw[i], rest)];
      assert raw[..i + 1] == raw[..i] + [raw[i]];
    }
    assert raw[..|raw|] == raw;
    ok := true;
  }

  function Expanded(raw: RawEntry, rest: seq<string>): Entry {
    Entry(if raw.key == STAR then rest else [raw.key], raw.expr)
  }

  method UnnamedRoles(raw: seq<RawEntry>, roles: seq<string>) returns (rest: seq<string>)
    ensures forall s :: s in rest <==> s in roles && !Named(raw, s)
  {
    rest := [];
    for k := 0 to |roles|
      invariant forall s :: s in rest <==> s in roles[..k] && !Named(raw, s)
    {
      if !Named(raw, roles[k]) { rest := rest + [roles[k]]; }
    }
    assert roles[..|roles|] == roles;
  }

  lemma {:induction false} MapMeaning(raw: seq<RawEntry>, roles: seq<string>, rest: seq<string>, entries: seq<Entry>, hasTeam: bool)
    requires |entries| == |raw|
    requires forall s :: s in rest <==> s in roles && !Named(raw, s)
    requires KeysOk(raw, roles, rest != [])
    requires forall j :: 0 <= j < |raw| ==> entries[j] == Expanded(raw[j], rest) && ExprOk(raw[j].expr, hasTeam)
    ensures EntriesOk(entries, roles, hasTeam)
    ensures forall s, e :: s in roles ==> (ScopeFor(entries, s) == Some(e) <==> MeansFor(raw, s, e))
  {
    forall i, j, s | 0 <= i < j < |entries| && s in entries[i].roles ensures s !in entries[j].roles {
      assert entries[i] == Expanded(raw[i], rest) && entries[j] == Expanded(raw[j], rest);
    }
    forall s, e | s in roles ensures ScopeFor(entries, s) == Some(e) <==> MeansFor(raw, s, e) {
      ScopeForFound(entries, s);
      if MeansFor(raw, s, e) {
        var i :| 0 <= i < |raw| && raw[i].expr == e && if raw[i].key == STAR then !Named(raw, s) else raw[i].key == s;
        assert s in Expanded(raw[i], rest).roles;
        ScopeForEntry(entries, s, i);
      }
      if ScopeFor(entries, s) == Some(e) {
        var i :| 0 <= i < |entries| && s in entries[i].roles && ScopeFor(entries, s) == Some(entries[i].expr);
        assert entries[i] == Expanded(raw[i], rest);
      }
    }
  }

  // ------------------------------------------------------------ rolesWith

  /** rolesWith as a predicate: the role holds the verb. */
  predicate Holds(p: Policy, v: Verb, role: string) {
    if p.grants.Some? then role in p.grants.value && v in p.grants.value[role]
    else v in p.scopes && role in p.roles && ScopeFor(p.scopes[v], role).Some? && !ScopeFor(p.scopes[v], role).value.none
  }

  const SCOPED: seq<Verb> := [Read, Update, Delete]

  /** A reconciled annotation. */
  ghost predicate PolicyOk(p: Policy) {
    && p.roles != []
    && (!p.hasTeam ==> !p.memberOne && p.requiredFor == [] && p.teamInvs == [])
    && (forall s :: s in p.requiredFor ==> s in p.roles)
    && Create !in p.scopes
    && (forall v :: v in p.scopes ==> EntriesOk(p.scopes[v], p.roles, p.hasTeam))
    && (forall v :: v in p.scopes ==> exists i :: 0 <= i < |p.scopes[v]| && !p.scopes[v][i].expr.none)
    && (p.grants.Some? ==> forall s :: s in p.grants.value ==> s in p.roles)
    && (p.grants.Some? ==> forall v :: v in SCOPED ==> (v in p.scopes <==> exists s :: s in p.roles && Holds(p, v, s)))
    && (p.reassign.Some? ==> EntriesOk(p.reassign.value.entries, p.roles, p.hasTeam))
    && (p.reassign.Some? ==> forall i :: 0 <= i < |p.reassign.value.entries| ==> !p.reassign.value.entries[i].expr.none)
    && (p.reassign.Some? ==> forall s :: s in p.roles && ScopeFor(p.reassign.value.entries, s).Some? && !p.hasTeam
                                         ==> s in p.reassign.value.anyTarget)
  }

  // ---------------------------------------------------------------- worlds

  datatype World = World(
    subjects: set<nat>, teams: set<nat>, records: set<nat>,
    role: map<nat, string>, team: map<nat, Option<nat>>, owner: map<nat, nat>)

  /** The signatures: one role a subject, one owner a record. */
  ghost predicate Shaped(p: Policy, w: World) {
    && w.role.Keys == w.subjects && w.team.Keys == w.subjects && w.owner.Keys == w.records
    && (forall u :: u in w.subjects ==> w.role[u] in p.roles)
    && (forall r :: r in w.records ==> w.owner[r] in w.subjects)
  }

  /** The team field's multiplicity and the RequiredTeams fact. */
  ghost predicate TeamsOk(p: Policy, w: World)
    requires w.role.Keys == w.subjects && w.team.Keys == w.subjects
  {
    && (forall u :: u in w.subjects && w.team[u].Some? ==> w.team[u].value in w.teams)
    && (forall u :: u in w.subjects && (p.memberOne || w.role[u] in p.requiredFor) ==> w.team[u].Some?)
    && (!p.hasTeam ==> w.teams == {})
  }

  ghost predicate WorldOk(p: Policy, w: World) {
    Shaped(p, w) && TeamsOk(p, w)
  }

  /** pred sameTeam: some a.team and a.team = b.team. */
  predicate SameTeam(w: World, a: nat, b: nat)
    requires a in w.team && b in w.team
  {
    w.team[a].Some? && w.team[a] == w.team[b]
  }
}
