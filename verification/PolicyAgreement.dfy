/** The decision table and the emitted predicates mean the same thing, in worlds
    of any size; and the unreachable marks are exact. */
module PolicyAgreement {
  import opened Basics
  import opened PolicyAlgebra
  import opened PolicyCompile

  // ------------------------------------------------- classifying a world

  /** The case of an actor u and a record owner o. */
  function CaseOf(p: Policy, w: World, u: nat, o: nat): Case
    requires u in w.team && o in w.team
  {
    if !p.hasTeam then (if u == o then Own else Other)
    else if u == o then (if SameTeam(w, u, o) then OwnTeamed else OwnTeamless)
    else if SameTeam(w, u, o) then Teammate else Outsider
  }

  function TargetOf(w: World, u: nat, t: nat): Target
    requires u in w.team && t in w.team
  {
    if SameTeam(w, u, t) then TargetTeammate else TargetOutsider
  }

  /** The case says exactly what the scope algebra looks at. */
  lemma CaseExact(p: Policy, w: World, u: nat, o: nat)
    requires PolicyOk(p) && WorldOk(p, w) && u in w.subjects && o in w.subjects
    ensures CaseOf(p, w, u, o) in OwnerCases(p)
    ensures CaseOwn(CaseOf(p, w, u, o)) <==> u == o
    ensures CaseSame(CaseOf(p, w, u, o)) <==> SameTeam(w, u, o)
  {
    if !p.hasTeam { assert w.team[u].None?; }
  }

  /** A role test and a scope condition evaluate like evalScope. */
  lemma BranchMeans(p: Policy, w: World, roles: seq<string>, e: ScopeExpr, x: Var, u: nat, o: nat, t: nat)
    requires WorldOk(p, w) && ExprOk(e, p.hasTeam) && !e.none
    requires u in w.subjects && o in w.subjects && t in w.subjects
    ensures var y := if x.TheOwner? then o else t;
            Eval(Branch(roles, e, x), w, u, o, t) <==> w.role[u] in roles && EvalScope(e, u == y, SameTeam(w, u, y))
  {
    var y := if x.TheOwner? then o else t;
    if !e.all {
      var own := if e.own then [IsActor(x)] else [];
      var team := if e.team then [ActorTeam(x)] else [];
      var ts := own + team;
      assert ts != [];
      assert Eval(Or(ts), w, u, o, t) <==> (e.own && u == y) || (e.team && SameTeam(w, u, y)) by {
        if e.own && u == y { assert Eval(ts[0], w, u, o, t); }
        if e.team && SameTeam(w, u, y) { assert Eval(ts[|ts| - 1], w, u, o, t); }
      }
    }
  }

  lemma {:induction false} OrConcat(a: seq<Formula>, b: seq<Formula>, w: World, u: nat, o: nat, t: nat)
    requires {u, o, t} <= w.role.Keys && w.role.Keys == w.team.Keys
    ensures Eval(Or(a + b), w, u, o, t) <==> Eval(Or(a), w, u, o, t) || Eval(Or(b), w, u, o, t)
  {
    if i :| 0 <= i < |a| && Eval(a[i], w, u, o, t) { assert Eval((a + b)[i], w, u, o, t); }
    if i :| 0 <= i < |b| && Eval(b[i], w, u, o, t) { assert Eval((a + b)[|a| + i], w, u, o, t); }
  }

  /** A disjunction over disjoint role groups picks the role's own entry. */
  lemma {:induction false} BranchesMean(p: Policy, w: World, entries: seq<Entry>, x: Var, u: nat, o: nat, t: nat)
    requires WorldOk(p, w) && EntriesOk(entries, p.roles, p.hasTeam)
    requires u in w.subjects && o in w.subjects && t in w.subjects
    ensures var y := if x.TheOwner? then o else t;
            var e := ScopeFor(entries, w.role[u]);
            Eval(Or(Branches(entries, x)), w, u, o, t) <==> e.Some? && !e.value.none && EvalScope(e.value, u == y, SameTeam(w, u, y))
  {
    if entries != [] {
      var rest := entries[1..];
      assert EntriesOk(rest, p.roles, p.hasTeam) by { assert forall i :: 0 <= i < |rest| ==> rest[i] == entries[i + 1]; }
      BranchesMean(p, w, rest, x, u, o, t);
      var head := if entries[0].expr.none then [] else [Branch(entries[0].roles, entries[0].expr, x)];
      OrConcat(head, Branches(rest, x), w, u, o, t);
      if !entries[0].expr.none {
        BranchMeans(p, w, entries[0].roles, entries[0].expr, x, u, o, t);
        assert Eval(Or(head), w, u, o, t) <==> Eval(head[0], w, u, o, t);
      }
      if w.role[u] in entries[0].roles { NotInRest(entries, w.role[u]); }
    }
  }

  lemma NotInRest(entries: seq<Entry>, role: string)
    requires entries != [] && Disjoint(entries) && role in entries[0].roles
    ensures ScopeFor(entries[1..], role).None?
  {
    ScopeForFound(entries[1..], role);
    assert forall i :: 0 <= i < |entries| - 1 ==> entries[1..][i] == entries[i + 1];
  }

  // ----------------------------------------------- agreement: scoped verbs

  /** pred can<Verb> as evalScope on the role's expression, behind the grant. */
  lemma CanVerbMeans(p: Policy, w: World, v: Verb, u: nat, o: nat)
    requires PolicyOk(p) && WorldOk(p, w) && v in p.scopes && u in w.subjects && o in w.subjects
    ensures var e := ScopeFor(p.scopes[v], w.role[u]);
            Eval(CanVerb(p, v), w, u, o, o)
            <==> (p.grants.None? || Holds(p, v, w.role[u])) && e.Some? && !e.value.none && EvalScope(e.value, u == o, SameTeam(w, u, o))
  {
    BranchesMean(p, w, p.scopes[v], TheOwner, u, o, o);
  }

  lemma ScopedRowUnique(p: Policy, v: Verb, role: string, c: Case)
    requires v in p.scopes && Create !in p.scopes && role in p.roles && c in OwnerCases(p)
    ensures InTable(p, ScopedRow(p, v, role, c))
    ensures forall row :: InTable(p, row) && row.verb == OnScoped(v) && row.role == role && row.ownerCase == c ==> row == ScopedRow(p, v, role, c)
  {
    assert v in SCOPED;
  }

  /** The agreement theorem for read, update and delete: in any admitted world,
      the case of any actor and record has a row, and every row of that case
      allows exactly what the emitted predicate allows. */
  lemma ScopedAgreement(p: Policy, w: World, v: Verb, u: nat, r: nat)
    requires PolicyOk(p) && WorldOk(p, w) && v in p.scopes && u in w.subjects && r in w.records
    ensures var o := w.owner[r];
            var hit := ScopedRow(p, v, w.role[u], CaseOf(p, w, u, o));
            && InTable(p, hit)
            && (forall row :: InTable(p, row) && row.verb == OnScoped(v) && row.role == w.role[u] && row.ownerCase == CaseOf(p, w, u, o) ==> row == hit)
            && hit.expectation == (if Eval(CanVerb(p, v), w, u, o, o) then Allow else Deny)
  {
    var o := w.owner[r];
    CaseExact(p, w, u, o);
    ScopedRowUnique(p, v, w.role[u], CaseOf(p, w, u, o));
    CanVerbMeans(p, w, v, u, o);
    var e := ScopeFor(p.scopes[v], w.role[u]);
    if e.Some? { ScopeForFound(p.scopes[v], w.role[u]); }
  }

  /** create needs no record: its row is the grant. */
  lemma CreateAgreement(p: Policy, w: World, u: nat)
    requires PolicyOk(p) && WorldOk(p, w) && p.grants.Some? && u in w.subjects
    ensures InTable(p, CreateRow(p, w.role[u]))
    ensures CreateRow(p, w.role[u]).expectation == (if Eval(RoleIn(GrantedRoles(p, Create)), w, u, u, u) then Allow else Deny)
  {
  }

  // -------------------------------------------------- agreement: reassign

  lemma ReassignTermsMean(p: Policy, w: World, roles: seq<string>, e: ScopeExpr, anyTarget: set<string>, u: nat, o: nat, t: nat)
    requires WorldOk(p, w) && ExprOk(e, p.hasTeam) && !e.none
    requires u in w.subjects && o in w.subjects && t in w.subjects
    ensures Eval(Or(ReassignTerms(roles, e, anyTarget)), w, u, o, t)
            <==> w.role[u] in roles && EvalScope(e, u == o, SameTeam(w, u, o)) && (w.role[u] in anyTarget || SameTeam(w, u, t))
  {
    var ts := ReassignTerms(roles, e, anyTarget);
    forall i | 0 <= i < |ts|
      ensures Eval(ts[i], w, u, o, t)
              <==> w.role[u] == roles[i] && EvalScope(e, u == o, SameTeam(w, u, o)) && (roles[i] in anyTarget || SameTeam(w, u, t))
    {
      BranchMeans(p, w, [roles[i]], e, TheOwner, u, o, t);
    }
    if w.role[u] in roles {
      var i :| 0 <= i < |roles| && roles[i] == w.role[u];
      assert Eval(ts[i], w, u, o, t) ==> Eval(Or(ts), w, u, o, t);
    }
  }

  lemma {:induction false} ReassignBranchesMean(p: Policy, w: World, entries: seq<Entry>, anyTarget: set<string>, u: nat, o: nat, t: nat)
    requires WorldOk(p, w) && EntriesOk(entries, p.roles, p.hasTeam) && forall i :: 0 <= i < |entries| ==> !entries[i].expr.none
    requires u in w.subjects && o in w.subjects && t in w.subjects
    ensures var e := ScopeFor(entries, w.role[u]);
            Eval(Or(ReassignBranches(entries, anyTarget)), w, u, o, t)
            <==> e.Some? && EvalScope(e.value, u == o, SameTeam(w, u, o)) && (w.role[u] in anyTarget || SameTeam(w, u, t))
  {
    if entries != [] {
      var rest := entries[1..];
      assert EntriesOk(rest, p.roles, p.hasTeam) by { assert forall i :: 0 <= i < |rest| ==> rest[i] == entries[i + 1]; }
      ReassignBranchesMean(p, w, rest, anyTarget, u, o, t);
      OrConcat(ReassignTerms(entries[0].roles, entries[0].expr, anyTarget), ReassignBranches(rest, anyTarget), w, u, o, t);
      ReassignTermsMean(p, w, entries[0].roles, entries[0].expr, anyTarget, u, o, t);
      if w.role[u] in entries[0].roles { NotInRest(entries, w.role[u]); }
    }
  }

  lemma CanReassignMeans(p: Policy, w: World, u: nat, o: nat, t: nat)
    requires PolicyOk(p) && WorldOk(p, w) && p.reassign.Some? && u in w.subjects && o in w.subjects && t in w.subjects
    ensures var e := ScopeFor(p.reassign.value.entries, w.role[u]);
            Eval(CanReassign(p), w, u, o, t)
            <==> e.Some? && EvalScope(e.value, u == o, SameTeam(w, u, o)) && (w.role[u] in p.reassign.value.anyTarget || SameTeam(w, u, t))
  {
    ReassignBranchesMean(p, w, p.reassign.value.entries, p.reassign.value.anyTarget, u, o, t);
  }

  /** A reassign row speaks about target t when it constrains no target, allows
      any, or names t's own case. */
  predicate Speaks(row: Row, target: Target) {
    row.target.NoTarget? || row.target.AnyTarget? || row.target == target
  }

  /** A reassign row of the table about this actor, owner and target. */
  ghost predicate SpokenRow(p: Policy, w: World, u: nat, o: nat, t: nat, row: Row)
    requires {u, o, t} <= w.role.Keys && w.role.Keys == w.team.Keys
  {
    && InTable(p, row) && row.verb.OnReassign? && row.role == w.role[u]
    && row.ownerCase == CaseOf(p, w, u, o) && Speaks(row, TargetOf(w, u, t))
  }

  /** The agreement theorem for reassign: for any actor, record and target there
      is a row that speaks about them, and every such row agrees with
      canReassign. */
  lemma ReassignAgreement(p: Policy, w: World, u: nat, r: nat, t: nat)
    requires PolicyOk(p) && WorldOk(p, w) && p.reassign.Some? && u in w.subjects && r in w.records && t in w.subjects
    ensures var o := w.owner[r];
            && (exists row :: SpokenRow(p, w, u, o, t, row))
            && (forall row :: SpokenRow(p, w, u, o, t, row) ==> row.expectation == (if Eval(CanReassign(p), w, u, o, t) then Allow else Deny))
  {
    var o := w.owner[r];
    var c := CaseOf(p, w, u, o);
    CaseExact(p, w, u, o);
    CanReassignMeans(p, w, u, o, t);
    var e := ScopeFor(p.reassign.value.entries, w.role[u]);
    if e.Some? { ScopeForFound(p.reassign.value.entries, w.role[u]); }
    var rows := ReassignRows(p, w.role[u], c);
    assert rows != [] && InTable(p, rows[0]) && InTable(p, rows[|rows| - 1]);
    assert SpokenRow(p, w, u, o, t, rows[0]) || SpokenRow(p, w, u, o, t, rows[|rows| - 1]);
  }

  // --------------------------------------------------- unreachable marks

  /** Some admitted world has an actor of the role in the case. */
  ghost predicate Realized(p: Policy, role: string, c: Case) {
    exists w, u, o :: WorldOk(p, w) && u in w.subjects && o in w.subjects && w.role[u] == role && CaseOf(p, w, u, o) == c
  }

  /** Three subjects of one role: an actor, an owner in the case to it, and a
      third with no team or the other one. */
  function CaseWorld(role: string, teamless: bool, c: Case): World {
    World({0, 1, 2}, if teamless then {} else {0, 1}, {}, map[0 := role, 1 := role, 2 := role],
          if teamless then map[0 := None, 1 := None, 2 := None] else map[0 := Some(0), 1 := Some(if c.Outsider? then 1 else 0), 2 := Some(1)], map[])
  }

  lemma CaseWorldOk(p: Policy, role: string, c: Case)
    requires PolicyOk(p) && role in p.roles && c in OwnerCases(p)
    requires c.OwnTeamless? ==> !p.memberOne && role !in p.requiredFor
    ensures var w := CaseWorld(role, !p.hasTeam || c.OwnTeamless?, c);
            WorldOk(p, w) && CaseOf(p, w, 0, if CaseOwn(c) then 0 else 1) == c
  {
  }

  /** A row is marked unreachable exactly when an invariant is there to name and
      no world realizes its case. */
  lemma UnreachableExact(p: Policy, role: string, c: Case)
    requires PolicyOk(p) && role in p.roles && c in OwnerCases(p)
    ensures MarkedUnreachable(p, role, c) <==> p.teamInvs != [] && !Realized(p, role, c)
  {
    if MarkedUnreachable(p, role, c) {
      forall w, u, o | WorldOk(p, w) && u in w.subjects && o in w.subjects && w.role[u] == role ensures CaseOf(p, w, u, o) != c {
        assert w.team[u].Some?;
      }
    } else if !(c.OwnTeamless? && (p.memberOne || role in p.requiredFor)) {
      CaseWorldOk(p, role, c);
    }
  }

  /** The verdict of a row, scoped or reassign: unreachable exactly when an
      invariant is there to name and no world realizes the row's case. */
  lemma RowUnreachableExact(p: Policy, row: Row)
    requires PolicyOk(p) && InTable(p, row) && !row.verb.OnCreate?
    ensures row.ownerCase in OwnerCases(p)
    ensures row.expectation.Unreachable? <==> p.teamInvs != [] && !Realized(p, row.role, row.ownerCase)
  {
    UnreachableExact(p, row.role, row.ownerCase);
  }

  /** Some admitted world has an actor, an owner and a target the row is about. */
  ghost predicate Spoken(p: Policy, row: Row) {
    exists w, u, o, t :: WorldOk(p, w) && u in w.subjects && o in w.subjects && t in w.subjects && SpokenRow(p, w, u, o, t, row)
  }

  /** No reassign row is about an impossible target: a row is spoken in some world
      exactly when its owner case is realized, and that is so for every row not
      marked unreachable once an invariant is there to name. */
  lemma SpokenExact(p: Policy, row: Row)
    requires PolicyOk(p) && InTable(p, row) && row.verb.OnReassign?
    ensures Spoken(p, row) <==> Realized(p, row.role, row.ownerCase)
    ensures p.teamInvs != [] ==> (Spoken(p, row) <==> !row.expectation.Unreachable?)
  {
    RowUnreachableExact(p, row);
    if Realized(p, row.role, row.ownerCase) {
      var w, u, o :| WorldOk(p, w) && u in w.subjects && o in w.subjects && w.role[u] == row.role && CaseOf(p, w, u, o) == row.ownerCase;
      assert row.ownerCase.OwnTeamless? ==> w.team[u].None?;
      RowSpeaks(p, row);
    }
  }

  lemma RowSpeaks(p: Policy, row: Row)
    requires PolicyOk(p) && InTable(p, row) && row.verb.OnReassign?
    requires row.ownerCase.OwnTeamless? ==> !p.memberOne && row.role !in p.requiredFor
    ensures Spoken(p, row)
  {
    var c := row.ownerCase;
    var w := CaseWorld(row.role, !p.hasTeam || c.OwnTeamless?, c);
    CaseWorldOk(p, row.role, c);
    assert SpokenRow(p, w, 0, if CaseOwn(c) then 0 else 1, if row.target.TargetTeammate? then 0 else 2, row);
  }
}
