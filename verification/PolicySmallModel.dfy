/** The verdicts of the generated policy checks do not depend on the search
    bound: a counterexample in a world of any size shrinks to two subjects, two
    teams and one record, and the runs are satisfiable as soon as the bound
    covers the roles. */
module PolicySmallModel {
  import opened Basics
  import opened PolicyAlgebra
  import opened PolicyCompile
  import opened PolicyAgreement

  // ------------------------------------------------------------ the checks

  ghost predicate Can(p: Policy, w: World, v: Verb, u: nat, o: nat)
    requires v in p.scopes && {u, o} <= w.role.Keys && w.role.Keys == w.team.Keys
  {
    Eval(CanVerb(p, v), w, u, o, o)
  }

  const WRITES: seq<Verb> := [Update, Delete]

  ghost predicate WriteNotRead(p: Policy, w: World, u: nat, o: nat)
    requires {u, o} <= w.role.Keys && w.role.Keys == w.team.Keys
  {
    Read in p.scopes && (exists v :: v in WRITES && v in p.scopes && Can(p, w, v, u, o)) && !Can(p, w, Read, u, o)
  }

  ghost predicate CapableNotOwn(p: Policy, w: World, u: nat, o: nat)
    requires {u, o} <= w.role.Keys && w.role.Keys == w.team.Keys
  {
    u == o && exists v :: v in WRITES && v in p.scopes && Holds(p, v, w.role[u]) && !Can(p, w, v, u, o)
  }

  /** What remains of the actor's reassign authority over a record of t. */
  function AuthorityOver(entries: seq<Entry>): Formula {
    Or(Branches(entries, TheTarget))
  }

  ghost predicate Escapes(p: Policy, w: World, u: nat, o: nat, t: nat)
    requires p.reassign.Some? && {u, o, t} <= w.role.Keys && w.role.Keys == w.team.Keys
  {
    Eval(CanReassign(p), w, u, o, t) && !Eval(AuthorityOver(p.reassign.value.entries), w, u, o, t)
  }

  datatype Check = WriteImpliesRead | CapableWritesOwn | ReassignRetainsAuthority

  /** A counterexample of a check: an actor, a record and a target. */
  ghost predicate Refutes(p: Policy, check: Check, w: World, u: nat, r: nat, t: nat) {
    && WorldOk(p, w) && u in w.subjects && r in w.records && t in w.subjects
    && match check
       case WriteImpliesRead => WriteNotRead(p, w, u, w.owner[r])
       case CapableWritesOwn => CapableNotOwn(p, w, u, w.owner[r])
       case ReassignRetainsAuthority => p.reassign.Some? && Escapes(p, w, u, w.owner[r], t)
  }

  ghost predicate Fits(w: World, subjects: nat, teams: nat, records: nat) {
    |w.subjects| <= subjects && |w.teams| <= teams && |w.records| <= records
  }

  ghost predicate Refuted(p: Policy, check: Check, n: nat) {
    exists w, u, r, t :: Fits(w, n, n, n) && Refutes(p, check, w, u, r, t)
  }

  // --------------------------------------------------------------- shrinking

  /** s is the part of w with two subjects, their teams, and one record. */
  ghost predicate PairOf(w: World, s: World, u: nat, v: nat, o: nat) {
    && u in w.role && v in w.role && u in w.team && v in w.team && o in {u, v}
    && s.subjects == {u, v} && s.role.Keys == {u, v} && s.team.Keys == {u, v}
    && s.role[u] == w.role[u] && s.role[v] == w.role[v] && s.team[u] == w.team[u] && s.team[v] == w.team[v]
    && s.records == {0} && s.owner == map[0 := o]
    && (forall t :: t in s.teams <==> w.team[u] == Some(t) || w.team[v] == Some(t))
  }

  lemma PairExists(w: World, u: nat, v: nat, o: nat) returns (s: World)
    requires u in w.role && v in w.role && u in w.team && v in w.team && o in {u, v}
    ensures PairOf(w, s, u, v, o)
  {
    var subjects := {u, v};
    s := World(subjects, TeamOf(w.team[u]) + TeamOf(w.team[v]), {0},
               map x | x in subjects :: w.role[x], map x | x in subjects :: w.team[x], map[0 := o]);
  }

  function TeamOf(team: Option<nat>): (r: set<nat>)
    ensures |r| <= 1 && forall t :: t in r <==> team == Some(t)
  {
    if team.Some? then {team.value} else {}
  }

  lemma PairOk(p: Policy, w: World, s: World, u: nat, v: nat, o: nat)
    requires WorldOk(p, w) && u in w.subjects && v in w.subjects && PairOf(w, s, u, v, o)
    ensures WorldOk(p, s) && Fits(s, 2, 2, 1)
  {
    PairFits(s.subjects, {u}, {v});
    PairFits(s.teams, TeamOf(w.team[u]), TeamOf(w.team[v]));
    PairTeams(p, w, s, u, v, o);
  }

  lemma PairFits(s: set<nat>, a: set<nat>, b: set<nat>)
    requires |a| <= 1 && |b| <= 1 && forall x :: x in s <==> x in a || x in b
    ensures |s| <= 2
  {
    assert s == a + b;
  }

  lemma PairTeams(p: Policy, w: World, s: World, u: nat, v: nat, o: nat)
    requires WorldOk(p, w) && u in w.subjects && v in w.subjects && PairOf(w, s, u, v, o)
    ensures WorldOk(p, s)
  {
    forall x | x in s.subjects ensures s.role[x] in p.roles { assert x == u || x == v; }
  }

  /** Verb predicates see two subjects only. */
  lemma CanInPair(p: Policy, w: World, s: World, v: Verb, u: nat, o: nat)
    requires PolicyOk(p) && WorldOk(p, w) && v in p.scopes && u in w.subjects && o in w.subjects && PairOf(w, s, u, o, o)
    ensures Can(p, w, v, u, o) == Can(p, s, v, u, o)
  {
    PairOk(p, w, s, u, o, o);
    CanVerbMeans(p, w, v, u, o);
    CanVerbMeans(p, s, v, u, o);
  }

  /** A reassign escape does not need its record owner: whoever owns the record,
      the actor itself could. */
  lemma EscapeInPair(p: Policy, w: World, u: nat, o: nat, t: nat) returns (s: World)
    requires PolicyOk(p) && WorldOk(p, w) && p.reassign.Some? && u in w.subjects && o in w.subjects && t in w.subjects
    requires Escapes(p, w, u, o, t)
    ensures WorldOk(p, s) && Fits(s, 2, 2, 1) && {u, t} <= s.subjects && 0 in s.records && s.owner[0] == u
    ensures Escapes(p, s, u, u, t)
  {
    s := PairExists(w, u, t, u);
    PairOk(p, w, s, u, t, u);
    CanReassignMeans(p, w, u, o, t);
    CanReassignMeans(p, s, u, u, t);
    var entries := p.reassign.value.entries;
    BranchesMean(p, w, entries, TheTarget, u, o, t);
    BranchesMean(p, s, entries, TheTarget, u, u, t);
    ScopeForFound(entries, w.role[u]);
  }

  /** Any counterexample, in a world of any size, yields one with at most two
      subjects, two teams and one record. */
  lemma SmallCounterexample(p: Policy, check: Check, w: World, u: nat, r: nat, t: nat)
    requires PolicyOk(p) && Refutes(p, check, w, u, r, t)
    ensures exists w', u', r', t' :: Fits(w', 2, 2, 1) && Refutes(p, check, w', u', r', t')
  {
    var s;
    if check.ReassignRetainsAuthority? {
      s := EscapeInPair(p, w, u, w.owner[r], t);
      assert Refutes(p, check, s, u, 0, t);
    } else {
      s := PairVerdicts(p, w, u, w.owner[r]);
      Transfer(p, check, w, u, r, t, s);
    }
  }

  ghost predicate SameVerdicts(p: Policy, w: World, s: World, u: nat, o: nat)
    requires {u, o} <= w.role.Keys && w.role.Keys == w.team.Keys && {u, o} <= s.role.Keys && s.role.Keys == s.team.Keys
  {
    w.role[u] == s.role[u] && forall v :: v in p.scopes ==> Can(p, w, v, u, o) == Can(p, s, v, u, o)
  }

  lemma PairVerdicts(p: Policy, w: World, u: nat, o: nat) returns (s: World)
    requires PolicyOk(p) && WorldOk(p, w) && u in w.subjects && o in w.subjects
    ensures WorldOk(p, s) && Fits(s, 2, 2, 1) && {u, o} <= s.subjects && 0 in s.records && s.owner[0] == o
    ensures SameVerdicts(p, w, s, u, o)
  {
    s := PairExists(w, u, o, o);
    PairOk(p, w, s, u, o, o);
    PairAgrees(p, w, s, u, o);
  }

  lemma PairAgrees(p: Policy, w: World, s: World, u: nat, o: nat)
    requires PolicyOk(p) && WorldOk(p, w) && u in w.subjects && o in w.subjects && PairOf(w, s, u, o, o)
    ensures SameVerdicts(p, w, s, u, o)
  {
    forall v | v in p.scopes ensures Can(p, w, v, u, o) == Can(p, s, v, u, o) { CanInPair(p, w, s, v, u, o); }
  }

  lemma Transfer(p: Policy, check: Check, w: World, u: nat, r: nat, t: nat, s: World)
    requires !check.ReassignRetainsAuthority? && Refutes(p, check, w, u, r, t)
    requires WorldOk(p, s) && {u, w.owner[r]} <= s.subjects && 0 in s.records && s.owner[0] == w.owner[r]
    requires SameVerdicts(p, w, s, u, w.owner[r])
    ensures Refutes(p, check, s, u, 0, u)
  {
  }

  /** So a pass at any admitted bound is a pass at every size. */
  lemma BoundIsEnough(p: Policy, check: Check, n: nat)
    requires PolicyOk(p) && n >= 2
    ensures Refuted(p, check, n) <==> exists w, u, r, t :: Refutes(p, check, w, u, r, t)
  {
    if w, u, r, t :| Refutes(p, check, w, u, r, t) {
      SmallCounterexample(p, check, w, u, r, t);
      var w', u', r', t' :| Fits(w', 2, 2, 1) && Refutes(p, check, w', u', r', t');
      assert Fits(w', n, n, n);
    }
  }

  // ------------------------------------------------------------------- runs

  /** One subject per role, all in one team when there is one, and a record. */
  function EveryRole(p: Policy): World {
    var subjects := Below(|p.roles|);
    var team := if p.hasTeam then Some(0) else None;
    World(subjects, if p.hasTeam then {0} else {}, {0},
          map i | i in subjects :: p.roles[i], map i | i in subjects :: team, map[0 := 0])
  }

  ghost predicate SomeWorldRun(p: Policy, w: World) {
    WorldOk(p, w) && w.records != {} && forall s :: s in p.roles ==> exists u :: u in w.subjects && w.role[u] == s
  }

  /** SomeWorld is satisfiable at every bound that covers the roles. */
  lemma SomeWorldSatisfiable(p: Policy)
    requires PolicyOk(p)
    ensures SomeWorldRun(p, EveryRole(p)) && Fits(EveryRole(p), |p.roles|, 1, 1)
  {
    EveryRoleOk(p);
    EveryRoleInhabited(p);
  }

  lemma EveryRoleInhabited(p: Policy)
    ensures forall s :: s in p.roles ==> exists u :: u in EveryRole(p).subjects && EveryRole(p).role[u] == s
  {
    var w := EveryRole(p);
    forall s | s in p.roles ensures exists u :: u in w.subjects && w.role[u] == s {
      var i: nat :| i < |p.roles| && p.roles[i] == s;
      assert i in w.subjects && w.role[i] == s;
    }
  }

  lemma EveryRoleOk(p: Policy)
    requires p.roles != [] && (!p.hasTeam ==> !p.memberOne && p.requiredFor == [])
    ensures WorldOk(p, EveryRole(p)) && Fits(EveryRole(p), |p.roles|, 1, 1)
  {
    var w := EveryRole(p);
    assert w.role.Keys == w.subjects && w.team.Keys == w.subjects && w.owner.Keys == w.records;
    assert 0 in w.subjects;
  }

  /** Possible_<role>_<verb>: a held verb is exercisable exactly when the role
      has a scope for it that is not none; one subject is enough. */
  lemma PossibleExact(p: Policy, role: string, v: Verb)
    requires PolicyOk(p) && role in p.roles && v in p.scopes && Holds(p, v, role)
    ensures var e := ScopeFor(p.scopes[v], role);
            (exists w, u, r :: Exercises(p, w, role, v, u, r)) <==> e.Some? && !e.value.none
    ensures (exists w, u, r :: Exercises(p, w, role, v, u, r))
            ==> Exercises(p, Loner(p, role), role, v, 0, 0) && Fits(Loner(p, role), 1, 1, 1)
  {
    var e := ScopeFor(p.scopes[v], role);
    forall w, u, r | Exercises(p, w, role, v, u, r) ensures e.Some? && !e.value.none {
      CanVerbMeans(p, w, v, u, w.owner[r]);
    }
    if e.Some? && !e.value.none {
      LonerExercises(p, role, v);
    }
  }

  ghost predicate Exercises(p: Policy, w: World, role: string, v: Verb, u: nat, r: nat)
    requires v in p.scopes
  {
    WorldOk(p, w) && u in w.subjects && r in w.records && w.role[u] == role && Can(p, w, v, u, w.owner[r])
  }

  lemma LonerExercises(p: Policy, role: string, v: Verb)
    requires PolicyOk(p) && role in p.roles && v in p.scopes && Holds(p, v, role)
    requires ScopeFor(p.scopes[v], role).Some? && !ScopeFor(p.scopes[v], role).value.none
    ensures Exercises(p, Loner(p, role), role, v, 0, 0) && Fits(Loner(p, role), 1, 1, 1)
  {
    LonerOk(p, role);
    AloneCan(p, Loner(p, role), v, 0);
  }

  /** A subject that owns its record, in a team if there are teams, can use a
      scope that is not none. */
  lemma AloneCan(p: Policy, w: World, v: Verb, u: nat)
    requires PolicyOk(p) && WorldOk(p, w) && v in p.scopes && u in w.subjects && Holds(p, v, w.role[u])
    requires ScopeFor(p.scopes[v], w.role[u]).Some? && !ScopeFor(p.scopes[v], w.role[u]).value.none
    requires p.hasTeam ==> w.team[u].Some?
    ensures Can(p, w, v, u, u)
  {
    ScopeForFound(p.scopes[v], w.role[u]);
    CanVerbMeans(p, w, v, u, u);
  }

  lemma LonerOk(p: Policy, role: string)
    requires role in p.roles && (!p.hasTeam ==> !p.memberOne && p.requiredFor == [])
    ensures WorldOk(p, Loner(p, role)) && Fits(Loner(p, role), 1, 1, 1)
  {
  }

  function Loner(p: Policy, role: string): World {
    var subjects: set<nat> := {0};
    var team := if p.hasTeam then Some(0) else None;
    World(subjects, if p.hasTeam then {0} else {}, {0}, map x | x in subjects :: role, map x | x in subjects :: team, map[0 := 0])
  }
}
