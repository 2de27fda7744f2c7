/** The generated checks decided from the policy: for each check, exactly which
    policies have a counterexample in some world of some size. */
module PolicyDecisions {
  import opened Basics
  import opened PolicyAlgebra
  import opened PolicyCompile
  import opened PolicyAgreement
  import opened PolicySmallModel

  ghost predicate Fails(p: Policy, check: Check) {
    exists w, u, r, t :: Refutes(p, check, w, u, r, t)
  }

  /** Two subjects of one role with these teams, and a record of the first. */
  function Duo(role: string, first: Option<nat>, second: Option<nat>): World {
    World({0, 1}, TeamOf(first) + TeamOf(second), {0}, map[0 := role, 1 := role], map[0 := first, 1 := second], map[0 := 0])
  }

  lemma DuoOk(p: Policy, role: string, first: Option<nat>, second: Option<nat>)
    requires role in p.roles
    requires p.memberOne || role in p.requiredFor ==> first.Some? && second.Some?
    requires !p.hasTeam ==> first.None? && second.None?
    ensures WorldOk(p, Duo(role, first, second))
  {
    var w := Duo(role, first, second);
    forall u | u in w.subjects ensures w.role[u] == role && w.role[u] in p.roles {}
    assert Shaped(p, w);
    assert TeamsOk(p, w);
  }

  // ------------------------------------------------------------- reassigning

  /** A role that may give a record away for good: its authority is limited, and
      it may hand records to anybody, or to teammates while it rests on ownership
      alone. */
  ghost predicate GivesAway(p: Policy, role: string)
    requires p.reassign.Some?
  {
    var e := ScopeFor(p.reassign.value.entries, role);
    role in p.roles && e.Some? && !e.value.all && (role in p.reassign.value.anyTarget || !e.value.team)
  }

  lemma EscapeMeans(p: Policy, w: World, u: nat, o: nat, t: nat)
    requires PolicyOk(p) && WorldOk(p, w) && p.reassign.Some? && u in w.subjects && o in w.subjects && t in w.subjects
    ensures var e := ScopeFor(p.reassign.value.entries, w.role[u]);
            Escapes(p, w, u, o, t) <==>
            && e.Some? && EvalScope(e.value, u == o, SameTeam(w, u, o)) && (w.role[u] in p.reassign.value.anyTarget || SameTeam(w, u, t))
            && !EvalScope(e.value, u == t, SameTeam(w, u, t))
  {
    var entries := p.reassign.value.entries;
    CanReassignMeans(p, w, u, o, t);
    BranchesMean(p, w, entries, TheTarget, u, o, t);
    ScopeForFound(entries, w.role[u]);
  }

  lemma RetainsExact(p: Policy)
    requires PolicyOk(p)
    ensures Fails(p, ReassignRetainsAuthority) <==> p.reassign.Some? && exists role :: GivesAway(p, role)
  {
    if Fails(p, ReassignRetainsAuthority) {
      var w, u, r, t :| Refutes(p, ReassignRetainsAuthority, w, u, r, t);
      EscapeMeans(p, w, u, w.owner[r], t);
      assert GivesAway(p, w.role[u]);
    }
    if p.reassign.Some? && exists role :: GivesAway(p, role) {
      var role :| GivesAway(p, role);
      GivingAway(p, role);
    }
  }

  lemma GivingAway(p: Policy, role: string)
    requires PolicyOk(p) && p.reassign.Some? && GivesAway(p, role)
    ensures Fails(p, ReassignRetainsAuthority)
  {
    ScopeForFound(p.reassign.value.entries, role);
    var first := if p.hasTeam then Some(0) else None;
    var second := if p.hasTeam then Some(if role in p.reassign.value.anyTarget then 1 else 0) else None;
    var w := Duo(role, first, second);
    DuoOk(p, role, first, second);
    EscapeMeans(p, w, 0, 0, 1);
    assert Refutes(p, ReassignRetainsAuthority, w, 0, 0, 1);
  }

  // ---------------------------------------------------------- writing one's own

  /** A role that holds a write it cannot always use on its own record: no scope,
      or one that rests on a team the role can be without. */
  ghost predicate Incapable(p: Policy, role: string, v: Verb) {
    && role in p.roles && v in {Update, Delete} && v in p.scopes && Holds(p, v, role)
    && var e := ScopeFor(p.scopes[v], role);
       e.None? || e.value.none || (!e.value.all && !e.value.own && !p.memberOne && role !in p.requiredFor)
  }

  lemma CapableExact(p: Policy)
    requires PolicyOk(p)
    ensures Fails(p, CapableWritesOwn) <==> exists role, v :: Incapable(p, role, v)
  {
    if Fails(p, CapableWritesOwn) {
      var w, u, r, t :| Refutes(p, CapableWritesOwn, w, u, r, t);
      CannotIncapable(p, w, u, r, t);
    }
    if exists role, v :: Incapable(p, role, v) {
      var role, v :| Incapable(p, role, v);
      IncapableFails(p, role, v);
    }
  }

  lemma WritesAre(v: Verb)
    ensures v in WRITES <==> v in {Update, Delete}
  {
    assert WRITES[0] == Update && WRITES[1] == Delete;
  }

  lemma CannotIncapable(p: Policy, w: World, u: nat, r: nat, t: nat)
    requires PolicyOk(p) && Refutes(p, CapableWritesOwn, w, u, r, t)
    ensures exists role, v :: Incapable(p, role, v)
  {
    var v :| v in WRITES && v in p.scopes && Holds(p, v, w.role[u]) && !Can(p, w, v, u, u);
    WritesAre(v);
    CanVerbMeans(p, w, v, u, u);
    ScopeForFound(p.scopes[v], w.role[u]);
    assert Incapable(p, w.role[u], v);
  }

  lemma IncapableFails(p: Policy, role: string, v: Verb)
    requires PolicyOk(p) && Incapable(p, role, v)
    ensures Fails(p, CapableWritesOwn)
  {
    ScopeForFound(p.scopes[v], role);
    var team := if p.memberOne || role in p.requiredFor then Some(0) else None;
    var w := Duo(role, team, team);
    DuoOk(p, role, team, team);
    CanVerbMeans(p, w, v, 0, 0);
    WritesAre(v);
    assert Refutes(p, CapableWritesOwn, w, 0, 0, 0);
  }

  // --------------------------------------------------------- writing and reading

  /** Two rows of the table about one role and one case that can arise: a write
      that is allowed and a read that is not. */
  ghost predicate BlindWrite(p: Policy, write: Row, read: Row) {
    && InTable(p, write) && InTable(p, read) && write.role == read.role && write.ownerCase == read.ownerCase
    && write.verb in {OnScoped(Update), OnScoped(Delete)} && write.expectation.Allow?
    && read.verb == OnScoped(Read) && read.expectation.Deny?
    && Realized(p, write.role, write.ownerCase)
  }

  /** The table shows every write that cannot be read. */
  lemma WriteReadExact(p: Policy)
    requires PolicyOk(p)
    ensures Fails(p, WriteImpliesRead) <==> exists write, read :: BlindWrite(p, write, read)
  {
    if Fails(p, WriteImpliesRead) {
      var w, u, r, t :| Refutes(p, WriteImpliesRead, w, u, r, t);
      UnreadBlind(p, w, u, r, t);
    }
    if exists write, read :: BlindWrite(p, write, read) {
      var write, read :| BlindWrite(p, write, read);
      BlindFails(p, write, read);
    }
  }

  lemma UnreadBlind(p: Policy, w: World, u: nat, r: nat, t: nat)
    requires PolicyOk(p) && Refutes(p, WriteImpliesRead, w, u, r, t)
    ensures exists write, read :: BlindWrite(p, write, read)
  {
    var v :| v in WRITES && v in p.scopes && Can(p, w, v, u, w.owner[r]);
    WritesAre(v);
    BlindRows(p, w, v, u, r);
  }

  /** A scoped row of the case says what the actor can do. */
  lemma RowCan(p: Policy, w: World, row: Row, u: nat, r: nat)
    requires PolicyOk(p) && WorldOk(p, w) && u in w.subjects && r in w.records
    requires InTable(p, row) && row.verb.OnScoped? && row.role == w.role[u] && row.ownerCase == CaseOf(p, w, u, w.owner[r])
    ensures row.verb.v in p.scopes && (Can(p, w, row.verb.v, u, w.owner[r]) <==> row.expectation.Allow?)
  {
    ScopedAgreement(p, w, row.verb.v, u, r);
  }

  lemma BlindRows(p: Policy, w: World, v: Verb, u: nat, r: nat)
    requires PolicyOk(p) && WorldOk(p, w) && u in w.subjects && r in w.records
    requires v in {Update, Delete} && v in p.scopes && Read in p.scopes && Can(p, w, v, u, w.owner[r]) && !Can(p, w, Read, u, w.owner[r])
    ensures exists write, read :: BlindWrite(p, write, read)
  {
    var o := w.owner[r];
    var c := CaseOf(p, w, u, o);
    ScopedAgreement(p, w, v, u, r);
    ScopedAgreement(p, w, Read, u, r);
    assert Realized(p, w.role[u], c);
    assert BlindWrite(p, ScopedRow(p, v, w.role[u], c), ScopedRow(p, Read, w.role[u], c));
  }

  /** Whoever is in a world may own a record there. */
  lemma OwnedOk(p: Policy, w: World, u: nat, o: nat)
    requires WorldOk(p, w) && u in w.subjects && o in w.subjects
    ensures var s := w.(records := {0}, owner := map[0 := o]);
            WorldOk(p, s) && CaseOf(p, s, u, o) == CaseOf(p, w, u, o)
  {
    var s := w.(records := {0}, owner := map[0 := o]);
    assert Shaped(p, s);
    assert TeamsOk(p, s);
  }

  lemma BlindFails(p: Policy, write: Row, read: Row)
    requires PolicyOk(p) && BlindWrite(p, write, read)
    ensures Fails(p, WriteImpliesRead)
  {
    var w, u, o :| WorldOk(p, w) && u in w.subjects && o in w.subjects && w.role[u] == write.role && CaseOf(p, w, u, o) == write.ownerCase;
    var s := w.(records := {0}, owner := map[0 := o]);
    OwnedOk(p, w, u, o);
    RowCan(p, s, write, u, 0);
    RowCan(p, s, read, u, 0);
    UnreadFails(p, s, write.verb.v, u, 0);
  }

  lemma UnreadFails(p: Policy, w: World, v: Verb, u: nat, r: nat)
    requires WorldOk(p, w) && u in w.subjects && r in w.records && v in {Update, Delete} && v in p.scopes && Read in p.scopes
    requires Can(p, w, v, u, w.owner[r]) && !Can(p, w, Read, u, w.owner[r])
    ensures Fails(p, WriteImpliesRead)
  {
    WritesAre(v);
    assert Refutes(p, WriteImpliesRead, w, u, r, u);
  }

  /** So the bounded searches decide the policy: at any bound of at least two a
      check fails exactly when the policy has the flaw. */
  lemma ChecksDecide(p: Policy, n: nat)
    requires PolicyOk(p) && n >= 2
    ensures Refuted(p, WriteImpliesRead, n) <==> exists write, read :: BlindWrite(p, write, read)
    ensures Refuted(p, CapableWritesOwn, n) <==> exists role, v :: Incapable(p, role, v)
    ensures Refuted(p, ReassignRetainsAuthority, n) <==> p.reassign.Some? && exists role :: GivesAway(p, role)
  {
    BoundIsEnough(p, WriteImpliesRead, n);
    BoundIsEnough(p, CapableWritesOwn, n);
    BoundIsEnough(p, ReassignRetainsAuthority, n);
    WriteReadExact(p);
    CapableExact(p);
    RetainsExact(p);
  }
}
