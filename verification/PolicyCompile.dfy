/** The two compiled forms of a policy: the emitted Alloy predicates as
    formulas, and the authorization oracle as a decision table. They agree on
    every world of any size. */
module PolicyCompile {
  import opened Basics
  import opened PolicyAlgebra

  // ------------------------------------------------------- emitted formulas

  datatype Var = TheOwner | TheTarget

  /** The fragment of Alloy that emit produces, about an actor u, the owner of a
      record and a reassign target. */
  datatype Formula =
    | RoleIn(roles: seq<string>)
    | IsActor(x: Var)
    | ActorTeam(x: Var)
    | And(left: Formula, right: Formula)
    | Or(terms: seq<Formula>)
    | TargetIsSubject

  predicate Eval(f: Formula, w: World, u: nat, owner: nat, target: nat)
    requires {u, owner, target} <= w.role.Keys && w.role.Keys == w.team.Keys
  {
    match f
    case RoleIn(roles) => w.role[u] in roles
    case IsActor(x) => (if x.TheOwner? then owner else target) == u
    case ActorTeam(x) => SameTeam(w, u, if x.TheOwner? then owner else target)
    case And(l, r) => Eval(l, w, u, owner, target) && Eval(r, w, u, owner, target)
    case Or(ts) => exists i :: 0 <= i < |ts| && Eval(ts[i], w, u, owner, target)
    case TargetIsSubject => target in w.subjects
  }

  /** scopeCond: no condition for all, else the union of its terms. */
  function ScopeCond(e: ScopeExpr, x: Var): Option<Formula> {
    if e.all then None
    else
      var own := if e.own then [IsActor(x)] else [];
      var team := if e.team then [ActorTeam(x)] else [];
      if own + team == [] then None else Some(Or(own + team))
  }

  /** branch: the role test, and the scope condition when there is one. */
  function Branch(roles: seq<string>, e: ScopeExpr, x: Var): Formula {
    var cond := ScopeCond(e, x);
    if cond.None? then RoleIn(roles) else And(RoleIn(roles), cond.value)
  }

  /** One branch per role group with a scope, in annotation order. */
  function Branches(entries: seq<Entry>, x: Var): seq<Formula> {
    if entries == [] then []
    else
      (if entries[0].expr.none then [] else [Branch(entries[0].roles, entries[0].expr, x)]) + Branches(entries[1..], x)
  }

  /** pred grants<Verb>. */
  function GrantedRoles(p: Policy, v: Verb): (rs: seq<string>)
  {
    FilterHolds(p, v, p.roles)
  }

  function FilterHolds(p: Policy, v: Verb, roles: seq<string>): (rs: seq<string>)
    ensures forall s :: s in rs <==> s in roles && Holds(p, v, s)
  {
    if roles == [] then [] else (if Holds(p, v, roles[0]) then [roles[0]] else []) + FilterHolds(p, v, roles[1..])
  }

  /** pred can<Verb>: gated by the grant when there is a grants rule. */
  function CanVerb(p: Policy, v: Verb): Formula
    requires v in p.scopes
  {
    var body := Or(Branches(p.scopes[v], TheOwner));
    if p.grants.Some? then And(RoleIn(GrantedRoles(p, v)), body) else body
  }

  /** One disjunct per role of one reassign entry: authority and target rule. */
  function ReassignTerms(roles: seq<string>, e: ScopeExpr, anyTarget: set<string>): seq<Formula> {
    seq(|roles|, i requires 0 <= i < |roles| =>
      And(Branch([roles[i]], e, TheOwner), if roles[i] in anyTarget then TargetIsSubject else ActorTeam(TheTarget)))
  }

  function ReassignBranches(entries: seq<Entry>, anyTarget: set<string>): seq<Formula> {
    if entries == [] then []
    else ReassignTerms(entries[0].roles, entries[0].expr, anyTarget) + ReassignBranches(entries[1..], anyTarget)
  }

  /** pred canReassign. */
  function CanReassign(p: Policy): Formula
    requires p.reassign.Some?
  {
    Or(ReassignBranches(p.reassign.value.entries, p.reassign.value.anyTarget))
  }

  // ----------------------------------------------------------- the oracle

  datatype RowVerb = OnCreate | OnScoped(v: Verb) | OnReassign

  datatype Case = NoCase | Own | Other | OwnTeamed | OwnTeamless | Teammate | Outsider

  datatype Target = NoTarget | AnyTarget | TargetTeammate | TargetOutsider

  datatype Expectation = Allow | Deny | Unreachable

  datatype Row = Row(verb: RowVerb, role: string, ownerCase: Case, target: Target, expectation: Expectation)

  function OwnerCases(p: Policy): seq<Case> {
    if p.hasTeam then [OwnTeamed, OwnTeamless, Teammate, Outsider] else [Own, Other]
  }

  predicate CaseOwn(c: Case) { c.Own? || c.OwnTeamed? || c.OwnTeamless? }

  predicate CaseSame(c: Case) { c.OwnTeamed? || c.Teammate? }

  /** unreachableBy is non-nil. */
  predicate MarkedUnreachable(p: Policy, role: string, c: Case) {
    c.OwnTeamless? && p.teamInvs != [] && (p.memberOne || role in p.requiredFor)
  }

  function CreateRow(p: Policy, role: string): Row {
    Row(OnCreate, role, NoCase, NoTarget, if Holds(p, Create, role) then Allow else Deny)
  }

  function ScopedRow(p: Policy, v: Verb, role: string, c: Case): Row
    requires v in p.scopes
  {
    Row(OnScoped(v), role, c, NoTarget,
        if MarkedUnreachable(p, role, c) then Unreachable
        else if p.grants.Some? && !Holds(p, v, role) then Deny
        else
          var e := ScopeFor(p.scopes[v], role);
          if e.Some? && EvalScope(e.value, CaseOwn(c), CaseSame(c)) then Allow else Deny)
  }

  function ReassignRows(p: Policy, role: string, c: Case): seq<Row>
    requires p.reassign.Some?
  {
    var e := ScopeFor(p.reassign.value.entries, role);
    if MarkedUnreachable(p, role, c) then [Row(OnReassign, role, c, NoTarget, Unreachable)]
    else if e.None? || !EvalScope(e.value, CaseOwn(c), CaseSame(c)) then [Row(OnReassign, role, c, NoTarget, Deny)]
    else if !p.hasTeam || role in p.reassign.value.anyTarget then [Row(OnReassign, role, c, AnyTarget, Allow)]
    else
      (if c.OwnTeamless? then [] else [Row(OnReassign, role, c, TargetTeammate, Allow)])
      + [Row(OnReassign, role, c, TargetOutsider, Deny)]
  }

  /** The table as a set of rows, by what each row is about. */
  ghost predicate InTable(p: Policy, row: Row) {
    && row.role in p.roles
    && match row.verb
       case OnCreate => p.grants.Some? && row == CreateRow(p, row.role)
       case OnScoped(v) => v in SCOPED && v in p.scopes && row.ownerCase in OwnerCases(p) && row == ScopedRow(p, v, row.role, row.ownerCase)
       case OnReassign => p.reassign.Some? && row.ownerCase in OwnerCases(p) && row in ReassignRows(p, row.role, row.ownerCase)
  }

  lemma AppendKeepsDistinct<T>(a: seq<T>, b: seq<T>)
    requires Distinct(a) && Distinct(b) && forall x :: x in b ==> x !in a
    ensures Distinct(a + b)
  {
    forall i, j | 0 <= i < j < |a + b| ensures (a + b)[i] != (a + b)[j] {
      if i < |a| <= j { assert (a + b)[j] == b[j - |a|] && b[j - |a|] in b; }
    }
  }

  /** oracleRows: nested loops over verbs, roles and cases emit exactly the
      table, each row once when the enum repeats no role. */
  method OracleRows(p: Policy) returns (rows: seq<Row>)
    ensures forall row :: row in rows <==> InTable(p, row)
    ensures Distinct(p.roles) ==> Distinct(rows)
  {
    var cases := OwnerCases(p);
    rows := CreateRows(p);
    for k := 0 to |SCOPED|
      invariant forall row :: row in rows <==> InTable(p, row) && (row.verb.OnCreate? || (row.verb.OnScoped? && row.verb.v in SCOPED[..k]))
      invariant Distinct(p.roles) ==> Distinct(rows)
    {
      var v := SCOPED[k];
      var more := [];
      if v in p.scopes { more := VerbRows(p, v, cases); }
      if Distinct(p.roles) { AppendKeepsDistinct(rows, more); }
      rows := rows + more;
      assert SCOPED[..k + 1] == SCOPED[..k] + [v];
    }
    if p.reassign.Some? {
      var more := AllReassignRows(p, cases);
      if Distinct(p.roles) { AppendKeepsDistinct(rows, more); }
      rows := rows + more;
    }
  }

  method CreateRows(p: Policy) returns (rows: seq<Row>)
    ensures forall row :: row in rows <==> InTable(p, row) && row.verb.OnCreate?
    ensures Distinct(p.roles) ==> Distinct(rows)
  {
    rows := [];
    if p.grants.None? { return; }
    for i := 0 to |p.roles|
      invariant forall row :: row in rows <==> InTable(p, row) && row.verb.OnCreate? && row.role in p.roles[..i]
      invariant Distinct(p.roles) ==> Distinct(rows)
    {
      rows := rows + [CreateRow(p, p.roles[i])];
      assert p.roles[..i + 1] == p.roles[..i] + [p.roles[i]];
    }
    assert p.roles[..|p.roles|] == p.roles;
  }

  method VerbRows(p: Policy, v: Verb, cases: seq<Case>) returns (rows: seq<Row>)
    requires v in p.scopes && v in SCOPED && cases == OwnerCases(p)
    ensures forall row :: row in rows <==> InTable(p, row) && row.verb == OnScoped(v)
    ensures Distinct(p.roles) ==> Distinct(rows)
  {
    rows := [];
    for i := 0 to |p.roles|
      invariant forall row :: row in rows <==> InTable(p, row) && row.verb == OnScoped(v) && row.role in p.roles[..i]
      invariant Distinct(p.roles) ==> Distinct(rows)
    {
      var more := RoleVerbRows(p, v, p.roles[i], cases);
      if Distinct(p.roles) { AppendKeepsDistinct(rows, more); }
      rows := rows + more;
      assert p.roles[..i + 1] == p.roles[..i] + [p.roles[i]];
    }
    assert p.roles[..|p.roles|] == p.roles;
  }

  method RoleVerbRows(p: Policy, v: Verb, role: string, cases: seq<Case>) returns (rows: seq<Row>)
    requires v in p.scopes && v in SCOPED && cases == OwnerCases(p) && role in p.roles
    ensures forall row :: row in rows <==> InTable(p, row) && row.verb == OnScoped(v) && row.role == role
    ensures Distinct(rows)
  {
    rows := [];
    for j := 0 to |cases|
      invariant forall row :: row in rows <==> row.ownerCase in cases[..j] && row == ScopedRow(p, v, role, row.ownerCase)
      invariant Distinct(rows)
    {
      rows := rows + [ScopedRow(p, v, role, cases[j])];
      assert cases[..j + 1] == cases[..j] + [cases[j]];
    }
    assert cases[..|cases|] == cases;
  }

  method AllReassignRows(p: Policy, cases: seq<Case>) returns (rows: seq<Row>)
    requires p.reassign.Some? && cases == OwnerCases(p)
    ensures forall row :: row in rows <==> InTable(p, row) && row.verb.OnReassign?
    ensures Distinct(p.roles) ==> Distinct(rows)
  {
    rows := [];
    for i := 0 to |p.roles|
      invariant forall row :: row in rows <==> InTable(p, row) && row.verb.OnReassign? && row.role in p.roles[..i]
      invariant Distinct(p.roles) ==> Distinct(rows)
    {
      var more := RoleReassignRows(p, p.roles[i], cases);
      if Distinct(p.roles) { AppendKeepsDistinct(rows, more); }
      rows := rows + more;
      assert p.roles[..i + 1] == p.roles[..i] + [p.roles[i]];
    }
    assert p.roles[..|p.roles|] == p.roles;
  }

  method RoleReassignRows(p: Policy, role: string, cases: seq<Case>) returns (rows: seq<Row>)
    requires p.reassign.Some? && cases == OwnerCases(p) && role in p.roles
    ensures forall row :: row in rows <==> InTable(p, row) && row.verb.OnReassign? && row.role == role
    ensures Distinct(rows)
  {
    rows := [];
    for j := 0 to |cases|
      invariant forall row :: row in rows <==> row.ownerCase in cases[..j] && row in ReassignRows(p, role, row.ownerCase)
      invariant Distinct(rows)
    {
      AppendKeepsDistinct(rows, ReassignRows(p, role, cases[j]));
      rows := rows + ReassignRows(p, role, cases[j]);
      assert cases[..j + 1] == cases[..j] + [cases[j]];
    }
    assert cases[..|cases|] == cases;
  }
}
