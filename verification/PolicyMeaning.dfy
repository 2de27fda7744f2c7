/** The oracle read off the annotation: what each row says, in terms of the rules
    as they are written and of the worlds the subjects admit. */
module PolicyMeaning {
  import opened Basics
  import opened PolicyAlgebra
  import opened PolicyCompile
  import opened PolicyAgreement
  import opened PolicyLoader

  /** An invariant is there to name and no world has such an actor and owner. */
  ghost predicate Unreached(p: Policy, role: string, c: Case) {
    p.teamInvs != [] && !Realized(p, role, c)
  }

  /** Some rule of the verb admits the role in the case. */
  ghost predicate Admits(rules: seq<RawRule>, v: Verb, role: string, own: bool, same: bool) {
    exists e :: ScopeMeans(rules, v, role, e) && EvalScope(e, own, same)
  }

  ghost predicate HasReassign(rules: seq<RawRule>) {
    exists j :: 0 <= j < |rules| && rules[j].RawReassign?
  }

  /** The reassign rule gives the role authority over the record. */
  ghost predicate MayReassign(rules: seq<RawRule>, role: string, own: bool, same: bool) {
    exists j, e :: 0 <= j < |rules| && rules[j].RawReassign? && MeansFor(rules[j].scope, role, e) && EvalScope(e, own, same)
  }

  /** The reassign rule lets the role hand a record to anybody. */
  ghost predicate ToAnybody(rules: seq<RawRule>, role: string) {
    exists j :: 0 <= j < |rules| && rules[j].RawReassign? && role in rules[j].target && rules[j].target[role].ToAny?
  }

  ghost predicate CreateSays(rules: seq<RawRule>, row: Row) {
    && HasGrants(rules) && row.ownerCase.NoCase? && row.target.NoTarget?
    && row.expectation == (if Grants(rules, Create, row.role) then Allow else Deny)
  }

  ghost predicate ScopedSays(p: Policy, rules: seq<RawRule>, v: Verb, row: Row) {
    && Scopes(rules, v) && row.ownerCase in OwnerCases(p) && row.target.NoTarget?
    && row.expectation == (if Unreached(p, row.role, row.ownerCase) then Unreachable
                           else if (HasGrants(rules) ==> Grants(rules, v, row.role)) && Admits(rules, v, row.role, CaseOwn(row.ownerCase), CaseSame(row.ownerCase))
                           then Allow else Deny)
  }

  /** Without authority one denial; with it one row for any target, or one for
      each kind of target that can exist: only a member of a team has teammates. */
  ghost predicate ReassignSays(p: Policy, rules: seq<RawRule>, row: Row) {
    && HasReassign(rules) && row.ownerCase in OwnerCases(p)
    && if Unreached(p, row.role, row.ownerCase) then row.target.NoTarget? && row.expectation.Unreachable?
       else if !MayReassign(rules, row.role, CaseOwn(row.ownerCase), CaseSame(row.ownerCase)) then row.target.NoTarget? && row.expectation.Deny?
       else if ToAnybody(rules, row.role) then row.target.AnyTarget? && row.expectation.Allow?
       else (row.target.TargetTeammate? && row.expectation.Allow? && !row.ownerCase.OwnTeamless?) || (row.target.TargetOutsider? && row.expectation.Deny?)
  }

  lemma CreateMeans(p: Policy, rules: seq<RawRule>, row: Row)
    requires Loads(p, rules) && row.role in p.roles && row.verb.OnCreate?
    ensures InTable(p, row) <==> CreateSays(rules, row)
  {
    GrantsSeen(p, rules);
  }

  lemma AdmitsSeen(p: Policy, rules: seq<RawRule>, v: Verb, role: string, own: bool, same: bool)
    requires Loads(p, rules) && role in p.roles && v in p.scopes
    ensures Admits(rules, v, role, own, same) <==> ScopeFor(p.scopes[v], role).Some? && EvalScope(ScopeFor(p.scopes[v], role).value, own, same)
  {
    forall e ensures ScopeMeans(rules, v, role, e) <==> ScopeFor(p.scopes[v], role) == Some(e) { ScopeForSeen(p, rules, v, role, e); }
  }

  lemma ScopedMeans(p: Policy, rules: seq<RawRule>, row: Row)
    requires PolicyOk(p) && Loads(p, rules) && row.role in p.roles && row.verb.OnScoped?
    ensures InTable(p, row) <==> ScopedSays(p, rules, row.verb.v, row)
  {
    var v, c := row.verb.v, row.ownerCase;
    GrantsSeen(p, rules);
    ScopesSeen(p, rules, v);
    if v in p.scopes && c in OwnerCases(p) {
      ScopedRowUnique(p, v, row.role, c);
      UnreachableExact(p, row.role, c);
      AdmitsSeen(p, rules, v, row.role, CaseOwn(c), CaseSame(c));
    }
  }

  lemma ReassignSeen(p: Policy, rules: seq<RawRule>, role: string, own: bool, same: bool)
    requires Loads(p, rules) && role in p.roles
    ensures HasReassign(rules) <==> p.reassign.Some?
    ensures ToAnybody(rules, role) <==> p.reassign.Some? && role in p.reassign.value.anyTarget
    ensures MayReassign(rules, role, own, same)
            <==> p.reassign.Some? && var e := ScopeFor(p.reassign.value.entries, role); e.Some? && EvalScope(e.value, own, same)
  {
    forall j | 0 <= j < |rules| && rules[j].RawReassign? ensures Carries(p, rules[j]) {}
  }

  lemma ReassignMeans(p: Policy, rules: seq<RawRule>, row: Row)
    requires PolicyOk(p) && Loads(p, rules) && row.role in p.roles && row.verb.OnReassign?
    ensures InTable(p, row) <==> ReassignSays(p, rules, row)
  {
    var c := row.ownerCase;
    ReassignSeen(p, rules, row.role, CaseOwn(c), CaseSame(c));
    if p.reassign.Some? && c in OwnerCases(p) { UnreachableExact(p, row.role, c); }
  }

  /** The table is the annotation's: which rows there are, and what each expects. */
  lemma TableMeansRules(p: Policy, rules: seq<RawRule>, row: Row)
    requires PolicyOk(p) && Loads(p, rules)
    ensures InTable(p, row) <==> row.role in p.roles && match row.verb
              case OnCreate => CreateSays(rules, row)
              case OnScoped(v) => ScopedSays(p, rules, v, row)
              case OnReassign => ReassignSays(p, rules, row)
  {
    if row.role in p.roles {
      match row.verb {
        case OnCreate => CreateMeans(p, rules, row);
        case OnScoped(v) => ScopedMeans(p, rules, row);
        case OnReassign => ReassignMeans(p, rules, row);
      }
    }
  }
}
