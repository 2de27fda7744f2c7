/** The loader: rules fill the policy one by one, and what it accepts and the
    emitter does not refuse is a reconciled policy. */
module PolicyLoader {
  import opened Basics
  import opened PolicyAlgebra

  datatype RawTarget = ToAny | ToTeam

  datatype RawRule =
    | RawGrants(grants: map<string, seq<Verb>>)
    | RawScope(verbs: seq<Verb>, scope: seq<RawEntry>)
    | RawReassign(scope: seq<RawEntry>, target: map<string, RawTarget>)

  /** The parsed annotation: roles are the values of the role enum. */
  datatype Annotation = Annotation(
    roles: seq<string>,
    hasTeam: bool, memberOne: bool, requiredFor: seq<string>, teamInvs: seq<string>,
    rules: seq<RawRule>)

  /** Every scope expression in the annotation has been parsed. */
  ghost predicate Parsed(a: Annotation) {
    && (!a.hasTeam ==> !a.memberOne && a.requiredFor == [] && a.teamInvs == [])
    && forall i :: 0 <= i < |a.rules| && !a.rules[i].RawGrants? ==> ExprsOk(a.rules[i].scope, a.hasTeam)
  }

  ghost predicate ExprsOk(raw: seq<RawEntry>, hasTeam: bool) {
    forall k :: 0 <= k < |raw| ==> ExprOk(raw[k].expr, hasTeam)
  }

  /** What the entries of a policy have to do with a scope map. */
  ghost predicate Expands(entries: seq<Entry>, raw: seq<RawEntry>, roles: seq<string>) {
    && |entries| == |raw| && (forall i :: 0 <= i < |raw| ==> entries[i].expr == raw[i].expr)
    && forall s, e :: s in roles ==> (ScopeFor(entries, s) == Some(e) <==> MeansFor(raw, s, e))
  }

  /** A rule is what the policy says about its verbs. */
  ghost predicate Carries(p: Policy, rule: RawRule) {
    match rule
    case RawGrants(grants) => p.grants == Some(grants)
    case RawScope(verbs, scope) => forall v :: v in verbs ==> v in p.scopes && Expands(p.scopes[v], scope, p.roles)
    case RawReassign(scope, target) =>
      && p.reassign.Some? && Expands(p.reassign.value.entries, scope, p.roles)
      && p.reassign.value.anyTarget == set s | s in target && target[s].ToAny?
  }

  /** Nothing in the policy comes from elsewhere. */
  ghost predicate OnlyFrom(p: Policy, rules: seq<RawRule>) {
    && (p.grants.Some? ==> exists j :: 0 <= j < |rules| && rules[j].RawGrants?)
    && (forall v :: v in p.scopes ==> exists j :: 0 <= j < |rules| && rules[j].RawScope? && v in rules[j].verbs)
    && (p.reassign.Some? ==> exists j :: 0 <= j < |rules| && rules[j].RawReassign?)
  }

  ghost predicate Loads(p: Policy, rules: seq<RawRule>) {
    OnlyFrom(p, rules) && forall j :: 0 <= j < |rules| ==> Carries(p, rules[j])
  }

  // ------------------------------------------------------------ which rules are accepted

  ghost predicate HasScope(raw: seq<RawEntry>, role: string) {
    exists e :: MeansFor(raw, role, e)
  }

  /** The rule by itself. */
  ghost predicate RuleFine(rule: RawRule, roles: seq<string>, hasTeam: bool) {
    match rule
    case RawGrants(grants) => forall s :: s in grants ==> s in roles
    case RawScope(verbs, scope) => verbs != [] && Create !in verbs && RawOk(scope, roles)
    case RawReassign(scope, target) =>
      RawOk(scope, roles) && (forall k :: 0 <= k < |scope| ==> !scope[k].expr.none) && TargetsFine(scope, target, roles, hasTeam)
  }

  /** Exactly the roles with a scope have a target, and a team target a team. */
  ghost predicate TargetsFine(scope: seq<RawEntry>, target: map<string, RawTarget>, roles: seq<string>, hasTeam: bool) {
    && target != map[]
    && (forall s :: s in target ==> s in roles && HasScope(scope, s) && (target[s].ToTeam? ==> hasTeam))
    && (forall s :: s in roles && HasScope(scope, s) ==> s in target)
  }

  /** The rule beside an earlier one. */
  predicate Clashes(rule: RawRule, earlier: RawRule) {
    || (rule.RawGrants? && earlier.RawGrants?)
    || (rule.RawScope? && earlier.RawScope? && exists v :: v in rule.verbs && v in earlier.verbs)
    || (rule.RawReassign? && earlier.RawReassign?)
  }

  ghost predicate RuleFits(rules: seq<RawRule>, i: nat, roles: seq<string>, hasTeam: bool)
    requires i < |rules|
  {
    RuleFine(rules[i], roles, hasTeam) && forall j :: 0 <= j < i ==> !Clashes(rules[i], rules[j])
  }

  ghost predicate RulesFit(rules: seq<RawRule>, roles: seq<string>, hasTeam: bool) {
    rules != [] && forall i :: 0 <= i < |rules| ==> RuleFits(rules, i, roles, hasTeam)
  }

  /** A rule clashes with what has been loaded exactly when it clashes with a rule. */
  lemma ClashSeen(p: Policy, rules: seq<RawRule>, rule: RawRule)
    requires Loads(p, rules)
    ensures (exists j :: 0 <= j < |rules| && Clashes(rule, rules[j])) <==> Taken(p, rule)
  {
    forall j | 0 <= j < |rules| && Clashes(rule, rules[j]) ensures Taken(p, rule) {
      assert Carries(p, rules[j]);
    }
    if Taken(p, rule) && rule.RawScope? {
      var v :| v in rule.verbs && v in p.scopes;
      var j :| 0 <= j < |rules| && rules[j].RawScope? && v in rules[j].verbs;
      assert Clashes(rule, rules[j]);
    }
  }

  predicate Taken(p: Policy, rule: RawRule) {
    match rule
    case RawGrants(_) => p.grants.Some?
    case RawScope(verbs, _) => exists v :: v in verbs && v in p.scopes
    case RawReassign(_, _) => p.reassign.Some?
  }

  // ------------------------------------------------------------ what loading keeps

  ghost predicate ScopesOk(p: Policy) {
    && Create !in p.scopes
    && forall v :: v in p.scopes ==> EntriesOk(p.scopes[v], p.roles, p.hasTeam)
  }

  ghost predicate ReassignOk(p: Policy) {
    p.reassign.Some? ==>
      var entries, anyTarget := p.reassign.value.entries, p.reassign.value.anyTarget;
      && EntriesOk(entries, p.roles, p.hasTeam)
      && (forall i :: 0 <= i < |entries| ==> !entries[i].expr.none)
      && (forall s :: s in p.roles && ScopeFor(entries, s).Some? && !p.hasTeam ==> s in anyTarget)
  }

  ghost predicate GrantsOk(p: Policy) {
    p.grants.Some? ==> forall s :: s in p.grants.value ==> s in p.roles
  }

  /** The same entries for every listed verb. */
  method SetAll(scopes: map<Verb, seq<Entry>>, verbs: seq<Verb>, entries: seq<Entry>) returns (r: map<Verb, seq<Entry>>)
    ensures forall v :: v in r <==> v in scopes || v in verbs
    ensures forall v :: v in r ==> r[v] == if v in verbs then entries else scopes[v]
  {
    r := scopes;
    for i := 0 to |verbs|
      invariant forall v :: v in r <==> v in scopes || v in verbs[..i]
      invariant forall v :: v in r ==> r[v] == if v in verbs[..i] then entries else scopes[v]
    {
      r := r[verbs[i] := entries];
      assert verbs[..i + 1] == verbs[..i] + [verbs[i]];
    }
    assert verbs[..|verbs|] == verbs;
  }

  /** The target part of loadReassignRule. */
  method TargetsDecided(p: Policy, entries: seq<Entry>, rule: RawRule) returns (ok: bool)
    requires rule.RawReassign? && Expands(entries, rule.scope, p.roles)
    ensures ok <==> TargetsFine(rule.scope, rule.target, p.roles, p.hasTeam)
    ensures ok ==> forall s :: s in p.roles && ScopeFor(entries, s).Some? ==> s in rule.target
  {
    forall s | s in p.roles ensures HasScope(rule.scope, s) <==> ScopeFor(entries, s).Some? { ScopeSeen(entries, rule.scope, p.roles, s); }
    if rule.target == map[] { return false; }
    if exists s :: s in rule.target && (s !in p.roles || ScopeFor(entries, s).None?) { return false; }
    if exists s :: s in rule.target && rule.target[s].ToTeam? && !p.hasTeam { return false; }
    if exists s :: s in p.roles && ScopeFor(entries, s).Some? && s !in rule.target { return false; }
    ok := true;
  }

  lemma ScopeSeen(entries: seq<Entry>, raw: seq<RawEntry>, roles: seq<string>, role: string)
    requires Expands(entries, raw, roles) && role in roles
    ensures HasScope(raw, role) <==> ScopeFor(entries, role).Some?
  {
    if ScopeFor(entries, role).Some? { assert MeansFor(raw, role, ScopeFor(entries, role).value); }
  }

  method ReadReassign(p: Policy, rule: RawRule) returns (ok: bool, r: Reassign)
    requires rule.RawReassign? && ExprsOk(rule.scope, p.hasTeam)
    ensures ok <==> RuleFine(rule, p.roles, p.hasTeam)
    ensures ok ==> ReassignOk(p.(reassign := Some(r))) && Carries(p.(reassign := Some(r)), rule)
  {
    r := Reassign([], {});
    var entries;
    ok, entries := ParseScopeMap(rule.scope, p.roles, p.hasTeam);
    if !ok { return; }
    if exists i :: 0 <= i < |entries| && entries[i].expr.none { return false, r; }
    ok := TargetsDecided(p, entries, rule);
    if !ok { return; }
    r := Reassign(entries, set s | s in rule.target && rule.target[s].ToAny?);
  }

  class Loader {
    var p: Policy

    constructor (a: Annotation)
      ensures p == Policy(a.roles, a.hasTeam, a.memberOne, a.requiredFor, a.teamInvs, None, map[], None)
    {
      p := Policy(a.roles, a.hasTeam, a.memberOne, a.requiredFor, a.teamInvs, None, map[], None);
    }

    ghost predicate Valid()
      reads this
    {
      ScopesOk(p) && ReassignOk(p) && GrantsOk(p)
    }

    /** The subject and team part, and the parts that no rule writes. */
    ghost predicate Kept(q: Policy)
      reads this
    {
      p.(grants := q.grants, scopes := q.scopes, reassign := q.reassign) == q
    }

    /** loadGrantRule. */
    method LoadGrantRule(rule: RawRule) returns (ok: bool)
      requires Valid() && rule.RawGrants?
      modifies this
      ensures ok <==> !Taken(old(p), rule) && RuleFine(rule, old(p).roles, old(p).hasTeam)
      ensures ok ==> Valid() && p == old(p).(grants := Some(rule.grants))
    {
      if p.grants.Some? || exists s :: s in rule.grants && s !in p.roles { return false; }
      p := p.(grants := Some(rule.grants));
      ok := true;
    }

    /** loadScopeRule. */
    method LoadScopeRule(rule: RawRule) returns (ok: bool)
      requires Valid() && rule.RawScope? && ExprsOk(rule.scope, p.hasTeam)
      modifies this
      ensures ok <==> !Taken(old(p), rule) && RuleFine(rule, old(p).roles, old(p).hasTeam)
      ensures ok ==> Valid() && Carries(p, rule) && p.scopes.Keys == old(p).scopes.Keys + (set v | v in rule.verbs)
      ensures ok ==> p == old(p).(scopes := p.scopes) && forall v :: v in old(p).scopes ==> p.scopes[v] == old(p).scopes[v]
    {
      if rule.verbs == [] || exists v :: v in rule.verbs && (v.Create? || v in p.scopes) { return false; }
      var entries;
      ok, entries := ParseScopeMap(rule.scope, p.roles, p.hasTeam);
      if !ok { return; }
      var scopes := SetAll(p.scopes, rule.verbs, entries);
      p := p.(scopes := scopes);
    }

    /** loadReassignRule: every role with a reassign scope decides its target. */
    method LoadReassignRule(rule: RawRule) returns (ok: bool)
      requires Valid() && rule.RawReassign? && ExprsOk(rule.scope, p.hasTeam)
      modifies this
      ensures ok <==> !Taken(old(p), rule) && RuleFine(rule, old(p).roles, old(p).hasTeam)
      ensures ok ==> Valid() && Carries(p, rule) && p == old(p).(reassign := p.reassign)
    {
      if p.reassign.Some? { return false; }
      var reassign;
      ok, reassign := ReadReassign(p, rule);
      if ok { p := p.(reassign := Some(reassign)); }
    }

    /** loadRules: one rule after the other, none undoing an earlier one. */
    method LoadRules(rules: seq<RawRule>) returns (ok: bool)
      requires Valid() && Loads(p, []) && forall i :: 0 <= i < |rules| && !rules[i].RawGrants? ==> ExprsOk(rules[i].scope, p.hasTeam)
      modifies this
      ensures ok <==> RulesFit(rules, old(p).roles, old(p).hasTeam)
      ensures ok ==> Valid() && Kept(old(p)) && Loads(p, rules)
    {
      if rules == [] { return false; }
      for i := 0 to |rules|
        invariant Valid() && Kept(old(p)) && Loads(p, rules[..i])
        invariant forall j :: 0 <= j < i ==> RuleFits(rules, j, p.roles, p.hasTeam)
      {
        ok := LoadRule(rules[i], rules[..i]);
        assert ok <==> RuleFits(rules, i, old(p).roles, old(p).hasTeam);
        if !ok { return; }
        assert rules[..i + 1] == rules[..i] + [rules[i]];
      }
      assert rules[..|rules|] == rules;
      ok := true;
    }

    method LoadRule(rule: RawRule, ghost earlier: seq<RawRule>) returns (ok: bool)
      requires Valid() && Loads(p, earlier) && (!rule.RawGrants? ==> ExprsOk(rule.scope, p.hasTeam))
      modifies this
      ensures ok <==> RuleFine(rule, old(p).roles, old(p).hasTeam) && forall j :: 0 <= j < |earlier| ==> !Clashes(rule, earlier[j])
      ensures ok ==> Valid() && Kept(old(p)) && Loads(p, earlier + [rule])
    {
      ghost var q := p;
      ClashSeen(p, earlier, rule);
      match rule {
        case RawGrants(_) => ok := LoadGrantRule(rule);
        case RawScope(_, _) => ok := LoadScopeRule(rule);
        case RawReassign(_, _) => ok := LoadReassignRule(rule);
      }
      if ok { LoadsMore(q, p, earlier, rule); }
    }
  }

  /** Adding a rule that touches nothing already there. */
  lemma LoadsMore(q: Policy, p: Policy, rules: seq<RawRule>, rule: RawRule)
    requires Loads(q, rules) && Carries(p, rule) && p.roles == q.roles
    requires q.grants.Some? ==> p.grants == q.grants
    requires q.reassign.Some? ==> p.reassign == q.reassign
    requires forall v :: v in q.scopes ==> v in p.scopes && p.scopes[v] == q.scopes[v]
    requires p.grants != q.grants ==> rule.RawGrants?
    requires p.reassign != q.reassign ==> rule.RawReassign?
    requires forall v :: v in p.scopes && v !in q.scopes ==> rule.RawScope? && v in rule.verbs
    ensures Loads(p, rules + [rule])
  {
    var all := rules + [rule];
    assert all[|rules|] == rule;
    forall j | 0 <= j < |rules| ensures Carries(p, rules[j]) { assert Carries(q, rules[j]); }
    forall v | v in p.scopes ensures exists j :: 0 <= j < |all| && all[j].RawScope? && v in all[j].verbs {
      if v in q.scopes {
        var j :| 0 <= j < |rules| && rules[j].RawScope? && v in rules[j].verbs;
        assert all[j] == rules[j];
      }
    }
    if q.grants.Some? {
      var j :| 0 <= j < |rules| && rules[j].RawGrants?;
      assert all[j] == rules[j];
    }
    if q.reassign.Some? {
      var j :| 0 <= j < |rules| && rules[j].RawReassign?;
      assert all[j] == rules[j];
    }
  }

  /** validateGrantScopeClosure: a granted verb has a scope and a scoped verb a
      grant. */
  method GrantScopeClosed(p: Policy) returns (ok: bool)
    ensures ok <==> Closed(p)
  {
    if p.grants.None? { return true; }
    for k := 0 to |SCOPED|
      invariant forall j :: 0 <= j < k ==> (SCOPED[j] in p.scopes <==> exists s :: s in p.roles && Holds(p, SCOPED[j], s))
    {
      var v := SCOPED[k];
      if (v in p.scopes) != (exists s :: s in p.roles && Holds(p, v, s)) { return false; }
    }
    ok := true;
  }

  /** The emitter refuses a scope rule that gives nothing to any role. */
  predicate SomethingScoped(p: Policy) {
    forall v :: v in p.scopes ==> exists i :: 0 <= i < |p.scopes[v]| && !p.scopes[v][i].expr.none
  }

  ghost predicate Closed(p: Policy) {
    p.grants.Some? ==> forall v :: v in SCOPED ==> (v in p.scopes <==> exists s :: s in p.roles && Holds(p, v, s))
  }

  ghost predicate SubjectsFit(a: Annotation) {
    a.roles != [] && (a.requiredFor == [] || !a.memberOne) && forall s :: s in a.requiredFor ==> s in a.roles
  }

  // ------------------------------------------------------------ what the rules say

  ghost predicate HasGrants(rules: seq<RawRule>) {
    exists j :: 0 <= j < |rules| && rules[j].RawGrants?
  }

  /** A grants rule lists the verb for the role. */
  ghost predicate Grants(rules: seq<RawRule>, v: Verb, role: string) {
    exists j :: 0 <= j < |rules| && rules[j].RawGrants? && role in rules[j].grants && v in rules[j].grants[role]
  }

  ghost predicate Scopes(rules: seq<RawRule>, v: Verb) {
    exists j :: 0 <= j < |rules| && rules[j].RawScope? && v in rules[j].verbs
  }

  /** A scope rule of the verb gives the role this expression. */
  ghost predicate ScopeMeans(rules: seq<RawRule>, v: Verb, role: string, e: ScopeExpr) {
    exists j :: 0 <= j < |rules| && rules[j].RawScope? && v in rules[j].verbs && MeansFor(rules[j].scope, role, e)
  }

  /** Who holds a verb: the grants decide where there are any, else a scope other
      than none. */
  ghost predicate Holder(rules: seq<RawRule>, v: Verb, role: string) {
    if HasGrants(rules) then Grants(rules, v, role) else exists e :: ScopeMeans(rules, v, role, e) && !e.none
  }

  /** With grants, a scoped verb is granted to some role exactly when some rule
      scopes it. */
  ghost predicate RulesClosed(a: Annotation) {
    HasGrants(a.rules) ==> forall v :: v in SCOPED ==> (Scopes(a.rules, v) <==> exists s :: s in a.roles && Grants(a.rules, v, s))
  }

  /** No scope rule gives none to every role it names. */
  ghost predicate RulesScope(a: Annotation) {
    forall j :: 0 <= j < |a.rules| && a.rules[j].RawScope? ==> exists k :: 0 <= k < |a.rules[j].scope| && !a.rules[j].scope[k].expr.none
  }

  lemma ScopesSeen(p: Policy, rules: seq<RawRule>, v: Verb)
    requires Loads(p, rules)
    ensures v in p.scopes <==> Scopes(rules, v)
  {
    if Scopes(rules, v) {
      var j :| 0 <= j < |rules| && rules[j].RawScope? && v in rules[j].verbs;
      assert Carries(p, rules[j]);
    }
  }

  lemma ScopeForSeen(p: Policy, rules: seq<RawRule>, v: Verb, role: string, e: ScopeExpr)
    requires Loads(p, rules) && role in p.roles
    ensures ScopeMeans(rules, v, role, e) <==> v in p.scopes && ScopeFor(p.scopes[v], role) == Some(e)
  {
    if ScopeMeans(rules, v, role, e) {
      var j :| 0 <= j < |rules| && rules[j].RawScope? && v in rules[j].verbs && MeansFor(rules[j].scope, role, e);
      assert Carries(p, rules[j]);
    }
    if v in p.scopes && ScopeFor(p.scopes[v], role) == Some(e) {
      var j :| 0 <= j < |rules| && rules[j].RawScope? && v in rules[j].verbs;
      assert Carries(p, rules[j]) && MeansFor(rules[j].scope, role, e);
    }
  }

  lemma GrantsSeen(p: Policy, rules: seq<RawRule>)
    requires Loads(p, rules)
    ensures p.grants.Some? <==> HasGrants(rules)
    ensures forall v, s :: Grants(rules, v, s) <==> p.grants.Some? && s in p.grants.value && v in p.grants.value[s]
  {
    forall j | 0 <= j < |rules| && rules[j].RawGrants? ensures p.grants == Some(rules[j].grants) {
      assert Carries(p, rules[j]);
    }
  }

  /** rolesWith read off the annotation. */
  lemma HoldsMeans(p: Policy, rules: seq<RawRule>, v: Verb, role: string)
    requires Loads(p, rules) && role in p.roles
    ensures Holds(p, v, role) <==> Holder(rules, v, role)
  {
    GrantsSeen(p, rules);
    forall e ensures ScopeMeans(rules, v, role, e) <==> v in p.scopes && ScopeFor(p.scopes[v], role) == Some(e) {
      ScopeForSeen(p, rules, v, role, e);
    }
  }

  /** The two refusals of a loaded policy, read off the annotation. */
  lemma ClosedMeans(a: Annotation, p: Policy)
    requires Loads(p, a.rules) && SameSubjects(a, p)
    ensures Closed(p) <==> RulesClosed(a)
  {
    GrantsSeen(p, a.rules);
    forall v ensures v in p.scopes <==> Scopes(a.rules, v) { ScopesSeen(p, a.rules, v); }
    if HasGrants(a.rules) {
      forall v, s | s in p.roles ensures Holds(p, v, s) <==> Grants(a.rules, v, s) { HoldsMeans(p, a.rules, v, s); }
    }
  }

  lemma SomethingScopedMeans(a: Annotation, p: Policy)
    requires Loads(p, a.rules) && RulesFit(a.rules, a.roles, a.hasTeam)
    ensures SomethingScoped(p) <==> RulesScope(a)
  {
    forall j, v | 0 <= j < |a.rules| && a.rules[j].RawScope? && v in a.rules[j].verbs
      ensures v in p.scopes && Expands(p.scopes[v], a.rules[j].scope, p.roles)
    {
      assert Carries(p, a.rules[j]);
    }
    if SomethingScoped(p) {
      forall j | 0 <= j < |a.rules| && a.rules[j].RawScope? ensures exists k :: 0 <= k < |a.rules[j].scope| && !a.rules[j].scope[k].expr.none {
        assert RuleFits(a.rules, j, a.roles, a.hasTeam);
        var v := a.rules[j].verbs[0];
        var k :| 0 <= k < |p.scopes[v]| && !p.scopes[v][k].expr.none;
        assert Expands(p.scopes[v], a.rules[j].scope, p.roles) && p.scopes[v][k].expr == a.rules[j].scope[k].expr;
      }
    }
    if RulesScope(a) {
      forall v | v in p.scopes ensures exists i :: 0 <= i < |p.scopes[v]| && !p.scopes[v][i].expr.none {
        var j :| 0 <= j < |a.rules| && a.rules[j].RawScope? && v in a.rules[j].verbs;
        var k :| 0 <= k < |a.rules[j].scope| && !a.rules[j].scope[k].expr.none;
        assert p.scopes[v][k].expr == a.rules[j].scope[k].expr;
      }
    }
  }

  /** Load, and the one refusal of the emitter. It accepts exactly the annotations
      whose subjects and rules fit, whose grants and scopes close each other and
      whose scope rules give something; the policy is then reconciled and says
      what each rule says and nothing more. */
  method LoadPolicy(a: Annotation) returns (r: Option<Policy>)
    requires Parsed(a)
    ensures r.Some? <==> SubjectsFit(a) && RulesFit(a.rules, a.roles, a.hasTeam) && RulesClosed(a) && RulesScope(a)
    ensures r.Some? ==> PolicyOk(r.value) && Loads(r.value, a.rules) && SameSubjects(a, r.value)
  {
    if a.roles == [] || (a.requiredFor != [] && a.memberOne) || exists s :: s in a.requiredFor && s !in a.roles { return None; }
    var l := new Loader(a);
    var ok := l.LoadRules(a.rules);
    if !ok { return None; }
    ClosedMeans(a, l.p);
    SomethingScopedMeans(a, l.p);
    ok := GrantScopeClosed(l.p);
    if !ok || !SomethingScoped(l.p) { return None; }
    return Some(l.p);
  }

  ghost predicate SameSubjects(a: Annotation, p: Policy) {
    && p.roles == a.roles && p.hasTeam == a.hasTeam && p.memberOne == a.memberOne
    && p.requiredFor == a.requiredFor && p.teamInvs == a.teamInvs
  }
}
