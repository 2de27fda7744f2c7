/** Depth-first search over an arbitrary include graph, with a colour map, a byte
    counter and a closure list built in finishing order. */
module IncludeGraph {
  import opened Basics

  /** A line of a file, resolved: harmless, refused, or an include of a file. */
  datatype Step<T> = Fine | Wrong | Next(target: T)
  datatype Graph<!T> = Graph(readable: T -> bool, size: T -> nat, steps: T -> seq<Step<T>>)
  datatype Limits = Limits(files: nat, depth: nat, totalBytes: nat)
  datatype Colour = Grey | Black
  datatype Problem<T> = TooDeep | Cycle | TooManyFiles | TooManyBytes | Unusable(node: T)

  predicate Usable<T(==)>(g: Graph<T>, p: T) {
    g.readable(p) && Wrong !in g.steps(p)
  }

  predicate Edge<T(==)>(g: Graph<T>, p: T, q: T) {
    Next(q) in g.steps(p)
  }

  ghost predicate Chain<T>(g: Graph<T>, entry: T, s: seq<T>) {
    && s != []
    && if |s| == 1 then s[0] == entry else Chain(g, entry, s[..|s| - 1]) && Edge(g, s[|s| - 2], s[|s| - 1])
  }

  ghost predicate Reachable<T(!new)>(g: Graph<T>, entry: T, p: T) {
    exists s :: Chain(g, entry, s) && s[|s| - 1] == p
  }

  predicate Includes<T>(g: Graph<T>, p: T) {
    exists i :: 0 <= i < |g.steps(p)| && g.steps(p)[i].Next?
  }

  /** None of the first n lines of p leads to the node. */
  ghost predicate Skips<T(!new)>(g: Graph<T>, p: T, n: nat, node: T) {
    forall k :: 0 <= k < n <= |g.steps(p)| && g.steps(p)[k].Next? ==> !Reachable(g, g.steps(p)[k].target, node)
  }

  /** The chain leaves its i-th node by the first line that leads to its end. */
  ghost predicate FirstAt<T(!new)>(g: Graph<T>, s: seq<T>, i: nat)
    requires i + 1 < |s|
  {
    exists n: nat :: n < |g.steps(s[i])| && g.steps(s[i])[n] == Next(s[i + 1]) && Skips(g, s[i], n, s[|s| - 1])
  }

  /** The first chain to its end, in line order. */
  ghost predicate First<T(!new)>(g: Graph<T>, entry: T, s: seq<T>) {
    Chain(g, entry, s) && forall i: nat :: i + 1 < |s| ==> FirstAt(g, s, i)
  }

  ghost function Found<T(!new)>(g: Graph<T>, entry: T): iset<T> {
    iset p | Reachable(g, entry, p)
  }

  ghost predicate Among<T>(reach: iset<T>, s: seq<T>) {
    Distinct(s) && forall p :: p in s ==> p in reach
  }

  /** What each refusal is entitled to say, given the nodes that can be reached. */
  ghost predicate Shown<T(!new)>(g: Graph<T>, lim: Limits, entry: T, reach: iset<T>, problem: Problem<T>) {
    match problem
    case TooDeep => lim.depth == 0 || exists s :: First(g, entry, s) && |s| >= lim.depth && Includes(g, s[|s| - 1])
    case Cycle => exists s :: Chain(g, entry, s) && !Distinct(s)
    case TooManyFiles => exists s :: Among(reach, s) && |s| > lim.files
    case TooManyBytes => exists s :: Among(reach, s) && Bytes(g.size, s) > lim.totalBytes
    case Unusable(p) => p in reach && !Usable(g, p)
  }

  ghost predicate Real<T(!new)>(g: Graph<T>, lim: Limits, entry: T, problem: Problem<T>) {
    Shown(g, lim, entry, Found(g, entry), problem)
  }

  /** The design the walk accepts: no refusal has a reason. */
  ghost predicate Accepts<T(!new)>(g: Graph<T>, lim: Limits, entry: T) {
    forall problem :: !Real(g, lim, entry, problem)
  }

  function Bytes<T>(size: T -> nat, s: seq<T>): (n: nat) {
    if s == [] then 0 else Bytes(size, s[..|s| - 1]) + size(s[|s| - 1])
  }

  /** Usable nodes in an order where every include comes before its includer. */
  ghost predicate Settled<T(!new)>(g: Graph<T>, s: seq<T>) {
    && Distinct(s)
    && (forall i :: 0 <= i < |s| ==> Usable(g, s[i]))
    && (forall i, q :: 0 <= i < |s| && Edge(g, s[i], q) ==> q in s[..i])
  }

  // ---------------------------------------------------------------- lists

  lemma {:induction false} BytesGrow<T>(size: T -> nat, s: seq<T>, p: T)
    ensures Bytes(size, s + [p]) == Bytes(size, s) + size(p)
  {
    assert (s + [p])[..|s|] == s;
  }

  lemma {:induction false} BytesConcat<T>(size: T -> nat, s: seq<T>, t: seq<T>)
    ensures Bytes(size, s + t) == Bytes(size, s) + Bytes(size, t)
    decreases |t|
  {
    if t == [] {
      assert s + t == s;
    } else {
      BytesConcat(size, s, t[..|t| - 1]);
      assert (s + t)[..|s + t| - 1] == s + t[..|t| - 1];
    }
  }

  /** Distinct members of a list weigh no more than the list. */
  lemma {:induction false} BytesWithin<T>(size: T -> nat, s: seq<T>, t: seq<T>)
    requires Distinct(s) && forall p :: p in s ==> p in t
    ensures Bytes(size, s) <= Bytes(size, t)
    decreases |s|
  {
    if s != [] {
      var front, last := s[..|s| - 1], s[|s| - 1];
      assert last in t;
      var k :| 0 <= k < |t| && t[k] == last;
      var rest := t[..k] + t[k + 1..];
      assert t == t[..k] + [last] + t[k + 1..];
      forall p | p in front ensures p in rest { assert p in t && p != last; }
      BytesWithin(size, front, rest);
      BytesConcat(size, t[..k], t[k + 1..]);
      BytesConcat(size, t[..k] + [last], t[k + 1..]);
      BytesGrow(size, t[..k], last);
    }
  }

  lemma {:induction false} DistinctGrows<T>(s: seq<T>, p: T)
    requires Distinct(s) && p !in s
    ensures Distinct(s + [p])
  {
  }

  // ---------------------------------------------------------------- chains

  lemma ChainGrows<T>(g: Graph<T>, entry: T, s: seq<T>, p: T)
    requires if s == [] then p == entry else Chain(g, entry, s) && Edge(g, s[|s| - 1], p)
    ensures Chain(g, entry, s + [p])
  {
    assert (s + [p])[..|s|] == s;
  }

  lemma EarlierInclude<T(!new)>(g: Graph<T>, order: seq<T>, i: nat, q: T) returns (k: nat)
    requires Settled(g, order) && i < |order| && Edge(g, order[i], q)
    ensures k < i && order[k] == q
  {
    assert q in order[..i];
    k :| 0 <= k < i && order[k] == q;
  }

  /** A chain that starts in a settled list runs strictly towards its front. */
  lemma {:induction false} ChainDescends<T(!new)>(g: Graph<T>, entry: T, order: seq<T>, s: seq<T>) returns (at: seq<nat>)
    requires Settled(g, order) && entry in order && Chain(g, entry, s)
    ensures |at| == |s|
    ensures forall i :: 0 <= i < |s| ==> at[i] < |order| && order[at[i]] == s[i]
    ensures forall i, j :: 0 <= i < j < |s| ==> at[j] < at[i]
    decreases |s|
  {
    var n := |s| - 1;
    if n == 0 {
      var e :| 0 <= e < |order| && order[e] == entry;
      at := [e];
    } else {
      var front := ChainDescends(g, entry, order, s[..n]);
      assert s[..n][n - 1] == s[n - 1];
      var k := EarlierInclude(g, order, front[n - 1], s[n]);
      at := front + [k];
    }
  }

  /** No chain through a settled list ever comes back to a node or leaves it. */
  lemma SettledAcyclic<T(!new)>(g: Graph<T>, entry: T, order: seq<T>, s: seq<T>)
    requires Settled(g, order) && entry in order && Chain(g, entry, s)
    ensures Distinct(s) && forall i :: 0 <= i < |s| ==> s[i] in order
  {
    var at := ChainDescends(g, entry, order, s);
  }

  lemma {:induction false} ChainSuffix<T(!new)>(g: Graph<T>, entry: T, s: seq<T>, i: nat)
    requires Chain(g, entry, s) && i < |s|
    ensures Chain(g, s[i], s[i..]) && Reachable(g, s[i], s[|s| - 1])
    decreases |s|
  {
    var n := |s| - 1;
    if i < n {
      ChainSuffix(g, entry, s[..n], i);
      ChainGrows(g, s[i], s[..n][i..], s[n]);
      assert s[..n][i..] + [s[n]] == s[i..];
    }
    assert s[i..][|s[i..]| - 1] == s[n];
  }

  /** What is finished leads nowhere else. */
  lemma Confined<T(!new)>(g: Graph<T>, order: seq<T>, p: T, q: T)
    requires Settled(g, order) && p in order && Reachable(g, p, q)
    ensures q in order
  {
    var s :| Chain(g, p, s) && s[|s| - 1] == q;
    SettledAcyclic(g, p, order, s);
  }

  // ---------------------------------------------------------------- first chains

  lemma SameLine<T(!new)>(g: Graph<T>, entry: T, s: seq<T>, t: seq<T>, i: nat)
    requires First(g, entry, s) && First(g, entry, t) && i + 1 < |s| && i + 1 < |t|
    requires s[i] == t[i] && s[|s| - 1] == t[|t| - 1]
    ensures s[i + 1] == t[i + 1]
  {
    ChainSuffix(g, entry, s, i + 1);
    ChainSuffix(g, entry, t, i + 1);
    assert FirstAt(g, s, i) && FirstAt(g, t, i);
    var steps, end := g.steps(s[i]), s[|s| - 1];
    var n: nat :| n < |steps| && steps[n] == Next(s[i + 1]) && Skips(g, s[i], n, end);
    var m: nat :| m < |steps| && steps[m] == Next(t[i + 1]) && Skips(g, t[i], m, end);
    assert n <= m && m <= n;
  }

  lemma {:induction false} SameStart<T(!new)>(g: Graph<T>, entry: T, s: seq<T>, t: seq<T>, n: nat)
    requires First(g, entry, s) && First(g, entry, t) && s[|s| - 1] == t[|t| - 1]
    requires 1 <= n <= |s| && n <= |t|
    ensures s[..n] == t[..n]
    decreases n
  {
    if n == 1 {
      ChainHead(g, entry, s);
      ChainHead(g, entry, t);
    } else {
      SameStart(g, entry, s, t, n - 1);
      assert s[n - 2] == s[..n - 1][n - 2] == t[..n - 1][n - 2] == t[n - 2];
      SameLine(g, entry, s, t, n - 2);
      assert s[..n] == s[..n - 1] + [s[n - 1]] && t[..n] == t[..n - 1] + [t[n - 1]];
    }
  }

  lemma {:induction false} ChainHead<T(!new)>(g: Graph<T>, entry: T, s: seq<T>)
    requires Chain(g, entry, s)
    ensures s[0] == entry
    decreases |s|
  {
    if |s| > 1 { ChainHead(g, entry, s[..|s| - 1]); }
  }

  /** In a settled graph there is one first chain to each node. */
  lemma FirstUnique<T(!new)>(g: Graph<T>, entry: T, order: seq<T>, s: seq<T>, t: seq<T>)
    requires Settled(g, order) && entry in order
    requires First(g, entry, s) && First(g, entry, t) && s[|s| - 1] == t[|t| - 1]
    ensures s == t
  {
    SettledAcyclic(g, entry, order, s);
    SettledAcyclic(g, entry, order, t);
    var n := if |s| < |t| then |s| else |t|;
    SameStart(g, entry, s, t, n);
    assert s[n - 1] == s[..n][n - 1] == t[..n][n - 1] == t[n - 1];
    assert s == s[..|s|] && t == t[..|t|];
  }

  /** The first n lines of p lead to finished nodes only. */
  ghost predicate LinesDone<T(!new)>(g: Graph<T>, closure: seq<T>, p: T, n: nat) {
    forall k :: 0 <= k < n <= |g.steps(p)| && g.steps(p)[k].Next? ==> g.steps(p)[k].target in closure
  }

  ghost predicate PassedAt<T(!new)>(g: Graph<T>, closure: seq<T>, s: seq<T>, i: nat, n: nat)
    requires i + 1 < |s|
  {
    && n < |g.steps(s[i])| && g.steps(s[i])[n] == Next(s[i + 1])
    && LinesDone(g, closure, s[i], n)
  }

  ghost predicate Passed<T(!new)>(g: Graph<T>, closure: seq<T>, s: seq<T>, lines: seq<nat>) {
    |lines| + 1 == |s| && forall i :: 0 <= i < |lines| ==> PassedAt(g, closure, s, i, lines[i])
  }

  lemma PassedGrows<T(!new)>(g: Graph<T>, closure: seq<T>, s: seq<T>, lines: seq<nat>, n: nat, p: T)
    requires Passed(g, closure, s, lines) && n < |g.steps(s[|s| - 1])| && g.steps(s[|s| - 1])[n] == Next(p)
    requires LinesDone(g, closure, s[|s| - 1], n)
    ensures Passed(g, closure, s + [p], lines + [n])
  {
    var t, all := s + [p], lines + [n];
    forall i | 0 <= i < |all| ensures PassedAt(g, closure, t, i, all[i]) {
      if i < |lines| { assert PassedAt(g, closure, s, i, lines[i]); }
    }
  }

  lemma PassedStays<T(!new)>(g: Graph<T>, closure: seq<T>, more: seq<T>, s: seq<T>, lines: seq<nat>)
    requires Passed(g, closure, s, lines) && closure <= more
    ensures Passed(g, more, s, lines)
  {
    forall i | 0 <= i < |lines| ensures PassedAt(g, more, s, i, lines[i]) {
      assert PassedAt(g, closure, s, i, lines[i]);
      assert forall x :: x in closure ==> x in more;
    }
  }

  /** A node that is not finished is met along its first chain. */
  lemma FirstVisit<T(!new)>(g: Graph<T>, entry: T, closure: seq<T>, s: seq<T>, lines: seq<nat>)
    requires Settled(g, closure) && Chain(g, entry, s) && Passed(g, closure, s, lines) && s[|s| - 1] !in closure
    ensures First(g, entry, s)
  {
    var end := s[|s| - 1];
    forall i: nat | i + 1 < |s| ensures FirstAt(g, s, i) {
      assert PassedAt(g, closure, s, i, lines[i]);
      var steps := g.steps(s[i]);
      forall k | 0 <= k < lines[i] && steps[k].Next? ensures !Reachable(g, steps[k].target, end) {
        if Reachable(g, steps[k].target, end) { Confined(g, closure, steps[k].target, end); }
      }
    }
  }

  /** The first chain to the node leaves room for what the node includes. */
  ghost predicate Shallow<T(!new)>(g: Graph<T>, lim: Limits, entry: T, p: T) {
    exists s :: First(g, entry, s) && s[|s| - 1] == p && (Includes(g, p) ==> |s| < lim.depth)
  }

  ghost predicate AllShallow<T(!new)>(g: Graph<T>, lim: Limits, entry: T, s: seq<T>) {
    forall p :: p in s ==> Shallow(g, lim, entry, p)
  }

  // ---------------------------------------------------------------- closures

  lemma ReachableGrows<T(!new)>(g: Graph<T>, entry: T)
    ensures entry in Found(g, entry)
    ensures forall p, q :: p in Found(g, entry) && Edge(g, p, q) ==> q in Found(g, entry)
  {
    assert Chain(g, entry, [entry]);
    assert [entry][|[entry]| - 1] == entry;
    forall p, q | p in Found(g, entry) && Edge(g, p, q) ensures q in Found(g, entry) {
      var s :| Chain(g, entry, s) && s[|s| - 1] == p;
      ChainGrows(g, entry, s, q);
      assert (s + [q])[|s + [q]| - 1] == q;
    }
  }

  /** A settled list of reachable nodes that contains the entry holds exactly the
      reachable nodes. */
  lemma SettledIsClosure<T(!new)>(g: Graph<T>, entry: T, order: seq<T>, p: T)
    requires Settled(g, order) && entry in order && Among(Found(g, entry), order)
    ensures p in order <==> Reachable(g, entry, p)
  {
    if Reachable(g, entry, p) {
      var s :| Chain(g, entry, s) && s[|s| - 1] == p;
      SettledAcyclic(g, entry, order, s);
    }
  }

  lemma ShallowFirst<T(!new)>(g: Graph<T>, lim: Limits, entry: T, order: seq<T>, s: seq<T>)
    requires Settled(g, order) && entry in order && AllShallow(g, lim, entry, order)
    requires First(g, entry, s) && Includes(g, s[|s| - 1])
    ensures |s| < lim.depth
  {
    SettledAcyclic(g, entry, order, s);
    assert Shallow(g, lim, entry, s[|s| - 1]);
    var t :| First(g, entry, t) && t[|t| - 1] == s[|s| - 1] && |t| < lim.depth;
    FirstUnique(g, entry, order, s, t);
  }

  /** A settled list within the limits leaves no refusal a reason. */
  lemma SettledIsClear<T(!new)>(g: Graph<T>, lim: Limits, entry: T, order: seq<T>, problem: Problem<T>)
    requires Settled(g, order) && entry in order && Among(Found(g, entry), order)
    requires |order| <= lim.files && Bytes(g.size, order) <= lim.totalBytes
    requires problem.TooDeep? ==> lim.depth > 0 && AllShallow(g, lim, entry, order)
    ensures !Real(g, lim, entry, problem)
  {
    var reach := Found(g, entry);
    forall p ensures p in order <==> p in reach { SettledIsClosure(g, entry, order, p); }
    match problem
    case TooDeep =>
      forall s | First(g, entry, s) && Includes(g, s[|s| - 1]) ensures |s| < lim.depth {
        ShallowFirst(g, lim, entry, order, s);
      }
    case Cycle =>
      forall s | Chain(g, entry, s) ensures Distinct(s) { SettledAcyclic(g, entry, order, s); }
    case TooManyFiles =>
      forall s | Among(reach, s) ensures |s| <= lim.files { DistinctWithin(s, order); }
    case TooManyBytes =>
      forall s | Among(reach, s) ensures Bytes(g.size, s) <= lim.totalBytes { BytesWithin(g.size, s, order); }
    case Unusable(p) =>
  }

  // ---------------------------------------------------------------- colouring

  /** Finished nodes are black; those under inspection are grey. */
  ghost predicate Painted<T(!new)>(state: map<T, Colour>, closure: seq<T>, stack: seq<T>) {
    && Distinct(closure) && Distinct(stack)
    && (forall p :: p in state <==> p in closure || p in stack)
    && (forall p :: p in closure ==> state[p] == Black)
    && (forall p :: p in stack ==> state[p] == Grey)
  }

  /** The finished nodes are settled; those under inspection, outermost first,
      form a chain. */
  ghost predicate Coloured<T(!new)>(g: Graph<T>, entry: T, reach: iset<T>, state: map<T, Colour>, closure: seq<T>, stack: seq<T>) {
    && Painted(state, closure, stack)
    && (stack != [] ==> Chain(g, entry, stack))
    && (forall p :: p in state ==> p in reach)
    && Settled(g, closure)
  }

  lemma DistinctJoin<T(!new)>(state: map<T, Colour>, closure: seq<T>, stack: seq<T>)
    requires Painted(state, closure, stack)
    ensures Distinct(closure + stack) && |state| == |closure| + |stack|
  {
    var all := closure + stack;
    forall i, j | 0 <= i < j < |all| ensures all[i] != all[j] {
      if i < |closure| <= j { assert closure[i] in closure && stack[j - |closure|] in stack; }
    }
    DistinctCount(all);
    assert state.Keys == (set p | p in all);
  }

  lemma Opened<T(!new)>(g: Graph<T>, entry: T, reach: iset<T>, state: map<T, Colour>, closure: seq<T>, stack: seq<T>, p: T)
    requires Coloured(g, entry, reach, state, closure, stack) && p !in state
    requires Chain(g, entry, stack + [p]) && p in reach
    ensures Coloured(g, entry, reach, state[p := Grey], closure, stack + [p])
  {
    DistinctGrows(stack, p);
    assert Painted(state[p := Grey], closure, stack + [p]);
  }

  lemma SettledGrows<T(!new)>(g: Graph<T>, closure: seq<T>, p: T)
    requires Settled(g, closure) && p !in closure
    requires Usable(g, p) && forall q :: Edge(g, p, q) ==> q in closure
    ensures Settled(g, closure + [p])
  {
    var after := closure + [p];
    forall i, q | 0 <= i < |after| && Edge(g, after[i], q) ensures q in after[..i] {
      assert after[..i] == closure[..i];
      assert i == |closure| ==> closure[..i] == closure;
    }
  }

  lemma Closed<T(!new)>(g: Graph<T>, entry: T, reach: iset<T>, state: map<T, Colour>, closure: seq<T>, stack: seq<T>, p: T)
    requires Coloured(g, entry, reach, state, closure, stack + [p])
    requires Usable(g, p) && forall q :: Edge(g, p, q) ==> q in closure
    ensures Coloured(g, entry, reach, state[p := Black], closure + [p], stack)
  {
    var all := stack + [p];
    assert all[|stack|] == p && all[..|stack|] == stack && p in all;
    assert forall i :: 0 <= i < |stack| ==> stack[i] == all[i];
    SettledGrows(g, closure, p);
  }

  /** One node more than the lists hold. */
  lemma ExtraNode<T(!new)>(g: Graph<T>, entry: T, reach: iset<T>, state: map<T, Colour>, closure: seq<T>, stack: seq<T>, p: T)
    requires Coloured(g, entry, reach, state, closure, stack) && p !in state && p in reach
    ensures Among(reach, closure + stack + [p])
    ensures Bytes(g.size, closure + stack + [p]) == Bytes(g.size, closure) + Bytes(g.size, stack) + g.size(p)
  {
    DistinctJoin(state, closure, stack);
    DistinctGrows(closure + stack, p);
    BytesConcat(g.size, closure, stack);
    BytesGrow(g.size, closure + stack, p);
  }

  lemma DeepIsShown<T(!new)>(g: Graph<T>, lim: Limits, entry: T, reach: iset<T>, stack: seq<T>, p: T)
    requires |stack| == lim.depth && (stack != [] ==> First(g, entry, stack) && Edge(g, stack[|stack| - 1], p))
    ensures Shown(g, lim, entry, reach, TooDeep)
  {
    if stack != [] {
      var steps := g.steps(stack[|stack| - 1]);
      var i :| 0 <= i < |steps| && steps[i] == Next(p);
      assert Includes(g, stack[|stack| - 1]);
    }
  }

  lemma CycleIsShown<T(!new)>(g: Graph<T>, lim: Limits, entry: T, reach: iset<T>, stack: seq<T>, p: T)
    requires Chain(g, entry, stack + [p]) && p in stack
    ensures Shown(g, lim, entry, reach, Cycle)
  {
    var chain := stack + [p];
    var k :| 0 <= k < |stack| && stack[k] == p;
    assert chain[k] == chain[|stack|];
    assert Chain(g, entry, chain) && !Distinct(chain);
  }

  // ---------------------------------------------------------------- the walk

  class Walker<T(==, !new)> {
    const g: Graph<T>
    const lim: Limits
    ghost const entry: T
    ghost const reach: iset<T>
    var state: map<T, Colour>
    var closure: seq<T>
    var totalBytes: nat

    constructor (g: Graph<T>, lim: Limits, entry: T)
      ensures this.g == g && this.lim == lim && this.entry == entry && this.reach == Found(g, entry)
      ensures Good([])
    {
      this.g, this.lim, this.entry, this.reach := g, lim, entry, Found(g, entry);
      state, closure, totalBytes := map[], [], 0;
      new;
      ReachableGrows(g, entry);
    }

    /** `stack` holds the files under inspection, outermost first. */
    ghost predicate Good(stack: seq<T>)
      reads this
    {
      && Coloured(g, entry, reach, state, closure, stack)
      && AllShallow(g, lim, entry, closure)
      && |closure| + |stack| <= lim.files
      && totalBytes == Bytes(g.size, closure) + Bytes(g.size, stack) <= lim.totalBytes
      && entry in reach && forall p, q :: p in reach && Edge(g, p, q) ==> q in reach
    }

    /** The stack is a first chain, and its last file is read up to the line
        that includes p; lines[i] is where stack[i] has been left. */
    ghost predicate Called(stack: seq<T>, lines: seq<nat>, p: T)
      reads this
    {
      && Passed(g, closure, stack + [p], lines)
      && if stack == [] then p == entry else First(g, entry, stack) && Edge(g, stack[|stack| - 1], p)
    }

    /** One visit. On success the file and everything below it are finished; a
        refusal names something that is really wrong. */
    method Visit(p: T, depth: nat, ghost stack: seq<T>, ghost lines: seq<nat>) returns (err: Option<Problem<T>>)
      requires Good(stack) && Called(stack, lines, p) && depth == |stack| + 1 && depth <= lim.depth + 1
      modifies this
      ensures err.None? ==> Good(stack) && p in closure && old(closure) <= closure && depth <= lim.depth
      ensures err.Some? ==> Shown(g, lim, entry, reach, err.value)
      decreases lim.depth + 1 - depth, 2
    {
      ChainGrows(g, entry, stack, p);
      if depth > lim.depth {
        DeepIsShown(g, lim, entry, reach, stack, p);
        return Some(TooDeep);
      }
      if p in state {
        if state[p] == Grey {
          CycleIsShown(g, lim, entry, reach, stack, p);
          return Some(Cycle);
        }
        return None;
      }
      FirstVisit(g, entry, closure, stack + [p], lines);
      err := Inspect(p, depth, stack, lines);
    }

    /** A file seen for the first time: claimed, read, scanned and finished. */
    method Inspect(p: T, depth: nat, ghost stack: seq<T>, ghost lines: seq<nat>) returns (err: Option<Problem<T>>)
      requires Good(stack) && depth == |stack| + 1 <= lim.depth
      requires p !in state && p in reach && First(g, entry, stack + [p]) && Passed(g, closure, stack + [p], lines)
      modifies this
      ensures err.None? ==> Good(stack) && p in closure && old(closure) <= closure
      ensures err.Some? ==> Shown(g, lim, entry, reach, err.value)
      decreases lim.depth + 1 - depth, 1
    {
      err := Claim(p, stack);
      if err.Some? { return; }
      err := VisitLines(p, depth, stack + [p], lines);
      if err.Some? { return; }
      Finish(p, stack);
    }

    /** Colours the file grey, reads it and charges its bytes. */
    method Claim(p: T, ghost stack: seq<T>) returns (err: Option<Problem<T>>)
      requires Good(stack) && p !in state && p in reach && Chain(g, entry, stack + [p])
      modifies this
      ensures err.None? ==> Good(stack + [p]) && closure == old(closure) && g.readable(p)
      ensures err.Some? ==> Shown(g, lim, entry, reach, err.value)
    {
      DistinctJoin(state, closure, stack);
      ExtraNode(g, entry, reach, state, closure, stack, p);
      if |state| >= lim.files {
        return Some(TooManyFiles);
      }
      Opened(g, entry, reach, state, closure, stack, p);
      state := state[p := Grey];
      if !g.readable(p) {
        return Some(Unusable(p));
      }
      if g.size(p) > lim.totalBytes - totalBytes {
        return Some(TooManyBytes);
      }
      totalBytes := totalBytes + g.size(p);
      BytesGrow(g.size, stack, p);
      return None;
    }

    /** Colours the file black and appends it to the closure. */
    method Finish(p: T, ghost stack: seq<T>)
      requires Good(stack + [p]) && Usable(g, p) && forall q :: Edge(g, p, q) ==> q in closure
      requires First(g, entry, stack + [p]) && (Includes(g, p) ==> |stack| + 1 < lim.depth)
      modifies this
      ensures Good(stack) && closure == old(closure) + [p]
    {
      Closed(g, entry, reach, state, closure, stack, p);
      BytesGrow(g.size, closure, p);
      BytesGrow(g.size, stack, p);
      assert (stack + [p])[|stack + [p]| - 1] == p;
      assert Shallow(g, lim, entry, p);
      state := state[p := Black];
      closure := closure + [p];
    }

    method VisitLines(p: T, depth: nat, ghost chain: seq<T>, ghost lines: seq<nat>) returns (err: Option<Problem<T>>)
      requires chain != [] && chain[|chain| - 1] == p && depth == |chain| <= lim.depth
      requires Good(chain) && First(g, entry, chain) && Passed(g, closure, chain, lines) && g.readable(p)
      modifies this
      ensures err.None? ==> Good(chain) && old(closure) <= closure && Usable(g, p)
      ensures err.None? ==> forall q :: Edge(g, p, q) ==> q in closure
      ensures err.None? ==> (Includes(g, p) ==> depth < lim.depth)
      ensures err.Some? ==> Shown(g, lim, entry, reach, err.value)
      decreases lim.depth + 1 - depth, 0
    {
      var steps := g.steps(p);
      for i := 0 to |steps|
        invariant Good(chain) && old(closure) <= closure
        invariant forall j :: 0 <= j < i ==> steps[j] != Wrong
        invariant forall j :: 0 <= j < i && steps[j].Next? ==> steps[j].target in closure && depth < lim.depth
      {
        match steps[i]
        case Wrong => return Some(Unusable(p));
        case Fine =>
        case Next(q) =>
          PassedStays(g, old(closure), closure, chain, lines);
          PassedGrows(g, closure, chain, lines, i, q);
          assert steps[i] == Next(q);
          err := Visit(q, depth + 1, chain, lines + [i]);
          if err.Some? { return; }
      }
      return None;
    }
  }
}
