/** Two designs at the nesting limit. The limit counts levels of the first visit
    and of every include met there, so it bounds neither the longest chain nor
    the level at which a file was read. */
module NestingExamples {
  import opened Basics
  import opened IncludeGraph

  /** 0 includes 1 and 2, 2 includes 1, and 1 includes 3. */
  function TailDone(): (g: Graph<nat>) {
    Graph(_ => true, _ => 1, (p: nat) => if p == 0 then [Next(1), Next(2)] else if p == 1 then [Next(3)] else if p == 2 then [Next(1)] else [])
  }

  /** 0 includes 1 and 2, and 2 includes 1. */
  function SharedTwice(): (g: Graph<nat>) {
    Graph(_ => true, _ => 1, (p: nat) => if p == 0 then [Next(1), Next(2)] else if p == 2 then [Next(1)] else [])
  }

  lemma ChainOf(g: Graph<nat>, a: nat, b: nat)
    requires Edge(g, a, b)
    ensures Chain(g, a, [a, b]) && Reachable(g, a, b)
  {
    ChainGrows(g, a, [], a);
    ChainGrows(g, a, [a], b);
    assert [] + [a] == [a] && [a] + [b] == [a, b];
    assert [a, b][|[a, b]| - 1] == b;
  }

  lemma ReachOn(g: Graph<nat>, a: nat, b: nat, c: nat)
    requires Reachable(g, a, b) && Edge(g, b, c)
    ensures Reachable(g, a, c)
  {
    ReachableGrows(g, a);
    assert b in Found(g, a);
    assert c in Found(g, a);
  }

  /** Reachable files of one byte each, every include before its includer. */
  ghost predicate Listing(g: Graph<nat>, s: seq<nat>) {
    Settled(g, s) && Bytes(g.size, s) == |s| && Among(Found(g, 0), s)
  }

  lemma Listed(g: Graph<nat>, s: seq<nat>, p: nat)
    requires Listing(g, s) && p !in s && Usable(g, p) && (forall q :: Edge(g, p, q) ==> q in s)
    requires g.size(p) == 1 && Reachable(g, 0, p)
    ensures Listing(g, s + [p])
  {
    SettledGrows(g, s, p);
    BytesGrow(g.size, s, p);
  }

  lemma FirstPair(g: Graph<nat>, done: seq<nat>, a: nat, b: nat, n: nat)
    requires Settled(g, done) && b !in done && n < |g.steps(a)| && g.steps(a)[n] == Next(b) && LinesDone(g, done, a, n)
    ensures First(g, a, [a, b])
  {
    ChainOf(g, a, b);
    assert PassedAt(g, done, [a, b], 0, n);
    FirstVisit(g, a, done, [a, b], [n]);
  }

  lemma FirstTriple(g: Graph<nat>, done: seq<nat>, a: nat, b: nat, c: nat, n: nat)
    requires Settled(g, done) && c !in done && n < |g.steps(a)| && g.steps(a)[n] == Next(b) && LinesDone(g, done, a, n)
    requires |g.steps(b)| > 0 && g.steps(b)[0] == Next(c)
    ensures First(g, a, [a, b, c])
  {
    ChainOf(g, a, b);
    ChainGrows(g, a, [a, b], c);
    assert [a, b] + [c] == [a, b, c];
    assert PassedAt(g, done, [a, b, c], 0, n) && PassedAt(g, done, [a, b, c], 1, 0);
    FirstVisit(g, a, done, [a, b, c], [n, 0]);
  }

  lemma EntryFirst(g: Graph<nat>, a: nat)
    ensures First(g, a, [a]) && Reachable(g, a, a)
  {
    ChainGrows(g, a, [], a);
    assert [] + [a] == [a];
    assert [a][|[a]| - 1] == a;
  }

  /** Within a listing, only nesting is left to decide. */
  lemma ListingClear(g: Graph<nat>, lim: Limits, s: seq<nat>, problem: Problem<nat>)
    requires Listing(g, s) && 0 in s && |s| <= lim.files && |s| <= lim.totalBytes
    requires problem.TooDeep? ==> lim.depth > 0 && AllShallow(g, lim, 0, s)
    ensures !Real(g, lim, 0, problem)
  {
    SettledIsClear(g, lim, 0, s, problem);
  }

  lemma ShallowAt(g: Graph<nat>, lim: Limits, s: seq<nat>, p: nat)
    requires First(g, 0, s) && s[|s| - 1] == p && (Includes(g, p) ==> |s| < lim.depth)
    ensures Shallow(g, lim, 0, p)
  {
  }

  // ---------------------------------------------------------------- accepted

  const LIMITS := Limits(10, 3, 100)

  /** A chain of four files passes a limit of three: 1 and 3 are finished before
      2 comes back to 1. */
  lemma LongChainAccepted()
    ensures Chain(TailDone(), 0, [0, 2, 1, 3]) && Accepts(TailDone(), LIMITS, 0)
  {
    var g := TailDone();
    ChainOf(g, 0, 2);
    ChainGrows(g, 0, [0, 2], 1);
    ChainGrows(g, 0, [0, 2, 1], 3);
    assert [0, 2] + [1] == [0, 2, 1] && [0, 2, 1] + [3] == [0, 2, 1, 3];
    TailListed();
    TailShallow();
    forall problem ensures !Real(g, LIMITS, 0, problem) {
      ListingClear(g, LIMITS, [3, 1] + [2] + [0], problem);
    }
  }

  lemma TailReached()
    ensures Reachable(TailDone(), 0, 1) && Reachable(TailDone(), 0, 3)
  {
    ChainOf(TailDone(), 0, 1);
    ReachOn(TailDone(), 0, 1, 3);
  }

  lemma TailEnd()
    ensures Listing(TailDone(), [3])
  {
    TailReached();
    Listed(TailDone(), [], 3);
    assert [] + [3] == [3];
  }

  lemma TailFinished()
    ensures Listing(TailDone(), [3, 1])
  {
    TailReached();
    TailEnd();
    Listed(TailDone(), [3], 1);
    assert [3] + [1] == [3, 1];
  }

  lemma TailListed()
    ensures Listing(TailDone(), [3, 1] + [2] + [0])
  {
    var g := TailDone();
    TailFinished();
    ChainOf(g, 0, 2);
    EntryFirst(g, 0);
    Listed(g, [3, 1], 2);
    Listed(g, [3, 1] + [2], 0);
  }

  lemma TailShallow()
    ensures AllShallow(TailDone(), LIMITS, 0, [3, 1] + [2] + [0])
  {
    EntryFirst(TailDone(), 0);
    ShallowAt(TailDone(), LIMITS, [0], 0);
    ShallowTail();
    ShallowBranch();
    AllFour(TailDone(), LIMITS);
  }

  lemma AllFour(g: Graph<nat>, lim: Limits)
    requires Shallow(g, lim, 0, 0) && Shallow(g, lim, 0, 1) && Shallow(g, lim, 0, 2) && Shallow(g, lim, 0, 3)
    ensures AllShallow(g, lim, 0, [3, 1] + [2] + [0])
  {
    assert forall p :: p in [3, 1] + [2] + [0] ==> p == 0 || p == 1 || p == 2 || p == 3;
  }

  lemma ShallowTail()
    ensures Shallow(TailDone(), LIMITS, 0, 1) && Shallow(TailDone(), LIMITS, 0, 3)
  {
    var g := TailDone();
    FirstPair(g, [], 0, 1, 0);
    ShallowAt(g, LIMITS, [0, 1], 1);
    FirstTriple(g, [], 0, 1, 3, 0);
    ShallowAt(g, LIMITS, [0, 1, 3], 3);
  }

  lemma ShallowBranch()
    ensures Shallow(TailDone(), LIMITS, 0, 2)
  {
    var g := TailDone();
    TailFinished();
    FirstPair(g, [3, 1], 0, 2, 1);
    ShallowAt(g, LIMITS, [0, 2], 2);
  }

  // ---------------------------------------------------------------- refused

  const TIGHT := Limits(10, 2, 100)

  /** A file that was read at level two is refused when 2 includes it again at
      level three, and that is the only thing wrong. */
  lemma SharedFileRefused()
    ensures First(SharedTwice(), 0, [0, 1]) && Real(SharedTwice(), TIGHT, 0, TooDeep)
    ensures forall problem: Problem<nat> :: !problem.TooDeep? ==> !Real(SharedTwice(), TIGHT, 0, problem)
  {
    var g := SharedTwice();
    SharedListed();
    FirstPair(g, [], 0, 1, 0);
    FirstPair(g, [1], 0, 2, 1);
    assert Includes(g, 2) by { assert g.steps(2)[0].Next?; }
    DeepAt(g, [0, 2]);
    forall problem: Problem<nat> | !problem.TooDeep? ensures !Real(g, TIGHT, 0, problem) {
      ListingClear(g, TIGHT, [1] + [2] + [0], problem);
    }
  }

  lemma DeepAt(g: Graph<nat>, s: seq<nat>)
    requires First(g, 0, s) && |s| == TIGHT.depth && Includes(g, s[|s| - 1])
    ensures Real(g, TIGHT, 0, TooDeep)
  {
  }

  lemma SharedListed()
    ensures Listing(SharedTwice(), [1]) && Listing(SharedTwice(), [1] + [2] + [0])
  {
    var g := SharedTwice();
    EntryFirst(g, 0);
    ChainOf(g, 0, 1);
    ChainOf(g, 0, 2);
    Listed(g, [], 1);
    assert [] + [1] == [1];
    Listed(g, [1], 2);
    Listed(g, [1] + [2], 0);
  }
}
