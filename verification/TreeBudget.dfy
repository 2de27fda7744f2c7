/** The budgeted walk over a cache tree: one mutable budget is threaded through
    the recursion and cuts it off early, and still decides exactly what counting
    the flattened tree decides. */
module TreeBudget {
  import opened Basics

  const MAX_FILE_BYTES := 2 * 1024 * 1024 * 1024
  const MAX_ENTRIES := 65_536
  const MAX_DEPTH := 256
  const MAX_TOTAL_BYTES := 8 * 1024 * 1024 * 1024

  datatype Tree =
    | Folder(private: bool, children: seq<Tree>)
    | Regular(private: bool, size: int)
    | Link
    | Special

  // ---------------------------------------------------------------- the reference

  /** A node with the number of directories above it. */
  datatype Entry = Entry(node: Tree, depth: nat)
  datatype Limits = Limits(entries: int, depth: int, bytes: int)

  function Flatten(t: Tree, depth: nat): (es: seq<Entry>)
    ensures |es| >= 1
    decreases t, 0
  {
    if t.Folder? then [Entry(t, depth)] + FlattenAll(t.children, depth + 1) else [Entry(t, depth)]
  }

  function FlattenAll(ts: seq<Tree>, depth: nat): (es: seq<Entry>)
    ensures |es| >= |ts|
    decreases ts
  {
    if ts == [] then [] else FlattenAll(ts[..|ts| - 1], depth) + Flatten(ts[|ts| - 1], depth)
  }

  predicate EntryOk(e: Entry, maxDepth: int) {
    match e.node
    case Folder(private, _) => private && e.depth <= maxDepth
    case Regular(private, size) => private && 0 <= size <= MAX_FILE_BYTES
    case Link => false
    case Special => false
  }

  function SizeOf(t: Tree): (n: int) {
    if t.Regular? then t.size else 0
  }

  function TotalBytes(es: seq<Entry>): (n: int) {
    if es == [] then 0 else TotalBytes(es[..|es| - 1]) + SizeOf(es[|es| - 1].node)
  }

  /** The simple count: every node is fine and the totals meet the limits. */
  predicate Fits(es: seq<Entry>, used: nat, bytes: nat, lim: Limits) {
    && used + |es| <= lim.entries
    && bytes + TotalBytes(es) <= lim.bytes
    && forall e :: e in es ==> EntryOk(e, lim.depth)
  }

  lemma {:induction false} TotalConcat(a: seq<Entry>, b: seq<Entry>)
    ensures TotalBytes(a + b) == TotalBytes(a) + TotalBytes(b)
    decreases |b|
  {
    if b == [] {
      assert a + b == a;
    } else {
      TotalConcat(a, b[..|b| - 1]);
      assert (a + b)[..|a + b| - 1] == a + b[..|b| - 1];
    }
  }

  lemma {:induction false} TotalNonNegative(es: seq<Entry>, maxDepth: int)
    requires forall e :: e in es ==> EntryOk(e, maxDepth)
    ensures TotalBytes(es) >= 0
  {
    if es != [] {
      TotalNonNegative(es[..|es| - 1], maxDepth);
      assert es[|es| - 1] in es;
    }
  }

  /** Spending the budget on one part and then on the other is spending it on
      both, so a cut-off at any point agrees with the whole. */
  lemma FitsSplit(a: seq<Entry>, b: seq<Entry>, used: nat, bytes: nat, lim: Limits)
    ensures Fits(a, used, bytes, lim) ==> TotalBytes(a) >= 0
    ensures Fits(a + b, used, bytes, lim) ==> Fits(a, used, bytes, lim)
    ensures Fits(a, used, bytes, lim) ==>
      (Fits(a + b, used, bytes, lim) <==> Fits(b, used + |a|, bytes + TotalBytes(a), lim))
  {
    TotalConcat(a, b);
    assert forall e :: e in a + b <==> e in a || e in b;
    if forall e :: e in a ==> EntryOk(e, lim.depth) { TotalNonNegative(a, lim.depth); }
    if forall e :: e in b ==> EntryOk(e, lim.depth) { TotalNonNegative(b, lim.depth); }
  }

  lemma FlattenAllGrows(ts: seq<Tree>, depth: nat, i: nat)
    requires i < |ts|
    ensures FlattenAll(ts[..i + 1], depth) == FlattenAll(ts[..i], depth) + Flatten(ts[i], depth)
  {
    assert ts[..i + 1][..i] == ts[..i];
  }

  lemma {:induction false} FlattenAllSplit(ts: seq<Tree>, depth: nat, i: nat)
    requires i <= |ts|
    ensures FlattenAll(ts[..i], depth) <= FlattenAll(ts, depth)
    decreases |ts| - i
  {
    if i == |ts| {
      assert ts[..i] == ts;
    } else {
      FlattenAllGrows(ts, depth, i);
      FlattenAllSplit(ts, depth, i + 1);
    }
  }

  /** One child more: it fits what is left exactly when the longer prefix fits. */
  lemma ChildFits(before: seq<Entry>, child: seq<Entry>, more: seq<Entry>, used: nat, bytes: nat, lim: Limits)
    requires Fits(before, used, bytes, lim) && more == before + child
    ensures |more| == |before| + |child| && TotalBytes(more) == TotalBytes(before) + TotalBytes(child) && TotalBytes(before) >= 0
    ensures Fits(more, used, bytes, lim) <==> Fits(child, used + |before|, bytes + TotalBytes(before), lim)
  {
    FitsSplit(before, child, used, bytes, lim);
    TotalConcat(before, child);
  }

  /** What does not fit a prefix does not fit the whole. */
  lemma PrefixFits(ts: seq<Tree>, depth: nat, i: nat, used: nat, bytes: nat, lim: Limits)
    requires i <= |ts| && Fits(FlattenAll(ts, depth), used, bytes, lim)
    ensures Fits(FlattenAll(ts[..i], depth), used, bytes, lim)
  {
    FlattenAllSplit(ts, depth, i);
    var a, all := FlattenAll(ts[..i], depth), FlattenAll(ts, depth);
    assert all == a + all[|a|..];
    FitsSplit(a, all[|a|..], used, bytes, lim);
  }

  // ---------------------------------------------------------------- the walk

  class Budget {
    var entries: nat
    var bytes: nat
    const lim: Limits

    constructor (lim: Limits)
      requires lim.entries > 0 && lim.bytes >= 0
      ensures this.lim == lim && entries == 0 && bytes == 0
    {
      this.lim, entries, bytes := lim, 0, 0;
    }

    predicate Within()
      reads this
    {
      entries <= lim.entries && bytes <= lim.bytes
    }

    /** Charges one node. The byte counter never passes its limit. */
    method Add(node: Tree) returns (ok: bool)
      requires Within()
      modifies this
      ensures bytes <= lim.bytes && entries == old(entries) + 1
      ensures ok <==> old(entries) < lim.entries && (node.Regular? ==> 0 <= node.size <= MAX_FILE_BYTES && old(bytes) + node.size <= lim.bytes)
      ensures ok ==> bytes == old(bytes) + SizeOf(node)
    {
      entries := entries + 1;
      if entries > lim.entries { return false; }
      if node.Regular? {
        if node.size < 0 || node.size > MAX_FILE_BYTES { return false; }
        if node.size > lim.bytes - bytes { return false; }
        bytes := bytes + node.size;
      }
      return true;
    }
  }

  /** Lists a directory unless it has more entries than the limit. */
  function ReadDirBounded(children: seq<Tree>, maxEntries: nat): (r: Option<seq<Tree>>) {
    if |children| > maxEntries then None else Some(children)
  }

  method Walk(t: Tree, budget: Budget, depth: nat) returns (ok: bool)
    requires budget.Within()
    modifies budget
    ensures budget.bytes <= budget.lim.bytes
    ensures ok <==> t.Folder? && Fits(Flatten(t, depth), old(budget.entries), old(budget.bytes), budget.lim)
    ensures ok ==> budget.Within()
    ensures ok ==> budget.entries == old(budget.entries) + |Flatten(t, depth)|
    ensures ok ==> budget.bytes == old(budget.bytes) + TotalBytes(Flatten(t, depth))
    decreases t, 1
  {
    ghost var used, bytes, lim := budget.entries, budget.bytes, budget.lim;
    if !t.Folder? { return false; }
    ghost var self := [Entry(t, depth)];
    FitsSplit(self, FlattenAll(t.children, depth + 1), used, bytes, lim);
    TotalConcat(self, FlattenAll(t.children, depth + 1));
    assert self[0] in self && TotalBytes(self) == TotalBytes([]) + 0;
    if depth > budget.lim.depth || !t.private { return false; }
    ok := budget.Add(t);
    if !ok { return false; }
    var remaining := budget.lim.entries - budget.entries;
    var readLimit := if remaining > 1 then remaining else 1;
    var listed := ReadDirBounded(t.children, readLimit);
    if listed.None? { return false; }
    if |listed.value| > remaining { return false; }
    ok := WalkChildren(t, budget, depth);
  }

  method WalkChildren(t: Tree, budget: Budget, depth: nat) returns (ok: bool)
    requires t.Folder? && budget.Within()
    modifies budget
    ensures budget.bytes <= budget.lim.bytes
    ensures ok <==> Fits(FlattenAll(t.children, depth + 1), old(budget.entries), old(budget.bytes), budget.lim)
    ensures ok ==> budget.Within()
    ensures ok ==> budget.entries == old(budget.entries) + |FlattenAll(t.children, depth + 1)|
    ensures ok ==> budget.bytes == old(budget.bytes) + TotalBytes(FlattenAll(t.children, depth + 1))
    decreases t, 0
  {
    ghost var used, bytes, lim := budget.entries, budget.bytes, budget.lim;
    for i := 0 to |t.children|
      invariant budget.Within()
      invariant Fits(FlattenAll(t.children[..i], depth + 1), used, bytes, lim)
      invariant budget.entries == used + |FlattenAll(t.children[..i], depth + 1)|
      invariant budget.bytes == bytes + TotalBytes(FlattenAll(t.children[..i], depth + 1))
    {
      ghost var before, more := FlattenAll(t.children[..i], depth + 1), FlattenAll(t.children[..i + 1], depth + 1);
      FlattenAllGrows(t.children, depth + 1, i);
      ChildFits(before, Flatten(t.children[i], depth + 1), more, used, bytes, lim);
      ok := WalkChild(t.children[i], budget, depth + 1);
      if !ok {
        if Fits(FlattenAll(t.children, depth + 1), used, bytes, lim) { PrefixFits(t.children, depth + 1, i + 1, used, bytes, lim); }
        return false;
      }
    }
    assert t.children[..|t.children|] == t.children;
    return true;
  }

  method WalkChild(child: Tree, budget: Budget, depth: nat) returns (ok: bool)
    requires budget.Within()
    modifies budget
    ensures budget.bytes <= budget.lim.bytes
    ensures ok <==> Fits(Flatten(child, depth), old(budget.entries), old(budget.bytes), budget.lim)
    ensures ok ==> budget.Within()
    ensures ok ==> budget.entries == old(budget.entries) + |Flatten(child, depth)|
    ensures ok ==> budget.bytes == old(budget.bytes) + TotalBytes(Flatten(child, depth))
    decreases child, 2
  {
    assert Entry(child, depth) in Flatten(child, depth);
    match child
    case Link => return false;
    case Special => return false;
    case Folder(_, _) => ok := Walk(child, budget, depth);
    case Regular(private, _) =>
      assert TotalBytes([Entry(child, depth)]) == TotalBytes([]) + child.size;
      if !private { return false; }
      ok := budget.Add(child);
  }

  /** Accepts exactly the trees whose flattened form meets the limits. */
  method ValidateTreeBounded(t: Tree, lim: Limits) returns (ok: bool)
    ensures ok <==> lim.entries > 0 && lim.depth >= 0 && lim.bytes >= 0 && t.Folder? && Fits(Flatten(t, 0), 0, 0, lim)
  {
    if lim.entries <= 0 || lim.depth < 0 || lim.bytes < 0 { return false; }
    var budget := new Budget(lim);
    ok := Walk(t, budget, 0);
  }

  /** A cache tree, under the limits of the cache. */
  method ValidateTree(t: Tree) returns (ok: bool)
    ensures ok <==> t.Folder? && Fits(Flatten(t, 0), 0, 0, Limits(MAX_ENTRIES, MAX_DEPTH, MAX_TOTAL_BYTES))
  {
    ok := ValidateTreeBounded(t, Limits(MAX_ENTRIES, MAX_DEPTH, MAX_TOTAL_BYTES));
  }
}
