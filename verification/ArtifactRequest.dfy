/** What a caller asks for, and the checks that turn it into a sorted list of
    targets: portable, distinct when folded, aliasing no existing entry. */
module ArtifactRequest {
  import opened NameOrder
  import opened AtomicFiles
  import opened ArtifactNames
  import opened ArtifactDirectory
  import opened ArtifactResidue

  type Content = seq<Byte>

  // -------------------------------------------------------------- requests

  /** Every requested name, installed or removed. */
  function Requested(files: map<string, Content>, remove: seq<string>): set<string> {
    files.Keys + set s | s in remove
  }

  /** A removal must not repeat a name or name an installed artifact. */
  predicate RemovalsOk(installs: set<string>, remove: seq<string>) {
    && (forall s :: s in remove ==> s !in installs)
    && (forall i, j :: 0 <= i < j < |remove| ==> remove[i] != remove[j])
  }

  /** Portable names, pairwise distinct when folded, aliasing no entry. */
  predicate NamesOk(f: Files, names: set<string>) {
    && (forall s :: s in names ==> ValidTarget(s))
    && (forall s, t :: s in names && t in names && Lower(s) == Lower(t) ==> s == t)
    && (forall x, s :: x in f && x.User? && s in names && Lower(x.s) == Lower(s) ==> x.s == s)
  }

  /** What the caller must respect. */
  predicate RequestOk(f: Files, files: map<string, Content>, remove: seq<string>) {
    |files| + |remove| <= MAX_ITEMS && RemovalsOk(files.Keys, remove) && NamesOk(f, Requested(files, remove))
  }

  /** The directory the request asks for: named files have the given content,
      removed names are gone, every other entry is the very same file. */
  ghost predicate Reconciled(base: Files, f: Files, files: map<string, Content>, remove: seq<string>) {
    && UserOnly(f)
    && (forall s :: s in files ==> User(s) in f && f[User(s)].body == Bytes(files[s]))
    && (forall s :: s in remove ==> User(s) !in f)
    && (forall s :: s !in files && s !in remove ==> At(f, User(s)) == At(base, User(s)))
  }

  /** txValidateReconcileTargets. */
  method ValidateTargets(f: Files, files: map<string, Content>, remove: seq<string>)
    returns (ok: bool, names: seq<string>, deletes: set<string>)
    ensures ok <==> RequestOk(f, files, remove)
    ensures ok ==> StrictlySorted(names)
    ensures ok ==> deletes == set s | s in remove && User(s) in f
    ensures ok ==> Elements(names) == files.Keys + deletes && |names| <= |files| + |remove| <= MAX_ITEMS
  {
    names, deletes := [], {};
    if |files| > MAX_ITEMS || |remove| > MAX_ITEMS - |files| { return false, names, deletes; }
    ok, deletes := CollectRemovals(files.Keys, remove);
    if !ok { return; }
    var sorted := SortNames(files.Keys + deletes);
    assert Elements(sorted) == Requested(files, remove) == files.Keys + deletes;
    ok := CheckFolds(f, sorted);
    if !ok { return; }
    ghost var all := deletes;
    names, deletes := KeepExisting(f, sorted, deletes);
    KeptNames(f, files.Keys, remove, all, deletes);
    NamesBound(names, files.Keys, remove, deletes);
  }

  lemma NamesBound(names: seq<string>, installs: set<string>, remove: seq<string>, deletes: set<string>)
    requires StrictlySorted(names) && Elements(names) == installs + deletes
    requires forall s :: s in deletes ==> s in remove
    ensures |names| <= |installs| + |remove|
  {
    SortedSize(names);
    SubsetOfSeqSize(deletes, remove);
  }

  lemma {:induction false} SortedSize(names: seq<string>)
    requires StrictlySorted(names)
    ensures |Elements(names)| == |names|
  {
    if names != [] {
      var rest := names[1..];
      SortedSize(rest);
      forall s | s in rest ensures s != names[0] { LessTrichotomy(names[0], s); }
      assert Elements(names) == Elements(rest) + {names[0]};
    }
  }

  lemma {:induction false} SubsetOfSeqSize(s: set<string>, q: seq<string>)
    requires forall x :: x in s ==> x in q
    ensures |s| <= |q|
  {
    if q == [] {
      assert s == {};
    } else {
      SubsetOfSeqSize(s - {q[0]}, q[1..]);
    }
  }

  lemma KeptNames(f: Files, installs: set<string>, remove: seq<string>, all: set<string>, left: set<string>)
    requires RemovalsOk(installs, remove)
    requires all == set s | s in remove
    requires left == set s | s in all && User(s) in f
    ensures left == set s | s in remove && User(s) in f
    ensures installs + all - all + left == installs + left
  {
  }

  method CollectRemovals(installs: set<string>, remove: seq<string>) returns (ok: bool, deletes: set<string>)
    ensures ok <==> RemovalsOk(installs, remove)
    ensures ok ==> deletes == set s | s in remove
  {
    deletes := {};
    for i := 0 to |remove|
      invariant deletes == set s | s in remove[..i]
      invariant forall s :: s in remove[..i] ==> s !in installs
      invariant forall j, k :: 0 <= j < k < i ==> remove[j] != remove[k]
    {
      if remove[i] in installs || remove[i] in deletes { return false, deletes; }
      deletes := deletes + {remove[i]};
    }
    assert remove[..|remove|] == remove;
    ok := true;
  }

  ghost predicate FoldTable(folded: map<string, string>, names: set<string>) {
    && (forall s :: s in names ==> Lower(s) in folded && folded[Lower(s)] == s)
    && (forall z :: z in folded ==> folded[z] in names && Lower(folded[z]) == z)
  }

  /** The case-fold table rejects aliases among the names and with entries. */
  method CheckFolds(f: Files, sorted: seq<string>) returns (ok: bool)
    requires StrictlySorted(sorted)
    ensures ok <==> NamesOk(f, Elements(sorted))
  {
    var folded;
    ok, folded := BuildFolds(sorted);
    if !ok { return; }
    if x :| x in f && x.User? && Lower(x.s) in folded && folded[Lower(x.s)] != x.s {
      assert folded[Lower(x.s)] in Elements(sorted);
      return false;
    }
  }

  method BuildFolds(sorted: seq<string>) returns (ok: bool, folded: map<string, string>)
    requires StrictlySorted(sorted)
    ensures ok <==> NamesOk(map[], Elements(sorted))
    ensures ok ==> FoldTable(folded, Elements(sorted))
  {
    folded := map[];
    for i := 0 to |sorted|
      invariant forall s :: s in sorted[..i] ==> ValidTarget(s)
      invariant FoldTable(folded, Elements(sorted[..i]))
    {
      assert sorted[i] in Elements(sorted);
      if !ValidTarget(sorted[i]) { return false, folded; }
      if Lower(sorted[i]) in folded {
        var prior := folded[Lower(sorted[i])];
        assert prior in sorted[..i];
        LessTrichotomy(prior, sorted[i]);
        assert prior in Elements(sorted);
        return false, folded;
      }
      folded := folded[Lower(sorted[i]) := sorted[i]];
      assert Elements(sorted[..i + 1]) == Elements(sorted[..i]) + {sorted[i]};
    }
    assert sorted[..|sorted|] == sorted;
    ok := true;
  }

  /** A removal of a name that does not exist is dropped. */
  method KeepExisting(f: Files, sorted: seq<string>, deletes: set<string>) returns (kept: seq<string>, left: set<string>)
    requires StrictlySorted(sorted) && deletes <= Elements(sorted)
    ensures StrictlySorted(kept)
    ensures left == set s | s in deletes && User(s) in f
    ensures Elements(kept) == Elements(sorted) - deletes + left
  {
    kept, left := [], deletes;
    for i := 0 to |sorted|
      invariant StrictlySorted(kept)
      invariant forall s :: s in kept ==> s in sorted[..i]
      invariant forall s :: s in kept <==> s in sorted[..i] && (s !in deletes || User(s) in f)
      invariant forall s :: s in left <==> s in deletes && (s in sorted[..i] ==> User(s) in f)
    {
      forall s | s in kept ensures Less(s, sorted[i]) {}
      if sorted[i] !in deletes || User(sorted[i]) in f {
        kept := kept + [sorted[i]];
      } else {
        forall s | s in sorted[..i] ensures s != sorted[i] {
          LessTrichotomy(s, sorted[i]);
        }
        left := left - {sorted[i]};
      }
    }
    assert sorted[..|sorted|] == sorted;
  }
}
