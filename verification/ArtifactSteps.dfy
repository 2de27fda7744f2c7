/** How each namespace step of commit and recovery moves between residues. */
module ArtifactSteps {
  import opened AtomicFiles
  import opened ArtifactNames
  import opened ArtifactDirectory
  import opened ArtifactResidue

  /** A residue with no quarantine slot at all. */
  ghost predicate Quiet(d: ArtifactDir, tx: Tx, st: Station, sts: seq<ItemState>) {
    d.slots == map[] && !st.Swapping? && !st.Boxed? && FilesOk(tx, st, sts, d.files)
  }

  lemma QuietRecoverable(d: ArtifactDir, tx: Tx, st: Station, sts: seq<ItemState>)
    requires Quiet(d, tx, st, sts)
    ensures Residue(d, tx, st, sts) && Recoverable(d, tx, PhaseOf(st))
  {
    ResolvedPlain(d);
    assert Residue(d, tx, st, sts);
  }

  lemma CreatedStays(tx: Tx, h: Body -> Digest, f: Files, i: nat, g: Files, next: ItemState)
    requires WellFormed(tx, h) && Created(tx, f) && i < |tx.items|
    requires forall x :: x !in NamesOf(tx, i) ==> At(g, x) == At(f, x)
    requires ItemAt(tx, g, i, next)
    ensures Created(tx, g)
  {
    assert ItemOk(tx, h, i);
    forall x | x in g && !x.User? && !x.OldBackup? ensures Stranger(tx.base, g[x]) {
      if x !in NamesOf(tx, i) { assert At(g, x) == At(f, x); }
    }
  }

  lemma AuthorityStays(tx: Tx, f: Files, g: Files, home: Name, p: Phase, i: nat)
    requires Authority(tx, f, home, p) && i < |tx.items| && (home.LiveJournal? || home.RecoveryJournal?)
    requires forall x :: x !in NamesOf(tx, i) ==> At(g, x) == At(f, x)
    ensures Authority(tx, g, home, p)
  {
    assert At(g, home) == At(f, home);
    forall x | x in g && (x.LiveJournal? || x.RecoveryJournal? || x.RetiredJournal?) ensures x == home {
      assert At(g, x) == At(f, x);
    }
  }

  /** One item changes state; the journal and everything else stay. */
  lemma Transit(tx: Tx, h: Body -> Digest, st: Station, f: Files, sts: seq<ItemState>, i: nat, g: Files, next: ItemState)
    requires WellFormed(tx, h) && (st.Live? || st.Isolated?) && FilesOk(tx, st, sts, f) && i < |sts|
    requires forall x :: x !in NamesOf(tx, i) ==> At(g, x) == At(f, x)
    requires ItemAt(tx, g, i, next) && Legal(st.phase, next)
    ensures FilesOk(tx, st, sts[i := next], g)
  {
    CreatedStays(tx, h, f, i, g, next);
    Advance(tx, h, f, sts, i, g, next);
    AuthorityStays(tx, f, g, if st.Live? then LiveJournal else RecoveryJournal, st.phase, i);
  }

  /** The journal moves between its live, recovery and retired homes. */
  lemma Rehome(tx: Tx, f: Files, sts: seq<ItemState>, a: Name, b: Name, p: Phase)
    requires Holds(tx, f, sts) && Authority(tx, f, a, p) && a != b
    requires b.LiveJournal? || b.RecoveryJournal? || b.RetiredJournal?
    requires a.LiveJournal? || a.RecoveryJournal? || a.RetiredJournal?
    ensures Holds(tx, Moved(f, a, b), sts) && Authority(tx, Moved(f, a, b), b, p)
  {
    Bystander(tx, f, Moved(f, a, b), sts);
  }

  lemma StageGone(tx: Tx, st: Station, f: Files, sts: seq<ItemState>, x: Name)
    requires FilesOk(tx, st, sts, f) && x.JournalStage? && (st == Settled(Prepared) || st == Live(Prepared) || st.Isolated?)
    ensures FilesOk(tx, st, sts, f - {x})
  {
    if !st.Settled? { Bystander(tx, f, f - {x}, sts); }
  }

  /** A finished transaction without reserved names is exactly its outcome. */
  lemma BareIsOutcome(tx: Tx, h: Body -> Digest, f: Files, p: Phase)
    requires WellFormed(tx, h) && forall x :: x in f ==> x.User?
    requires forall s :: At(f, User(s)) == At(Outcome(tx, p), User(s))
    ensures f == Outcome(tx, p)
  {
    var o := Outcome(tx, p);
    OutcomeUserOnly(tx, h, p);
    forall x ensures At(f, x) == At(o, x) {
      if x.User? { assert At(f, User(x.s)) == At(o, User(x.s)); }
    }
    assert f.Keys == o.Keys by {
      forall x ensures x in f <==> x in o { assert At(f, x) == At(o, x); }
    }
    forall x | x in f ensures f[x] == o[x] { assert At(f, x) == At(o, x); }
  }

  lemma BoxedIsOutcome(tx: Tx, h: Body -> Digest, f: Files, sts: seq<ItemState>, p: Phase)
    requires WellFormed(tx, h) && FilesOk(tx, Boxed(p), sts, f)
    ensures f == Outcome(tx, p) && FilesOk(tx, Settled(p), sts, f) && UserOnly(f)
  {
    DoneIsOutcome(tx, h, f, sts, p);
    BareIsOutcome(tx, h, f, p);
    OutcomeUserOnly(tx, h, p);
  }

  /** The retired journal leaves its name; what remains is the outcome. */
  lemma RetiredToBoxed(tx: Tx, f: Files, sts: seq<ItemState>, p: Phase)
    requires FilesOk(tx, Retired(p), sts, f)
    ensures FilesOk(tx, Boxed(p), sts, f - {RetiredJournal})
  {
    Bystander(tx, f, f - {RetiredJournal}, sts);
  }

  /** No entry aliases a target by case. */
  lemma NoAlias(tx: Tx, h: Body -> Digest, f: Files, sts: seq<ItemState>, x: Name, i: nat)
    requires WellFormed(tx, h) && Holds(tx, f, sts)
    requires x in f && x.User? && i < |tx.items| && Lower(x.s) == Lower(tx.items[i].target)
    ensures x.s == tx.items[i].target
  {
    if IsTarget(tx, x.s) {
      var j :| 0 <= j < |tx.items| && tx.items[j].target == x.s;
      assert i == j;
    } else {
      assert At(f, User(x.s)) == At(tx.base, User(x.s));
      assert x in tx.base;
    }
  }

  // ------------------------------------------------------- pinned targets

  predicate PinnedItem(f: Files, it: Item) {
    && !it.delete && !Quarantinable(ObjectSlot, User(it.target))
    && User(it.target) in f && NewTemp(it.temp) !in f
    && (it.hadOld ==> OldBackup(it.backup) in f)
  }

  /** An installed target with a name too long to quarantine. */
  predicate Pinned(f: Files, items: seq<Item>) {
    exists i :: 0 <= i < |items| && PinnedItem(f, items[i])
  }

  ghost predicate BlockedAt(tx: Tx, sts: seq<ItemState>, i: nat)
    requires i < |sts| <= |tx.items|
  {
    sts[i].Installed? && !tx.items[i].delete && !Quarantinable(ObjectSlot, User(tx.items[i].target))
  }

  ghost predicate Blocked(tx: Tx, st: Station, sts: seq<ItemState>) {
    !st.Settled? && exists i :: 0 <= i < |sts| <= |tx.items| && BlockedAt(tx, sts, i)
  }

  lemma PinnedIsBlocked(tx: Tx, h: Body -> Digest, d: ArtifactDir, st: Station, sts: seq<ItemState>)
    requires WellFormed(tx, h) && Residue(d, tx, st, sts) && PhaseOf(st) == Prepared
    ensures Pinned(d.files, tx.items) <==> Blocked(tx, st, sts)
  {
    forall i | 0 <= i < |tx.items|
      ensures st.Settled? ==> !PinnedItem(d.files, tx.items[i])
      ensures !st.Settled? ==> (PinnedItem(d.files, tx.items[i]) <==> BlockedAt(tx, sts, i))
    {
      PinnedItemIsBlocked(tx, h, d, st, sts, i);
    }
  }

  lemma PinnedItemIsBlocked(tx: Tx, h: Body -> Digest, d: ArtifactDir, st: Station, sts: seq<ItemState>, i: nat)
    requires WellFormed(tx, h) && Residue(d, tx, st, sts) && PhaseOf(st) == Prepared && i < |tx.items|
    ensures st.Settled? ==> !PinnedItem(d.files, tx.items[i])
    ensures !st.Settled? ==> (PinnedItem(d.files, tx.items[i]) <==> BlockedAt(tx, sts, i))
  {
    if st.Settled? {
      SettledUnpinned(tx, h, d, st, sts, i);
    } else {
      ItemSeen(d, tx, st, sts, i);
      PinnedView(tx, h, d, st, sts, i);
    }
  }

  lemma SettledUnpinned(tx: Tx, h: Body -> Digest, d: ArtifactDir, st: Station, sts: seq<ItemState>, i: nat)
    requires WellFormed(tx, h) && Residue(d, tx, st, sts) && st == Settled(Prepared) && i < |tx.items|
    ensures !PinnedItem(d.files, tx.items[i])
  {
    var it := tx.items[i];
    assert ItemOk(tx, h, i);
    ViewAt(d, tx, st, sts, User(it.target));
    ViewAt(d, tx, st, sts, OldBackup(it.backup));
    assert At(Resolved(d), User(it.target)) == At(tx.base, User(it.target));
  }

  lemma PinnedView(tx: Tx, h: Body -> Digest, d: ArtifactDir, st: Station, sts: seq<ItemState>, i: nat)
    requires WellFormed(tx, h) && SlotsOk(tx, d, st, sts) && PhaseOf(st) == Prepared && i < |tx.items| == |sts|
    requires ItemAt(tx, Resolved(d), i, sts[i]) && !sts[i].Cleaned?
    ensures PinnedItem(d.files, tx.items[i]) <==> BlockedAt(tx, sts, i)
  {
    var it := tx.items[i];
    assert ItemOk(tx, h, i);
    ViewAt(d, tx, st, sts, User(it.target));
    ViewAt(d, tx, st, sts, OldBackup(it.backup));
    ViewAt(d, tx, st, sts, NewTemp(it.temp));
  }
}
