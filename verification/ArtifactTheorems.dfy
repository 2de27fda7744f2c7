/** What holds in every directory a crash can leave: conservation of originals
    and of installed files, a single journal authority, an unambiguous decision,
    and the two topologies that recovery refuses. */
module ArtifactTheorems {
  import opened Basics
  import opened NameOrder
  import opened AtomicFiles
  import opened ArtifactNames
  import opened ArtifactDirectory
  import opened ArtifactResidue
  import opened ArtifactJournal
  import opened ArtifactSteps
  import opened ArtifactRecovery
  import opened ArtifactCommit

  // ----------------------------------------------------------- conservation

  /** Before the commit point each original is at its target or at its backup,
      and not at both; no quarantine slot holds it; and any other name that
      shows a file of its identity did so before the transaction, or is the
      backup of such a name. */
  lemma OriginalConserved(d: ArtifactDir, tx: Tx, h: Body -> Digest, st: Station, sts: seq<ItemState>, i: nat)
    requires WellFormed(tx, h) && Residue(d, tx, st, sts) && PhaseOf(st) == Prepared
    requires i < |tx.items| && tx.items[i].hadOld
    ensures var original := OldFile(tx, i);
            var target, backup := At(d.files, User(tx.items[i].target)), At(d.files, OldBackup(tx.items[i].backup));
            && original.Some?
            && (target == original || backup == original)
            && !(target == original && backup == original)
    ensures forall x :: x in d.files && d.files[x].id == OldFile(tx, i).value.id ==> Inherited(tx, x, d.files[x])
    ensures forall k :: k in d.slots && d.slots[k].held.Some? ==> d.slots[k].held.value.id != OldFile(tx, i).value.id
  {
    assert ItemOk(tx, h, i);
    var original := OldFile(tx, i).value;
    SlotSeesStaged(d, tx, h, st, sts, i);
    forall x | x in d.files && d.files[x].id == original.id ensures Inherited(tx, x, d.files[x]) {
      OldIsInherited(d, tx, h, st, sts, x);
    }
    forall k | k in d.slots && d.slots[k].held.Some? ensures Stranger(tx.base, d.slots[k].held.value) {
      SlotHoldsStranger(d, tx, h, st, sts, k);
    }
  }

  /** The file was at this name before, or at the target this name backs up. */
  ghost predicate Inherited(tx: Tx, x: Name, file: File) {
    || At(tx.base, x) == Some(file)
    || exists j :: 0 <= j < |tx.items| && x == OldBackup(tx.items[j].backup) && OldFile(tx, j) == Some(file)
  }

  /** Without hard links in the base the original is nowhere else. */
  lemma OriginalUnique(d: ArtifactDir, tx: Tx, h: Body -> Digest, st: Station, sts: seq<ItemState>, i: nat, x: Name)
    requires WellFormed(tx, h) && Residue(d, tx, st, sts) && PhaseOf(st) == Prepared
    requires i < |tx.items| && OldFile(tx, i).Some? && x in d.files && d.files[x].id == OldFile(tx, i).value.id
    requires forall y, z :: y in tx.base && z in tx.base && tx.base[y].id == tx.base[z].id ==> y == z
    ensures x == User(tx.items[i].target) || x == OldBackup(tx.items[i].backup)
  {
    assert ItemOk(tx, h, i);
    OriginalConserved(d, tx, h, st, sts, i);
    if At(tx.base, x) != Some(d.files[x]) {
      var j :| 0 <= j < |tx.items| && x == OldBackup(tx.items[j].backup) && OldFile(tx, j) == Some(d.files[x]);
      assert User(tx.items[i].target) == User(tx.items[j].target);
      TargetInjective(tx, h, i, j);
    }
  }

  /** What a slot holds before the commit point was made by the transaction. */
  lemma SlotHoldsStranger(d: ArtifactDir, tx: Tx, h: Body -> Digest, st: Station, sts: seq<ItemState>, k: nat)
    requires WellFormed(tx, h) && Residue(d, tx, st, sts) && PhaseOf(st) == Prepared && k in d.slots && d.slots[k].held.Some?
    ensures Stranger(tx.base, d.slots[k].held.value)
  {
    var s := d.slots[k];
    assert SlotOk(tx, st, sts, d.files, s);
    if s.kind.ObjectSlot? {
      HeldAt(d, tx, st, sts, k);
      if s.source.User? { HeldIsStaged(d, tx, h, st, sts, k); }
    }
  }

  /** A quarantined target is the staged file of its item. */
  lemma HeldIsStaged(d: ArtifactDir, tx: Tx, h: Body -> Digest, st: Station, sts: seq<ItemState>, k: nat)
    requires WellFormed(tx, h) && Residue(d, tx, st, sts) && PhaseOf(st) == Prepared
    requires k in d.slots && HoldsObject(d.slots[k]) && d.slots[k].source.User?
    ensures Stranger(tx.base, d.slots[k].held.value)
  {
    HeldAt(d, tx, st, sts, k);
    var j :| 0 <= j < |sts| <= |tx.items| && sts[j].Installed? && !tx.items[j].delete && d.slots[k].source == User(tx.items[j].target);
    ItemSeen(d, tx, st, sts, j);
    assert ItemOk(tx, h, j);
  }

  /** A name that shows an old identity inherited it. */
  lemma OldIsInherited(d: ArtifactDir, tx: Tx, h: Body -> Digest, st: Station, sts: seq<ItemState>, x: Name)
    requires WellFormed(tx, h) && Residue(d, tx, st, sts) && PhaseOf(st) == Prepared
    requires x in d.files && !Stranger(tx.base, d.files[x])
    ensures Inherited(tx, x, d.files[x])
  {
    ViewAt(d, tx, st, sts, x);
    assert Resolved(d)[x] == d.files[x];
    if st.Settled? {
      assert At(Resolved(d), User(x.s)) == At(tx.base, User(x.s));
    } else {
      HeldIsInherited(tx, h, Resolved(d), sts, PhaseOf(st), x);
    }
  }

  lemma HeldIsInherited(tx: Tx, h: Body -> Digest, f: Files, sts: seq<ItemState>, p: Phase, x: Name)
    requires WellFormed(tx, h) && Holds(tx, f, sts) && Created(tx, f) && p == Prepared
    requires AllLegal(p, sts) || AllDone(p, sts)
    requires x in f && !Stranger(tx.base, f[x])
    ensures Inherited(tx, x, f[x])
  {
    assert x.User? || x.OldBackup?;
    if x.OldBackup? {
      var j :| 0 <= j < |tx.items| && tx.items[j].temp == x.n;
      assert ItemOk(tx, h, j) && ItemAt(tx, f, j, sts[j]);
    } else if IsTarget(tx, x.s) {
      var j :| 0 <= j < |tx.items| && tx.items[j].target == x.s;
      assert ItemOk(tx, h, j) && ItemAt(tx, f, j, sts[j]);
    } else {
      assert At(f, User(x.s)) == At(tx.base, User(x.s));
    }
  }

  /** What a slot can hold of item i, and what its names show meanwhile. */
  lemma SlotSeesStaged(d: ArtifactDir, tx: Tx, h: Body -> Digest, st: Station, sts: seq<ItemState>, i: nat)
    requires WellFormed(tx, h) && Residue(d, tx, st, sts) && PhaseOf(st) == Prepared && i < |tx.items|
    ensures !st.Settled? ==> At(d.files, OldBackup(tx.items[i].backup)) == BackupIn(tx, i, sts[i])
    ensures !st.Settled? && !sts[i].Installed? ==> At(d.files, User(tx.items[i].target)) == TargetIn(tx, i, sts[i])
    ensures !st.Settled? && sts[i].Installed? ==> At(d.files, User(tx.items[i].target)) in {None, TargetIn(tx, i, sts[i])}
    ensures st.Settled? ==> At(d.files, User(tx.items[i].target)) == OldFile(tx, i) && OldBackup(tx.items[i].backup) !in d.files
    ensures forall k :: k in d.slots && HoldsObject(d.slots[k]) && d.slots[k].source == User(tx.items[i].target)
                        ==> d.slots[k].held == Some(tx.staged[i])
    ensures forall k :: k in d.slots && HoldsObject(d.slots[k]) && d.slots[k].source == NewTemp(tx.items[i].temp) && !st.Settled?
                        ==> d.slots[k].held == Some(tx.staged[i])
    ensures forall k :: k in d.slots && HoldsObject(d.slots[k]) ==> !d.slots[k].source.OldBackup?
  {
    var it := tx.items[i];
    assert ItemOk(tx, h, i);
    ViewAt(d, tx, st, sts, User(it.target));
    ViewAt(d, tx, st, sts, OldBackup(it.backup));
    if st.Settled? {
      assert At(Resolved(d), User(it.target)) == At(tx.base, User(it.target));
    } else {
      ItemSeen(d, tx, st, sts, i);
      if Disposable(tx, st, sts, User(it.target)) { HeldTarget(tx, h, st, sts, i); }
    }
    forall k | k in d.slots && HoldsObject(d.slots[k]) ensures SlotView(d, tx, st, sts, i, k) {
      SlotSees(d, tx, h, st, sts, i, k);
    }
  }

  ghost predicate SlotView(d: ArtifactDir, tx: Tx, st: Station, sts: seq<ItemState>, i: nat, k: nat)
    requires i < |tx.items| == |tx.staged| && k in d.slots
  {
    var s := d.slots[k];
    && !s.source.OldBackup?
    && (s.source == User(tx.items[i].target) ==> s.held == Some(tx.staged[i]))
    && (s.source == NewTemp(tx.items[i].temp) && !st.Settled? ==> s.held == Some(tx.staged[i]))
  }

  lemma SlotSees(d: ArtifactDir, tx: Tx, h: Body -> Digest, st: Station, sts: seq<ItemState>, i: nat, k: nat)
    requires WellFormed(tx, h) && Residue(d, tx, st, sts) && PhaseOf(st) == Prepared && i < |tx.items|
    requires k in d.slots && HoldsObject(d.slots[k])
    ensures SlotView(d, tx, st, sts, i, k)
  {
    HeldAt(d, tx, st, sts, k);
    if !st.Settled? { ItemSeen(d, tx, st, sts, i); }
    if d.slots[k].source == User(tx.items[i].target) { HeldTarget(tx, h, st, sts, i); }
  }

  lemma TargetInjective(tx: Tx, h: Body -> Digest, i: nat, j: nat)
    requires WellFormed(tx, h) && i < |tx.items| && j < |tx.items| && tx.items[i].target == tx.items[j].target
    ensures i == j
  {
    if i < j {
      LessTrichotomy(tx.items[i].target, tx.items[j].target);
    } else {
      LessTrichotomy(tx.items[j].target, tx.items[i].target);
    }
  }

  /** A target can only be quarantined as an installed file. */
  lemma HeldTarget(tx: Tx, h: Body -> Digest, st: Station, sts: seq<ItemState>, i: nat)
    requires WellFormed(tx, h) && i < |tx.items| == |sts| && Disposable(tx, st, sts, User(tx.items[i].target))
    ensures sts[i].Installed? && !tx.items[i].delete
  {
    var j: nat :| j < |sts| <= |tx.items| && sts[j].Installed? && !tx.items[j].delete && User(tx.items[i].target) == User(tx.items[j].target);
    TargetInjective(tx, h, i, j);
  }

  /** After the commit point, while the journal exists, each installed file is
      at its target, each deleted target is absent, and no slot holds either. */
  lemma InstalledConserved(d: ArtifactDir, tx: Tx, h: Body -> Digest, st: Station, sts: seq<ItemState>, i: nat)
    requires WellFormed(tx, h) && Residue(d, tx, st, sts) && PhaseOf(st) == Committed && i < |tx.items|
    ensures At(d.files, User(tx.items[i].target)) == if tx.items[i].delete then None else Some(tx.staged[i])
    ensures forall k :: k in d.slots && HoldsObject(d.slots[k]) ==> !d.slots[k].source.User?
  {
    assert ItemOk(tx, h, i);
    ViewAt(d, tx, st, sts, User(tx.items[i].target));
    forall k | k in d.slots && HoldsObject(d.slots[k]) ensures !d.slots[k].source.User? { HeldAt(d, tx, st, sts, k); }
    if st.Settled? {
      AppliedAt(tx, h, |tx.items|, tx.items[i].target);
      assert At(Resolved(d), User(tx.items[i].target)) == At(Outcome(tx, Committed), User(tx.items[i].target));
    } else {
      ItemSeen(d, tx, st, sts, i);
    }
  }

  /** Entries that no item names are the very same files throughout. */
  lemma BystandersUntouched(d: ArtifactDir, tx: Tx, h: Body -> Digest, p: Phase, s: string)
    requires WellFormed(tx, h) && Recoverable(d, tx, p) && !IsTarget(tx, s)
    ensures At(d.files, User(s)) == At(tx.base, User(s))
  {
    var st, sts :| Residue(d, tx, st, sts) && PhaseOf(st) == p;
    AppliedAt(tx, h, |tx.items|, s);
    ViewAt(d, tx, st, sts, User(s));
    assert At(Resolved(d), User(s)) == At(tx.base, User(s));
  }

  // ------------------------------------------------------------- authority

  /** One journal authority, apart from the prepared and committed pair of an
      unfinished swap; and no journal at all once the outcome is settled. */
  lemma SingleAuthority(d: ArtifactDir, tx: Tx, st: Station, sts: seq<ItemState>)
    requires Residue(d, tx, st, sts)
    ensures forall x, y :: x in d.files && y in d.files && JournalName(x) && JournalName(y) ==> x == y
    ensures forall k, x :: k in d.slots && d.slots[k].kind.JournalSlot? && d.slots[k].held.Some? && JournalName(x) ==> x !in d.files
    ensures forall k, x :: k in d.slots && d.slots[k].kind.UpdateSlot? && d.slots[k].held.Some? && JournalName(x) && x in d.files
                           ==> x == LiveJournal && IsCommitted(d.files[x]) && d.files[x].body.journal.items == tx.items
                               && d.slots[k].held.value.body == Text(Journal(Prepared, tx.items))
    ensures st.Settled? <==> !(exists x :: x in d.files && JournalName(x))
                             && !(exists k :: k in d.slots && !d.slots[k].kind.ObjectSlot? && d.slots[k].held.Some?)
  {
    JournalsSeen(d, tx, st, sts);
    forall k | k in d.slots ensures SlotOk(tx, st, sts, d.files, d.slots[k]) {}
    if st.Swapping? || st.Boxed? {
      var k :| k in d.slots;
      assert SlotOk(tx, st, sts, d.files, d.slots[k]);
    } else if Homed(st) {
      assert HomeOf(st) in d.files && JournalName(HomeOf(st));
    }
  }

  /** The directory alone decides: if both decisions fit it, they describe the
      same directory. */
  lemma DecisionUnambiguous(d: ArtifactDir, tx: Tx, h: Body -> Digest)
    requires WellFormed(tx, h) && Recoverable(d, tx, Prepared) && Recoverable(d, tx, Committed)
    ensures Outcome(tx, Prepared) == Outcome(tx, Committed)
  {
    var st0, sts0 :| Residue(d, tx, st0, sts0) && PhaseOf(st0) == Prepared;
    var st1, sts1 :| Residue(d, tx, st1, sts1) && PhaseOf(st1) == Committed;
    DecisionIsJournal(d, tx, st0, sts0);
    DecisionIsJournal(d, tx, st1, sts1);
    SingleAuthority(d, tx, st0, sts0);
    SingleAuthority(d, tx, st1, sts1);
    assert st0.Settled? && st1.Settled?;
    OutcomeUserOnly(tx, h, Committed);
    forall s ensures At(tx.base, User(s)) == At(Outcome(tx, Committed), User(s)) {
      assert At(Resolved(d), User(s)) == At(Outcome(tx, Prepared), User(s));
      assert At(Resolved(d), User(s)) == At(Outcome(tx, Committed), User(s));
    }
    BareIsOutcome(tx, h, tx.base, Committed);
  }

  /** Names and contents of every legal state survive preflight, so a residue
      without slots is never refused for its items. */
  lemma ResiduePassesPreflight(d: ArtifactDir, tx: Tx, h: Body -> Digest, st: Station, sts: seq<ItemState>, i: nat)
    requires WellFormed(tx, h) && Quiet(d, tx, st, sts) && !st.Settled? && i < |tx.items|
    ensures var it := tx.items[i];
            PreflightItem(st.phase, h, it, At(d.files, User(it.target)), At(d.files, NewTemp(it.temp)), At(d.files, OldBackup(it.backup)))
  {
    assert ItemAt(tx, d.files, i, sts[i]) && Legal(st.phase, sts[i]);
    LegalPassesPreflight(tx, h, i, st.phase, sts[i]);
  }

  // ------------------------------------------------------- what is refused

  /** A refused journal swap loses nothing: dropping its empty slot by hand
      gives a residue with the old decision that is no longer refused for it. */
  lemma WedgedIsRepairable(d: ArtifactDir, tx: Tx, h: Body -> Digest, p: Phase)
    requires WellFormed(tx, h) && Recoverable(d, tx, p) && Wedged(d)
    ensures p == Prepared
    ensures exists k :: k in d.slots && Recoverable(SlotDropped(d, k), tx, Prepared) && !Wedged(SlotDropped(d, k))
  {
    var st, sts :| Residue(d, tx, st, sts) && PhaseOf(st) == p;
    var k :| k in d.slots && d.slots[k].kind.UpdateSlot? && d.slots[k].held.None?;
    assert SlotOk(tx, st, sts, d.files, d.slots[k]);
    ResolvedPlain(d);
    var e := SlotDropped(d, k);
    assert e.slots == map[];
    QuietRecoverable(e, tx, st, sts);
  }

  /** A transaction that creates one file. */
  function OneFile(name: string, h: Body -> Digest): Tx {
    var file := File(7, Bytes([]));
    Tx(map[], [Item(name, 0, 0, false, None, None, h(file.body), 7, false)], [file])
  }

  lemma OneFileWellFormed(name: string, h: Body -> Digest)
    requires ValidTarget(name)
    ensures WellFormed(OneFile(name, h), h)
  {
    var tx := OneFile(name, h);
    assert ItemOk(tx, h, 0);
  }

  /** The one file is installed and the journal still prepared. */
  function InstalledDir(name: string, h: Body -> Digest): ArtifactDir {
    var tx := OneFile(name, h);
    Dir(map[User(name) := tx.staged[0], LiveJournal := File(8, Text(Journal(Prepared, tx.items)))], map[])
  }

  lemma OneFileInstalled(name: string, h: Body -> Digest)
    ensures Quiet(InstalledDir(name, h), OneFile(name, h), Live(Prepared), [Installed])
  {
    var tx, f := OneFile(name, h), InstalledDir(name, h).files;
    assert tx.items[0].target == name && ItemAt(tx, f, 0, Installed);
  }

  /** And then the update slot is made. */
  function WedgedDir(h: Body -> Digest): ArtifactDir {
    SlotMade(InstalledDir("a", h), 0, UpdateSlot, LiveJournal)
  }

  /** Recovery does refuse a residue: the wedged swap is a concrete one. */
  lemma WedgedResidueExists(h: Body -> Digest)
    ensures WellFormed(OneFile("a", h), h)
    ensures Recoverable(WedgedDir(h), OneFile("a", h), Prepared) && Wedged(WedgedDir(h))
  {
    LettersValid("a");
    OneFileWellFormed("a", h);
    OneFileInstalled("a", h);
    SwapBegun(InstalledDir("a", h), WedgedDir(h), OneFile("a", h), [Installed], 0);
    assert 0 in WedgedDir(h).slots;
  }

  function LongTarget(): string {
    seq(121, _ => 'a')
  }

  /** Nor can recovery undo an installed target of 121 characters. */
  lemma PinnedResidueExists(h: Body -> Digest)
    ensures WellFormed(OneFile(LongTarget(), h), h)
    ensures Recoverable(InstalledDir(LongTarget(), h), OneFile(LongTarget(), h), Prepared)
    ensures Pinned(InstalledDir(LongTarget(), h).files, OneFile(LongTarget(), h).items) && !Wedged(InstalledDir(LongTarget(), h))
  {
    LettersValid(LongTarget());
    OneFileWellFormed(LongTarget(), h);
    LongNameLimit(LongTarget());
    LongIsPinned(LongTarget(), h);
  }

  lemma LongIsPinned(name: string, h: Body -> Digest)
    requires LongName(name)
    ensures Recoverable(InstalledDir(name, h), OneFile(name, h), Prepared)
    ensures Pinned(InstalledDir(name, h).files, OneFile(name, h).items) && !Wedged(InstalledDir(name, h))
  {
    OneFileInstalled(name, h);
    QuietRecoverable(InstalledDir(name, h), OneFile(name, h), Live(Prepared), [Installed]);
    assert PinnedItem(InstalledDir(name, h).files, OneFile(name, h).items[0]);
  }

  /** A name of letters a alone is a legal target. */
  lemma LettersValid(s: string)
    requires s != "" && forall i :: 0 <= i < |s| ==> s[i] == 'a'
    ensures ValidTarget(s)
  {
    StemOfLetters(s);
    DevicesStart(Upper(s));
    assert Upper(s)[0] == 'A' && (|s| > 1 ==> Upper(s)[1] == 'A');
    assert TX_PREFIX[0] == '.' && Lower(s)[0] == 'a';
  }

  lemma {:induction false} StemOfLetters(s: string)
    requires forall i :: 0 <= i < |s| ==> s[i] == 'a'
    ensures Stem(s) == s
  {
    if s != "" {
      StemOfLetters(s[1..]);
      assert s == [s[0]] + s[1..];
    }
  }
}
