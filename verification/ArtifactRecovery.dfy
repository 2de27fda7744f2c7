/** Recovery of the artifact transaction. The machine owns the directory and
    enough power for a fixed number of namespace steps; when the power is gone
    the running operation returns Crashed with the directory as it stands. */
module ArtifactRecovery {
  import opened Basics
  import opened AtomicFiles
  import opened ArtifactNames
  import opened ArtifactDirectory
  import opened ArtifactResidue
  import opened ArtifactJournal
  import opened ArtifactSteps

  datatype Triple = Triple(target: Option<File>, temp: Option<File>, backup: Option<File>)

  /** An installed target whose name no object quarantine can carry. */
  predicate LongName(s: string) {
    !Quarantinable(ObjectSlot, User(s))
  }

  lemma LongNameLimit(s: string)
    ensures LongName(s) <==> |s| > 120
  {
    ObjectQuarantineLimit(|s|);
  }

  /** The one topology that recovery refuses: an empty journal-update slot
      beside a live journal that is still prepared. */
  predicate Wedged(d: ArtifactDir) {
    && (exists k :: k in d.slots && d.slots[k].kind.UpdateSlot? && d.slots[k].held.None?)
    && LiveJournal in d.files && d.files[LiveJournal].body.Text?
    && d.files[LiveJournal].body.journal.phase.Prepared?
  }

  /** The journal text of a file, if it decodes and validates. */
  function ReadJournal(file: Option<File>, h: Body -> Digest): (r: Option<Journal>) {
    if file.Some? && file.value.body.Text? && ValidJournal(file.value.body.journal, h)
    then Some(file.value.body.journal) else None
  }

  /** A valid journal of the given phase. */
  predicate IsJournal(file: File, h: Body -> Digest, p: Phase) {
    file.body.Text? && ValidJournal(file.body.journal, h) && file.body.journal.phase == p
  }

  /** A swap that recovery takes on, in any directory: the slot holds a prepared
      journal or nothing, a live journal is committed with the same items, and one
      of the two is there. */
  predicate SwapFits(d: ArtifactDir, h: Body -> Digest, k: nat)
    requires k in d.slots
  {
    var held := d.slots[k].held;
    && RecoveryJournal !in d.files && RetiredJournal !in d.files
    && (held.None? ==> LiveJournal in d.files)
    && (held.Some? ==> IsJournal(held.value, h, Prepared))
    && (LiveJournal in d.files ==>
          && IsJournal(d.files[LiveJournal], h, Committed)
          && (held.Some? ==> d.files[LiveJournal].body.journal.items == held.value.body.journal.items))
  }

  /** No name with the reserved prefix that the protocol does not know. */
  predicate Recognized(d: ArtifactDir) {
    forall x :: x in d.files ==> !x.Unrecognized?
  }

  predicate OneSlot(d: ArtifactDir, kind: SlotKind) {
    forall j, k :: j in d.slots && k in d.slots && d.slots[j].kind == kind && d.slots[k].kind == kind ==> j == k
  }

  /** At most one swap, and one that recovery takes on. */
  predicate SwapsFit(d: ArtifactDir, h: Body -> Digest) {
    Recognized(d) && OneSlot(d, UpdateSlot) && forall k :: k in d.slots && d.slots[k].kind.UpdateSlot? ==> SwapFits(d, h, k)
  }

  /** At most one completed journal's slot, and one that recovery retires. */
  predicate BoxesFit(d: ArtifactDir, h: Body -> Digest) {
    Recognized(d) && OneSlot(d, JournalSlot) && forall k :: k in d.slots && d.slots[k].kind.JournalSlot? ==> BoxFits(d, h, k)
  }

  /** The journal is where it was isolated or retired, and nowhere else. */
  predicate FinishFits(d: ArtifactDir, home: Name) {
    && Recognized(d) && LiveJournal !in d.files
    && (RecoveryJournal in d.files <==> home == RecoveryJournal) && (RetiredJournal in d.files <==> home == RetiredJournal)
  }

  /** A completed journal's slot that recovery retires: nothing in it, or a valid
      journal and nothing of any transaction beside it. */
  predicate BoxFits(d: ArtifactDir, h: Body -> Digest, k: nat)
    requires k in d.slots
  {
    var held := d.slots[k].held;
    && d.slots[k].source == RetiredJournal
    && (held.Some? ==> held.value.body.Text? && ValidJournal(held.value.body.journal, h))
    && (held.Some? ==> forall x :: x in d.files ==> x.User?)
  }

  lemma BoxSeen(d: ArtifactDir, h: Body -> Digest, k: nat)
    requires k in d.slots && Inspect(d).Some?
    ensures var inv := Inspect(d).value;
            (forall x :: x in d.files ==> x.User?)
            <==> !inv.journal && !inv.recovery && !inv.retired && inv.stages == {} && inv.temps == {} && inv.backups == {}
  {
    var inv := Inspect(d).value;
    forall x | x in d.files
      ensures x.JournalStage? <==> x in inv.stages
      ensures x.NewTemp? <==> x in inv.temps
      ensures x.OldBackup? <==> x in inv.backups
    {
    }
  }

  /** Undoing the swap: the prepared journal is live again. In between, its
      empty slot is still there and recovery would refuse the directory. */
  lemma SwapUndone(d: ArtifactDir, tx: Tx, sts: seq<ItemState>, k: nat)
    requires k in d.slots && Residue(d, tx, Swapping, sts)
    ensures Residue(SlotRestored(d, k), tx, Live(Prepared), sts) && Wedged(SlotRestored(d, k))
    ensures Quiet(SlotDropped(SlotRestored(d, k), k), tx, Live(Prepared), sts)
    ensures Recoverable(SlotRestored(d, k), tx, Prepared)
  {
    var s := d.slots[k];
    assert SlotOk(tx, Swapping, sts, d.files, s);
    var d1 := SlotRestored(d, k);
    ResolvedPlain(d);
    ResolvedPlain(d1);
    Bystander(tx, d.files, d1.files, sts);
    assert d1.slots[k].held.None?;
    assert Residue(d1, tx, Live(Prepared), sts);
    assert SlotDropped(d1, k).slots == map[];
  }

  lemma NothingUnrecognized(d: ArtifactDir, tx: Tx, st: Station, sts: seq<ItemState>)
    requires Residue(d, tx, st, sts)
    ensures forall x :: x in d.files ==> !x.Unrecognized?
  {
    var f := Resolved(d);
    assert forall x :: x in d.files ==> x in f;
  }

  lemma OnlyMember(d: ArtifactDir, s: set<nat>, kind: SlotKind)
    requires forall k :: k in s <==> k in d.slots && d.slots[k].kind == kind
    ensures |s| <= 1 <==> OneSlot(d, kind)
    ensures |s| == 1 ==> s != {}
  {
    if s != {} {
      var k :| k in s;
      assert s == {k} + (s - {k});
      if OneSlot(d, kind) { assert s == {k}; }
      if |s| <= 1 {
        assert s - {k} == {};
        forall j | j in s ensures j == k { assert j !in s - {k}; }
      }
    }
  }

  lemma SlotlessIsQuiet(d: ArtifactDir, tx: Tx, st: Station, sts: seq<ItemState>)
    requires Residue(d, tx, st, sts)
    requires forall k :: k !in d.slots
    ensures Quiet(d, tx, st, sts)
  {
    assert d.slots == map[];
    ResolvedPlain(d);
  }

  /** txReconcileInventory: every temp and backup belongs to an item. */
  predicate AccountsFor(items: seq<Item>, inv: Inventory) {
    && (forall x :: x in inv.temps ==> exists i :: 0 <= i < |items| && NewTemp(items[i].temp) == x)
    && (forall x :: x in inv.backups ==> exists i :: 0 <= i < |items| && OldBackup(items[i].backup) == x)
  }

  predicate Owns(it: Item, x: Name) {
    x == NewTemp(it.temp) || x == OldBackup(it.backup)
  }

  predicate AllOwned(f: Files, items: seq<Item>) {
    forall x :: x in f && (x.NewTemp? || x.OldBackup?) ==> exists i :: 0 <= i < |items| && Owns(items[i], x)
  }

  lemma AccountsExact(d: ArtifactDir, items: seq<Item>)
    requires Inspect(d).Some?
    ensures AccountsFor(items, Inspect(d).value) <==> AllOwned(d.files, items)
  {
    var inv := Inspect(d).value;
    if AccountsFor(items, inv) {
      forall x | x in d.files && (x.NewTemp? || x.OldBackup?) ensures exists i :: 0 <= i < |items| && Owns(items[i], x) {
        if x.NewTemp? {
          assert x in inv.temps;
          var i :| 0 <= i < |items| && NewTemp(items[i].temp) == x;
          assert Owns(items[i], x);
        } else {
          assert x in inv.backups;
          var i :| 0 <= i < |items| && OldBackup(items[i].backup) == x;
          assert Owns(items[i], x);
        }
      }
    }
    if AllOwned(d.files, items) {
      forall x | x in inv.temps ensures exists i :: 0 <= i < |items| && NewTemp(items[i].temp) == x {
        var i :| 0 <= i < |items| && Owns(items[i], x);
      }
      forall x | x in inv.backups ensures exists i :: 0 <= i < |items| && OldBackup(items[i].backup) == x {
        var i :| 0 <= i < |items| && Owns(items[i], x);
      }
    }
  }

  /** The only journal, in its one home: valid, with an item for every temp and
      backup of the directory. */
  ghost predicate AuthorityAt(d: ArtifactDir, h: Body -> Digest, home: Name) {
    && (forall x :: x in d.files ==> !x.Unrecognized?)
    && (forall x :: x in d.files && (x.LiveJournal? || x.RecoveryJournal? || x.RetiredJournal?) <==> x == home)
    && d.files[home].body.Text? && ValidJournal(d.files[home].body.journal, h)
    && AllOwned(d.files, d.files[home].body.journal.items)
  }

  /** Nothing aliases a target by case, and every item is in a legal state. */
  predicate PreflightFits(f: Files, j: Journal, h: Body -> Digest) {
    && (forall x, i :: x in f && x.User? && 0 <= i < |j.items| && Lower(x.s) == Lower(j.items[i].target) ==> x.s == j.items[i].target)
    && (forall i :: 0 <= i < |j.items| ==> PreflightSeen(f, j.phase, j.items[i], h))
  }

  predicate PreflightSeen(f: Files, p: Phase, it: Item, h: Body -> Digest) {
    PreflightItem(p, h, it, At(f, User(it.target)), At(f, NewTemp(it.temp)), At(f, OldBackup(it.backup)))
  }

  function Seen(f: Files, it: Item): Triple {
    Triple(At(f, User(it.target)), At(f, NewTemp(it.temp)), At(f, OldBackup(it.backup)))
  }

  /** What recovery takes on once every quarantine is resolved: no journal and no
      backup, or one journal whose every item is in a legal state. */
  ghost predicate Sound(d: ArtifactDir, h: Body -> Digest) {
    && (forall x :: x in d.files ==> !x.Unrecognized?)
    && if exists x :: x in d.files && JournalName(x)
       then exists x :: AuthorityAt(d, h, x) && PreflightFits(d.files, d.files[x].body.journal, h)
       else forall x :: x in d.files ==> !x.OldBackup?
  }

  /** Only the journal may have moved to another of its names. */
  ghost predicate Untouched(d0: ArtifactDir, d: ArtifactDir) {
    d.slots == d0.slots && forall x :: !JournalName(x) ==> At(d.files, x) == At(d0.files, x)
  }

  /** Soundness by the number of journals. */
  lemma SoundSeen(d: ArtifactDir, h: Body -> Digest)
    ensures Inspect(d).None? ==> !Sound(d, h)
    ensures Inspect(d).Some? ==>
              var inv := Inspect(d).value;
              && ((inv.journal && inv.recovery) || (inv.journal && inv.retired) || (inv.recovery && inv.retired) ==> !Sound(d, h))
              && (!inv.journal && !inv.recovery && !inv.retired ==> (Sound(d, h) <==> inv.backups == {}))
              && (inv.journal || inv.recovery || inv.retired ==> exists x :: x in d.files && JournalName(x))
  {
    if Inspect(d).Some? {
      var inv := Inspect(d).value;
      forall x ensures x in inv.backups <==> x in d.files && x.OldBackup? {}
      if inv.journal { assert LiveJournal in d.files && JournalName(LiveJournal); }
      if inv.recovery { assert RecoveryJournal in d.files && JournalName(RecoveryJournal); }
      if inv.retired { assert RetiredJournal in d.files && JournalName(RetiredJournal); }
    }
  }

  lemma ResidueSound(d: ArtifactDir, tx: Tx, h: Body -> Digest, st: Station, sts: seq<ItemState>)
    requires WellFormed(tx, h) && Quiet(d, tx, st, sts)
    ensures Sound(d, h)
  {
    QuietRecoverable(d, tx, st, sts);
    NothingUnrecognized(d, tx, st, sts);
    if !st.Settled? {
      AuthorityFound(d, tx, h, st, sts);
      ResidueFits(d, tx, h, st, sts);
      assert HomeOf(st) in d.files && JournalName(HomeOf(st));
    }
  }

  /** A residue passes preflight, and each item is seen in its state. */
  lemma ResidueFits(d: ArtifactDir, tx: Tx, h: Body -> Digest, st: Station, sts: seq<ItemState>)
    requires WellFormed(tx, h) && Quiet(d, tx, st, sts) && !st.Settled?
    ensures PreflightFits(d.files, Journal(st.phase, tx.items), h)
    ensures forall i :: 0 <= i < |sts| ==> Seen(d.files, tx.items[i]) == Triple(TargetIn(tx, i, sts[i]), TempIn(tx, i, sts[i]), BackupIn(tx, i, sts[i]))
  {
    forall x, i | x in d.files && x.User? && 0 <= i < |tx.items| && Lower(x.s) == Lower(tx.items[i].target) ensures x.s == tx.items[i].target {
      NoAlias(tx, h, d.files, sts, x, i);
    }
    forall i | 0 <= i < |sts|
      ensures PreflightSeen(d.files, st.phase, tx.items[i], h)
      ensures Seen(d.files, tx.items[i]) == Triple(TargetIn(tx, i, sts[i]), TempIn(tx, i, sts[i]), BackupIn(tx, i, sts[i]))
    {
      assert ItemAt(tx, d.files, i, sts[i]);
      LegalPassesPreflight(tx, h, i, st.phase, sts[i]);
    }
  }

  function HomeOf(st: Station): Name {
    if st.Live? then LiveJournal else if st.Isolated? then RecoveryJournal else RetiredJournal
  }

  ghost predicate JournalName(x: Name) {
    x.LiveJournal? || x.RecoveryJournal? || x.RetiredJournal?
  }

  predicate Homed(st: Station) {
    st.Live? || st.Isolated? || st.Retired?
  }

  /** Under the journal names a residue shows its journal's home and no other. */
  lemma JournalsSeen(d: ArtifactDir, tx: Tx, st: Station, sts: seq<ItemState>)
    requires Residue(d, tx, st, sts)
    ensures forall x :: x in d.files && JournalName(x) <==> Homed(st) && x == HomeOf(st)
    ensures Homed(st) ==> HomeOf(st) in d.files && d.files[HomeOf(st)].body == Text(Journal(st.phase, tx.items))
  {
    ViewAt(d, tx, st, sts, LiveJournal);
    ViewAt(d, tx, st, sts, RecoveryJournal);
    ViewAt(d, tx, st, sts, RetiredJournal);
  }

  /** The journal is found under exactly one name, reads back as the
      transaction's journal and accounts for the inventory. */
  lemma JournalHome(d: ArtifactDir, tx: Tx, h: Body -> Digest, st: Station, sts: seq<ItemState>)
    requires WellFormed(tx, h) && Quiet(d, tx, st, sts) && !st.Settled?
    ensures Inspect(d).Some? && AccountsFor(tx.items, Inspect(d).value)
    ensures forall x :: x in d.files && (x.LiveJournal? || x.RecoveryJournal? || x.RetiredJournal?) <==> x == HomeOf(st)
    ensures ReadJournal(At(d.files, HomeOf(st)), h) == Some(Journal(st.phase, tx.items))
  {
    WellFormedJournalValid(tx, h, st.phase);
    var inv := Inspect(d).value;
    forall x | x in inv.temps ensures exists i :: 0 <= i < |tx.items| && NewTemp(tx.items[i].temp) == x {
      var i :| 0 <= i < |tx.items| && tx.items[i].temp == x.n;
      assert NewTemp(tx.items[i].temp) == x;
    }
    forall x | x in inv.backups ensures exists i :: 0 <= i < |tx.items| && OldBackup(tx.items[i].backup) == x {
      var i :| 0 <= i < |tx.items| && tx.items[i].temp == x.n;
      assert ItemOk(tx, h, i);
      assert OldBackup(tx.items[i].backup) == x;
    }
  }

  lemma AuthorityFound(d: ArtifactDir, tx: Tx, h: Body -> Digest, st: Station, sts: seq<ItemState>)
    requires WellFormed(tx, h) && Quiet(d, tx, st, sts) && !st.Settled?
    ensures AuthorityAt(d, h, HomeOf(st)) && d.files[HomeOf(st)].body == Text(Journal(st.phase, tx.items))
    ensures forall x :: AuthorityAt(d, h, x) ==> x == HomeOf(st)
  {
    JournalHome(d, tx, h, st, sts);
    AccountsExact(d, tx.items);
  }

  // -------------------------------------------------------- single removals

  /** A committed item still has its backup, which may go, or is cleaned. */
  lemma FinalizeStep(tx: Tx, h: Body -> Digest, st: Station, f: Files, sts: seq<ItemState>, i: nat)
    requires WellFormed(tx, h) && FilesOk(tx, st, sts, f) && (st == Isolated(Committed) || st == Retired(Committed)) && i < |sts|
    ensures BackupIn(tx, i, sts[i]).None? ==> FilesOk(tx, st, sts[i := Cleaned], f)
    ensures BackupIn(tx, i, sts[i]).Some? ==> var x := OldBackup(tx.items[i].backup);
              st.Isolated? && At(f, x) == BackupIn(tx, i, sts[i]) && ItemAt(tx, f - {x}, i, Cleaned)
  {
    assert ItemOk(tx, h, i) && ItemAt(tx, f, i, sts[i]);
    if BackupIn(tx, i, sts[i]).None? && st.Isolated? {
      Transit(tx, h, st, f, sts, i, f, Cleaned);
    } else if st.Retired? {
      assert sts[i := Cleaned] == sts;
    }
  }

  /** A target that did not exist before is an installed file, which may go. */
  lemma CreatedStep(tx: Tx, h: Body -> Digest, st: Station, f: Files, sts: seq<ItemState>, i: nat)
    requires WellFormed(tx, h) && FilesOk(tx, st, sts, f) && (st == Isolated(Prepared) || st == Retired(Prepared)) && i < |sts|
    requires !tx.items[i].hadOld && TargetIn(tx, i, sts[i]).Some?
    ensures var x := User(tx.items[i].target);
            && st.Isolated? && sts[i].Installed? && !tx.items[i].delete && At(f, x) == TargetIn(tx, i, sts[i])
            && Disposable(tx, st, sts, x) && ItemAt(tx, f - {x}, i, RolledBack)
  {
    assert ItemOk(tx, h, i) && ItemAt(tx, f, i, sts[i]);
  }

  /** An item whose target is back to the original has its temp, or is done. */
  lemma RollbackStep(tx: Tx, h: Body -> Digest, st: Station, f: Files, sts: seq<ItemState>, i: nat)
    requires WellFormed(tx, h) && FilesOk(tx, st, sts, f) && (st == Isolated(Prepared) || st == Retired(Prepared)) && i < |sts|
    requires sts[i].Fresh? || sts[i].RolledBack? || (!tx.items[i].hadOld && TargetIn(tx, i, sts[i]).None?)
    ensures TempIn(tx, i, sts[i]).None? ==> FilesOk(tx, st, sts[i := RolledBack], f)
    ensures TempIn(tx, i, sts[i]).Some? ==> var x := NewTemp(tx.items[i].temp);
              st.Isolated? && At(f, x) == TempIn(tx, i, sts[i]) && ItemAt(tx, f - {x}, i, RolledBack)
  {
    assert ItemOk(tx, h, i) && ItemAt(tx, f, i, sts[i]);
    if TempIn(tx, i, sts[i]).None? && st.Isolated? {
      Transit(tx, h, st, f, sts, i, f, RolledBack);
    } else if st.Retired? {
      assert sts[i := RolledBack] == sts;
    }
  }

  lemma RetiredPresent(d: ArtifactDir, tx: Tx, p: Phase, sts: seq<ItemState>)
    requires Quiet(d, tx, Retired(p), sts)
    ensures RetiredJournal in d.files && Quarantinable(JournalSlot, RetiredJournal) && |d.files| >= 1
  {
    RemoveCount(d.files, RetiredJournal);
  }

  /** An empty slot for the retired journal changes nothing yet. */
  lemma RetiredSlotMade(d0: ArtifactDir, d: ArtifactDir, tx: Tx, p: Phase, sts: seq<ItemState>, k: nat)
    requires Quiet(d0, tx, Retired(p), sts)
    requires d == d0 || d == SlotMade(d0, k, JournalSlot, RetiredJournal)
    ensures Recoverable(d, tx, p)
  {
    ResolvedPlain(d);
    assert Residue(d, tx, Retired(p), sts);
  }

  lemma RetiredSlotFilled(d0: ArtifactDir, d: ArtifactDir, tx: Tx, p: Phase, sts: seq<ItemState>, k: nat)
    requires Quiet(d0, tx, Retired(p), sts)
    requires d == SlotFilled(SlotMade(d0, k, JournalSlot, RetiredJournal), k)
    ensures k in d.slots && d.slots == map[k := d.slots[k]] && d.slots[k].kind.JournalSlot?
    ensures FilesOk(tx, Boxed(p), sts, d.files) && SlotOk(tx, Boxed(p), sts, d.files, d.slots[k])
    ensures |d.files| == |d0.files| - 1
  {
    RetiredToBoxed(tx, d0.files, sts, p);
    RemoveCount(d0.files, RetiredJournal);
  }

  /** Deleting the boxed journal leaves the outcome at every point. */
  lemma BoxedRemoval(d: ArtifactDir, tx: Tx, h: Body -> Digest, p: Phase, sts: seq<ItemState>, k: nat)
    requires WellFormed(tx, h) && k in d.slots && d.slots == map[k := d.slots[k]]
    requires FilesOk(tx, Boxed(p), sts, d.files) && SlotOk(tx, Boxed(p), sts, d.files, d.slots[k]) && d.slots[k].kind.JournalSlot?
    ensures SlotDropped(d, k) == Dir(Outcome(tx, p), map[])
    ensures Recoverable(d, tx, p) && Recoverable(SlotErased(d, k), tx, p)
  {
    BoxedRecoverable(d, tx, p, sts, k);
    BoxedIsOutcome(tx, h, d.files, sts, p);
    ErasedSettled(SlotErased(d, k), tx, p, sts, k);
  }

  lemma BoxedRecoverable(d: ArtifactDir, tx: Tx, p: Phase, sts: seq<ItemState>, k: nat)
    requires k in d.slots && d.slots == map[k := d.slots[k]] && d.slots[k].kind.JournalSlot?
    requires FilesOk(tx, Boxed(p), sts, d.files) && SlotOk(tx, Boxed(p), sts, d.files, d.slots[k])
    ensures Recoverable(d, tx, p)
  {
    ResolvedPlain(d);
    assert Residue(d, tx, Boxed(p), sts);
  }

  lemma ErasedSettled(d: ArtifactDir, tx: Tx, p: Phase, sts: seq<ItemState>, k: nat)
    requires d.slots == map[k := Slot(JournalSlot, RetiredJournal, None)] && FilesOk(tx, Settled(p), sts, d.files)
    ensures Recoverable(d, tx, p)
  {
    ResolvedPlain(d);
    assert Residue(d, tx, Settled(p), sts);
  }

  /** What the update slot and the live name show. */
  lemma UpdateSlotSeen(d: ArtifactDir, tx: Tx, h: Body -> Digest, st: Station, sts: seq<ItemState>, k: nat)
    requires WellFormed(tx, h) && Residue(d, tx, st, sts) && k in d.slots && d.slots[k].kind.UpdateSlot?
    ensures RecoveryJournal !in d.files && RetiredJournal !in d.files && Recoverable(d, tx, PhaseOf(st))
    ensures LiveJournal in d.files <==> !st.Swapping?
    ensures st.Swapping? || st == Live(Committed) || (st == Live(Prepared) && d.slots[k].held.None?)
    ensures st.Live? ==> ReadJournal(At(d.files, LiveJournal), h) == Some(Journal(st.phase, tx.items))
    ensures d.slots[k].held.Some? ==> ReadJournal(d.slots[k].held, h) == Some(Journal(Prepared, tx.items))
    ensures st.Swapping? ==> d.slots[k].held.Some? && d.slots[k].source == LiveJournal
    ensures Wedged(d) <==> st == Live(Prepared)
  {
    assert SlotOk(tx, st, sts, d.files, d.slots[k]);
    JournalsSeen(d, tx, st, sts);
    if st == Live(Prepared) || st.Swapping? || d.slots[k].held.Some? { WellFormedJournalValid(tx, h, Prepared); }
    if st == Live(Committed) { WellFormedJournalValid(tx, h, Committed); }
  }

  /** Of the residues, the wedged ones are exactly those whose swap does not fit. */
  lemma UpdatesSeen(d: ArtifactDir, tx: Tx, h: Body -> Digest, st: Station, sts: seq<ItemState>)
    requires WellFormed(tx, h) && Residue(d, tx, st, sts)
    ensures Recognized(d) && OneSlot(d, UpdateSlot) && (SwapsFit(d, h) <==> !Wedged(d))
    ensures st.Swapping? ==> exists k :: k in d.slots && d.slots[k].kind.UpdateSlot?
  {
    NothingUnrecognized(d, tx, st, sts);
    forall k | k in d.slots ensures SlotOk(tx, st, sts, d.files, d.slots[k]) {}
    forall k | k in d.slots && d.slots[k].kind.UpdateSlot? ensures SwapFits(d, h, k) <==> !Wedged(d) {
      UpdateSlotSeen(d, tx, h, st, sts, k);
    }
  }

  /** No residue is refused for a completed journal's slot. */
  lemma BoxesSeen(d: ArtifactDir, tx: Tx, h: Body -> Digest, st: Station, sts: seq<ItemState>)
    requires WellFormed(tx, h) && Residue(d, tx, st, sts)
    ensures BoxesFit(d, h)
  {
    NothingUnrecognized(d, tx, st, sts);
    forall k | k in d.slots && d.slots[k].kind.JournalSlot? ensures BoxFits(d, h, k) { JournalSlotSeen(d, tx, h, st, sts, k); }
  }

  /** What dropping or erasing the update slot leaves. */
  lemma UpdateSlotGone(d: ArtifactDir, tx: Tx, st: Station, sts: seq<ItemState>, k: nat)
    requires Residue(d, tx, st, sts) && st.Live? && k in d.slots && d.slots[k].kind.UpdateSlot?
    ensures Quiet(SlotDropped(d, k), tx, st, sts)
    ensures st.phase.Committed? ==> Recoverable(SlotErased(d, k), tx, Committed)
  {
    assert d.slots == map[k := d.slots[k]];
    assert SlotOk(tx, st, sts, d.files, d.slots[k]);
    ResolvedPlain(d);
    assert SlotDropped(d, k).slots == map[];
    if st.phase.Committed? {
      ResolvedPlain(SlotErased(d, k));
      assert Residue(SlotErased(d, k), tx, st, sts);
    }
  }

  function Beyond(st: Station): Station
    requires st.Live? || st.Isolated?
  {
    if st.Live? then Isolated(st.phase) else Retired(st.phase)
  }

  /** The journal moves on: live to recovery, and, once everything is done, from
      there to retired. */
  lemma JournalMoves(d: ArtifactDir, tx: Tx, st: Station, sts: seq<ItemState>, b: Name)
    requires Quiet(d, tx, st, sts) && (st.Live? || st.Isolated?) && b == HomeOf(Beyond(st))
    requires st.Isolated? ==> AllDone(st.phase, sts) && NoStages(d.files)
    ensures HomeOf(st) in d.files && b !in d.files
    ensures Quiet(Renamed(d, HomeOf(st), b), tx, Beyond(st), sts)
    ensures |Renamed(d, HomeOf(st), b).files| == |d.files|
  {
    Rehome(tx, d.files, sts, HomeOf(st), b, st.phase);
    MoveCount(d.files, HomeOf(st), b);
  }

  /** What finishing finds: no unknown name, and the journal at its home. */
  lemma FinishSees(d: ArtifactDir, tx: Tx, st: Station, sts: seq<ItemState>)
    requires Quiet(d, tx, st, sts) && (st.Isolated? || st.Retired?)
    ensures Inspect(d).Some? && !Inspect(d).value.journal
    ensures Inspect(d).value.recovery <==> st.Isolated?
    ensures Inspect(d).value.retired <==> st.Retired?
  {
  }

  /** What resolving an object slot leaves. */
  lemma ObjectSlotSeen(d: ArtifactDir, tx: Tx, st: Station, sts: seq<ItemState>, k: nat)
    requires Residue(d, tx, st, sts) && k in d.slots && d.slots[k].kind.ObjectSlot?
    ensures Recoverable(d, tx, PhaseOf(st))
    ensures d.slots[k].held.None? ==> Quiet(SlotDropped(d, k), tx, st, sts)
    ensures d.slots[k].held.Some? ==> d.slots[k].source !in d.files && Recoverable(SlotRestored(d, k), tx, PhaseOf(st))
    ensures d.slots[k].held.Some? ==> Quiet(SlotDropped(SlotRestored(d, k), k), tx, st, sts)
  {
    assert d.slots == map[k := d.slots[k]];
    assert SlotOk(tx, st, sts, d.files, d.slots[k]);
    if d.slots[k].held.None? {
      ResolvedPlain(d);
      assert SlotDropped(d, k).slots == map[];
    } else {
      ResolvedHolding(d, k);
      EmptyResidue(tx, SlotRestored(d, k), d.slots[k].source, st, sts, k);
      assert SlotDropped(SlotRestored(d, k), k).slots == map[];
    }
  }

  /** What a journal slot can hold, and what dropping an empty one leaves. */
  lemma JournalSlotSeen(d: ArtifactDir, tx: Tx, h: Body -> Digest, st: Station, sts: seq<ItemState>, k: nat)
    requires WellFormed(tx, h) && Residue(d, tx, st, sts) && k in d.slots && d.slots[k].kind.JournalSlot?
    ensures d.slots == map[k := d.slots[k]] && d.slots[k].source == RetiredJournal && Recoverable(d, tx, PhaseOf(st))
    ensures d.slots[k].held.None? ==> !st.Boxed? && Quiet(SlotDropped(d, k), tx, st, sts)
    ensures d.slots[k].held.Some? ==> st.Boxed? && ReadJournal(d.slots[k].held, h).Some? && UserOnly(d.files)
    ensures d.slots[k].held.Some? ==> FilesOk(tx, st, sts, d.files) && SlotOk(tx, st, sts, d.files, d.slots[k])
    ensures d.slots[k].held.Some? ==> Quiet(Dir(Outcome(tx, PhaseOf(st)), map[]), tx, Settled(PhaseOf(st)), sts)
  {
    assert d.slots == map[k := d.slots[k]];
    assert SlotOk(tx, st, sts, d.files, d.slots[k]);
    ResolvedPlain(d);
    if d.slots[k].held.Some? {
      WellFormedJournalValid(tx, h, st.phase);
      BoxedIsOutcome(tx, h, d.files, sts, st.phase);
    } else {
      assert SlotDropped(d, k).slots == map[];
    }
  }

  /** An installed target may go, and is empty then. */
  lemma UninstallStep(tx: Tx, h: Body -> Digest, f: Files, sts: seq<ItemState>, i: nat)
    requires WellFormed(tx, h) && FilesOk(tx, Isolated(Prepared), sts, f) && i < |sts|
    requires tx.items[i].hadOld && BackupIn(tx, i, sts[i]).Some? && TargetIn(tx, i, sts[i]).Some?
    ensures var x := User(tx.items[i].target);
            && sts[i].Installed? && !tx.items[i].delete && At(f, x) == TargetIn(tx, i, sts[i])
            && Disposable(tx, Isolated(Prepared), sts, x) && ItemAt(tx, f - {x}, i, Emptied)
  {
    assert ItemOk(tx, h, i) && ItemAt(tx, f, i, sts[i]) && Legal(Prepared, sts[i]);
  }

  /** Before the n-th item everything is cleaned. */
  ghost predicate CleanedTo(sts: seq<ItemState>, cur: seq<ItemState>, n: nat) {
    && n <= |cur| == |sts|
    && (forall j :: n <= j < |cur| ==> cur[j] == sts[j])
    && (forall j :: 0 <= j < n ==> cur[j] == Cleaned)
  }

  lemma FinalizeProgress(sts: seq<ItemState>, cur: seq<ItemState>, n: nat)
    requires CleanedTo(sts, cur, n)
    ensures n < |sts| ==> cur[n] == sts[n] && CleanedTo(sts, cur[n := Cleaned], n + 1)
    ensures n == |sts| ==> AllDone(Committed, cur)
  {
  }

  /** A blocked item of a directory without slots is a pinned target in it. */
  lemma StillPinned(tx: Tx, h: Body -> Digest, d: ArtifactDir, st: Station, sts: seq<ItemState>)
    requires WellFormed(tx, h) && Quiet(d, tx, st, sts) && PhaseOf(st) == Prepared && Blocked(tx, st, sts)
    ensures Pinned(d.files, tx.items)
  {
    QuietRecoverable(d, tx, st, sts);
    PinnedIsBlocked(tx, h, d, st, sts);
  }

  // -------------------------------------------------------------- progress

  /** Four steps pay for the removal of one file, `c` steps for the rest. */
  ghost predicate Paid(before: nat, d0: ArtifactDir, after: nat, d: ArtifactDir, c: nat) {
    before + 4 * |d.files| <= after + 4 * |d0.files| + c
  }

  /** Power that does not even cover removing every file and `c` steps more. */
  ghost predicate Short(power: nat, d: ArtifactDir, c: nat) {
    power < 4 * |d.files| + c
  }

  class Machine {
    const digest: Body -> Digest
    const vol: Volume<SlotKind, Name, File>
    /** History: a committed journal has taken the live name. */
    ghost var installed: bool

    constructor (digest: Body -> Digest, vol: Volume<SlotKind, Name, File>)
      ensures this.digest == digest && this.vol == vol && !this.installed
    {
      this.digest, this.vol := digest, vol;
      this.installed := false;
    }

    /** Create a file of an identity that no file here has. A crash during the
        write leaves whatever bytes had reached the disk. */
    method CreateFile(x: Name, body: Body) returns (r: Status, file: File)
      modifies vol
      ensures Stranger(old(vol.dir).files, file)
      ensures r.Failed? <==> x in old(vol.dir).files
      ensures r.Failed? ==> vol.dir == old(vol.dir)
      ensures r.Done? ==> vol.dir == Put(old(vol.dir), x, file) && file.body == body
      ensures r.Crashed? ==> vol.power == 0 && (vol.dir == old(vol.dir) || vol.dir == Put(old(vol.dir), x, file))
      ensures r.Done? ==> old(vol.power) == vol.power + 2
      ensures r.Crashed? ==> old(vol.power) < 2
    {
      FreshIdExists(vol.dir.files);
      var id: nat :| UnusedId(vol.dir.files, id);
      file := File(id, body);
      var bytes: seq<Byte> := *;
      var torn := File(id, Bytes(bytes));
      r := vol.CreateFile(x, file, torn);
      if r.Crashed? { file := torn; }
    }

    method Quarantine(source: Name, kind: SlotKind) returns (r: Status, k: nat)
      modifies vol
      ensures r.Failed? ==> vol.dir == old(vol.dir) && (!Quarantinable(kind, source) || source !in old(vol.dir).files)
      ensures r.Done? ==> source in old(vol.dir).files && k !in old(vol.dir).slots
                          && vol.dir == SlotFilled(SlotMade(old(vol.dir), k, kind, source), k)
      ensures r.Crashed? ==> vol.power == 0
      ensures r.Crashed? ==> vol.dir == old(vol.dir) || (k !in old(vol.dir).slots && vol.dir == SlotMade(old(vol.dir), k, kind, source))
      ensures r.Done? ==> old(vol.power) == vol.power + 2
      ensures r.Crashed? ==> old(vol.power) < 2
      ensures Lean(old(vol.dir), vol.dir, r)
    {
      r, k := vol.Quarantine(source, kind, Quarantinable(kind, source));
    }

    // ------------------------------------------------- snapshots and removal

    predicate SameSnapshot(expected: Option<File>, current: Option<File>) {
      expected.Some? == current.Some? &&
      (expected.Some? ==> expected.value.id == current.value.id && digest(expected.value.body) == digest(current.value.body))
    }

    /** txRemoveSnapshot: revalidate, quarantine, revalidate, delete. */
    method RemoveSnapshot(x: Name, snapshot: Option<File>) returns (r: Status)
      modifies vol
      ensures r.Failed? ==> vol.dir == old(vol.dir)
      ensures r.Failed? <==> !(snapshot.Some? && SameSnapshot(snapshot, At(old(vol.dir).files, x)) && Quarantinable(ObjectSlot, x))
      ensures r.Done? ==> x in old(vol.dir).files && vol.dir == Dir(old(vol.dir).files - {x}, old(vol.dir).slots)
      ensures r.Crashed? ==> vol.power == 0 && x in old(vol.dir).files && Discarding(old(vol.dir), vol.dir, ObjectSlot, x)
      ensures r.Done? ==> Paid(old(vol.power), old(vol.dir), vol.power, vol.dir, 0)
      ensures r.Crashed? ==> Short(old(vol.power), old(vol.dir), 0)
      ensures Lean(old(vol.dir), vol.dir, r)
    {
      if !SameSnapshot(snapshot, At(vol.dir.files, x)) || x !in vol.dir.files { return Failed; }
      RemoveCount(vol.dir.files, x);
      r := vol.Discard(x, ObjectSlot, Quarantinable(ObjectSlot, x));
    }

    // ------------------------------------------------------ journal authority

    /** txBeginJournalAuthority: read the only journal, check that it accounts
        for every temp and backup, and isolate it under the recovery name. */
    method BeginAuthority(ghost tx: Tx, ghost st: Station, ghost sts: seq<ItemState>)
      returns (r: Status, home: Name, journal: Journal, file: File)
      requires WellFormed(tx, digest)
      modifies vol
      ensures r.Failed? <==> forall x :: !AuthorityAt(old(vol.dir), digest, x)
      ensures r.Done? ==> exists was :: AuthorityAt(old(vol.dir), digest, was) && IsolatedFrom(old(vol.dir), vol.dir, was, home)
      ensures r.Done? ==> At(vol.dir.files, home) == Some(file) && file.body == Text(journal)
      ensures !r.Done? ==> vol.dir == old(vol.dir)
      ensures r.Crashed? ==> vol.power == 0
      ensures Quiet(old(vol.dir), tx, st, sts) && !st.Settled? ==> !r.Failed? && (r.Done? ==> Begun(vol.dir, tx, st, sts, home, journal))
      ensures r.Done? ==> Paid(old(vol.power), old(vol.dir), vol.power, vol.dir, 1)
      ensures r.Crashed? ==> Short(old(vol.power), old(vol.dir), 1)
      ensures Lean(old(vol.dir), vol.dir, r)
    {
      ghost var d0 := vol.dir;
      if Quiet(d0, tx, st, sts) && !st.Settled? { AuthorityFound(d0, tx, digest, st, sts); }
      var ok;
      ok, home, journal, file := FindAuthority();
      if !ok { return Failed, home, journal, file; }
      if home != LiveJournal {
        assert IsolatedFrom(d0, d0, home, home);
        return Done, home, journal, file;
      }
      if Quiet(d0, tx, st, sts) && !st.Settled? { JournalMoves(d0, tx, st, sts, RecoveryJournal); }
      MoveCount(d0.files, LiveJournal, RecoveryJournal);
      r := vol.RenameNoReplace(LiveJournal, RecoveryJournal);
      home := RecoveryJournal;
      if r.Done? { assert IsolatedFrom(d0, vol.dir, LiveJournal, home); }
    }

    /** What beginning leaves of a residue: its journal under the recovery name,
        or still under the retired one. */
    ghost predicate Begun(d: ArtifactDir, tx: Tx, st: Station, sts: seq<ItemState>, home: Name, journal: Journal)
      requires !st.Settled? && !st.Swapping?
    {
      && Quiet(d, tx, if st.Live? then Isolated(st.phase) else st, sts)
      && home == (if st.Retired? then RetiredJournal else RecoveryJournal)
      && journal == Journal(st.phase, tx.items)
    }

    ghost predicate IsolatedFrom(d0: ArtifactDir, d: ArtifactDir, was: Name, home: Name) {
      was in d0.files &&
      if was.LiveJournal? then home.RecoveryJournal? && d == Renamed(d0, LiveJournal, RecoveryJournal) else home == was && d == d0
    }

    method FindAuthority() returns (ok: bool, home: Name, journal: Journal, file: File)
      ensures ok ==> AuthorityAt(vol.dir, digest, home) && file == vol.dir.files[home] && file.body == Text(journal)
      ensures !ok ==> forall x :: !AuthorityAt(vol.dir, digest, x)
    {
      home, journal, file := LiveJournal, Journal(Prepared, []), File(0, Bytes([]));
      var inv := Inspect(vol.dir);
      if inv.None? { return false, home, journal, file; }
      var names := (if inv.value.journal then [LiveJournal] else [])
                   + (if inv.value.recovery then [RecoveryJournal] else [])
                   + (if inv.value.retired then [RetiredJournal] else []);
      assert forall x :: x in names <==> x in vol.dir.files && (x.LiveJournal? || x.RecoveryJournal? || x.RetiredJournal?);
      if |names| != 1 {
        assert |names| > 1 ==> names[0] in names && names[1] in names && names[0] != names[1];
        return false, home, journal, file;
      }
      home := names[0];
      var read := ReadJournal(At(vol.dir.files, home), digest);
      if read.None? { return false, home, journal, file; }
      journal, file := read.value, vol.dir.files[home];
      AccountsExact(vol.dir, journal.items);
      ok := AccountsFor(journal.items, inv.value);
    }

    ghost predicate Describes(tx: Tx, sts: seq<ItemState>, states: seq<Triple>)
      requires |tx.items| == |tx.staged| == |sts|
    {
      && |states| == |sts|
      && forall i :: 0 <= i < |sts| ==> states[i] == Triple(TargetIn(tx, i, sts[i]), TempIn(tx, i, sts[i]), BackupIn(tx, i, sts[i]))
    }

    /** txPreflight: snapshot every item and insist on a legal, identified state. */
    method Preflight(journal: Journal) returns (ok: bool, states: seq<Triple>)
      ensures ok <==> PreflightFits(vol.dir.files, journal, digest)
      ensures ok ==> |states| == |journal.items| && forall i :: 0 <= i < |states| ==> states[i] == Seen(vol.dir.files, journal.items[i])
    {
      states := [];
      if exists x, i :: x in vol.dir.files && x.User? && 0 <= i < |journal.items|
                        && Lower(x.s) == Lower(journal.items[i].target) && x.s != journal.items[i].target {
        return false, states;
      }
      for i := 0 to |journal.items|
        invariant |states| == i
        invariant forall j :: 0 <= j < i ==> states[j] == Seen(vol.dir.files, journal.items[j])
        invariant forall j :: 0 <= j < i ==> PreflightSeen(vol.dir.files, journal.phase, journal.items[j], digest)
      {
        var it := journal.items[i];
        var t := Triple(At(vol.dir.files, User(it.target)), At(vol.dir.files, NewTemp(it.temp)), At(vol.dir.files, OldBackup(it.backup)));
        if !PreflightItem(journal.phase, digest, it, t.target, t.temp, t.backup) { return false, states; }
        states := states + [t];
      }
      ok := true;
    }

    // ----------------------------------------------------------- rollback

    /** Remove one disposable name of item i, which then is in state `next`. */
    method RemoveItemName(x: Name, snapshot: Option<File>,
                          ghost tx: Tx, ghost st: Station, ghost sts: seq<ItemState>, ghost i: nat, ghost next: ItemState)
      returns (r: Status)
      requires WellFormed(tx, digest) && Quiet(vol.dir, tx, st, sts) && (st == Live(Prepared) || st.Isolated?)
      requires i < |sts| && x in NamesOf(tx, i) && x in vol.dir.files && snapshot == Some(vol.dir.files[x])
      requires Disposable(tx, st, sts, x)
      requires ItemAt(tx, vol.dir.files - {x}, i, next) && Legal(st.phase, next)
      modifies vol
      ensures r.Done? ==> Quiet(vol.dir, tx, st, sts[i := next]) && vol.dir.files == old(vol.dir).files - {x}
      ensures r.Failed? <==> !Quarantinable(ObjectSlot, x)
      ensures r.Failed? ==> vol.dir == old(vol.dir)
      ensures r.Crashed? ==> vol.power == 0 && Recoverable(vol.dir, tx, st.phase)
      ensures r.Done? ==> Paid(old(vol.power), old(vol.dir), vol.power, vol.dir, 0)
      ensures r.Crashed? ==> Short(old(vol.power), old(vol.dir), 0)
      ensures Lean(old(vol.dir), vol.dir, r)
    {
      QuietRecoverable(vol.dir, tx, st, sts);
      Transit(tx, digest, st, vol.dir.files, sts, i, vol.dir.files - {x}, next);
      r := RemoveSnapshot(x, snapshot);
      if r.Crashed? { DiscardRecoverable(tx, old(vol.dir), vol.dir, x, st, sts, sts[i := next]); }
    }

    /** Rename one name of item i to another, which puts it in state `next`. */
    method RenameItemName(a: Name, b: Name,
                          ghost tx: Tx, ghost st: Station, ghost sts: seq<ItemState>, ghost i: nat, ghost next: ItemState)
      returns (r: Status)
      requires WellFormed(tx, digest) && Quiet(vol.dir, tx, st, sts) && (st.Live? || st.Isolated?)
      requires i < |sts| && a in NamesOf(tx, i) && b in NamesOf(tx, i) && a in vol.dir.files && b !in vol.dir.files
      requires ItemAt(tx, Moved(vol.dir.files, a, b), i, next) && Legal(st.phase, next)
      modifies vol
      ensures !r.Failed?
      ensures r.Done? ==> Quiet(vol.dir, tx, st, sts[i := next]) && vol.dir.files == Moved(old(vol.dir).files, a, b)
      ensures r.Crashed? ==> vol.power == 0 && Recoverable(vol.dir, tx, st.phase)
      ensures r.Done? ==> Paid(old(vol.power), old(vol.dir), vol.power, vol.dir, 1)
      ensures r.Crashed? ==> Short(old(vol.power), old(vol.dir), 1)
      ensures Lean(old(vol.dir), vol.dir, r)
    {
      QuietRecoverable(vol.dir, tx, st, sts);
      MoveCount(vol.dir.files, a, b);
      r := vol.RenameNoReplace(a, b);
      if r.Done? { Transit(tx, digest, st, old(vol.dir).files, sts, i, vol.dir.files, next); }
    }

    /** Remove what was installed and put the original back. */
    method RollbackTarget(it: Item, s: Triple, ghost tx: Tx, ghost sts: seq<ItemState>, ghost i: nat)
      returns (r: Status)
      requires WellFormed(tx, digest) && Quiet(vol.dir, tx, Isolated(Prepared), sts)
      requires i < |sts| && it == tx.items[i] && it.hadOld && s.backup.Some?
      requires s == Triple(TargetIn(tx, i, sts[i]), TempIn(tx, i, sts[i]), BackupIn(tx, i, sts[i]))
      modifies vol
      ensures r.Done? ==> Quiet(vol.dir, tx, Isolated(Prepared), sts[i := if s.temp.Some? then Fresh else RolledBack]) && !BlockedAt(tx, sts, i)
      ensures r.Failed? ==> vol.dir == old(vol.dir) && BlockedAt(tx, sts, i)
      ensures r.Crashed? ==> vol.power == 0 && Recoverable(vol.dir, tx, Prepared)
      ensures r.Done? ==> Paid(old(vol.power), old(vol.dir), vol.power, vol.dir, 1)
      ensures r.Crashed? ==> Short(old(vol.power), old(vol.dir), 1)
      ensures Lean(old(vol.dir), vol.dir, r)
    {
      assert ItemOk(tx, digest, i) && Legal(Prepared, sts[i]);
      if s.target.None? {
        r := RestoreBackup(it, tx, sts, i);
        return;
      }
      r := Uninstall(it, s.target, tx, sts, i);
      if !r.Done? { return; }
      r := RestoreBackup(it, tx, sts[i := Emptied], i);
      assert sts[i := Emptied][i := RolledBack] == sts[i := RolledBack];
    }

    method Uninstall(it: Item, target: Option<File>, ghost tx: Tx, ghost sts: seq<ItemState>, ghost i: nat) returns (r: Status)
      requires WellFormed(tx, digest) && Quiet(vol.dir, tx, Isolated(Prepared), sts)
      requires i < |sts| && it == tx.items[i] && it.hadOld && BackupIn(tx, i, sts[i]).Some?
      requires target.Some? && target == TargetIn(tx, i, sts[i])
      modifies vol
      ensures sts[i].Installed?
      ensures r.Done? ==> Quiet(vol.dir, tx, Isolated(Prepared), sts[i := Emptied]) && !BlockedAt(tx, sts, i)
      ensures r.Failed? ==> vol.dir == old(vol.dir) && BlockedAt(tx, sts, i)
      ensures r.Crashed? ==> vol.power == 0 && Recoverable(vol.dir, tx, Prepared)
      ensures r.Done? ==> Paid(old(vol.power), old(vol.dir), vol.power, vol.dir, 0)
      ensures r.Crashed? ==> Short(old(vol.power), old(vol.dir), 0)
      ensures Lean(old(vol.dir), vol.dir, r)
    {
      UninstallStep(tx, digest, vol.dir.files, sts, i);
      r := RemoveItemName(User(it.target), target, tx, Isolated(Prepared), sts, i, Emptied);
    }

    method RestoreBackup(it: Item, ghost tx: Tx, ghost sts: seq<ItemState>, ghost i: nat) returns (r: Status)
      requires WellFormed(tx, digest) && Quiet(vol.dir, tx, Isolated(Prepared), sts)
      requires i < |sts| && it == tx.items[i]
      requires TargetIn(tx, i, sts[i]).None? && BackupIn(tx, i, sts[i]).Some?
      modifies vol
      ensures !r.Failed?
      ensures r.Done? ==> Quiet(vol.dir, tx, Isolated(Prepared), sts[i := if sts[i].Parked? then Fresh else RolledBack])
      ensures r.Crashed? ==> vol.power == 0 && Recoverable(vol.dir, tx, Prepared)
      ensures r.Done? ==> Paid(old(vol.power), old(vol.dir), vol.power, vol.dir, 1)
      ensures r.Crashed? ==> Short(old(vol.power), old(vol.dir), 1)
      ensures Lean(old(vol.dir), vol.dir, r)
    {
      assert ItemOk(tx, digest, i) && ItemAt(tx, vol.dir.files, i, sts[i]);
      r := RenameItemName(OldBackup(it.backup), User(it.target), tx, Isolated(Prepared), sts, i, if sts[i].Parked? then Fresh else RolledBack);
    }

    /** The rollback of one item, from the state preflight saw. */
    method RollbackItem(it: Item, s: Triple, ghost tx: Tx, ghost st: Station, ghost sts: seq<ItemState>, ghost i: nat)
      returns (r: Status)
      requires WellFormed(tx, digest) && Quiet(vol.dir, tx, st, sts) && (st == Isolated(Prepared) || st == Retired(Prepared))
      requires i < |sts| && it == tx.items[i]
      requires s == Triple(TargetIn(tx, i, sts[i]), TempIn(tx, i, sts[i]), BackupIn(tx, i, sts[i]))
      modifies vol
      ensures r.Done? ==> Quiet(vol.dir, tx, st, sts[i := RolledBack]) && !BlockedAt(tx, sts, i)
      ensures r.Failed? ==> BlockedAt(tx, sts, i) && vol.dir == old(vol.dir)
      ensures r.Crashed? ==> vol.power == 0
      ensures !r.Done? ==> Recoverable(vol.dir, tx, Prepared)
      ensures r.Done? ==> Paid(old(vol.power), old(vol.dir), vol.power, vol.dir, 1)
      ensures r.Crashed? ==> Short(old(vol.power), old(vol.dir), 1)
      ensures Lean(old(vol.dir), vol.dir, r)
    {
      QuietRecoverable(vol.dir, tx, st, sts);
      ghost var cur;
      r, cur := RollbackContent(it, s, tx, st, sts, i);
      if !r.Done? { return; }
      r := RollbackTemp(it, s, tx, st, sts[i := cur], i);
      assert sts[i := cur][i := RolledBack] == sts[i := RolledBack];
    }

    /** The target is the original again, or absent if there was none. */
    method RollbackContent(it: Item, s: Triple, ghost tx: Tx, ghost st: Station, ghost sts: seq<ItemState>, ghost i: nat)
      returns (r: Status, ghost cur: ItemState)
      requires WellFormed(tx, digest) && Quiet(vol.dir, tx, st, sts) && (st == Isolated(Prepared) || st == Retired(Prepared))
      requires i < |sts| && it == tx.items[i]
      requires s == Triple(TargetIn(tx, i, sts[i]), TempIn(tx, i, sts[i]), BackupIn(tx, i, sts[i]))
      modifies vol
      ensures r.Done? ==> Quiet(vol.dir, tx, st, sts[i := cur]) && TempIn(tx, i, cur) == s.temp && !BlockedAt(tx, sts, i)
      ensures r.Done? ==> cur.Fresh? || cur.RolledBack? || (!it.hadOld && TargetIn(tx, i, cur).None?)
      ensures r.Failed? ==> BlockedAt(tx, sts, i) && vol.dir == old(vol.dir)
      ensures r.Crashed? ==> vol.power == 0 && Recoverable(vol.dir, tx, Prepared)
      ensures r.Done? ==> Paid(old(vol.power), old(vol.dir), vol.power, vol.dir, 1)
      ensures r.Crashed? ==> Short(old(vol.power), old(vol.dir), 1)
      ensures Lean(old(vol.dir), vol.dir, r)
    {
      assert ItemOk(tx, digest, i) && Legal(Prepared, sts[i]);
      r, cur := Done, sts[i];
      if it.hadOld && s.backup.Some? {
        r := RollbackTarget(it, s, tx, sts, i);
        cur := if s.temp.Some? then Fresh else RolledBack;
      } else if !it.hadOld && s.target.Some? {
        r := RemoveCreated(it, s.target, tx, st, sts, i);
        cur := RolledBack;
      } else {
        assert sts[i := cur] == sts;
      }
    }

    /** A target that did not exist before goes. */
    method RemoveCreated(it: Item, target: Option<File>, ghost tx: Tx, ghost st: Station, ghost sts: seq<ItemState>, ghost i: nat)
      returns (r: Status)
      requires WellFormed(tx, digest) && Quiet(vol.dir, tx, st, sts) && (st == Isolated(Prepared) || st == Retired(Prepared))
      requires i < |sts| && it == tx.items[i] && !it.hadOld && target.Some? && target == TargetIn(tx, i, sts[i])
      modifies vol
      ensures TempIn(tx, i, sts[i]).None?
      ensures r.Done? ==> Quiet(vol.dir, tx, st, sts[i := RolledBack]) && !BlockedAt(tx, sts, i)
      ensures r.Failed? ==> BlockedAt(tx, sts, i) && vol.dir == old(vol.dir)
      ensures r.Crashed? ==> vol.power == 0 && Recoverable(vol.dir, tx, Prepared)
      ensures r.Done? ==> Paid(old(vol.power), old(vol.dir), vol.power, vol.dir, 1)
      ensures r.Crashed? ==> Short(old(vol.power), old(vol.dir), 1)
      ensures Lean(old(vol.dir), vol.dir, r)
    {
      CreatedStep(tx, digest, st, vol.dir.files, sts, i);
      r := RemoveItemName(User(it.target), target, tx, st, sts, i, RolledBack);
    }

    method RollbackTemp(it: Item, s: Triple, ghost tx: Tx, ghost st: Station, ghost sts: seq<ItemState>, ghost i: nat)
      returns (r: Status)
      requires WellFormed(tx, digest) && Quiet(vol.dir, tx, st, sts) && (st == Isolated(Prepared) || st == Retired(Prepared))
      requires i < |sts| && it == tx.items[i] && s.temp == TempIn(tx, i, sts[i])
      requires sts[i].Fresh? || sts[i].RolledBack? || (!it.hadOld && TargetIn(tx, i, sts[i]).None?)
      modifies vol
      ensures !r.Failed?
      ensures r.Done? ==> Quiet(vol.dir, tx, st, sts[i := RolledBack])
      ensures r.Crashed? ==> vol.power == 0 && Recoverable(vol.dir, tx, Prepared)
      ensures r.Done? ==> Paid(old(vol.power), old(vol.dir), vol.power, vol.dir, 0)
      ensures r.Crashed? ==> Short(old(vol.power), old(vol.dir), 0)
      ensures Lean(old(vol.dir), vol.dir, r)
    {
      RollbackStep(tx, digest, st, vol.dir.files, sts, i);
      r := Done;
      if s.temp.Some? {
        r := RemoveItemName(NewTemp(it.temp), s.temp, tx, st, sts, i, RolledBack);
      }
    }

    /** txRollback: undo the items from the last to the first, then finish. */
    method Rollback(journal: Journal, home: Name, states: seq<Triple>, ghost tx: Tx, ghost st: Station, ghost sts: seq<ItemState>)
      returns (r: Status)
      requires WellFormed(tx, digest) && Quiet(vol.dir, tx, st, sts) && (st == Isolated(Prepared) || st == Retired(Prepared))
      requires journal.items == tx.items && Describes(tx, sts, states)
      requires home == (if st.Retired? then RetiredJournal else RecoveryJournal)
      modifies vol
      ensures r.Done? ==> vol.dir == Dir(Outcome(tx, Prepared), map[]) && !Blocked(tx, st, sts)
      ensures r.Failed? ==> Recoverable(vol.dir, tx, Prepared) && Blocked(tx, st, sts) && Pinned(vol.dir.files, tx.items)
      ensures r.Crashed? ==> vol.power == 0 && Recoverable(vol.dir, tx, Prepared)
      ensures r.Done? ==> Paid(old(vol.power), old(vol.dir), vol.power, vol.dir, |tx.items| + 1)
      ensures r.Crashed? ==> Short(old(vol.power), old(vol.dir), |tx.items| + 1)
      ensures Lean(old(vol.dir), vol.dir, r)
    {
      ghost var cur;
      r, cur := RollbackItems(journal, states, tx, st, sts);
      if !r.Done? { return; }
      r := Finish(home, tx, st, cur);
    }

    method RollbackItems(journal: Journal, states: seq<Triple>, ghost tx: Tx, ghost st: Station, ghost sts: seq<ItemState>)
      returns (r: Status, ghost cur: seq<ItemState>)
      requires WellFormed(tx, digest) && Quiet(vol.dir, tx, st, sts) && (st == Isolated(Prepared) || st == Retired(Prepared))
      requires journal.items == tx.items && Describes(tx, sts, states)
      modifies vol
      ensures r.Done? ==> Quiet(vol.dir, tx, st, cur) && AllDone(Prepared, cur) && !Blocked(tx, st, sts)
      ensures r.Failed? ==> Blocked(tx, st, sts) && Pinned(vol.dir.files, tx.items)
      ensures !r.Done? ==> Recoverable(vol.dir, tx, Prepared)
      ensures r.Crashed? ==> vol.power == 0 && Short(old(vol.power), old(vol.dir), |tx.items|)
      ensures r.Done? ==> Paid(old(vol.power), old(vol.dir), vol.power, vol.dir, |tx.items|)
      ensures Lean(old(vol.dir), vol.dir, r)
    {
      var n: nat := |journal.items|;
      cur := sts;
      r := Done;
      while n > 0
        invariant n <= |cur| == |sts| && Quiet(vol.dir, tx, st, cur) && r.Done?
        invariant forall j :: 0 <= j < n ==> cur[j] == sts[j]
        invariant forall j :: n <= j < |cur| ==> cur[j] == RolledBack && !BlockedAt(tx, sts, j)
        invariant Paid(old(vol.power), old(vol.dir), vol.power, vol.dir, |tx.items| - n) && Weight(vol.dir) <= Weight(old(vol.dir))
      {
        n := n - 1;
        r := RollbackItem(journal.items[n], states[n], tx, st, cur, n);
        if r.Failed? {
          assert BlockedAt(tx, sts, n) && BlockedAt(tx, cur, n);
          StillPinned(tx, digest, vol.dir, st, cur);
        }
        if !r.Done? { return; }
        cur := cur[n := RolledBack];
      }
    }

    /** txFinalize: drop the backups, then finish. */
    method Finalize(journal: Journal, home: Name, states: seq<Triple>, ghost tx: Tx, ghost st: Station, ghost sts: seq<ItemState>)
      returns (r: Status)
      requires WellFormed(tx, digest) && Quiet(vol.dir, tx, st, sts) && (st == Isolated(Committed) || st == Retired(Committed))
      requires journal.items == tx.items && Describes(tx, sts, states)
      requires home == (if st.Retired? then RetiredJournal else RecoveryJournal)
      modifies vol
      ensures !r.Failed?
      ensures r.Done? ==> vol.dir == Dir(Outcome(tx, Committed), map[])
      ensures r.Crashed? ==> vol.power == 0 && Recoverable(vol.dir, tx, Committed)
      ensures r.Done? ==> Paid(old(vol.power), old(vol.dir), vol.power, vol.dir, 1)
      ensures r.Crashed? ==> Short(old(vol.power), old(vol.dir), 1)
      ensures Lean(old(vol.dir), vol.dir, r)
    {
      ghost var cur := sts;
      for n := 0 to |journal.items|
        invariant CleanedTo(sts, cur, n) && Quiet(vol.dir, tx, st, cur)
        invariant Paid(old(vol.power), old(vol.dir), vol.power, vol.dir, 0) && Weight(vol.dir) <= Weight(old(vol.dir))
      {
        FinalizeProgress(sts, cur, n);
        assert states[n].backup == BackupIn(tx, n, sts[n]);
        r := FinalizeItem(journal.items[n], states[n], tx, st, cur, n);
        if !r.Done? { return; }
        cur := cur[n := Cleaned];
      }
      FinalizeProgress(sts, cur, |sts|);
      r := Finish(home, tx, st, cur);
    }

    method FinalizeItem(it: Item, s: Triple, ghost tx: Tx, ghost st: Station, ghost sts: seq<ItemState>, ghost i: nat)
      returns (r: Status)
      requires WellFormed(tx, digest) && Quiet(vol.dir, tx, st, sts) && (st == Isolated(Committed) || st == Retired(Committed))
      requires i < |sts| && it == tx.items[i] && s.backup == BackupIn(tx, i, sts[i])
      modifies vol
      ensures !r.Failed?
      ensures r.Done? ==> Quiet(vol.dir, tx, st, sts[i := Cleaned])
      ensures r.Crashed? ==> vol.power == 0 && Recoverable(vol.dir, tx, Committed)
      ensures r.Done? ==> Paid(old(vol.power), old(vol.dir), vol.power, vol.dir, 0)
      ensures r.Crashed? ==> Short(old(vol.power), old(vol.dir), 0)
      ensures Lean(old(vol.dir), vol.dir, r)
    {
      FinalizeStep(tx, digest, st, vol.dir.files, sts, i);
      r := Done;
      if s.backup.Some? {
        r := RemoveItemName(OldBackup(it.backup), s.backup, tx, st, sts, i, Cleaned);
      }
    }

    // ------------------------------------------------------------- finish

    /** txFinish: drop journal stages, retire the journal, then delete it
        through a quarantine slot. */
    method Finish(home: Name, ghost tx: Tx, ghost st: Station, ghost sts: seq<ItemState>) returns (r: Status)
      requires WellFormed(tx, digest) && (FinishFits(vol.dir, home) ==> Quiet(vol.dir, tx, st, sts))
      requires (st.Isolated? || st.Retired?) && AllDone(st.phase, sts)
      requires home == (if st.Retired? then RetiredJournal else RecoveryJournal)
      modifies vol
      ensures r.Failed? <==> !FinishFits(old(vol.dir), home)
      ensures r.Failed? ==> vol.dir == old(vol.dir) && !Quiet(vol.dir, tx, st, sts)
      ensures r.Done? ==> vol.dir == Dir(Outcome(tx, st.phase), map[])
      ensures r.Crashed? ==> vol.power == 0 && Recoverable(vol.dir, tx, st.phase)
      ensures r.Done? ==> Paid(old(vol.power), old(vol.dir), vol.power, vol.dir, 1)
      ensures r.Crashed? ==> Short(old(vol.power), old(vol.dir), 1)
      ensures Lean(old(vol.dir), vol.dir, r)
    {
      if Quiet(vol.dir, tx, st, sts) { FinishSees(vol.dir, tx, st, sts); }
      var inv := Inspect(vol.dir);
      if inv.None? { return Failed; }
      if inv.value.journal || inv.value.recovery != (home == RecoveryJournal) || inv.value.retired != (home == RetiredJournal) {
        return Failed;
      }
      r := DropStages(inv.value.stages, tx, st, sts);
      if !r.Done? { return; }
      r := RetireAndRemove(home, tx, st, sts);
    }

    method RetireAndRemove(home: Name, ghost tx: Tx, ghost st: Station, ghost sts: seq<ItemState>) returns (r: Status)
      requires WellFormed(tx, digest) && Quiet(vol.dir, tx, st, sts) && (st.Isolated? || st.Retired?) && AllDone(st.phase, sts)
      requires home == HomeOf(st) && NoStages(vol.dir.files)
      modifies vol
      ensures !r.Failed?
      ensures r.Done? ==> vol.dir == Dir(Outcome(tx, st.phase), map[])
      ensures r.Crashed? ==> vol.power == 0 && Recoverable(vol.dir, tx, st.phase)
      ensures r.Done? ==> Paid(old(vol.power), old(vol.dir), vol.power, vol.dir, 1)
      ensures r.Crashed? ==> Short(old(vol.power), old(vol.dir), 1)
      ensures Lean(old(vol.dir), vol.dir, r)
    {
      if home != RetiredJournal {
        QuietRecoverable(vol.dir, tx, st, sts);
        JournalMoves(vol.dir, tx, st, sts, RetiredJournal);
        r := vol.RenameNoReplace(home, RetiredJournal);
        if !r.Done? { return; }
      }
      r := RemoveRetired(tx, st.phase, sts);
    }

    method DropStages(stages: set<Name>, ghost tx: Tx, ghost st: Station, ghost sts: seq<ItemState>) returns (r: Status)
      requires Quiet(vol.dir, tx, st, sts) && (st.Isolated? || st.Retired?)
      requires forall x :: x in stages <==> x in vol.dir.files && x.JournalStage?
      modifies vol
      ensures !r.Failed?
      ensures r.Done? ==> Quiet(vol.dir, tx, st, sts) && NoStages(vol.dir.files)
      ensures r.Crashed? ==> vol.power == 0 && Recoverable(vol.dir, tx, st.phase)
      ensures r.Done? ==> Paid(old(vol.power), old(vol.dir), vol.power, vol.dir, 0)
      ensures r.Crashed? ==> Short(old(vol.power), old(vol.dir), 0)
      ensures Lean(old(vol.dir), vol.dir, r)
    {
      var todo := stages;
      r := Done;
      while todo != {}
        invariant r.Done? && Quiet(vol.dir, tx, st, sts)
        invariant forall x :: x in todo <==> x in vol.dir.files && x.JournalStage?
        invariant Paid(old(vol.power), old(vol.dir), vol.power, vol.dir, 0) && Weight(vol.dir) <= Weight(old(vol.dir))
        decreases todo
      {
        var x :| x in todo;
        r := DropStage(x, tx, st, sts);
        if !r.Done? { return; }
        todo := todo - {x};
      }
    }

    method DropStage(x: Name, ghost tx: Tx, ghost st: Station, ghost sts: seq<ItemState>) returns (r: Status)
      requires Quiet(vol.dir, tx, st, sts) && (st == Settled(Prepared) || st == Live(Prepared) || st.Isolated? || st.Retired?)
      requires x.JournalStage? && x in vol.dir.files
      modifies vol
      ensures !r.Failed?
      ensures r.Done? ==> Quiet(vol.dir, tx, st, sts) && vol.dir.files == old(vol.dir).files - {x}
      ensures r.Crashed? ==> vol.power == 0 && Recoverable(vol.dir, tx, st.phase)
      ensures r.Done? ==> Paid(old(vol.power), old(vol.dir), vol.power, vol.dir, 0)
      ensures r.Crashed? ==> Short(old(vol.power), old(vol.dir), 0)
      ensures Lean(old(vol.dir), vol.dir, r)
    {
      QuietRecoverable(vol.dir, tx, st, sts);
      StageGone(tx, st, vol.dir.files, sts, x);
      r := RemoveSnapshot(x, At(vol.dir.files, x));
      if r.Crashed? { DiscardRecoverable(tx, old(vol.dir), vol.dir, x, st, sts, sts); }
    }

    /** txQuarantineAndRemoveJournal. */
    method RemoveRetired(ghost tx: Tx, ghost p: Phase, ghost sts: seq<ItemState>) returns (r: Status)
      requires WellFormed(tx, digest) && Quiet(vol.dir, tx, Retired(p), sts)
      modifies vol
      ensures !r.Failed?
      ensures r.Done? ==> vol.dir == Dir(Outcome(tx, p), map[])
      ensures r.Crashed? ==> vol.power == 0 && Recoverable(vol.dir, tx, p)
      ensures r.Done? ==> Paid(old(vol.power), old(vol.dir), vol.power, vol.dir, 0)
      ensures r.Crashed? ==> Short(old(vol.power), old(vol.dir), 0)
      ensures Lean(old(vol.dir), vol.dir, r)
    {
      RetiredPresent(vol.dir, tx, p, sts);
      var k;
      r, k := Quarantine(RetiredJournal, JournalSlot);
      if r.Crashed? { RetiredSlotMade(old(vol.dir), vol.dir, tx, p, sts, k); }
      if !r.Done? { return; }
      RetiredSlotFilled(old(vol.dir), vol.dir, tx, p, sts, k);
      r := RemoveBoxed(k, tx, p, sts);
    }

    method RemoveBoxed(k: nat, ghost tx: Tx, ghost p: Phase, ghost sts: seq<ItemState>) returns (r: Status)
      requires WellFormed(tx, digest) && k in vol.dir.slots && vol.dir.slots == map[k := vol.dir.slots[k]]
      requires FilesOk(tx, Boxed(p), sts, vol.dir.files) && SlotOk(tx, Boxed(p), sts, vol.dir.files, vol.dir.slots[k]) && vol.dir.slots[k].kind.JournalSlot?
      modifies vol
      ensures !r.Failed?
      ensures r.Done? ==> vol.dir == Dir(Outcome(tx, p), map[])
      ensures r.Crashed? ==> vol.power == 0 && Recoverable(vol.dir, tx, p)
      ensures r.Done? ==> Paid(old(vol.power), old(vol.dir), vol.power, vol.dir, 2)
      ensures r.Crashed? ==> Short(old(vol.power), old(vol.dir), 2)
      ensures Lean(old(vol.dir), vol.dir, r)
    {
      BoxedRemoval(vol.dir, tx, digest, p, sts, k);
      r := vol.RemoveQuarantined(k);
    }

    // ----------------------------------------------- quarantine resolution

    /** txRecoverJournalUpdate: finish or undo the swap of journals. */
    method RecoverJournalUpdate(k: nat, inv: Inventory, ghost tx: Tx, ghost st: Station, ghost sts: seq<ItemState>)
      returns (r: Status)
      requires WellFormed(tx, digest) && Inspect(vol.dir) == Some(inv) && k in vol.dir.slots && vol.dir.slots[k].kind.UpdateSlot?
      requires SwapFits(vol.dir, digest, k) ==> Residue(vol.dir, tx, st, sts)
      modifies vol
      ensures r.Failed? <==> !SwapFits(old(vol.dir), digest, k)
      ensures Residue(old(vol.dir), tx, st, sts) ==> (r.Failed? <==> Wedged(old(vol.dir)))
      ensures r.Failed? ==> vol.dir == old(vol.dir)
      ensures r.Done? ==> Quiet(vol.dir, tx, Live(PhaseOf(st)), sts)
      ensures r.Crashed? ==> vol.power == 0 && Recoverable(vol.dir, tx, PhaseOf(st))
      ensures r.Done? ==> Paid(old(vol.power), old(vol.dir), vol.power, vol.dir, 6)
      ensures r.Crashed? ==> Short(old(vol.power), old(vol.dir), 6)
      ensures Lean(old(vol.dir), vol.dir, r)
    {
      if Residue(vol.dir, tx, st, sts) {
        UpdateSlotSeen(vol.dir, tx, digest, st, sts, k);
        if st.Live? { UpdateSlotGone(vol.dir, tx, st, sts, k); }
      }
      var live := ReadJournal(At(vol.dir.files, LiveJournal), digest);
      if vol.dir.slots[k].held.None? {
        if !inv.journal || inv.recovery || inv.retired { return Failed; }
        if live.None? || !live.value.phase.Committed? { return Failed; }
        r := vol.DropSlot(k);
        return;
      }
      var prepared := ReadJournal(vol.dir.slots[k].held, digest);
      if prepared.None? || !prepared.value.phase.Prepared? { return Failed; }
      if inv.recovery || inv.retired { return Failed; }
      if !inv.journal {
        r := UndoSwap(k, tx, sts);
        return;
      }
      if live.None? || !live.value.phase.Committed? || live.value.items != prepared.value.items { return Failed; }
      r := DropReplaced(k, tx, st, sts);
    }

    /** The prepared journal goes once the committed one is live. */
    method DropReplaced(k: nat, ghost tx: Tx, ghost st: Station, ghost sts: seq<ItemState>) returns (r: Status)
      requires Residue(vol.dir, tx, st, sts) && st == Live(Committed)
      requires k in vol.dir.slots && vol.dir.slots[k].kind.UpdateSlot? && vol.dir.slots[k].held.Some?
      modifies vol
      ensures !r.Failed?
      ensures r.Done? ==> Quiet(vol.dir, tx, st, sts)
      ensures r.Crashed? ==> vol.power == 0 && Recoverable(vol.dir, tx, Committed)
      ensures r.Done? ==> Paid(old(vol.power), old(vol.dir), vol.power, vol.dir, 2)
      ensures r.Crashed? ==> Short(old(vol.power), old(vol.dir), 2)
      ensures Lean(old(vol.dir), vol.dir, r)
    {
      UpdateSlotGone(vol.dir, tx, st, sts, k);
      assert Recoverable(vol.dir, tx, Committed);
      r := vol.RemoveQuarantined(k);
    }

    /** The prepared journal is live again while no other is. */
    method UndoSwap(k: nat, ghost tx: Tx, ghost sts: seq<ItemState>) returns (r: Status)
      requires Residue(vol.dir, tx, Swapping, sts) && k in vol.dir.slots && vol.dir.slots[k].held.Some?
      requires vol.dir.slots[k].source == LiveJournal && LiveJournal !in vol.dir.files
      modifies vol
      ensures !r.Failed?
      ensures r.Done? ==> Quiet(vol.dir, tx, Live(Prepared), sts)
      ensures r.Crashed? ==> vol.power == 0 && Recoverable(vol.dir, tx, Prepared)
      ensures r.Done? ==> Paid(old(vol.power), old(vol.dir), vol.power, vol.dir, 6)
      ensures r.Crashed? ==> Short(old(vol.power), old(vol.dir), 6)
      ensures Lean(old(vol.dir), vol.dir, r)
    {
      PutCount(vol.dir.files, LiveJournal, vol.dir.slots[k].held.value);
      SwapUndone(vol.dir, tx, sts, k);
      assert Recoverable(vol.dir, tx, Prepared);
      r := vol.RestoreQuarantined(k);
    }

    /** txRestoreObjectQuarantine. */
    method RestoreObject(k: nat, ghost tx: Tx, ghost st: Station, ghost sts: seq<ItemState>) returns (r: Status)
      requires Residue(vol.dir, tx, st, sts) && k in vol.dir.slots && vol.dir.slots[k].kind.ObjectSlot?
      modifies vol
      ensures !r.Failed?
      ensures r.Done? ==> Quiet(vol.dir, tx, st, sts)
      ensures r.Crashed? ==> vol.power == 0 && Recoverable(vol.dir, tx, PhaseOf(st))
      ensures r.Done? ==> Paid(old(vol.power), old(vol.dir), vol.power, vol.dir, 6)
      ensures r.Crashed? ==> Short(old(vol.power), old(vol.dir), 6)
      ensures Lean(old(vol.dir), vol.dir, r)
    {
      ObjectSlotSeen(vol.dir, tx, st, sts, k);
      if vol.dir.slots[k].held.None? {
        r := vol.DropSlot(k);
      } else {
        PutCount(vol.dir.files, vol.dir.slots[k].source, vol.dir.slots[k].held.value);
        r := vol.RestoreQuarantined(k);
      }
    }

    method RestoreObjects(slots: set<nat>, ghost tx: Tx, ghost st: Station, ghost sts: seq<ItemState>) returns (r: Status)
      requires Residue(vol.dir, tx, st, sts)
      requires forall k :: k in slots <==> k in vol.dir.slots && vol.dir.slots[k].kind.ObjectSlot?
      modifies vol
      ensures !r.Failed?
      ensures r.Done? ==> Residue(vol.dir, tx, st, sts) && forall k :: k in vol.dir.slots ==> !vol.dir.slots[k].kind.ObjectSlot?
      ensures r.Done? ==> forall k :: k in vol.dir.slots ==> k in old(vol.dir).slots && vol.dir.slots[k] == old(vol.dir).slots[k]
      ensures r.Crashed? ==> vol.power == 0 && Recoverable(vol.dir, tx, PhaseOf(st))
      ensures r.Done? ==> Paid(old(vol.power), old(vol.dir), vol.power, vol.dir, 6)
      ensures r.Crashed? ==> Short(old(vol.power), old(vol.dir), 6)
      ensures Lean(old(vol.dir), vol.dir, r)
    {
      var todo := slots;
      r := Done;
      while todo != {}
        invariant r.Done? && Residue(vol.dir, tx, st, sts)
        invariant forall k :: k in todo <==> k in vol.dir.slots && vol.dir.slots[k].kind.ObjectSlot?
        invariant Weight(vol.dir) <= Weight(old(vol.dir))
        invariant if todo == {} then Paid(old(vol.power), old(vol.dir), vol.power, vol.dir, 6)
                  else vol.power == old(vol.power) && vol.dir == old(vol.dir)
        invariant forall k :: k in vol.dir.slots ==> k in old(vol.dir).slots && vol.dir.slots[k] == old(vol.dir).slots[k]
        decreases todo
      {
        var k :| k in todo;
        assert forall j :: j in vol.dir.slots ==> j == k;
        r := RestoreObject(k, tx, st, sts);
        if !r.Done? { return; }
        QuietRecoverable(vol.dir, tx, st, sts);
        todo := todo - {k};
        assert todo == {};
      }
    }

    /** The completed-journal quarantine: retire an empty slot, or delete the
        journal inside provided nothing else is left. */
    method RecoverJournalSlot(k: nat, inv: Inventory, ghost tx: Tx, ghost st: Station, ghost sts: seq<ItemState>)
      returns (r: Status)
      requires WellFormed(tx, digest) && Inspect(vol.dir) == Some(inv) && k in vol.dir.slots && vol.dir.slots[k].kind.JournalSlot?
      requires BoxFits(vol.dir, digest, k) ==> Residue(vol.dir, tx, st, sts)
      modifies vol
      ensures r.Failed? <==> !BoxFits(old(vol.dir), digest, k)
      ensures r.Failed? ==> !Residue(old(vol.dir), tx, st, sts) && vol.dir == old(vol.dir)
      ensures r.Done? ==> Quiet(vol.dir, tx, if st.Boxed? then Settled(st.phase) else st, sts)
      ensures r.Crashed? ==> vol.power == 0 && Recoverable(vol.dir, tx, PhaseOf(st))
      ensures r.Done? ==> Paid(old(vol.power), old(vol.dir), vol.power, vol.dir, 2)
      ensures r.Crashed? ==> Short(old(vol.power), old(vol.dir), 2)
      ensures Lean(old(vol.dir), vol.dir, r)
    {
      if Residue(vol.dir, tx, st, sts) { JournalSlotSeen(vol.dir, tx, digest, st, sts, k); }
      BoxSeen(vol.dir, digest, k);
      if vol.dir.slots[k].source != RetiredJournal { return Failed; }
      if vol.dir.slots[k].held.None? {
        r := vol.DropSlot(k);
        return;
      }
      if inv.journal || inv.recovery || inv.retired || inv.stages != {} || inv.temps != {} || inv.backups != {} { return Failed; }
      if ReadJournal(vol.dir.slots[k].held, digest).None? { return Failed; }
      r := RemoveBoxed(k, tx, st.phase, sts);
    }

    /** Without a journal every remaining temp and stage is an orphan. */
    method DropOrphans(orphans: set<Name>, ghost tx: Tx, ghost p: Phase, ghost sts: seq<ItemState>) returns (r: Status)
      requires WellFormed(tx, digest) && Quiet(vol.dir, tx, Settled(p), sts)
      requires forall x :: x in orphans <==> x in vol.dir.files && (x.NewTemp? || x.JournalStage?)
      modifies vol
      ensures !r.Failed?
      ensures r.Done? ==> vol.dir == Dir(Outcome(tx, p), map[])
      ensures r.Crashed? ==> vol.power == 0 && Recoverable(vol.dir, tx, p)
      ensures r.Done? ==> Paid(old(vol.power), old(vol.dir), vol.power, vol.dir, 0)
      ensures r.Crashed? ==> Short(old(vol.power), old(vol.dir), 0)
      ensures Lean(old(vol.dir), vol.dir, r)
    {
      var todo := orphans;
      r := Done;
      while todo != {}
        invariant r.Done? && Quiet(vol.dir, tx, Settled(p), sts)
        invariant forall x :: x in todo <==> x in vol.dir.files && (x.NewTemp? || x.JournalStage?)
        invariant Paid(old(vol.power), old(vol.dir), vol.power, vol.dir, 0) && Weight(vol.dir) <= Weight(old(vol.dir))
        decreases todo
      {
        var x :| x in todo;
        r := DropOrphan(x, tx, p, sts);
        if !r.Done? { return; }
        todo := todo - {x};
      }
      BareIsOutcome(tx, digest, vol.dir.files, p);
    }

    method DropOrphan(x: Name, ghost tx: Tx, ghost p: Phase, ghost sts: seq<ItemState>) returns (r: Status)
      requires Quiet(vol.dir, tx, Settled(p), sts) && x in vol.dir.files && (x.NewTemp? || x.JournalStage?)
      modifies vol
      ensures !r.Failed?
      ensures r.Done? ==> Quiet(vol.dir, tx, Settled(p), sts) && vol.dir.files == old(vol.dir).files - {x}
      ensures r.Crashed? ==> vol.power == 0 && Recoverable(vol.dir, tx, p)
      ensures r.Done? ==> Paid(old(vol.power), old(vol.dir), vol.power, vol.dir, 0)
      ensures r.Crashed? ==> Short(old(vol.power), old(vol.dir), 0)
      ensures Lean(old(vol.dir), vol.dir, r)
    {
      QuietRecoverable(vol.dir, tx, Settled(p), sts);
      r := RemoveSnapshot(x, At(vol.dir.files, x));
      if r.Crashed? { DiscardRecoverable(tx, old(vol.dir), vol.dir, x, Settled(p), sts, sts); }
    }

    // -------------------------------------------------------------- recovery

    /** txRecover. From any residue of the transaction: if it completes, the
        directory is exactly the outcome that the journal's phase decided; if it
        dies, the directory is again a residue with the same decision; it refuses
        exactly the wedged journal swap and the pinned target; and with four
        steps of power a file, one an item and sixteen more it does not die. */
    method Recover(ghost tx: Tx, ghost p: Phase) returns (r: Status)
      requires WellFormed(tx, digest) && Recoverable(vol.dir, tx, p)
      modifies vol
      ensures r.Done? ==> vol.dir == Dir(Outcome(tx, p), map[])
      ensures !r.Done? ==> Recoverable(vol.dir, tx, p)
      ensures r.Crashed? ==> vol.power == 0
      ensures !r.Crashed? ==> (r.Failed? <==> Wedged(old(vol.dir)) || (p.Prepared? && Pinned(old(vol.dir).files, tx.items)))
      ensures r.Failed? ==> Wedged(vol.dir) || (p.Prepared? && Pinned(vol.dir.files, tx.items))
      ensures r.Done? ==> Paid(old(vol.power), old(vol.dir), vol.power, vol.dir, |tx.items| + 16)
      ensures r.Crashed? ==> Short(old(vol.power), old(vol.dir), |tx.items| + 16)
      ensures !Short(old(vol.power), old(vol.dir), |tx.items| + 16) ==>
                (r.Done? <==> !Wedged(old(vol.dir)) && !(p.Prepared? && Pinned(old(vol.dir).files, tx.items)))
      ensures Lean(old(vol.dir), vol.dir, r)
    {
      ghost var st, sts :| Residue(vol.dir, tx, st, sts) && PhaseOf(st) == p;
      if p.Prepared? { PinnedIsBlocked(tx, digest, vol.dir, st, sts); }
      ghost var st1, st2;
      r, st1 := ResolveUpdate(tx, st, sts);
      if !r.Done? { return; }
      r, st2 := ResolveQuarantines(tx, st1, sts);
      if !r.Done? { return; }
      ResidueSound(vol.dir, tx, digest, st2, sts);
      r := RecoverAuthority(tx, st2, sts);
    }

    /** First stage of txRecover: an unfinished swap of journals. */
    method ResolveUpdate(ghost tx: Tx, ghost st: Station, ghost sts: seq<ItemState>) returns (r: Status, ghost now: Station)
      requires WellFormed(tx, digest) && (SwapsFit(vol.dir, digest) ==> Residue(vol.dir, tx, st, sts))
      modifies vol
      ensures r.Failed? <==> !SwapsFit(old(vol.dir), digest)
      ensures Residue(old(vol.dir), tx, st, sts) ==> (r.Failed? <==> Wedged(old(vol.dir)))
      ensures r.Failed? ==> vol.dir == old(vol.dir)
      ensures r.Done? ==> Residue(vol.dir, tx, now, sts) && now == (if st.Swapping? then Live(Prepared) else st)
      ensures r.Done? ==> forall k :: k in vol.dir.slots ==> !vol.dir.slots[k].kind.UpdateSlot?
      ensures r.Crashed? ==> vol.power == 0 && Recoverable(vol.dir, tx, PhaseOf(st))
      ensures r.Done? ==> Paid(old(vol.power), old(vol.dir), vol.power, vol.dir, 6)
      ensures r.Crashed? ==> Short(old(vol.power), old(vol.dir), 6)
      ensures Lean(old(vol.dir), vol.dir, r)
    {
      now := if st.Swapping? then Live(Prepared) else st;
      if Residue(vol.dir, tx, st, sts) { UpdatesSeen(vol.dir, tx, digest, st, sts); }
      var inv := Inspect(vol.dir);
      if inv.None? { return Failed, st; }
      OnlyMember(vol.dir, inv.value.journalUpdates, UpdateSlot);
      if inv.value.journalUpdates == {} {
        assert forall k :: k in vol.dir.slots ==> k !in inv.value.journalUpdates;
        return Done, now;
      }
      if |inv.value.journalUpdates| != 1 { return Failed, st; }
      var k :| k in inv.value.journalUpdates;
      r := RecoverJournalUpdate(k, inv.value, tx, st, sts);
      if r.Done? { QuietRecoverable(vol.dir, tx, Live(PhaseOf(st)), sts); }
    }

    /** Second stage: object quarantines, then a completed journal's quarantine. */
    method ResolveQuarantines(ghost tx: Tx, ghost st: Station, ghost sts: seq<ItemState>) returns (r: Status, ghost now: Station)
      requires WellFormed(tx, digest) && (Recognized(vol.dir) ==> Residue(vol.dir, tx, st, sts))
      requires forall k :: k in vol.dir.slots ==> !vol.dir.slots[k].kind.UpdateSlot?
      modifies vol
      ensures r.Failed? <==> !Recognized(old(vol.dir))
      ensures r.Failed? ==> vol.dir == old(vol.dir) && !Residue(vol.dir, tx, st, sts)
      ensures r.Done? ==> Quiet(vol.dir, tx, now, sts) && now == (if st.Boxed? then Settled(st.phase) else st)
      ensures r.Crashed? ==> vol.power == 0 && Recoverable(vol.dir, tx, PhaseOf(st))
      ensures r.Done? ==> Paid(old(vol.power), old(vol.dir), vol.power, vol.dir, 8)
      ensures r.Crashed? ==> Short(old(vol.power), old(vol.dir), 8)
      ensures Lean(old(vol.dir), vol.dir, r)
    {
      now := if st.Boxed? then Settled(st.phase) else st;
      if Residue(vol.dir, tx, st, sts) { NothingUnrecognized(vol.dir, tx, st, sts); }
      var inv := Inspect(vol.dir);
      if inv.None? { return Failed, st; }
      r := RestoreObjects(inv.value.objectQuarantines, tx, st, sts);
      if !r.Done? { return; }
      r := ResolveBox(tx, st, sts);
    }

    /** The completed-journal quarantine, once no object is left in one. */
    method ResolveBox(ghost tx: Tx, ghost st: Station, ghost sts: seq<ItemState>) returns (r: Status)
      requires WellFormed(tx, digest) && (BoxesFit(vol.dir, digest) ==> Residue(vol.dir, tx, st, sts))
      requires forall k :: k in vol.dir.slots ==> vol.dir.slots[k].kind.JournalSlot?
      modifies vol
      ensures r.Failed? <==> !BoxesFit(old(vol.dir), digest)
      ensures r.Failed? ==> vol.dir == old(vol.dir) && !Residue(vol.dir, tx, st, sts)
      ensures r.Done? ==> Quiet(vol.dir, tx, if st.Boxed? then Settled(st.phase) else st, sts)
      ensures r.Crashed? ==> vol.power == 0 && Recoverable(vol.dir, tx, PhaseOf(st))
      ensures r.Done? ==> Paid(old(vol.power), old(vol.dir), vol.power, vol.dir, 2)
      ensures r.Crashed? ==> Short(old(vol.power), old(vol.dir), 2)
      ensures Lean(old(vol.dir), vol.dir, r)
    {
      if Residue(vol.dir, tx, st, sts) { BoxesSeen(vol.dir, tx, digest, st, sts); }
      var inv := Inspect(vol.dir);
      if inv.None? { return Failed; }
      OnlyMember(vol.dir, inv.value.journalQuarantines, JournalSlot);
      if inv.value.journalQuarantines == {} {
        assert forall k :: k in vol.dir.slots ==> k in inv.value.journalQuarantines;
        SlotlessIsQuiet(vol.dir, tx, st, sts);
        return Done;
      }
      if |inv.value.journalQuarantines| != 1 { return Failed; }
      var k :| k in inv.value.journalQuarantines;
      r := RecoverJournalSlot(k, inv.value, tx, st, sts);
    }

    /** The rest of txRecover, once every quarantine is resolved. */
    method RecoverAuthority(ghost tx: Tx, ghost st: Station, ghost sts: seq<ItemState>) returns (r: Status)
      requires WellFormed(tx, digest) && (Sound(vol.dir, digest) ==> Quiet(vol.dir, tx, st, sts))
      modifies vol
      ensures !Sound(old(vol.dir), digest) ==> !r.Done? && Untouched(old(vol.dir), vol.dir)
      ensures r.Done? ==> vol.dir == Dir(Outcome(tx, st.phase), map[])
      ensures !r.Done? && Sound(old(vol.dir), digest) ==> Recoverable(vol.dir, tx, st.phase)
      ensures r.Crashed? ==> vol.power == 0
      ensures !r.Crashed? && Sound(old(vol.dir), digest) ==> (r.Failed? <==> st.phase.Prepared? && Blocked(tx, st, sts))
      ensures r.Failed? && Sound(old(vol.dir), digest) ==> Pinned(vol.dir.files, tx.items)
      ensures r.Done? ==> Paid(old(vol.power), old(vol.dir), vol.power, vol.dir, |tx.items| + 2)
      ensures r.Crashed? ==> Short(old(vol.power), old(vol.dir), |tx.items| + 2)
      ensures Lean(old(vol.dir), vol.dir, r)
    {
      SoundSeen(vol.dir, digest);
      var inspected := Inspect(vol.dir);
      if inspected.None? { return Failed; }
      var inv := inspected.value;
      var authorities := (if inv.journal then 1 else 0) + (if inv.recovery then 1 else 0) + (if inv.retired then 1 else 0);
      if authorities > 1 { return Failed; }
      if authorities == 0 {
        if inv.backups != {} { return Failed; }
        r := RecoverUnjournaled(inv, tx, st, sts);
        return;
      }
      r := RecoverJournalled(tx, st, sts);
    }

    /** Without a journal every temp and stage is an orphan. */
    method RecoverUnjournaled(inv: Inventory, ghost tx: Tx, ghost st: Station, ghost sts: seq<ItemState>) returns (r: Status)
      requires WellFormed(tx, digest) && Quiet(vol.dir, tx, st, sts)
      requires Inspect(vol.dir) == Some(inv) && !inv.journal && !inv.recovery && !inv.retired
      modifies vol
      ensures !r.Failed? && !Blocked(tx, st, sts)
      ensures r.Done? ==> vol.dir == Dir(Outcome(tx, st.phase), map[])
      ensures r.Crashed? ==> vol.power == 0 && Recoverable(vol.dir, tx, st.phase)
      ensures r.Done? ==> Paid(old(vol.power), old(vol.dir), vol.power, vol.dir, 0)
      ensures r.Crashed? ==> Short(old(vol.power), old(vol.dir), 0)
      ensures Lean(old(vol.dir), vol.dir, r)
    {
      QuietRecoverable(vol.dir, tx, st, sts);
      JournalsSeen(vol.dir, tx, st, sts);
      r := DropOrphans(inv.temps + inv.stages, tx, st.phase, sts);
    }

    /** With one journal: isolate it, preflight, then roll back or finalize. */
    method RecoverJournalled(ghost tx: Tx, ghost st: Station, ghost sts: seq<ItemState>) returns (r: Status)
      requires WellFormed(tx, digest) && (Sound(vol.dir, digest) ==> Quiet(vol.dir, tx, st, sts))
      requires exists x :: x in vol.dir.files && JournalName(x)
      modifies vol
      ensures !Sound(old(vol.dir), digest) ==> !r.Done? && Untouched(old(vol.dir), vol.dir)
      ensures r.Done? ==> vol.dir == Dir(Outcome(tx, st.phase), map[])
      ensures !r.Done? && Sound(old(vol.dir), digest) ==> Recoverable(vol.dir, tx, st.phase)
      ensures r.Crashed? ==> vol.power == 0
      ensures !r.Crashed? && Sound(old(vol.dir), digest) ==> (r.Failed? <==> st.phase.Prepared? && Blocked(tx, st, sts))
      ensures r.Failed? && Sound(old(vol.dir), digest) ==> Pinned(vol.dir.files, tx.items)
      ensures r.Done? ==> Paid(old(vol.power), old(vol.dir), vol.power, vol.dir, |tx.items| + 2)
      ensures r.Crashed? ==> Short(old(vol.power), old(vol.dir), |tx.items| + 2)
      ensures Lean(old(vol.dir), vol.dir, r)
    {
      if Sound(vol.dir, digest) { QuietRecoverable(vol.dir, tx, st, sts); }
      var home, journal, states;
      r, home, journal, states := BeginChecked(tx, st, sts);
      if !r.Done? { return; }
      r := Decide(journal, home, states, tx, st, sts);
    }

    /** Isolate the journal and preflight: nothing else is touched before. */
    method BeginChecked(ghost tx: Tx, ghost st: Station, ghost sts: seq<ItemState>)
      returns (r: Status, home: Name, journal: Journal, states: seq<Triple>)
      requires WellFormed(tx, digest) && exists x :: x in vol.dir.files && JournalName(x)
      modifies vol
      ensures !r.Crashed? ==> (r.Done? <==> Sound(old(vol.dir), digest))
      ensures Untouched(old(vol.dir), vol.dir)
      ensures r.Done? ==> |states| == |journal.items| && forall i :: 0 <= i < |states| ==> states[i] == Seen(vol.dir.files, journal.items[i])
      ensures Quiet(old(vol.dir), tx, st, sts) && !st.Settled? ==> !r.Failed? && (r.Done? ==> Begun(vol.dir, tx, st, sts, home, journal))
      ensures r.Crashed? ==> vol.power == 0 && vol.dir == old(vol.dir)
      ensures r.Done? ==> Paid(old(vol.power), old(vol.dir), vol.power, vol.dir, 1)
      ensures r.Crashed? ==> Short(old(vol.power), old(vol.dir), 1)
      ensures Lean(old(vol.dir), vol.dir, r)
    {
      ghost var d0 := vol.dir;
      if Quiet(d0, tx, st, sts) { ResidueSound(d0, tx, digest, st, sts); }
      states := [];
      var file;
      r, home, journal, file := BeginAuthority(tx, st, sts);
      if !r.Done? { return; }
      ghost var was :| AuthorityAt(d0, digest, was) && IsolatedFrom(d0, vol.dir, was, home);
      BeginUntouched(d0, vol.dir, digest, was, home, journal);
      var ok;
      ok, states := Preflight(journal);
      if !ok { r := Failed; }
    }

    /** The decision is the journal's phase. */
    method Decide(journal: Journal, home: Name, states: seq<Triple>, ghost tx: Tx, ghost st: Station, ghost sts: seq<ItemState>)
      returns (r: Status)
      requires WellFormed(tx, digest) && !st.Settled? && !st.Swapping? && Begun(vol.dir, tx, st, sts, home, journal)
      requires |states| == |journal.items| && forall i :: 0 <= i < |states| ==> states[i] == Seen(vol.dir.files, journal.items[i])
      modifies vol
      ensures r.Done? ==> vol.dir == Dir(Outcome(tx, st.phase), map[])
      ensures !r.Done? ==> Recoverable(vol.dir, tx, st.phase)
      ensures r.Crashed? ==> vol.power == 0
      ensures !r.Crashed? ==> (r.Failed? <==> st.phase.Prepared? && Blocked(tx, st, sts))
      ensures r.Failed? ==> Pinned(vol.dir.files, tx.items)
      ensures r.Done? ==> Paid(old(vol.power), old(vol.dir), vol.power, vol.dir, |tx.items| + 1)
      ensures r.Crashed? ==> Short(old(vol.power), old(vol.dir), |tx.items| + 1)
      ensures Lean(old(vol.dir), vol.dir, r)
    {
      ghost var now := if st.Live? then Isolated(st.phase) else st;
      ResidueFits(vol.dir, tx, digest, now, sts);
      if journal.phase.Prepared? {
        r := Rollback(journal, home, states, tx, now, sts);
      } else {
        r := Finalize(journal, home, states, tx, now, sts);
      }
    }
  }

  /** Isolating the journal disturbs no item and no alias. */
  lemma BeginUntouched(d0: ArtifactDir, d: ArtifactDir, h: Body -> Digest, was: Name, home: Name, journal: Journal)
    requires AuthorityAt(d0, h, was) && was in d0.files && d0.files[was].body == Text(journal)
    requires if was.LiveJournal? then home.RecoveryJournal? && d == Renamed(d0, LiveJournal, RecoveryJournal) else home == was && d == d0
    ensures Untouched(d0, d)
    ensures PreflightFits(d.files, journal, h) <==> Sound(d0, h)
  {
    assert was in d0.files && JournalName(was);
    forall x | AuthorityAt(d0, h, x) ensures x == was { assert x in d0.files && JournalName(x); }
    forall x: Name | !JournalName(x) ensures At(d.files, x) == At(d0.files, x) {}
    forall i | 0 <= i < |journal.items| ensures PreflightSeen(d.files, journal.phase, journal.items[i], h) <==> PreflightSeen(d0.files, journal.phase, journal.items[i], h) {}
    forall x: Name | x.User? ensures x in d.files <==> x in d0.files { assert At(d.files, x) == At(d0.files, x); }
    assert PreflightFits(d.files, journal, h) <==> PreflightFits(d0.files, journal, h);
  }
}
