/** What a crash can leave behind. A transaction is a directory `base`, a list
    of journal items and the files staged for them. Each item moves through six
    physical states; a residue is a directory in which every item is in a state
    that the journal's phase allows and the journal has exactly one home. */
module ArtifactResidue {
  import opened Basics
  import opened NameOrder
  import opened AtomicFiles
  import opened ArtifactNames
  import opened ArtifactDirectory

  datatype Tx = Tx(base: Files, items: seq<Item>, staged: seq<File>)

  datatype ItemState = Fresh | Parked | Installed | Emptied | RolledBack | Cleaned

  /** Where the journal is. */
  datatype Station =
    | Settled(phase: Phase)
    | Live(phase: Phase)
    | Swapping
    | Isolated(phase: Phase)
    | Retired(phase: Phase)
    | Boxed(phase: Phase)

  function PhaseOf(st: Station): Phase {
    if st.Swapping? then Prepared else st.phase
  }

  // ------------------------------------------------- well-formed transactions

  ghost predicate ItemOk(tx: Tx, h: Body -> Digest, i: nat)
    requires i < |tx.items| == |tx.staged|
  {
    var it := tx.items[i];
    && ValidTarget(it.target)
    && it.backup == it.temp
    && it.hadOld == (User(it.target) in tx.base)
    && it.oldHash == (if it.hadOld then Some(h(tx.base[User(it.target)].body)) else None)
    && it.oldId == (if it.hadOld then Some(tx.base[User(it.target)].id) else None)
    && it.newHash == h(tx.staged[i].body)
    && it.newId == tx.staged[i].id
    && (it.delete ==> it.hadOld && tx.staged[i].body == Bytes([]))
    && Stranger(tx.base, tx.staged[i])
  }

  /** Only entries without the reserved prefix. */
  ghost predicate UserOnly(f: Files) {
    forall x :: x in f ==> x.User? && !(TX_PREFIX <= Lower(x.s))
  }

  ghost predicate WellFormed(tx: Tx, h: Body -> Digest)
  {
    && |tx.items| == |tx.staged| <= MAX_ITEMS
    && UserOnly(tx.base)
    && (forall i :: 0 <= i < |tx.items| ==> ItemOk(tx, h, i))
    && (forall i, j :: 0 <= i < j < |tx.items| ==> Less(tx.items[i].target, tx.items[j].target))
    && (forall i, j :: 0 <= i < j < |tx.items| ==> tx.items[i].temp != tx.items[j].temp)
    && (forall i, j :: 0 <= i < j < |tx.items| ==> Lower(tx.items[i].target) != Lower(tx.items[j].target))
    && (forall i, x :: 0 <= i < |tx.items| && x in tx.base && Lower(x.s) == Lower(tx.items[i].target) ==> x.s == tx.items[i].target)
  }

  // ------------------------------------------------------------ item states

  function OldFile(tx: Tx, i: nat): Option<File>
    requires i < |tx.items|
  {
    At(tx.base, User(tx.items[i].target))
  }

  function TargetIn(tx: Tx, i: nat, st: ItemState): Option<File>
    requires i < |tx.items| == |tx.staged|
  {
    match st
    case Fresh => OldFile(tx, i)
    case RolledBack => OldFile(tx, i)
    case Parked => None
    case Emptied => None
    case Installed => if tx.items[i].delete then None else Some(tx.staged[i])
    case Cleaned => if tx.items[i].delete then None else Some(tx.staged[i])
  }

  function TempIn(tx: Tx, i: nat, st: ItemState): Option<File>
    requires i < |tx.items| == |tx.staged|
  {
    if st.Fresh? || st.Parked? then Some(tx.staged[i]) else None
  }

  function BackupIn(tx: Tx, i: nat, st: ItemState): Option<File>
    requires i < |tx.items|
  {
    if st.Parked? || st.Emptied? || st.Installed? then OldFile(tx, i) else None
  }

  ghost predicate ItemAt(tx: Tx, f: Files, i: nat, st: ItemState)
    requires i < |tx.items| == |tx.staged|
  {
    && At(f, User(tx.items[i].target)) == TargetIn(tx, i, st)
    && At(f, NewTemp(tx.items[i].temp)) == TempIn(tx, i, st)
    && At(f, OldBackup(tx.items[i].backup)) == BackupIn(tx, i, st)
  }

  predicate Legal(p: Phase, st: ItemState) {
    if p.Prepared? then !st.Cleaned? else st.Installed? || st.Cleaned?
  }

  function DoneState(p: Phase): ItemState {
    if p.Prepared? then RolledBack else Cleaned
  }

  /** Names that belong to item i. */
  function NamesOf(tx: Tx, i: nat): set<Name>
    requires i < |tx.items|
  {
    {User(tx.items[i].target), NewTemp(tx.items[i].temp), OldBackup(tx.items[i].backup)}
  }

  ghost predicate IsTarget(tx: Tx, s: string) {
    exists i :: 0 <= i < |tx.items| && tx.items[i].target == s
  }

  ghost predicate Referenced(tx: Tx, n: nat) {
    exists i :: 0 <= i < |tx.items| && tx.items[i].temp == n
  }

  /** Every item is in its recorded state and everything else is as in `base`. */
  ghost predicate Holds(tx: Tx, f: Files, sts: seq<ItemState>)
  {
    && |tx.items| == |tx.staged| == |sts|
    && (forall i :: 0 <= i < |sts| ==> ItemAt(tx, f, i, sts[i]))
    && (forall s :: !IsTarget(tx, s) ==> At(f, User(s)) == At(tx.base, User(s)))
    && (forall x :: x in f && x.NewTemp? ==> Referenced(tx, x.n))
    && (forall x :: x in f && x.OldBackup? ==> Referenced(tx, x.n))
    && (forall x :: x in f ==> !x.Unrecognized?)
  }

  ghost predicate AllLegal(p: Phase, sts: seq<ItemState>) {
    forall i :: 0 <= i < |sts| ==> Legal(p, sts[i])
  }

  ghost predicate AllDone(p: Phase, sts: seq<ItemState>) {
    forall i :: 0 <= i < |sts| ==> sts[i] == DoneState(p)
  }

  // ------------------------------------------------------------- outcomes

  /** The directory the first n items describe, applied to base one by one. */
  ghost function Applied(tx: Tx, n: nat): (f: Files)
    requires n <= |tx.items| == |tx.staged|
  {
    if n == 0 then tx.base
    else
      var f := Applied(tx, n - 1);
      var it := tx.items[n - 1];
      if it.delete then f - {User(it.target)} else f[User(it.target) := tx.staged[n - 1]]
  }

  /** The old directory, or the old directory with every item applied. */
  ghost function Outcome(tx: Tx, p: Phase): (f: Files)
    requires |tx.items| == |tx.staged|
  {
    if p.Prepared? then tx.base else Applied(tx, |tx.items|)
  }

  // ------------------------------------------------------------- residues

  ghost predicate Authority(tx: Tx, f: Files, home: Name, p: Phase) {
    && home in f && f[home].body == Text(Journal(p, tx.items))
    && (forall x :: x in f && (x.LiveJournal? || x.RecoveryJournal? || x.RetiredJournal?) ==> x == home)
  }

  ghost predicate NoJournal(f: Files) {
    LiveJournal !in f && RecoveryJournal !in f && RetiredJournal !in f
  }

  ghost predicate NoStages(f: Files) {
    forall x :: x in f ==> !x.JournalStage?
  }

  /** Temps, stages and journals are files that the transaction created. */
  ghost predicate Created(tx: Tx, f: Files) {
    forall x :: x in f && !x.User? && !x.OldBackup? ==> Stranger(tx.base, f[x])
  }

  ghost predicate FilesOk(tx: Tx, st: Station, sts: seq<ItemState>, f: Files)
  {
    |tx.items| == |tx.staged| && (tx.items == [] ==> st.Settled?) && Created(tx, f) &&
    match st
    case Settled(p) =>
      && (forall s :: At(f, User(s)) == At(Outcome(tx, p), User(s)))
      && (forall x :: x in f ==> x.User? || x.NewTemp? || x.JournalStage?)
    case Live(p) => Holds(tx, f, sts) && AllLegal(p, sts) && Authority(tx, f, LiveJournal, p)
    case Swapping => Holds(tx, f, sts) && AllLegal(Prepared, sts) && NoJournal(f)
    case Isolated(p) => Holds(tx, f, sts) && AllLegal(p, sts) && Authority(tx, f, RecoveryJournal, p)
    case Retired(p) => Holds(tx, f, sts) && AllDone(p, sts) && NoStages(f) && Authority(tx, f, RetiredJournal, p)
    case Boxed(p) => Holds(tx, f, sts) && AllDone(p, sts) && NoStages(f) && NoJournal(f)
  }

  /** Objects that a removal may hold in quarantine: never an original before
      the commit point, never an installed file after it. */
  ghost predicate Disposable(tx: Tx, st: Station, sts: seq<ItemState>, x: Name)
  {
    match st
    case Settled(_) => x.NewTemp? || x.JournalStage?
    case Live(p) => p.Prepared? && (x.NewTemp? || x.JournalStage?)
    case Isolated(p) =>
      if p.Prepared? then
        x.NewTemp? || x.JournalStage? || (exists i :: 0 <= i < |sts| <= |tx.items| && sts[i].Installed? && !tx.items[i].delete && x == User(tx.items[i].target))
      else x.OldBackup? || x.JournalStage?
    case _ => false
  }

  ghost predicate SlotOk(tx: Tx, st: Station, sts: seq<ItemState>, files: Files, s: ArtifactSlot)
  {
    match s.kind
    case ObjectSlot =>
      && (st.Settled? || st == Live(Prepared) || st.Isolated?)
      && Quarantinable(ObjectSlot, s.source)
      && (s.held.Some? ==> s.source !in files && Disposable(tx, st, sts, s.source))
    case UpdateSlot =>
      && s.source == LiveJournal && (s.held.Some? ==> Stranger(tx.base, s.held.value))
      && (if st.Swapping? then s.held.Some? && s.held.value.body == Text(Journal(Prepared, tx.items))
          else if st == Live(Prepared) then s.held.None?
          else st == Live(Committed) && (s.held.Some? ==> s.held.value.body == Text(Journal(Prepared, tx.items))))
    case JournalSlot =>
      && s.source == RetiredJournal && (s.held.Some? ==> Stranger(tx.base, s.held.value))
      && (if st.Boxed? then s.held.Some? && s.held.value.body == Text(Journal(st.phase, tx.items))
          else (st.Retired? || st.Settled?) && s.held.None?)
  }

  ghost predicate SlotsOk(tx: Tx, d: ArtifactDir, st: Station, sts: seq<ItemState>)
  {
    && (forall j, k :: j in d.slots && k in d.slots ==> j == k)
    && (forall k :: k in d.slots ==> SlotOk(tx, st, sts, d.files, d.slots[k]))
    && (st.Swapping? || st.Boxed? ==> d.slots != map[])
  }

  predicate HoldsObject(s: ArtifactSlot) {
    s.kind.ObjectSlot? && s.held.Some?
  }

  /** The files after every quarantined object has gone back to its source. */
  ghost function Resolved(d: ArtifactDir): (f: Files) {
    if exists k :: k in d.slots && HoldsObject(d.slots[k]) then
      var k :| k in d.slots && HoldsObject(d.slots[k]);
      d.files[d.slots[k].source := d.slots[k].held.value]
    else d.files
  }

  ghost predicate Residue(d: ArtifactDir, tx: Tx, st: Station, sts: seq<ItemState>) {
    SlotsOk(tx, d, st, sts) && FilesOk(tx, st, sts, Resolved(d))
  }

  ghost predicate Recoverable(d: ArtifactDir, tx: Tx, p: Phase) {
    exists st, sts :: Residue(d, tx, st, sts) && PhaseOf(st) == p
  }

  // ------------------------------------------------------------ step lemmas

  lemma ResolvedPlain(d: ArtifactDir)
    requires forall k :: k in d.slots ==> !HoldsObject(d.slots[k])
    ensures Resolved(d) == d.files
  {
  }

  lemma ResolvedHolding(d: ArtifactDir, k: nat)
    requires k in d.slots && HoldsObject(d.slots[k])
    requires forall j :: j in d.slots ==> j == k
    ensures Resolved(d) == d.files[d.slots[k].source := d.slots[k].held.value]
  {
  }

  /** A name is seen as it will be once quarantines are resolved, unless a slot
      holds its object. */
  lemma ViewAt(d: ArtifactDir, tx: Tx, st: Station, sts: seq<ItemState>, x: Name)
    requires SlotsOk(tx, d, st, sts)
    ensures x in d.files ==> At(Resolved(d), x) == At(d.files, x)
    ensures At(Resolved(d), x) != At(d.files, x) ==> Quarantinable(ObjectSlot, x) && Disposable(tx, st, sts, x)
  {
    if k :| k in d.slots && HoldsObject(d.slots[k]) {
      ResolvedHolding(d, k);
      assert SlotOk(tx, st, sts, d.files, d.slots[k]);
    } else {
      ResolvedPlain(d);
    }
  }

  lemma HeldAt(d: ArtifactDir, tx: Tx, st: Station, sts: seq<ItemState>, k: nat)
    requires SlotsOk(tx, d, st, sts) && k in d.slots && HoldsObject(d.slots[k])
    ensures At(Resolved(d), d.slots[k].source) == d.slots[k].held && d.slots[k].source !in d.files
    ensures Disposable(tx, st, sts, d.slots[k].source)
  {
    ResolvedHolding(d, k);
    assert SlotOk(tx, st, sts, d.files, d.slots[k]);
  }

  /** What the files show of item i outside quarantine. */
  lemma ItemSeen(d: ArtifactDir, tx: Tx, st: Station, sts: seq<ItemState>, i: nat)
    requires Residue(d, tx, st, sts) && !st.Settled? && i < |tx.items|
    ensures |tx.items| == |tx.staged| == |sts| && ItemAt(tx, Resolved(d), i, sts[i])
    ensures Legal(PhaseOf(st), sts[i]) || sts[i] == DoneState(PhaseOf(st))
  {
  }

  lemma NamesApart(tx: Tx, h: Body -> Digest, i: nat, j: nat)
    requires WellFormed(tx, h) && i < |tx.items| && j < |tx.items| && i != j
    ensures NamesOf(tx, i) !! NamesOf(tx, j)
  {
    assert ItemOk(tx, h, i) && ItemOk(tx, h, j);
    TargetsDistinct(tx, h, i, j);
  }

  lemma OtherItemStays(tx: Tx, h: Body -> Digest, f: Files, i: nat, j: nat, g: Files, st: ItemState)
    requires WellFormed(tx, h) && i < |tx.items| && j < |tx.items| && i != j && ItemAt(tx, f, j, st)
    requires forall x :: x !in NamesOf(tx, i) ==> At(g, x) == At(f, x)
    ensures ItemAt(tx, g, j, st)
  {
    NamesApart(tx, h, i, j);
    assert User(tx.items[j].target) in NamesOf(tx, j);
    assert NewTemp(tx.items[j].temp) in NamesOf(tx, j);
    assert OldBackup(tx.items[j].backup) in NamesOf(tx, j);
  }

  /** Changing only the names of item i moves only item i. */
  lemma Advance(tx: Tx, h: Body -> Digest, f: Files, sts: seq<ItemState>, i: nat, g: Files, st: ItemState)
    requires WellFormed(tx, h) && Holds(tx, f, sts) && i < |sts|
    requires forall x :: x !in NamesOf(tx, i) ==> At(g, x) == At(f, x)
    requires ItemAt(tx, g, i, st)
    ensures Holds(tx, g, sts[i := st])
  {
    var sts' := sts[i := st];
    assert ItemOk(tx, h, i);
    forall j | 0 <= j < |sts'| ensures ItemAt(tx, g, j, sts'[j]) {
      if j != i { OtherItemStays(tx, h, f, i, j, g, sts[j]); }
    }
    forall s | !IsTarget(tx, s) ensures At(g, User(s)) == At(tx.base, User(s)) {
      assert User(s) !in NamesOf(tx, i);
    }
    forall x | x in g ensures (x.NewTemp? || x.OldBackup? ==> Referenced(tx, x.n)) && !x.Unrecognized? {
      if x !in NamesOf(tx, i) { assert At(g, x) == At(f, x); }
    }
  }

  lemma TargetsDistinct(tx: Tx, h: Body -> Digest, i: nat, j: nat)
    requires WellFormed(tx, h) && i < |tx.items| && j < |tx.items| && i != j
    ensures tx.items[i].target != tx.items[j].target
    ensures tx.items[i].temp != tx.items[j].temp
  {
    if i < j {
      LessTrichotomy(tx.items[i].target, tx.items[j].target);
    } else {
      LessTrichotomy(tx.items[j].target, tx.items[i].target);
    }
  }

  /** Changing journal names or stages moves no item. */
  lemma Bystander(tx: Tx, f: Files, g: Files, sts: seq<ItemState>)
    requires Holds(tx, f, sts)
    requires forall x: Name :: x.User? || x.NewTemp? || x.OldBackup? || x.Unrecognized? ==> At(g, x) == At(f, x)
    ensures Holds(tx, g, sts)
  {
    forall j | 0 <= j < |sts| ensures ItemAt(tx, g, j, sts[j]) {
      assert ItemAt(tx, f, j, sts[j]);
    }
    forall x | x in g && (x.NewTemp? || x.OldBackup? || x.Unrecognized?) ensures x in f {
      assert At(g, x) == At(f, x);
    }
  }

  /** When every item is done the user files are exactly the outcome. */
  lemma DoneIsOutcome(tx: Tx, h: Body -> Digest, f: Files, sts: seq<ItemState>, p: Phase)
    requires WellFormed(tx, h) && Holds(tx, f, sts) && AllDone(p, sts)
    ensures forall s :: At(f, User(s)) == At(Outcome(tx, p), User(s))
    ensures forall x :: x in f ==> !x.NewTemp? && !x.OldBackup? && !x.Unrecognized?
  {
    forall s ensures At(f, User(s)) == At(Outcome(tx, p), User(s)) {
      if p.Committed? { AppliedAt(tx, h, |tx.items|, s); }
      if IsTarget(tx, s) {
        var i :| 0 <= i < |tx.items| && tx.items[i].target == s;
        assert ItemAt(tx, f, i, sts[i]);
      }
    }
    forall i | 0 <= i < |sts| ensures NewTemp(tx.items[i].temp) !in f && OldBackup(tx.items[i].temp) !in f {
      assert ItemOk(tx, h, i) && ItemAt(tx, f, i, sts[i]);
    }
  }

  /** The directory of the first n items, name by name. */
  lemma {:induction false} AppliedAt(tx: Tx, h: Body -> Digest, n: nat, s: string)
    requires WellFormed(tx, h) && n <= |tx.items|
    ensures (forall i :: 0 <= i < n ==> tx.items[i].target != s) ==> At(Applied(tx, n), User(s)) == At(tx.base, User(s))
    ensures forall i :: 0 <= i < n && tx.items[i].target == s ==> At(Applied(tx, n), User(s)) == TargetIn(tx, i, Cleaned)
  {
    if n > 0 {
      AppliedAt(tx, h, n - 1, s);
      if tx.items[n - 1].target == s {
        forall i | 0 <= i < n - 1 ensures tx.items[i].target != s { TargetsDistinct(tx, h, i, n - 1); }
      }
    }
  }

  lemma {:induction false} AppliedUserOnly(tx: Tx, h: Body -> Digest, n: nat)
    requires WellFormed(tx, h) && n <= |tx.items|
    ensures UserOnly(Applied(tx, n))
  {
    if n > 0 {
      AppliedUserOnly(tx, h, n - 1);
      assert ItemOk(tx, h, n - 1);
    }
  }

  lemma OutcomeUserOnly(tx: Tx, h: Body -> Digest, p: Phase)
    requires WellFormed(tx, h)
    ensures UserOnly(Outcome(tx, p))
  {
    AppliedUserOnly(tx, h, |tx.items|);
  }

  // --------------------------------------------------- removal through a slot

  ghost predicate AllowsRemoval(st: Station) {
    st.Settled? || st == Live(Prepared) || st.Isolated?
  }

  /** An interrupted removal of a disposable object is either not yet visible
      or, after quarantine resolution, complete. */
  lemma DiscardRecoverable(tx: Tx, d0: ArtifactDir, d: ArtifactDir, x: Name, st: Station, sts: seq<ItemState>, sts': seq<ItemState>)
    requires d0.slots == map[] && Residue(d0, tx, st, sts) && AllowsRemoval(st)
    requires x in d0.files && Disposable(tx, st, sts, x) && Quarantinable(ObjectSlot, x)
    requires FilesOk(tx, st, sts', d0.files - {x})
    requires Discarding(d0, d, ObjectSlot, x)
    ensures Recoverable(d, tx, PhaseOf(st))
  {
    ResolvedPlain(d0);
    if d == d0 {
      assert Residue(d, tx, st, sts);
    } else {
      var k: nat :| k !in d0.slots && DiscardingAt(d0, d, ObjectSlot, x, k);
      assert d.slots == map[k := d.slots[k]];
      if d.slots[k].held.Some? {
        HeldResidue(tx, d0, d, x, st, sts, k);
      } else {
        EmptyResidue(tx, d, x, st, if x in d.files then sts else sts', k);
      }
    }
  }

  /** A made or an erased slot: the files alone are the residue. */
  lemma EmptyResidue(tx: Tx, d: ArtifactDir, x: Name, st: Station, sts: seq<ItemState>, k: nat)
    requires d.slots == map[k := Slot(ObjectSlot, x, None)] && AllowsRemoval(st) && Quarantinable(ObjectSlot, x)
    requires FilesOk(tx, st, sts, d.files)
    ensures Residue(d, tx, st, sts) && Recoverable(d, tx, PhaseOf(st))
  {
    ResolvedPlain(d);
    assert Residue(d, tx, st, sts);
  }

  /** A filled slot: putting the object back gives the files before. */
  lemma HeldResidue(tx: Tx, d0: ArtifactDir, d: ArtifactDir, x: Name, st: Station, sts: seq<ItemState>, k: nat)
    requires x in d0.files && d == Dir(d0.files - {x}, map[k := Slot(ObjectSlot, x, Some(d0.files[x]))])
    requires AllowsRemoval(st) && Disposable(tx, st, sts, x) && Quarantinable(ObjectSlot, x) && FilesOk(tx, st, sts, d0.files)
    ensures Residue(d, tx, st, sts) && Recoverable(d, tx, PhaseOf(st))
  {
    assert k in d.slots;
    ResolvedHolding(d, k);
    assert (d0.files - {x})[x := d0.files[x]] == d0.files;
    assert Residue(d, tx, st, sts);
  }
}
