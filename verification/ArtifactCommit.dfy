/** The forward path: stage temps, persist the prepared journal, park, install,
    swap in the committed journal, finalize. */
module ArtifactCommit {
  import opened Basics
  import opened NameOrder
  import opened AtomicFiles
  import opened ArtifactNames
  import opened ArtifactDirectory
  import opened ArtifactResidue
  import opened ArtifactJournal
  import opened ArtifactSteps
  import opened ArtifactRecovery
  import opened ArtifactRequest

  // --------------------------------------------------------------- staging

  /** The user files are untouched and exactly the items' temps are staged. */
  ghost predicate Ready(tx: Tx, f: Files)
    requires |tx.items| == |tx.staged|
  {
    && (forall s :: At(f, User(s)) == At(tx.base, User(s)))
    && (forall x :: x in f ==> x.User? || x.NewTemp?)
    && (forall x :: x in f && x.NewTemp? ==> Referenced(tx, x.n))
    && (forall i :: 0 <= i < |tx.items| ==> At(f, NewTemp(tx.items[i].temp)) == Some(tx.staged[i]))
  }

  ghost predicate Asks(tx: Tx, names: seq<string>, files: map<string, Content>, deletes: set<string>)
  {
    && |tx.items| == |tx.staged| <= |names|
    && forall i :: 0 <= i < |tx.items| ==> AsksItem(tx.items[i], tx.staged[i], names[i], files, deletes)
  }

  ghost predicate AsksItem(it: Item, file: File, name: string, files: map<string, Content>, deletes: set<string>) {
    && it.target == name && it.delete == (name in deletes)
    && file.body == Bytes(if name in files then files[name] else [])
  }

  function Grown(tx: Tx, it: Item, file: File): Tx {
    Tx(tx.base, tx.items + [it], tx.staged + [file])
  }

  /** Staging one more sorted, fold-distinct name keeps the list well formed. */
  lemma GrownWellFormed(tx: Tx, h: Body -> Digest, names: seq<string>, it: Item, file: File)
    requires WellFormed(tx, h) && |tx.items| < |names| <= MAX_ITEMS
    requires StrictlySorted(names) && NamesOk(tx.base, Elements(names))
    requires forall i :: 0 <= i < |tx.items| ==> tx.items[i].target == names[i]
    requires it.target == names[|tx.items|] && !Referenced(tx, it.temp)
    requires ItemOk(Grown(tx, it, file), h, |tx.items|)
    ensures WellFormed(Grown(tx, it, file), h)
  {
    var g := Grown(tx, it, file);
    forall i | 0 <= i < |g.items| ensures ItemOk(g, h, i) && g.items[i].target == names[i] {
      if i < |tx.items| { assert ItemOk(tx, h, i); }
    }
    forall i, j | 0 <= i < j < |g.items|
      ensures Less(g.items[i].target, g.items[j].target)
      ensures g.items[i].temp != g.items[j].temp
      ensures Lower(g.items[i].target) != Lower(g.items[j].target)
    {
      assert names[i] in Elements(names) && names[j] in Elements(names);
      LessTrichotomy(names[i], names[j]);
    }
    forall i, x | 0 <= i < |g.items| && x in g.base && Lower(x.s) == Lower(g.items[i].target)
      ensures x.s == g.items[i].target
    {
      assert names[i] in Elements(names);
    }
  }

  lemma GrownAsks(tx: Tx, names: seq<string>, files: map<string, Content>, deletes: set<string>, it: Item, file: File)
    requires Asks(tx, names, files, deletes) && |tx.items| < |names|
    requires AsksItem(it, file, names[|tx.items|], files, deletes)
    ensures Asks(Grown(tx, it, file), names, files, deletes)
  {
  }

  /** Staged temps without a journal are orphans. */
  lemma ReadySettled(tx: Tx, h: Body -> Digest, d: ArtifactDir)
    requires WellFormed(tx, h) && d.slots == map[] && Ready(tx, d.files)
    ensures Quiet(d, tx, Settled(Prepared), []) && Recoverable(d, tx, Prepared)
  {
    forall x | x in d.files && !x.User? ensures Stranger(tx.base, d.files[x]) {
      var i :| 0 <= i < |tx.items| && tx.items[i].temp == x.n;
      assert ItemOk(tx, h, i) && At(d.files, NewTemp(tx.items[i].temp)) == Some(tx.staged[i]);
    }
    QuietRecoverable(d, tx, Settled(Prepared), []);
  }

  lemma NothingStaged(base: Files, h: Body -> Digest)
    requires UserOnly(base)
    ensures WellFormed(Tx(base, [], []), h) && Ready(Tx(base, [], []), base)
    ensures Recoverable(Dir(base, map[]), Tx(base, [], []), Prepared)
  {
    ReadySettled(Tx(base, [], []), h, Dir(base, map[]));
  }

  /** txStageItem. */
  method StageItem(m: Machine, name: string, body: Content, delete: bool, ghost tx: Tx)
    returns (r: Status, it: Item, ghost file: File)
    requires WellFormed(tx, m.digest) && m.vol.dir.slots == map[] && Ready(tx, m.vol.dir.files)
    requires ValidTarget(name) && (delete ==> body == [])
    modifies m.vol
    ensures r.Failed? <==> delete && User(name) !in tx.base
    ensures r.Failed? ==> m.vol.dir == old(m.vol.dir)
    ensures r.Done? ==> it.target == name && it.delete == delete && !Referenced(tx, it.temp)
    ensures r.Done? ==> ItemOk(Grown(tx, it, file), m.digest, |tx.items|) && file.body == Bytes(body)
    ensures r.Done? ==> m.vol.dir.slots == map[] && Ready(Grown(tx, it, file), m.vol.dir.files)
    ensures r.Crashed? ==> m.vol.power == 0 && Recoverable(m.vol.dir, tx, Prepared)
    ensures r.Done? ==> Paid(old(m.vol.power), old(m.vol.dir), m.vol.power, m.vol.dir, 6)
    ensures r.Crashed? ==> Short(old(m.vol.power), old(m.vol.dir), 6)
    ensures Weight(m.vol.dir) <= Weight(old(m.vol.dir)) + 1
  {
    var old_ := At(m.vol.dir.files, User(name));
    assert old_ == At(tx.base, User(name));
    FreshNonceExists(m.vol.dir.files.Keys);
    var n: nat :| NewTemp(n) !in m.vol.dir.files.Keys && OldBackup(n) !in m.vol.dir.files.Keys;
    var staged := File(0, Bytes(body));
    it := Item(name, n, n, old_.Some?,
               if old_.Some? then Some(m.digest(old_.value.body)) else None,
               if old_.Some? then Some(old_.value.id) else None,
               m.digest(Bytes(body)), 0, delete);
    file := staged;
    if delete && old_.None? { return Failed, it, file; }
    ghost var d0 := m.vol.dir;
    UnusedTemp(tx, m.vol.dir.files, n);
    r, staged := m.CreateFile(NewTemp(n), Bytes(body));
    BasePresent(tx, d0.files, staged);
    if r.Crashed? {
      TempBegun(tx, m.digest, d0, n, staged);
      return;
    }
    file := staged;
    it := it.(newId := staged.id);
    GrownReady(tx, d0.files, it, staged);
    PutCount(d0.files, NewTemp(n), staged);
  }

  /** A temp that no journal names, complete or torn, is an orphan. */
  lemma TempBegun(tx: Tx, h: Body -> Digest, d: ArtifactDir, n: nat, file: File)
    requires WellFormed(tx, h) && d.slots == map[] && Ready(tx, d.files) && Stranger(tx.base, file)
    ensures Recoverable(d, tx, Prepared) && Recoverable(Put(d, NewTemp(n), file), tx, Prepared)
  {
    ReadySettled(tx, h, d);
    QuietRecoverable(Put(d, NewTemp(n), file), tx, Settled(Prepared), []);
  }

  /** While every old file is at its name, a new identity is new to the base. */
  lemma BasePresent(tx: Tx, f: Files, file: File)
    requires UserOnly(tx.base) && (forall s :: At(f, User(s)) == At(tx.base, User(s))) && Stranger(f, file)
    ensures Stranger(tx.base, file)
  {
    forall x | x in tx.base ensures tx.base[x].id != file.id { assert At(f, User(x.s)) == At(tx.base, User(x.s)); }
  }

  lemma UnusedTemp(tx: Tx, f: Files, n: nat)
    requires |tx.items| == |tx.staged| && Ready(tx, f) && NewTemp(n) !in f
    ensures !Referenced(tx, n)
  {
    forall i | 0 <= i < |tx.items| ensures tx.items[i].temp != n {
      assert At(f, NewTemp(tx.items[i].temp)).Some?;
    }
  }

  lemma GrownReady(tx: Tx, f: Files, it: Item, file: File)
    requires |tx.items| == |tx.staged| && Ready(tx, f) && NewTemp(it.temp) !in f && !Referenced(tx, it.temp)
    ensures Ready(Grown(tx, it, file), f[NewTemp(it.temp) := file])
  {
    var g := Grown(tx, it, file);
    var f' := f[NewTemp(it.temp) := file];
    assert g.items[|tx.items|] == it;
    forall x | x in f' && x.NewTemp? ensures Referenced(g, x.n) {
      if x != NewTemp(it.temp) {
        var j :| 0 <= j < |tx.items| && tx.items[j].temp == x.n;
        assert g.items[j].temp == x.n;
      } else {
        assert g.items[|tx.items|].temp == x.n;
      }
    }
    forall i | 0 <= i < |g.items| ensures At(f', NewTemp(g.items[i].temp)) == Some(g.staged[i]) {
      if i < |tx.items| {
        assert tx.items[i].temp != it.temp;
      }
    }
  }

  /** txStage: one temp per name; the items form a well-formed transaction. */
  method Stage(m: Machine, names: seq<string>, files: map<string, Content>, deletes: set<string>, ghost base: Files)
    returns (r: Status, items: seq<Item>, ghost tx: Tx)
    requires m.vol.dir == Dir(base, map[]) && UserOnly(base)
    requires StrictlySorted(names) && NamesOk(base, Elements(names)) && |names| <= MAX_ITEMS
    requires Elements(names) == files.Keys + deletes && files.Keys !! deletes
    requires forall s :: s in deletes ==> User(s) in base
    modifies m.vol
    ensures !r.Failed?
    ensures WellFormed(tx, m.digest) && tx.base == base && tx.items == items && Asks(tx, names, files, deletes)
    ensures r.Done? ==> |items| == |names| && m.vol.dir.slots == map[] && Ready(tx, m.vol.dir.files)
    ensures r.Crashed? ==> m.vol.power == 0 && Recoverable(m.vol.dir, tx, Prepared)
    ensures r.Done? ==> Paid(old(m.vol.power), old(m.vol.dir), m.vol.power, m.vol.dir, 6 * |names|)
    ensures r.Crashed? ==> Short(old(m.vol.power), old(m.vol.dir), 6 * |names|)
    ensures Weight(m.vol.dir) <= Weight(old(m.vol.dir)) + |names|
  {
    items := [];
    tx := Tx(base, [], []);
    r := Done;
    for i := 0 to |names|
      invariant |items| == i && tx.items == items && tx.base == base && r.Done?
      invariant WellFormed(tx, m.digest) && Asks(tx, names, files, deletes)
      invariant m.vol.dir.slots == map[] && Ready(tx, m.vol.dir.files)
      invariant Paid(old(m.vol.power), old(m.vol.dir), m.vol.power, m.vol.dir, 6 * i) && Weight(m.vol.dir) <= Weight(old(m.vol.dir)) + i
    {
      var name := names[i];
      assert name in Elements(names);
      var it;
      ghost var file;
      r, it, file := StageItem(m, name, if name in files then files[name] else [], name in deletes, tx);
      if !r.Done? { return; }
      GrownWellFormed(tx, m.digest, names, it, file);
      GrownAsks(tx, names, files, deletes, it, file);
      items := items + [it];
      tx := Grown(tx, it, file);
    }
  }

  // --------------------------------------------------------- journal install

  /** What the rename hook or the file system refuses: parking these targets,
      installing these, and the install of the prepared or committed journal. */
  datatype Veto = Veto(parks: set<string>, installs: set<string>, prepared: bool, committed: bool)

  predicate ParkVetoed(items: seq<Item>, veto: Veto) {
    exists i :: 0 <= i < |items| && ParkRefused(items[i], veto)
  }

  predicate ParkRefused(it: Item, veto: Veto) {
    it.hadOld && it.target in veto.parks
  }

  predicate InstallVetoed(items: seq<Item>, veto: Veto) {
    exists i :: 0 <= i < |items| && InstallRefused(items[i], veto)
  }

  predicate InstallRefused(it: Item, veto: Veto) {
    !it.delete && it.target in veto.installs
  }

  predicate ItemsVetoed(items: seq<Item>, veto: Veto) {
    veto.prepared || veto.committed || ParkVetoed(items, veto) || InstallVetoed(items, veto)
  }

  /** The n-th item is installed before anything of the items is refused. */
  predicate InstalledFirst(items: seq<Item>, veto: Veto, n: nat)
    requires n < |items|
  {
    forall i :: 0 <= i <= n ==> !InstallRefused(items[i], veto)
  }

  /** A refusal comes after a target that rolling back cannot remove. */
  predicate ItemsStuck(items: seq<Item>, veto: Veto) {
    && !veto.prepared && !ParkVetoed(items, veto)
    && exists n :: 0 <= n < |items| && !items[n].delete && LongName(items[n].target) && InstalledFirst(items, veto, n)
  }

  lemma StageAdded(tx: Tx, st: Station, f: Files, sts: seq<ItemState>, x: Name, file: File)
    requires (st == Settled(Prepared) || st == Live(Prepared)) && FilesOk(tx, st, sts, f) && x.JournalStage?
    requires Stranger(tx.base, file)
    ensures FilesOk(tx, st, sts, f[x := file])
  {
    if st.Live? { Bystander(tx, f, f[x := file], sts); }
  }

  /** Write a complete journal stage; until it is renamed it decides nothing. */
  method StageJournal(m: Machine, j: Journal, ghost tx: Tx, ghost st: Station, ghost sts: seq<ItemState>)
    returns (r: Status, x: Name, ghost file: File)
    requires WellFormed(tx, m.digest) && Quiet(m.vol.dir, tx, st, sts) && (st == Settled(Prepared) || st == Live(Prepared))
    modifies m.vol
    ensures !r.Failed?
    ensures r.Done? ==> x.JournalStage? && x !in old(m.vol.dir).files && file.body == Text(j) && Stranger(tx.base, file)
    ensures r.Done? ==> m.vol.dir == Put(old(m.vol.dir), x, file) && Quiet(m.vol.dir, tx, st, sts)
    ensures r.Crashed? ==> m.vol.power == 0 && Recoverable(m.vol.dir, tx, Prepared)
    ensures r.Done? ==> Paid(old(m.vol.power), old(m.vol.dir), m.vol.power, m.vol.dir, 6)
    ensures r.Crashed? ==> Short(old(m.vol.power), old(m.vol.dir), 6)
    ensures Weight(m.vol.dir) <= Weight(old(m.vol.dir)) + 1
  {
    QuietRecoverable(m.vol.dir, tx, st, sts);
    FreshNonceExists(m.vol.dir.files.Keys);
    var n: nat :| JournalStage(n) !in m.vol.dir.files.Keys;
    x := JournalStage(n);
    var created;
    r, created := m.CreateFile(x, Text(j));
    file := created;
    OldFilesPresent(tx, m.digest, st, old(m.vol.dir).files, sts, created);
    StageAdded(tx, st, old(m.vol.dir).files, sts, x, created);
    PutCount(old(m.vol.dir).files, x, created);
    if m.vol.dir != old(m.vol.dir) { QuietRecoverable(m.vol.dir, tx, st, sts); }
  }

  /** Before the commit point every old file is somewhere, so a new identity is
      new to the base. */
  lemma OldFilesPresent(tx: Tx, h: Body -> Digest, st: Station, f: Files, sts: seq<ItemState>, file: File)
    requires WellFormed(tx, h) && FilesOk(tx, st, sts, f) && (st == Settled(Prepared) || st == Live(Prepared)) && Stranger(f, file)
    ensures Stranger(tx.base, file)
  {
    forall x | x in tx.base ensures tx.base[x].id != file.id {
      if st.Live? && IsTarget(tx, x.s) {
        var i :| 0 <= i < |tx.items| && tx.items[i].target == x.s;
        assert ItemAt(tx, f, i, sts[i]) && Legal(Prepared, sts[i]) && ItemOk(tx, h, i);
      } else {
        assert At(f, User(x.s)) == At(tx.base, User(x.s));
      }
    }
  }

  function Each(tx: Tx, st: ItemState): seq<ItemState> {
    seq(|tx.items|, _ => st)
  }

  /** Staged temps plus a prepared journal: every item is fresh. */
  lemma ReadyHolds(tx: Tx, h: Body -> Digest, f: Files, g: Files, file: File)
    requires WellFormed(tx, h) && tx.items != [] && Ready(tx, f)
    requires file.body == Text(Journal(Prepared, tx.items))
    requires g == f[LiveJournal := file] && Created(tx, f) && Stranger(tx.base, file)
    ensures FilesOk(tx, Live(Prepared), Each(tx, Fresh), g)
  {
    forall i | 0 <= i < |tx.items| ensures ItemAt(tx, g, i, Fresh) {
      assert ItemOk(tx, h, i);
      assert At(f, NewTemp(tx.items[i].temp)) == Some(tx.staged[i]);
    }
  }

  /** txPersistJournal for the prepared phase. A refused install removes the
      stage again. */
  method PersistPrepared(m: Machine, items: seq<Item>, refuse: bool, ghost tx: Tx) returns (r: Status)
    requires WellFormed(tx, m.digest) && tx.items == items && items != []
    requires m.vol.dir.slots == map[] && Ready(tx, m.vol.dir.files)
    modifies m.vol
    ensures !r.Crashed? ==> (r.Failed? <==> refuse)
    ensures r.Failed? ==> m.vol.dir == old(m.vol.dir)
    ensures r.Done? ==> Quiet(m.vol.dir, tx, Live(Prepared), Each(tx, Fresh))
    ensures r.Crashed? ==> m.vol.power == 0 && Recoverable(m.vol.dir, tx, Prepared)
    ensures !r.Crashed? ==> Paid(old(m.vol.power), old(m.vol.dir), m.vol.power, m.vol.dir, 7)
    ensures r.Crashed? ==> Short(old(m.vol.power), old(m.vol.dir), 7)
    ensures Weight(m.vol.dir) <= Weight(old(m.vol.dir)) + if r.Crashed? then 2 else 1
  {
    ReadySettled(tx, m.digest, m.vol.dir);
    ghost var d0 := m.vol.dir;
    var x;
    ghost var file;
    r, x, file := StageJournal(m, Journal(Prepared, items), tx, Settled(Prepared), []);
    if !r.Done? { return; }
    if refuse {
      r := RefusePrepared(m, x, tx, d0, file);
      return;
    }
    r := InstallPrepared(m, x, tx, d0, file);
  }

  method RefusePrepared(m: Machine, x: Name, ghost tx: Tx, ghost d0: ArtifactDir, ghost file: File) returns (r: Status)
    requires x.JournalStage? && x !in d0.files && d0.slots == map[]
    requires m.vol.dir == Put(d0, x, file) && Quiet(m.vol.dir, tx, Settled(Prepared), [])
    modifies m.vol
    ensures !r.Done?
    ensures r.Failed? ==> m.vol.dir == d0
    ensures r.Crashed? ==> m.vol.power == 0 && Recoverable(m.vol.dir, tx, Prepared)
    ensures r.Failed? ==> Paid(old(m.vol.power), old(m.vol.dir), m.vol.power, m.vol.dir, 0)
    ensures r.Crashed? ==> Short(old(m.vol.power), old(m.vol.dir), 0)
    ensures Lean(old(m.vol.dir), m.vol.dir, r)
  {
    r := m.DropStage(x, tx, Settled(Prepared), []);
    if r.Done? {
      assert m.vol.dir.files == d0.files;
      r := Failed;
    }
  }

  method InstallPrepared(m: Machine, x: Name, ghost tx: Tx, ghost d0: ArtifactDir, ghost file: File) returns (r: Status)
    requires WellFormed(tx, m.digest) && tx.items != [] && d0.slots == map[] && Ready(tx, d0.files)
    requires x.JournalStage? && x !in d0.files && file.body == Text(Journal(Prepared, tx.items)) && Stranger(tx.base, file)
    requires m.vol.dir == Put(d0, x, file) && Quiet(m.vol.dir, tx, Settled(Prepared), [])
    modifies m.vol
    ensures !r.Failed?
    ensures r.Done? ==> Quiet(m.vol.dir, tx, Live(Prepared), Each(tx, Fresh))
    ensures r.Crashed? ==> m.vol.power == 0 && Recoverable(m.vol.dir, tx, Prepared)
    ensures r.Done? ==> Paid(old(m.vol.power), old(m.vol.dir), m.vol.power, m.vol.dir, 1)
    ensures r.Crashed? ==> Short(old(m.vol.power), old(m.vol.dir), 1)
    ensures Lean(old(m.vol.dir), m.vol.dir, r)
  {
    QuietRecoverable(m.vol.dir, tx, Settled(Prepared), []);
    PreparedLive(tx, m.digest, d0, x, file);
    r := m.vol.RenameNoReplace(x, LiveJournal);
    if !r.Done? { return; }
    if ReadJournal(At(m.vol.dir.files, LiveJournal), m.digest).None? { return Failed; }
  }

  /** txRemoveUnjournaled: the temps of a transaction whose journal was refused. */
  method RemoveUnjournaled(m: Machine, items: seq<Item>, ghost tx: Tx) returns (r: Status)
    requires WellFormed(tx, m.digest) && tx.items == items
    requires m.vol.dir.slots == map[] && Ready(tx, m.vol.dir.files)
    modifies m.vol
    ensures !r.Failed?
    ensures r.Done? ==> m.vol.dir == Dir(tx.base, map[])
    ensures r.Crashed? ==> m.vol.power == 0 && Recoverable(m.vol.dir, tx, Prepared)
    ensures r.Crashed? ==> Short(old(m.vol.power), old(m.vol.dir), 0)
    ensures Lean(old(m.vol.dir), m.vol.dir, r)
  {
    ReadySettled(tx, m.digest, m.vol.dir);
    r := Done;
    for i := 0 to |items|
      invariant r.Done? && Quiet(m.vol.dir, tx, Settled(Prepared), []) && TempsFrom(m.vol.dir.files, items, i)
      invariant Paid(old(m.vol.power), old(m.vol.dir), m.vol.power, m.vol.dir, 0) && Weight(m.vol.dir) <= Weight(old(m.vol.dir))
    {
      var x := NewTemp(items[i].temp);
      TempsShrink(m.vol.dir.files, items, i);
      if x in m.vol.dir.files {
        r := m.DropOrphan(x, tx, Prepared, []);
        if !r.Done? { return; }
      }
    }
    BareIsOutcome(tx, m.digest, m.vol.dir.files, Prepared);
  }

  /** Besides user files only the temps of the items from the n-th on. */
  ghost predicate TempsFrom(f: Files, items: seq<Item>, n: nat) {
    forall x :: x in f ==> x.User? || (x.NewTemp? && exists j :: n <= j < |items| && items[j].temp == x.n)
  }

  lemma TempsShrink(f: Files, items: seq<Item>, n: nat)
    requires n < |items| && TempsFrom(f, items, n)
    ensures var x := NewTemp(items[n].temp); TempsFrom(f - {x}, items, n + 1) && (x !in f ==> TempsFrom(f, items, n + 1))
  {
  }

  /** The staged prepared journal takes the live name. */
  lemma PreparedLive(tx: Tx, h: Body -> Digest, d: ArtifactDir, x: Name, file: File)
    requires WellFormed(tx, h) && tx.items != [] && d.slots == map[] && Ready(tx, d.files)
    requires x.JournalStage? && x !in d.files && file.body == Text(Journal(Prepared, tx.items)) && Stranger(tx.base, file)
    ensures LiveJournal !in d.files && Quiet(Renamed(Put(d, x, file), x, LiveJournal), tx, Live(Prepared), Each(tx, Fresh))
    ensures ReadJournal(Some(file), h).Some? && At(Renamed(Put(d, x, file), x, LiveJournal).files, LiveJournal) == Some(file)
    ensures |Renamed(Put(d, x, file), x, LiveJournal).files| == |Put(d, x, file).files|
  {
    StageTakesName(d.files, x, LiveJournal, file);
    ReadySettled(tx, h, d);
    ReadyHolds(tx, h, d.files, d.files[LiveJournal := file], file);
    WellFormedJournalValid(tx, h, Prepared);
  }

  /** Writing a stage and renaming it is writing the file under its name. */
  lemma StageTakesName(f: Files, x: Name, y: Name, file: File)
    requires x !in f && y !in f && x != y
    ensures Moved(f[x := file], x, y) == f[y := file] && |Moved(f[x := file], x, y)| == |f[x := file]|
  {
    MoveCount(f[x := file], x, y);
  }

  /** The commit point: some committed journal is in an authority place. */
  predicate CommittedJournal(d: ArtifactDir) {
    || (exists x :: x in d.files && (x.LiveJournal? || x.RecoveryJournal? || x.RetiredJournal?) && IsCommitted(d.files[x]))
    || (exists k :: k in d.slots && d.slots[k].kind.JournalSlot? && d.slots[k].held.Some? && IsCommitted(d.slots[k].held.value))
  }

  predicate IsCommitted(file: File) {
    file.body.Text? && file.body.journal.phase.Committed?
  }

  /** Until the journal is gone, the decision can be read off the directory. */
  lemma DecisionIsJournal(d: ArtifactDir, tx: Tx, st: Station, sts: seq<ItemState>)
    requires Residue(d, tx, st, sts)
    ensures CommittedJournal(d) <==> PhaseOf(st).Committed? && !st.Settled?
  {
    JournalsSeen(d, tx, st, sts);
    forall k | k in d.slots ensures SlotOk(tx, st, sts, d.files, d.slots[k]) {}
    if Homed(st) { assert IsCommitted(d.files[HomeOf(st)]) <==> st.phase.Committed?; }
  }

  lemma Undecided(d: ArtifactDir, tx: Tx)
    requires Recoverable(d, tx, Prepared)
    ensures !CommittedJournal(d)
  {
    var st, sts :| Residue(d, tx, st, sts) && PhaseOf(st) == Prepared;
    DecisionIsJournal(d, tx, st, sts);
  }

  /** Before the prepared journal moves, an empty update slot may exist. */
  lemma SwapBegun(d0: ArtifactDir, d: ArtifactDir, tx: Tx, sts: seq<ItemState>, k: nat)
    requires Quiet(d0, tx, Live(Prepared), sts)
    requires d == d0 || d == SlotMade(d0, k, UpdateSlot, LiveJournal)
    ensures Recoverable(d, tx, Prepared)
    ensures d != d0 ==> Wedged(d)
  {
    ResolvedPlain(d);
    if d != d0 { assert k in d.slots && d.slots[k].held.None?; }
    assert Residue(d, tx, Live(Prepared), sts);
  }

  lemma SwapIsolated(d0: ArtifactDir, d: ArtifactDir, tx: Tx, sts: seq<ItemState>, k: nat)
    requires Quiet(d0, tx, Live(Prepared), sts)
    requires d == SlotFilled(SlotMade(d0, k, UpdateSlot, LiveJournal), k)
    ensures Residue(d, tx, Swapping, sts) && Recoverable(d, tx, Prepared)
  {
    assert k in d.slots;
    ResolvedPlain(d);
    Bystander(tx, d0.files, d.files, sts);
    assert Residue(d, tx, Swapping, sts);
  }

  lemma SwapInstalled(d: ArtifactDir, tx: Tx, sts: seq<ItemState>, x: Name)
    requires Residue(d, tx, Swapping, sts) && forall i :: 0 <= i < |sts| ==> sts[i].Installed?
    requires x.JournalStage? && x in d.files && d.files[x].body == Text(Journal(Committed, tx.items))
    ensures Residue(Renamed(d, x, LiveJournal), tx, Live(Committed), sts)
    ensures Recoverable(Renamed(d, x, LiveJournal), tx, Committed)
  {
    var g := Renamed(d, x, LiveJournal);
    forall k | k in d.slots ensures SlotOk(tx, Live(Committed), sts, g.files, d.slots[k]) {
      assert SlotOk(tx, Swapping, sts, d.files, d.slots[k]);
    }
    ResolvedPlain(d);
    ResolvedPlain(g);
    Bystander(tx, d.files, g.files, sts);
    assert Residue(g, tx, Live(Committed), sts);
  }

  /** The committed journal takes the live name; the isolated one is deleted. */
  method InstallCommitted(m: Machine, k: nat, x: Name, ghost tx: Tx, ghost sts: seq<ItemState>) returns (r: Status)
    requires WellFormed(tx, m.digest)
    requires Residue(m.vol.dir, tx, Swapping, sts) && forall i :: 0 <= i < |sts| ==> sts[i].Installed?
    requires x.JournalStage? && x in m.vol.dir.files && m.vol.dir.files[x].body == Text(Journal(Committed, tx.items))
    requires k in m.vol.dir.slots && !m.installed
    modifies m, m.vol
    ensures !r.Failed?
    ensures r.Done? ==> Quiet(m.vol.dir, tx, Live(Committed), sts)
    ensures r.Crashed? ==> m.vol.power == 0 && Recoverable(m.vol.dir, tx, if m.installed then Committed else Prepared)
    ensures m.installed == (old(m.installed) || CommittedJournal(m.vol.dir))
    ensures r.Done? ==> m.installed
    ensures r.Done? ==> Paid(old(m.vol.power), old(m.vol.dir), m.vol.power, m.vol.dir, 3)
    ensures r.Crashed? ==> Short(old(m.vol.power), old(m.vol.dir), 3)
    ensures Lean(old(m.vol.dir), m.vol.dir, r)
  {
    ghost var d0 := m.vol.dir;
    assert SlotOk(tx, Swapping, sts, d0.files, d0.slots[k]);
    MoveCount(d0.files, x, LiveJournal);
    r := m.vol.RenameNoReplace(x, LiveJournal);
    if !r.Done? {
      assert Residue(m.vol.dir, tx, Swapping, sts);
      Undecided(m.vol.dir, tx);
      return;
    }
    m.installed := true;
    SwapInstalled(d0, tx, sts, x);
    WellFormedJournalValid(tx, m.digest, Committed);
    if ReadJournal(At(m.vol.dir.files, LiveJournal), m.digest).None? { return Failed; }
    r := FinishSwap(m, k, tx, sts);
  }

  /** The isolated prepared journal is deleted beside the committed one. */
  method FinishSwap(m: Machine, k: nat, ghost tx: Tx, ghost sts: seq<ItemState>) returns (r: Status)
    requires Residue(m.vol.dir, tx, Live(Committed), sts) && k in m.vol.dir.slots && m.vol.dir.slots[k].held.Some?
    modifies m.vol
    ensures !r.Failed?
    ensures r.Done? ==> Quiet(m.vol.dir, tx, Live(Committed), sts)
    ensures r.Crashed? ==> m.vol.power == 0 && Recoverable(m.vol.dir, tx, Committed)
    ensures CommittedJournal(m.vol.dir)
    ensures r.Done? ==> Paid(old(m.vol.power), old(m.vol.dir), m.vol.power, m.vol.dir, 2)
    ensures r.Crashed? ==> Short(old(m.vol.power), old(m.vol.dir), 2)
    ensures Lean(old(m.vol.dir), m.vol.dir, r)
  {
    ghost var d1 := m.vol.dir;
    JournalsSeen(d1, tx, Live(Committed), sts);
    r := m.vol.RemoveQuarantined(k);
    SwapFinished(d1, tx, sts, k);
    assert IsCommitted(m.vol.dir.files[LiveJournal]);
    if r.Crashed? { assert Residue(m.vol.dir, tx, Live(Committed), sts); }
  }

  lemma SwapFinished(d: ArtifactDir, tx: Tx, sts: seq<ItemState>, k: nat)
    requires Residue(d, tx, Live(Committed), sts) && k in d.slots && d.slots[k].held.Some?
    ensures Residue(SlotErased(d, k), tx, Live(Committed), sts)
    ensures Quiet(SlotDropped(d, k), tx, Live(Committed), sts)
  {
    assert SlotOk(tx, Live(Committed), sts, d.files, d.slots[k]);
    ResolvedPlain(d);
    ResolvedPlain(SlotErased(d, k));
    assert SlotDropped(d, k).slots == map[];
  }

  /** txPersistJournal for the committed phase: isolate the prepared journal in
      an update slot, rename the committed one into place, drop the slot. A
      refused install restores the prepared journal and removes the stage. */
  method PersistCommitted(m: Machine, items: seq<Item>, refuse: bool, ghost tx: Tx, ghost sts: seq<ItemState>) returns (r: Status)
    requires WellFormed(tx, m.digest) && tx.items == items && items != []
    requires Quiet(m.vol.dir, tx, Live(Prepared), sts) && forall i :: 0 <= i < |sts| ==> sts[i].Installed?
    requires !m.installed
    modifies m, m.vol
    ensures !r.Crashed? ==> (r.Failed? <==> refuse)
    ensures r.Failed? ==> Quiet(m.vol.dir, tx, Live(Prepared), sts) && !m.installed
    ensures r.Done? ==> Quiet(m.vol.dir, tx, Live(Committed), sts) && m.installed
    ensures r.Crashed? ==> m.vol.power == 0 && Recoverable(m.vol.dir, tx, if m.installed then Committed else Prepared)
    ensures m.installed == CommittedJournal(m.vol.dir)
    ensures !r.Crashed? ==> Paid(old(m.vol.power), old(m.vol.dir), m.vol.power, m.vol.dir, 12)
    ensures r.Crashed? ==> Short(old(m.vol.power), old(m.vol.dir), 12)
    ensures Weight(m.vol.dir) <= Weight(old(m.vol.dir)) + if r.Crashed? then 2 else 1
  {
    var x;
    ghost var file;
    r, x, file := StageJournal(m, Journal(Committed, items), tx, Live(Prepared), sts);
    if !r.Done? {
      Undecided(m.vol.dir, tx);
      return;
    }
    WellFormedJournalValid(tx, m.digest, Prepared);
    var current := ReadJournal(At(m.vol.dir.files, LiveJournal), m.digest);
    if current.None? || !current.value.phase.Prepared? || current.value.items != items { return Failed; }
    r := SwapJournals(m, x, refuse, tx, sts);
  }

  /** The staged committed journal replaces the live prepared one. */
  method SwapJournals(m: Machine, x: Name, refuse: bool, ghost tx: Tx, ghost sts: seq<ItemState>) returns (r: Status)
    requires WellFormed(tx, m.digest) && !m.installed
    requires Quiet(m.vol.dir, tx, Live(Prepared), sts) && forall i :: 0 <= i < |sts| ==> sts[i].Installed?
    requires x.JournalStage? && x in m.vol.dir.files && m.vol.dir.files[x].body == Text(Journal(Committed, tx.items))
    modifies m, m.vol
    ensures !r.Crashed? ==> (r.Failed? <==> refuse)
    ensures r.Failed? ==> Quiet(m.vol.dir, tx, Live(Prepared), sts) && !m.installed
    ensures r.Done? ==> Quiet(m.vol.dir, tx, Live(Committed), sts) && m.installed
    ensures r.Crashed? ==> m.vol.power == 0 && Recoverable(m.vol.dir, tx, if m.installed then Committed else Prepared)
    ensures m.installed == CommittedJournal(m.vol.dir)
    ensures !r.Crashed? ==> Paid(old(m.vol.power), old(m.vol.dir), m.vol.power, m.vol.dir, 6)
    ensures r.Crashed? ==> Short(old(m.vol.power), old(m.vol.dir), 6)
    ensures Lean(old(m.vol.dir), m.vol.dir, r)
  {
    var k;
    r, k := IsolatePrepared(m, tx, sts);
    if !r.Done? { return; }
    if refuse {
      r := RestorePrepared(m, k, x, tx, sts);
      if r.Done? { r := Failed; }
      return;
    }
    r := InstallCommitted(m, k, x, tx, sts);
  }

  method IsolatePrepared(m: Machine, ghost tx: Tx, ghost sts: seq<ItemState>) returns (r: Status, k: nat)
    requires WellFormed(tx, m.digest) && Quiet(m.vol.dir, tx, Live(Prepared), sts)
    modifies m.vol
    ensures !r.Failed?
    ensures r.Done? ==> k in m.vol.dir.slots && Residue(m.vol.dir, tx, Swapping, sts)
    ensures r.Done? ==> m.vol.dir.files == old(m.vol.dir).files - {LiveJournal}
    ensures r.Crashed? ==> m.vol.power == 0 && Recoverable(m.vol.dir, tx, Prepared) && !CommittedJournal(m.vol.dir)
    ensures r.Done? ==> old(m.vol.power) == m.vol.power + 2 && |m.vol.dir.files| + 1 == |old(m.vol.dir).files|
    ensures r.Crashed? ==> old(m.vol.power) < 2
    ensures Lean(old(m.vol.dir), m.vol.dir, r)
  {
    ghost var d0 := m.vol.dir;
    RemoveCount(d0.files, LiveJournal);
    r, k := m.Quarantine(LiveJournal, UpdateSlot);
    if r.Crashed? {
      SwapBegun(d0, m.vol.dir, tx, sts, k);
      Undecided(m.vol.dir, tx);
    }
    if r.Done? { SwapIsolated(d0, m.vol.dir, tx, sts, k); }
  }

  /** A refused install: the prepared journal goes back, then the stage goes. */
  method RestorePrepared(m: Machine, k: nat, x: Name, ghost tx: Tx, ghost sts: seq<ItemState>) returns (r: Status)
    requires WellFormed(tx, m.digest) && Residue(m.vol.dir, tx, Swapping, sts) && k in m.vol.dir.slots
    requires x.JournalStage? && x in m.vol.dir.files && LiveJournal !in m.vol.dir.files
    modifies m.vol
    ensures !r.Failed?
    ensures r.Done? ==> Quiet(m.vol.dir, tx, Live(Prepared), sts)
    ensures r.Crashed? ==> m.vol.power == 0 && Recoverable(m.vol.dir, tx, Prepared)
    ensures !CommittedJournal(m.vol.dir)
    ensures r.Done? ==> Paid(old(m.vol.power), old(m.vol.dir), m.vol.power, m.vol.dir, 6)
    ensures r.Crashed? ==> Short(old(m.vol.power), old(m.vol.dir), 6)
    ensures Lean(old(m.vol.dir), m.vol.dir, r)
  {
    assert SlotOk(tx, Swapping, sts, m.vol.dir.files, m.vol.dir.slots[k]);
    PutCount(m.vol.dir.files, LiveJournal, m.vol.dir.slots[k].held.value);
    SwapUndone(m.vol.dir, tx, sts, k);
    assert Recoverable(m.vol.dir, tx, Prepared);
    r := m.vol.RestoreQuarantined(k);
    if r.Done? {
      r := m.DropStage(x, tx, Live(Prepared), sts);
      if r.Done? { QuietRecoverable(m.vol.dir, tx, Live(Prepared), sts); }
    }
    Undecided(m.vol.dir, tx);
  }

  // -------------------------------------------------------- park and install

  /** The first n items are parked, none of them refused; the others are fresh. */
  ghost predicate ParkedSoFar(items: seq<Item>, veto: Veto, sts: seq<ItemState>, n: nat) {
    && n <= |items| == |sts|
    && (forall i :: 0 <= i < n ==> sts[i].Parked? && !ParkRefused(items[i], veto))
    && (forall i :: n <= i < |sts| ==> sts[i].Fresh?)
  }

  lemma ParksProgress(items: seq<Item>, veto: Veto, sts: seq<ItemState>, n: nat)
    requires ParkedSoFar(items, veto, sts, n)
    ensures forall i :: 0 <= i < |sts| ==> !sts[i].Installed?
    ensures n < |items| ==> sts[n].Fresh?
    ensures n < |items| && ParkRefused(items[n], veto) ==> ParkVetoed(items, veto)
    ensures n < |items| && !ParkRefused(items[n], veto) ==> ParkedSoFar(items, veto, sts[n := Parked], n + 1)
    ensures n == |items| ==> !ParkVetoed(items, veto) && sts == seq(|items|, _ => Parked)
  {
  }

  /** Parks every old file in turn; it fails exactly at a refused one. */
  method ParkAll(m: Machine, items: seq<Item>, veto: Veto, ghost tx: Tx)
    returns (r: Status, ghost sts: seq<ItemState>)
    requires WellFormed(tx, m.digest) && tx.items == items
    requires Quiet(m.vol.dir, tx, Live(Prepared), Each(tx, Fresh))
    modifies m.vol
    ensures r.Done? ==> Quiet(m.vol.dir, tx, Live(Prepared), Each(tx, Parked))
    ensures !r.Crashed? ==> (r.Failed? <==> ParkVetoed(items, veto))
    ensures r.Failed? ==> Quiet(m.vol.dir, tx, Live(Prepared), sts) && forall i :: 0 <= i < |sts| ==> !sts[i].Installed?
    ensures r.Crashed? ==> m.vol.power == 0 && Recoverable(m.vol.dir, tx, Prepared)
    ensures !r.Crashed? ==> Paid(old(m.vol.power), old(m.vol.dir), m.vol.power, m.vol.dir, |items|)
    ensures r.Crashed? ==> Short(old(m.vol.power), old(m.vol.dir), |items|)
    ensures Lean(old(m.vol.dir), m.vol.dir, r)
  {
    sts := Each(tx, Fresh);
    for i := 0 to |items|
      invariant ParkedSoFar(items, veto, sts, i) && Quiet(m.vol.dir, tx, Live(Prepared), sts)
      invariant Paid(old(m.vol.power), old(m.vol.dir), m.vol.power, m.vol.dir, i) && Weight(m.vol.dir) <= Weight(old(m.vol.dir))
    {
      ParksProgress(items, veto, sts, i);
      r := ParkItem(m, items[i], veto, tx, sts, i);
      if !r.Done? { return; }
      sts := sts[i := Parked];
    }
    ParksProgress(items, veto, sts, |items|);
    r := Done;
  }

  method ParkItem(m: Machine, it: Item, veto: Veto, ghost tx: Tx, ghost sts: seq<ItemState>, ghost i: nat) returns (r: Status)
    requires WellFormed(tx, m.digest) && Quiet(m.vol.dir, tx, Live(Prepared), sts)
    requires i < |sts| && it == tx.items[i] && sts[i].Fresh?
    modifies m.vol
    ensures !r.Crashed? ==> (r.Failed? <==> ParkRefused(it, veto))
    ensures r.Failed? ==> m.vol.dir == old(m.vol.dir) && m.vol.power == old(m.vol.power)
    ensures r.Done? ==> Quiet(m.vol.dir, tx, Live(Prepared), sts[i := Parked])
    ensures r.Crashed? ==> m.vol.power == 0 && Recoverable(m.vol.dir, tx, Prepared)
    ensures r.Done? ==> Paid(old(m.vol.power), old(m.vol.dir), m.vol.power, m.vol.dir, 1)
    ensures r.Crashed? ==> Short(old(m.vol.power), old(m.vol.dir), 1)
    ensures Lean(old(m.vol.dir), m.vol.dir, r)
  {
    if it.hadOld && it.target in veto.parks { return Failed; }
    assert ItemOk(tx, m.digest, i) && ItemAt(tx, m.vol.dir.files, i, sts[i]);
    r := Done;
    if it.hadOld {
      r := m.RenameItemName(User(it.target), OldBackup(it.backup), tx, Live(Prepared), sts, i, Parked);
    } else {
      Transit(tx, m.digest, Live(Prepared), m.vol.dir.files, sts, i, m.vol.dir.files, Parked);
    }
  }

  /** Exactly the items before the first refused one are installed. */
  ghost predicate InstalledUpTo(items: seq<Item>, veto: Veto, sts: seq<ItemState>) {
    |sts| == |items| && forall i :: 0 <= i < |items| ==> (sts[i].Installed? <==> InstalledFirst(items, veto, i))
  }

  /** The first n items are installed, none of them refused; the others are parked. */
  ghost predicate InstalledSoFar(items: seq<Item>, veto: Veto, sts: seq<ItemState>, n: nat) {
    && n <= |items| == |sts|
    && (forall i :: 0 <= i < n ==> sts[i].Installed? && !InstallRefused(items[i], veto))
    && (forall i :: n <= i < |sts| ==> sts[i].Parked?)
  }

  lemma InstallsProgress(items: seq<Item>, veto: Veto, sts: seq<ItemState>, n: nat)
    requires InstalledSoFar(items, veto, sts, n)
    ensures n < |items| ==> sts[n].Parked?
    ensures n < |items| && InstallRefused(items[n], veto) ==> InstalledUpTo(items, veto, sts) && InstallVetoed(items, veto)
    ensures n < |items| && !InstallRefused(items[n], veto) ==> InstalledSoFar(items, veto, sts[n := Installed], n + 1)
    ensures n == |items| ==> !InstallVetoed(items, veto) && sts == seq(|items|, _ => Installed)
  {
  }

  /** Installs every temp, or drops that of a deletion, in turn; it fails exactly
      at a refused install. */
  method InstallAll(m: Machine, items: seq<Item>, veto: Veto, ghost tx: Tx)
    returns (r: Status, ghost sts: seq<ItemState>)
    requires WellFormed(tx, m.digest) && tx.items == items
    requires Quiet(m.vol.dir, tx, Live(Prepared), Each(tx, Parked))
    modifies m.vol
    ensures r.Done? ==> Quiet(m.vol.dir, tx, Live(Prepared), Each(tx, Installed))
    ensures !r.Crashed? ==> (r.Failed? <==> InstallVetoed(items, veto))
    ensures r.Failed? ==> Quiet(m.vol.dir, tx, Live(Prepared), sts) && InstalledUpTo(items, veto, sts)
    ensures r.Crashed? ==> m.vol.power == 0 && Recoverable(m.vol.dir, tx, Prepared)
    ensures !r.Crashed? ==> Paid(old(m.vol.power), old(m.vol.dir), m.vol.power, m.vol.dir, |items|)
    ensures r.Crashed? ==> Short(old(m.vol.power), old(m.vol.dir), |items|)
    ensures Lean(old(m.vol.dir), m.vol.dir, r)
  {
    sts := Each(tx, Parked);
    for i := 0 to |items|
      invariant InstalledSoFar(items, veto, sts, i) && Quiet(m.vol.dir, tx, Live(Prepared), sts)
      invariant Paid(old(m.vol.power), old(m.vol.dir), m.vol.power, m.vol.dir, i) && Weight(m.vol.dir) <= Weight(old(m.vol.dir))
    {
      InstallsProgress(items, veto, sts, i);
      r := InstallItem(m, items[i], veto, tx, sts, i);
      if !r.Done? { return; }
      sts := sts[i := Installed];
    }
    InstallsProgress(items, veto, sts, |items|);
    r := Done;
  }

  method InstallItem(m: Machine, it: Item, veto: Veto, ghost tx: Tx, ghost sts: seq<ItemState>, ghost i: nat) returns (r: Status)
    requires WellFormed(tx, m.digest) && Quiet(m.vol.dir, tx, Live(Prepared), sts)
    requires i < |sts| && it == tx.items[i] && sts[i].Parked?
    modifies m.vol
    ensures !r.Crashed? ==> (r.Failed? <==> InstallRefused(it, veto))
    ensures r.Failed? ==> m.vol.dir == old(m.vol.dir) && m.vol.power == old(m.vol.power)
    ensures r.Done? ==> Quiet(m.vol.dir, tx, Live(Prepared), sts[i := Installed])
    ensures r.Crashed? ==> m.vol.power == 0 && Recoverable(m.vol.dir, tx, Prepared)
    ensures r.Done? ==> Paid(old(m.vol.power), old(m.vol.dir), m.vol.power, m.vol.dir, 1)
    ensures r.Crashed? ==> Short(old(m.vol.power), old(m.vol.dir), 1)
    ensures Lean(old(m.vol.dir), m.vol.dir, r)
  {
    assert ItemOk(tx, m.digest, i) && ItemAt(tx, m.vol.dir.files, i, sts[i]);
    if it.delete {
      var temp := At(m.vol.dir.files, NewTemp(it.temp));
      if !Identified(temp, Some(it.newId)) { return Failed; }
      r := m.RemoveItemName(NewTemp(it.temp), temp, tx, Live(Prepared), sts, i, Installed);
    } else {
      if it.target in veto.installs { return Failed; }
      r := m.RenameItemName(NewTemp(it.temp), User(it.target), tx, Live(Prepared), sts, i, Installed);
    }
  }

  /** failPrepared: roll back in the same process. */
  method FailPrepared(m: Machine, ghost tx: Tx, ghost sts: seq<ItemState>) returns (r: Status)
    requires WellFormed(tx, m.digest) && Quiet(m.vol.dir, tx, Live(Prepared), sts)
    modifies m.vol
    ensures !r.Done?
    ensures r.Failed? ==> if Blocked(tx, Live(Prepared), sts) then Pinned(m.vol.dir.files, tx.items) else m.vol.dir == Dir(tx.base, map[])
    ensures Recoverable(m.vol.dir, tx, Prepared)
    ensures r.Crashed? ==> m.vol.power == 0
    ensures r.Crashed? ==> Short(old(m.vol.power), old(m.vol.dir), |tx.items| + 2)
    ensures Lean(old(m.vol.dir), m.vol.dir, r)
  {
    QuietRecoverable(m.vol.dir, tx, Live(Prepared), sts);
    JournalsSeen(m.vol.dir, tx, Live(Prepared), sts);
    assert LiveJournal in m.vol.dir.files && JournalName(LiveJournal);
    var home, journal, states;
    r, home, journal, states := m.BeginChecked(tx, Live(Prepared), sts);
    if !r.Done? { return; }
    ResidueFits(m.vol.dir, tx, m.digest, Isolated(Prepared), sts);
    r := m.Rollback(journal, home, states, tx, Isolated(Prepared), sts);
    if r.Done? {
      BaseRecoverable(m.vol.dir, tx, m.digest);
      r := Failed;
    }
  }

  /** Nothing is blocked before an install, and after the installs exactly when
      the request is stuck. */
  lemma StuckIsBlocked(tx: Tx, items: seq<Item>, veto: Veto, sts: seq<ItemState>)
    requires tx.items == items && InstalledUpTo(items, veto, sts) && !veto.prepared && !ParkVetoed(items, veto)
    ensures Blocked(tx, Live(Prepared), sts) <==> ItemsStuck(items, veto)
  {
    forall i | 0 <= i < |items|
      ensures BlockedAt(tx, sts, i) <==> !items[i].delete && LongName(items[i].target) && InstalledFirst(items, veto, i)
    {
    }
  }

  // ------------------------------------------------------------- reconcile

  /** A whole item list realizes the request. */
  lemma AppliedReconciles(tx: Tx, h: Body -> Digest, names: seq<string>, files: map<string, Content>, remove: seq<string>, deletes: set<string>)
    requires WellFormed(tx, h) && Asks(tx, names, files, deletes) && |tx.items| == |names|
    requires RemovalsOk(files.Keys, remove) && deletes == set s | s in remove && User(s) in tx.base
    requires Elements(names) == files.Keys + deletes
    ensures Reconciled(tx.base, Outcome(tx, Committed), files, remove)
  {
    var f := Outcome(tx, Committed);
    OutcomeUserOnly(tx, h, Committed);
    forall s
      ensures s in files ==> User(s) in f && f[User(s)].body == Bytes(files[s])
      ensures s in remove ==> User(s) !in f
      ensures s !in files && s !in remove ==> At(f, User(s)) == At(tx.base, User(s))
    {
      AppliedName(tx, h, names, files, deletes, s);
      assert s in names <==> s in Elements(names);
    }
  }

  /** What the applied items make of one name. */
  lemma AppliedName(tx: Tx, h: Body -> Digest, names: seq<string>, files: map<string, Content>, deletes: set<string>, s: string)
    requires WellFormed(tx, h) && Asks(tx, names, files, deletes) && |tx.items| == |names|
    ensures s !in names ==> At(Outcome(tx, Committed), User(s)) == At(tx.base, User(s))
    ensures s in names && s in deletes ==> User(s) !in Outcome(tx, Committed)
    ensures s in names && s !in deletes && s in files ==>
              User(s) in Outcome(tx, Committed) && Outcome(tx, Committed)[User(s)].body == Bytes(files[s])
  {
    AppliedAt(tx, h, |tx.items|, s);
    assert forall i :: 0 <= i < |names| ==> AsksItem(tx.items[i], tx.staged[i], names[i], files, deletes);
    if s in names {
      var i :| 0 <= i < |names| && names[i] == s;
      assert tx.items[i].target == s;
    }
  }

  /** The journalled part of txReconcilePlannedOpened, from staged temps on. */
  method CommitStaged(m: Machine, items: seq<Item>, veto: Veto, ghost tx: Tx) returns (r: Status)
    requires WellFormed(tx, m.digest) && tx.items == items && items != []
    requires m.vol.dir.slots == map[] && Ready(tx, m.vol.dir.files) && !m.installed
    modifies m, m.vol
    ensures r.Done? ==> m.vol.dir == Dir(Outcome(tx, Committed), map[]) && m.installed
    ensures !r.Crashed? ==> (r.Failed? <==> ItemsVetoed(items, veto))
    ensures r.Failed? ==> !m.installed && if ItemsStuck(items, veto) then Pinned(m.vol.dir.files, items) else m.vol.dir == Dir(tx.base, map[])
    ensures r.Crashed? ==> m.vol.power == 0
    ensures !r.Done? ==> Recoverable(m.vol.dir, tx, if m.installed then Committed else Prepared)
    ensures r.Crashed? ==> Short(old(m.vol.power), old(m.vol.dir), 3 * |items| + 22)
    ensures Weight(m.vol.dir) <= Weight(old(m.vol.dir)) + 3
  {
    r := InstallStaged(m, items, veto, tx);
    if !r.Done? { return; }
    r := CommitInstalled(m, items, veto, tx);
  }

  /** The commit point, with everything installed: or roll back. */
  method CommitInstalled(m: Machine, items: seq<Item>, veto: Veto, ghost tx: Tx) returns (r: Status)
    requires WellFormed(tx, m.digest) && tx.items == items && items != [] && !m.installed
    requires Quiet(m.vol.dir, tx, Live(Prepared), Each(tx, Installed))
    requires !veto.prepared && !ParkVetoed(items, veto) && !InstallVetoed(items, veto)
    modifies m, m.vol
    ensures r.Done? ==> m.vol.dir == Dir(Outcome(tx, Committed), map[]) && m.installed
    ensures !r.Crashed? ==> (r.Failed? <==> veto.committed)
    ensures r.Failed? ==> !m.installed && if ItemsStuck(items, veto) then Pinned(m.vol.dir.files, items) else m.vol.dir == Dir(tx.base, map[])
    ensures r.Crashed? ==> m.vol.power == 0
    ensures !r.Done? ==> Recoverable(m.vol.dir, tx, if m.installed then Committed else Prepared)
    ensures r.Crashed? ==> Short(old(m.vol.power), old(m.vol.dir), |items| + 14)
    ensures Weight(m.vol.dir) <= Weight(old(m.vol.dir)) + 2
  {
    r := PersistCommitted(m, items, veto.committed, tx, Each(tx, Installed));
    if r.Failed? {
      StuckIsBlocked(tx, items, veto, Each(tx, Installed));
      r := FailPrepared(m, tx, Each(tx, Installed));
    }
    if !r.Done? { return; }
    r := FinishCommitted(m, tx);
  }

  /** Up to the commit point: journal, park and install, or roll back. */
  method InstallStaged(m: Machine, items: seq<Item>, veto: Veto, ghost tx: Tx) returns (r: Status)
    requires WellFormed(tx, m.digest) && tx.items == items && items != []
    requires m.vol.dir.slots == map[] && Ready(tx, m.vol.dir.files)
    modifies m.vol
    ensures r.Done? ==> Quiet(m.vol.dir, tx, Live(Prepared), Each(tx, Installed))
    ensures !r.Crashed? ==> (r.Failed? <==> veto.prepared || ParkVetoed(items, veto) || InstallVetoed(items, veto))
    ensures r.Failed? ==> if ItemsStuck(items, veto) then Pinned(m.vol.dir.files, items) else m.vol.dir == Dir(tx.base, map[])
    ensures r.Crashed? ==> m.vol.power == 0
    ensures !r.Done? ==> Recoverable(m.vol.dir, tx, Prepared)
    ensures r.Done? ==> Paid(old(m.vol.power), old(m.vol.dir), m.vol.power, m.vol.dir, 2 * |items| + 7)
    ensures r.Crashed? ==> Short(old(m.vol.power), old(m.vol.dir), 3 * |items| + 9)
    ensures Weight(m.vol.dir) <= Weight(old(m.vol.dir)) + if r.Crashed? then 2 else 1
  {
    r := PersistPrepared(m, items, veto.prepared, tx);
    if r.Failed? {
      r := RemoveUnjournaled(m, items, tx);
      if r.Done? {
        BaseRecoverable(m.vol.dir, tx, m.digest);
        r := Failed;
      }
    }
    if !r.Done? { return; }
    ghost var sts;
    r, sts := ParkAll(m, items, veto, tx);
    if r.Failed? { r := FailPrepared(m, tx, sts); }
    if !r.Done? { return; }
    r, sts := InstallAll(m, items, veto, tx);
    if r.Failed? {
      StuckIsBlocked(tx, items, veto, sts);
      r := FailPrepared(m, tx, sts);
    }
  }

  lemma BaseRecoverable(d: ArtifactDir, tx: Tx, h: Body -> Digest)
    requires WellFormed(tx, h) && d == Dir(tx.base, map[])
    ensures Recoverable(d, tx, Prepared)
  {
    QuietRecoverable(d, tx, Settled(Prepared), []);
  }

  method FinishCommitted(m: Machine, ghost tx: Tx) returns (r: Status)
    requires WellFormed(tx, m.digest) && Quiet(m.vol.dir, tx, Live(Committed), Each(tx, Installed))
    modifies m.vol
    ensures !r.Failed?
    ensures r.Done? ==> m.vol.dir == Dir(Outcome(tx, Committed), map[])
    ensures r.Crashed? ==> m.vol.power == 0 && Recoverable(m.vol.dir, tx, Committed)
    ensures r.Done? ==> Paid(old(m.vol.power), old(m.vol.dir), m.vol.power, m.vol.dir, 2)
    ensures r.Crashed? ==> Short(old(m.vol.power), old(m.vol.dir), 2)
    ensures Lean(old(m.vol.dir), m.vol.dir, r)
  {
    ghost var sts := Each(tx, Installed);
    QuietRecoverable(m.vol.dir, tx, Live(Committed), sts);
    JournalsSeen(m.vol.dir, tx, Live(Committed), sts);
    assert LiveJournal in m.vol.dir.files && JournalName(LiveJournal);
    var home, journal, states;
    r, home, journal, states := m.BeginChecked(tx, Live(Committed), sts);
    if !r.Done? { return; }
    ResidueFits(m.vol.dir, tx, m.digest, Isolated(Committed), sts);
    r := m.Finalize(journal, home, states, tx, Isolated(Committed), sts);
  }

  // --------------------------------------------------- refusals of a request

  /** There is something to install or to delete. */
  predicate Busy(base: Files, files: map<string, Content>, remove: seq<string>) {
    files != map[] || exists s :: s in remove && User(s) in base
  }

  predicate RequestParkVetoed(base: Files, files: map<string, Content>, remove: seq<string>, veto: Veto) {
    exists s :: s in veto.parks && User(s) in base && (s in files || s in remove)
  }

  /** Something the request needs is refused. */
  predicate Vetoed(base: Files, files: map<string, Content>, remove: seq<string>, veto: Veto) {
    || (Busy(base, files, remove) && (veto.prepared || veto.committed))
    || RequestParkVetoed(base, files, remove, veto)
    || exists s :: s in files && s in veto.installs
  }

  /** Among the targets installed before the refusal there is one whose name is
      too long to be removed again. */
  predicate Stuck(base: Files, files: map<string, Content>, remove: seq<string>, veto: Veto) {
    && !veto.prepared && !RequestParkVetoed(base, files, remove, veto)
    && exists s :: s in files && LongName(s) && forall t :: t in files && t in veto.installs ==> Less(s, t)
  }

  /** The refusals of the staged items are those of the request. */
  lemma ItemsVetoedExact(tx: Tx, h: Body -> Digest, names: seq<string>, files: map<string, Content>, remove: seq<string>, deletes: set<string>, veto: Veto)
    requires WellFormed(tx, h) && Asks(tx, names, files, deletes) && |tx.items| == |names| > 0
    requires files.Keys !! deletes && deletes == set s | s in remove && User(s) in tx.base
    requires Elements(names) == files.Keys + deletes
    ensures ParkVetoed(tx.items, veto) <==> RequestParkVetoed(tx.base, files, remove, veto)
    ensures ItemsVetoed(tx.items, veto) <==> Vetoed(tx.base, files, remove, veto)
  {
    forall i | 0 <= i < |names|
      ensures tx.items[i].target == names[i] && names[i] in Elements(names) && (tx.items[i].delete <==> names[i] !in files)
      ensures tx.items[i].hadOld <==> User(names[i]) in tx.base
    {
      assert ItemOk(tx, h, i) && AsksItem(tx.items[i], tx.staged[i], names[i], files, deletes);
    }
    forall s | s in files || (s in remove && User(s) in tx.base) ensures exists i :: 0 <= i < |names| && tx.items[i].target == s {
      assert s in Elements(names);
    }
    assert Busy(tx.base, files, remove) by { assert names[0] in Elements(names); }
  }

  lemma ItemsStuckExact(tx: Tx, h: Body -> Digest, names: seq<string>, files: map<string, Content>, remove: seq<string>, deletes: set<string>, veto: Veto)
    requires WellFormed(tx, h) && Asks(tx, names, files, deletes) && |tx.items| == |names| > 0
    requires files.Keys !! deletes && deletes == set s | s in remove && User(s) in tx.base
    requires Elements(names) == files.Keys + deletes
    ensures ItemsStuck(tx.items, veto) <==> Stuck(tx.base, files, remove, veto)
  {
    ItemsVetoedExact(tx, h, names, files, remove, deletes, veto);
    forall n | 0 <= n < |names|
      ensures tx.items[n].target == names[n] && (tx.items[n].delete <==> names[n] !in files)
      ensures names[n] in files ==> (InstalledFirst(tx.items, veto, n) <==> forall t :: t in files && t in veto.installs ==> Less(names[n], t))
    {
      FirstExact(tx, names, files, deletes, veto, n);
    }
    forall s | s in files ensures exists n :: 0 <= n < |names| && names[n] == s { assert s in Elements(names); }
  }

  lemma FirstExact(tx: Tx, names: seq<string>, files: map<string, Content>, deletes: set<string>, veto: Veto, n: nat)
    requires Asks(tx, names, files, deletes) && |tx.items| == |names| && n < |names|
    requires files.Keys !! deletes && Elements(names) == files.Keys + deletes
    requires forall i, j :: 0 <= i < j < |tx.items| ==> Less(tx.items[i].target, tx.items[j].target)
    ensures tx.items[n].target == names[n] && (tx.items[n].delete <==> names[n] !in files)
    ensures InstalledFirst(tx.items, veto, n) <==> forall t :: t in files && t in veto.installs ==> Less(names[n], t)
  {
    forall i | 0 <= i < |names| ensures tx.items[i].target == names[i] && names[i] in Elements(names) && (tx.items[i].delete <==> names[i] !in files) {
      assert AsksItem(tx.items[i], tx.staged[i], names[i], files, deletes);
    }
    if InstalledFirst(tx.items, veto, n) {
      forall t | t in files && t in veto.installs ensures Less(names[n], t) {
        assert t in Elements(names);
        var i :| 0 <= i < |names| && names[i] == t;
        assert i > n;
      }
    } else {
      var i :| 0 <= i <= n && InstallRefused(tx.items[i], veto);
      LessTrichotomy(names[i], names[n]);
      assert i < n ==> Less(names[i], names[n]);
    }
  }

  /** txReconcilePlannedOpened. It starts from any residue of an earlier
      transaction, and completes exactly when that can be recovered, the request
      is legal and nothing it needs is refused. Done means exactly the requested
      directory. A refusal leaves the old directory, unless it comes after a
      target that cannot be removed again. Otherwise the directory is a residue:
      of the earlier transaction with its old decision, or of this one, whose
      committed outcome is the requested directory. */
  method Reconcile(m: Machine, files: map<string, Content>, remove: seq<string>, veto: Veto, ghost prev: Tx, ghost p: Phase)
    returns (r: Status, ghost tx: Tx, ghost now: Phase)
    requires WellFormed(prev, m.digest) && Recoverable(m.vol.dir, prev, p)
    modifies m, m.vol
    ensures r.Done? ==> m.vol.dir.slots == map[] && Reconciled(Outcome(prev, p), m.vol.dir.files, files, remove)
    ensures !r.Done? ==> WellFormed(tx, m.digest) && Recoverable(m.vol.dir, tx, now)
    ensures !r.Done? ==> tx == prev || |tx.items| <= |files| + |remove|
    ensures !r.Done? ==> (tx == prev && now == p && !m.installed)
                         || (tx.base == Outcome(prev, p) && (now.Committed? ==> Reconciled(tx.base, Outcome(tx, now), files, remove))
                             && (now.Committed? <==> m.installed))
    ensures r.Done? && !m.installed ==> m.vol.dir.files == Outcome(prev, p)
    ensures !r.Crashed? ==> (r.Done? <==> !Unrecovered(old(m.vol.dir), prev, p) && RequestOk(Outcome(prev, p), files, remove)
                                          && !Vetoed(Outcome(prev, p), files, remove, veto))
    ensures r.Failed? && !Unrecovered(old(m.vol.dir), prev, p) ==> RefusedAt(m.vol.dir, tx, Outcome(prev, p), files, remove, veto)
    ensures r.Failed? && Unrecovered(old(m.vol.dir), prev, p) ==> tx == prev && now == p && Unrecovered(m.vol.dir, prev, p)
    ensures r.Crashed? ==> m.vol.power == 0
    ensures r.Crashed? ==> Short(old(m.vol.power), old(m.vol.dir), |prev.items| + 9 * (|files| + |remove|) + 38)
    ensures Weight(m.vol.dir) <= Weight(old(m.vol.dir)) + |files| + |remove| + 3
  {
    tx, now := prev, p;
    m.installed := false;
    r := m.Recover(prev, p);
    if !r.Done? { return; }
    OutcomeUserOnly(prev, m.digest, p);
    r, tx, now := ReconcileClean(m, files, remove, veto, m.vol.dir.files);
  }

  /** Recovery refuses the directory. */
  predicate Unrecovered(d: ArtifactDir, tx: Tx, p: Phase) {
    Wedged(d) || (p.Prepared? && Pinned(d.files, tx.items))
  }

  /** What a refused request leaves: nothing of it, or a pinned target. */
  ghost predicate RefusedAt(d: ArtifactDir, tx: Tx, base: Files, files: map<string, Content>, remove: seq<string>, veto: Veto) {
    if RequestOk(base, files, remove) && Stuck(base, files, remove, veto) then Pinned(d.files, tx.items) else d == Dir(base, map[])
  }

  /** The rest of txReconcilePlannedOpened, on a recovered directory. */
  method ReconcileClean(m: Machine, files: map<string, Content>, remove: seq<string>, veto: Veto, ghost base: Files)
    returns (r: Status, ghost tx: Tx, ghost now: Phase)
    requires m.vol.dir == Dir(base, map[]) && UserOnly(base) && !m.installed
    modifies m, m.vol
    ensures r.Done? ==> m.vol.dir.slots == map[] && Reconciled(base, m.vol.dir.files, files, remove)
    ensures !r.Done? ==> WellFormed(tx, m.digest) && Recoverable(m.vol.dir, tx, now) && tx.base == base && |tx.items| <= |files| + |remove|
    ensures !r.Done? ==> (now.Committed? ==> Reconciled(base, Outcome(tx, now), files, remove)) && (now.Committed? <==> m.installed)
    ensures r.Done? && !m.installed ==> m.vol.dir.files == base
    ensures !r.Crashed? ==> (r.Done? <==> RequestOk(base, files, remove) && !Vetoed(base, files, remove, veto))
    ensures r.Failed? ==> RefusedAt(m.vol.dir, tx, base, files, remove, veto)
    ensures !RequestOk(base, files, remove) ==> r.Failed? && m.vol.dir == old(m.vol.dir) && !m.installed
    ensures r.Crashed? ==> m.vol.power == 0
    ensures r.Crashed? ==> Short(old(m.vol.power), old(m.vol.dir), 9 * (|files| + |remove|) + 22)
    ensures Weight(m.vol.dir) <= Weight(old(m.vol.dir)) + |files| + |remove| + 3
  {
    tx, now := Tx(base, [], []), Prepared;
    NothingStaged(base, m.digest);
    var ok, names, deletes := ValidateTargets(m.vol.dir.files, files, remove);
    if !ok { return Failed, tx, now; }
    if |names| == 0 {
      AppliedReconciles(tx, m.digest, names, files, remove, deletes);
      NothingVetoed(base, files, remove, deletes, veto);
      return Done, tx, now;
    }
    ExistingNamesOk(base, files, remove, names, deletes);
    r, tx, now := StageAndCommit(m, names, files, remove, deletes, veto, base);
  }

  /** From the validated names on. */
  method StageAndCommit(m: Machine, names: seq<string>, files: map<string, Content>, ghost remove: seq<string>, deletes: set<string>, veto: Veto,
                        ghost base: Files)
    returns (r: Status, ghost tx: Tx, ghost now: Phase)
    requires m.vol.dir == Dir(base, map[]) && UserOnly(base) && !m.installed
    requires StrictlySorted(names) && NamesOk(base, Elements(names)) && 0 < |names| <= MAX_ITEMS
    requires Elements(names) == files.Keys + deletes && files.Keys !! deletes
    requires RemovalsOk(files.Keys, remove) && deletes == set s | s in remove && User(s) in base
    modifies m, m.vol
    ensures r.Done? ==> m.installed && m.vol.dir.slots == map[] && Reconciled(base, m.vol.dir.files, files, remove)
    ensures !r.Done? ==> WellFormed(tx, m.digest) && Recoverable(m.vol.dir, tx, now) && tx.base == base && |tx.items| <= |names|
    ensures !r.Done? ==> (now.Committed? ==> Reconciled(base, Outcome(tx, now), files, remove)) && (now.Committed? <==> m.installed)
    ensures !r.Crashed? ==> (r.Done? <==> !Vetoed(base, files, remove, veto))
    ensures r.Failed? ==> if Stuck(base, files, remove, veto) then Pinned(m.vol.dir.files, tx.items) else m.vol.dir == Dir(base, map[])
    ensures r.Crashed? ==> m.vol.power == 0 && Short(old(m.vol.power), old(m.vol.dir), 9 * |names| + 22)
    ensures Weight(m.vol.dir) <= Weight(old(m.vol.dir)) + |names| + 3
  {
    now := Prepared;
    var items;
    r, items, tx := Stage(m, names, files, deletes, base);
    if !r.Done? { return; }
    AppliedReconciles(tx, m.digest, names, files, remove, deletes);
    ItemsVetoedExact(tx, m.digest, names, files, remove, deletes, veto);
    ItemsStuckExact(tx, m.digest, names, files, remove, deletes, veto);
    r := CommitStaged(m, items, veto, tx);
    now := if m.installed then Committed else Prepared;
  }

  /** A request that comes down to nothing needs nothing. */
  lemma NothingVetoed(base: Files, files: map<string, Content>, remove: seq<string>, deletes: set<string>, veto: Veto)
    requires deletes == (set s | s in remove && User(s) in base) && files.Keys + deletes == {}
    ensures !Vetoed(base, files, remove, veto)
  {
    forall s ensures s !in files && !(s in remove && User(s) in base) {
      assert s !in files.Keys + deletes;
    }
    assert files == map[];
  }

  lemma ExistingNamesOk(f: Files, files: map<string, Content>, remove: seq<string>, names: seq<string>, deletes: set<string>)
    requires RequestOk(f, files, remove)
    requires deletes == set s | s in remove && User(s) in f
    requires Elements(names) == files.Keys + deletes
    ensures NamesOk(f, Elements(names)) && files.Keys !! deletes
  {
    assert Elements(names) <= Requested(files, remove);
  }

  // ------------------------------------------------------------ whole runs

  /** Enough power for the i-th recovery, with so many entries and items at the
      start and one entry more after each death. */
  function Need(entries: nat, items: nat, i: nat): nat {
    4 * (entries + i) + items + 16
  }

  /** Each of these recoveries is given less than it can need. */
  predicate Starved(powers: seq<nat>, entries: nat, items: nat) {
    forall i :: 0 <= i < |powers| ==> powers[i] < Need(entries, items, i)
  }

  predicate StarvedTo(powers: seq<nat>, n: nat, entries: nat, items: nat)
    requires n <= |powers|
  {
    n == 0 || (powers[n - 1] < Need(entries, items, n - 1) && StarvedTo(powers, n - 1, entries, items))
  }

  lemma {:induction false} StarvedExact(powers: seq<nat>, n: nat, entries: nat, items: nat)
    requires n <= |powers|
    ensures StarvedTo(powers, n, entries, items) <==> Starved(powers[..n], entries, items)
    ensures powers[..|powers|] == powers
  {
    if n > 0 {
      StarvedExact(powers, n - 1, entries, items);
      assert powers[..n] == powers[..n - 1] + [powers[n - 1]];
      assert forall i :: 0 <= i < n - 1 ==> powers[..n][i] == powers[..n - 1][i];
      assert powers[..n][n - 1] == powers[n - 1];
    }
  }

  /** As many entries as a request can leave: old ones, temps, journals, a slot. */
  function EntriesOf(base: Files, files: map<string, Content>, remove: seq<string>): nat {
    |base| + |files| + |remove| + 3
  }

  /** A transaction of this request, decided as its journal says. */
  ghost predicate Decided(tx: Tx, p: Phase, h: Body -> Digest, installed: bool, base: Files, files: map<string, Content>, remove: seq<string>) {
    && WellFormed(tx, h) && tx.base == base && |tx.items| <= |files| + |remove|
    && (p.Committed? <==> installed) && (p.Committed? ==> Reconciled(base, Outcome(tx, p), files, remove))
  }

  lemma Landed(tx: Tx, p: Phase, h: Body -> Digest, installed: bool, base: Files, files: map<string, Content>, remove: seq<string>)
    requires Decided(tx, p, h, installed, base, files, remove)
    ensures if installed then Reconciled(base, Outcome(tx, p), files, remove) else Outcome(tx, p) == base
  {
  }

  /** One reconcile that may be refused anywhere and die at any step, then
      recoveries that may die at any step of theirs, until one completes or is
      refused. Once something completes, the directory is exactly the requested
      one if a committed journal had taken the live name, and exactly the old one
      if not. A legal request of which nothing is refused completes at once when
      it has power for its steps. What never completes died every time, each time
      on too little power, or is one of the directories that recovery refuses. */
  method Run(m: Machine, files: map<string, Content>, remove: seq<string>, veto: Veto, powers: seq<nat>, ghost base: Files)
    returns (finished: bool, refused: bool, ghost tx: Tx, ghost p: Phase)
    requires m.vol.dir == Dir(base, map[]) && UserOnly(base)
    modifies m, m.vol
    ensures finished ==> m.vol.dir.slots == map[]
    ensures finished ==> if m.installed then Reconciled(base, m.vol.dir.files, files, remove) else m.vol.dir.files == base
    ensures old(m.vol.power) >= 4 * |base| + 9 * (|files| + |remove|) + 38 && RequestOk(base, files, remove) && !Vetoed(base, files, remove, veto)
            ==> finished && Reconciled(base, m.vol.dir.files, files, remove)
    ensures !finished ==> Decided(tx, p, m.digest, m.installed, base, files, remove)
    ensures !finished ==> Recoverable(m.vol.dir, tx, p)
    ensures refused ==> !finished && Unrecovered(m.vol.dir, tx, p)
    ensures !finished && !refused ==> Starved(powers, EntriesOf(base, files, remove), |files| + |remove|)
  {
    refused := false;
    finished, tx, p := RunReconcile(m, files, remove, veto, base);
    if finished { return; }
    Landed(tx, p, m.digest, m.installed, base, files, remove);
    finished, refused := RunRecoveries(m, powers, EntriesOf(base, files, remove), |files| + |remove|, tx, p);
  }

  /** The reconcile of a run, on a directory without reserved names. */
  method RunReconcile(m: Machine, files: map<string, Content>, remove: seq<string>, veto: Veto, ghost base: Files)
    returns (done: bool, ghost tx: Tx, ghost p: Phase)
    requires m.vol.dir == Dir(base, map[]) && UserOnly(base)
    modifies m, m.vol
    ensures done ==> m.vol.dir.slots == map[] && Reconciled(base, m.vol.dir.files, files, remove) && (m.installed || m.vol.dir.files == base)
    ensures !done ==> Recoverable(m.vol.dir, tx, p) && Decided(tx, p, m.digest, m.installed, base, files, remove)
    ensures Weight(m.vol.dir) <= EntriesOf(base, files, remove)
    ensures old(m.vol.power) >= 4 * |base| + 9 * (|files| + |remove|) + 38 && RequestOk(base, files, remove) && !Vetoed(base, files, remove, veto) ==> done
  {
    ghost var none := Tx(base, [], []);
    NothingStaged(base, m.digest);
    assert Outcome(none, Prepared) == base;
    FreshRecovered(m.vol.dir, none);
    var r;
    r, tx, p := Reconcile(m, files, remove, veto, none, Prepared);
    done := r.Done?;
  }

  lemma FreshRecovered(d: ArtifactDir, none: Tx)
    requires d.slots == map[] && none.items == []
    ensures !Unrecovered(d, none, Prepared) && Weight(d) == |d.files|
  {
  }

  /** Recoveries until one completes or is refused. */
  method RunRecoveries(m: Machine, powers: seq<nat>, ghost entries: nat, ghost items: nat, ghost tx: Tx, ghost p: Phase)
    returns (finished: bool, refused: bool)
    requires WellFormed(tx, m.digest) && Recoverable(m.vol.dir, tx, p) && Weight(m.vol.dir) <= entries && |tx.items| <= items
    modifies m.vol
    ensures finished ==> m.vol.dir == Dir(Outcome(tx, p), map[])
    ensures !finished ==> Recoverable(m.vol.dir, tx, p)
    ensures refused ==> !finished && Unrecovered(m.vol.dir, tx, p)
    ensures !finished && !refused ==> Starved(powers, entries, items)
    ensures powers != [] && powers[0] >= 4 * entries + items + 16 && !Unrecovered(old(m.vol.dir), tx, p) ==> finished
  {
    finished, refused := false, false;
    for i := 0 to |powers|
      invariant !finished && !refused && Recoverable(m.vol.dir, tx, p) && Weight(m.vol.dir) <= entries + i
      invariant StarvedTo(powers, i, entries, items)
      invariant i == 0 ==> m.vol.dir == old(m.vol.dir)
      invariant i > 0 ==> powers[0] < 4 * entries + items + 16
    {
      var r := RunRecovery(m, powers[i], tx, p);
      if !r.Crashed? { return r.Done?, r.Failed?; }
    }
    StarvedExact(powers, |powers|, entries, items);
  }

  method RunRecovery(m: Machine, power: nat, ghost tx: Tx, ghost p: Phase) returns (r: Status)
    requires WellFormed(tx, m.digest) && Recoverable(m.vol.dir, tx, p)
    modifies m.vol
    ensures r.Done? ==> m.vol.dir == Dir(Outcome(tx, p), map[])
    ensures !r.Done? ==> Recoverable(m.vol.dir, tx, p)
    ensures r.Failed? ==> Unrecovered(old(m.vol.dir), tx, p) && Unrecovered(m.vol.dir, tx, p)
    ensures r.Crashed? ==> power < 4 * Weight(old(m.vol.dir)) + |tx.items| + 16 && Weight(m.vol.dir) <= Weight(old(m.vol.dir)) + 1
  {
    m.vol.power := power;
    r := m.Recover(tx, p);
  }
}
