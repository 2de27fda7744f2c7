/** Publication of one release archive in its directory. A private witness
    authority names the staged file; a hard link makes the witness public; the
    prior output is quarantined and the stage renamed to the output. */
module ReleaseArchive {
  import opened Basics
  import opened AtomicFiles
  import opened ArtifactNames

  type Digest = int

  type Byte = b: int | 0 <= b < 256

  /** The durable witness: its private token and the staged file it binds. */
  datatype Record = Record(token: nat, identity: nat, hash: Digest)

  datatype Body = Archive(data: seq<Byte>) | Text(record: Record)

  datatype File = File(id: nat, body: Body)

  datatype Name = Output | Stage | Witness | Authority(token: nat) | Foreign(s: string) | Other(s: string)

  datatype SlotKind = OutputSlot | DeleteSlot

  type Files = map<Name, File>

  type ReleaseDir = Directory<SlotKind, Name, File>

  /** Whether a private deletion directory for x has a portable name. */
  predicate Deletable(x: Name) {
    match x
    case Stage => QuarantineNameFits(24, 87)
    case Witness => QuarantineNameFits(24, 103)
    case Authority(_) => QuarantineNameFits(24, 57)
    case _ => false
  }

  /** A file that reads back as a canonical witness. */
  function ReadWitness(file: Option<File>): (r: Option<Record>) {
    if file.Some? && file.value.body.Text? then Some(file.value.body.record) else None
  }

  predicate Matches(w: Record, h: Body -> Digest, file: File) {
    w.identity == file.id && w.hash == h(file.body)
  }

  // ------------------------------------------------------------ publications

  /** What one publication works with: the output it found, the files beside
      it, the archive it staged, and its witness. */
  datatype Pub = Pub(prior: Option<File>, others: Files, staged: File, authority: File, token: nat)

  /** The outcome so far. Undone is the prior output, and Kept the new one, of a
      sealed publication that its own process gave up. */
  datatype Choice = Old | New | Undone | Kept

  /** Where the output is: not yet touched, quarantined, replaced; and, once the
      stage has been given up, untouched or still quarantined. */
  datatype Position = Before | Parked | After | Stranded | Deserted

  /** Where a publication can be interrupted. An orphan is a quarantined prior
      output whose witness has been given up. */
  datatype Station =
    | Idle(choice: Choice)
    | Torn
    | Sealed(at: Position)
    | Orphan(replaced: bool)

  /** Where a publishing process can fail without dying. */
  datatype Fault =
    | NoFault
    | BeforePublication
    | PriorCheck
    | StageCheck
    | RenameRefused
    | RetiredCheck
    | OutputCheck

  function ChoiceOf(st: Station): Choice {
    match st
    case Idle(c) => c
    case Torn => Old
    case Sealed(at) => if at.After? then New else if at.Stranded? || at.Deserted? then Undone else Old
    case Orphan(replaced) => if replaced then Kept else Undone
  }

  predicate Replaces(c: Choice) {
    c.New? || c.Kept?
  }

  function Chosen(pub: Pub, c: Choice): Option<File> {
    if Replaces(c) then Some(pub.staged) else pub.prior
  }

  ghost predicate PubOk(pub: Pub, h: Body -> Digest) {
    && pub.authority.body == Text(Record(pub.token, pub.staged.id, h(pub.staged.body)))
    && (pub.prior.Some? ==> pub.prior.value.id != pub.staged.id)
    && (forall x :: x in pub.others ==> x.Other?)
  }

  /** Directory and slot conditions common to all stations. Deletion slots may
      pile up: recovery of the publication runs before their cleanup. */
  ghost predicate Frame(d: ReleaseDir, pub: Pub) {
    && (forall s :: At(d.files, Other(s)) == At(pub.others, Other(s)))
    && (forall x :: x in d.files ==> !x.Foreign?)
    && (forall x :: x in d.files && x.Authority? ==> x == Authority(pub.token))
    && (forall k :: k in d.slots && d.slots[k].kind.DeleteSlot? ==> Deletable(d.slots[k].source))
    && (forall k :: k in d.slots && d.slots[k].kind.OutputSlot? ==> d.slots[k].source == Output)
    && (forall j, k :: j in d.slots && k in d.slots && d.slots[j].kind.OutputSlot? && d.slots[k].kind.OutputSlot? ==> j == k)
  }

  ghost predicate NoOutputSlot(d: ReleaseDir) {
    forall k :: k in d.slots ==> !d.slots[k].kind.OutputSlot?
  }

  /** The output slot that holds something, or that there is none at all. */
  ghost predicate HeldSlot(d: ReleaseDir, held: Option<nat>) {
    if held.None? then NoOutputSlot(d)
    else held.value in d.slots && d.slots[held.value].kind.OutputSlot? && d.slots[held.value].held.Some?
  }

  /** The output slot, if there is one, holds nothing, or the prior output. */
  ghost predicate SlotEmpty(d: ReleaseDir) {
    forall k :: k in d.slots && d.slots[k].kind.OutputSlot? ==> d.slots[k].held.None?
  }

  ghost predicate SlotHoldsPrior(d: ReleaseDir, pub: Pub) {
    exists k :: k in d.slots && d.slots[k].kind.OutputSlot? && d.slots[k].held.Some? && d.slots[k].held == pub.prior
  }

  ghost predicate Residue(d: ReleaseDir, pub: Pub, st: Station) {
    Frame(d, pub) &&
    match st
    case Idle(c) =>
      && !c.Kept? && Authority(pub.token) !in d.files && Witness !in d.files
      && At(d.files, Output) == Chosen(pub, c) && SlotEmpty(d)
    case Torn =>
      && Authority(pub.token) in d.files && ReadWitness(At(d.files, Authority(pub.token))).None?
      && Witness !in d.files && At(d.files, Output) == pub.prior && SlotEmpty(d)
    case Sealed(at) =>
      && At(d.files, Authority(pub.token)) == Some(pub.authority)
      && (Witness in d.files ==> d.files[Witness] == pub.authority)
      && (at.Before? || at.Parked? ==> At(d.files, Stage) == Some(pub.staged))
      && (at.After? || at.Stranded? || at.Deserted? ==> Stage !in d.files)
      && At(d.files, Output) == (if at.Parked? || at.Deserted? then None else Chosen(pub, ChoiceOf(st)))
      && (at.Parked? || at.Deserted? ==> SlotHoldsPrior(d, pub))
      && (at.After? ==> SlotEmpty(d) || SlotHoldsPrior(d, pub))
      && (at.Before? || at.Stranded? ==> SlotEmpty(d))
    case Orphan(replaced) =>
      && Authority(pub.token) !in d.files && Witness !in d.files && Stage !in d.files
      && At(d.files, Output) == (if replaced then Some(pub.staged) else None) && SlotHoldsPrior(d, pub)
  }

  ghost predicate Recoverable(d: ReleaseDir, pub: Pub, c: Choice) {
    exists st :: Residue(d, pub, st) && ChoiceOf(st) == c
  }

  /** One of two decisions, for an operation interrupted between them. */
  ghost predicate Either(d: ReleaseDir, pub: Pub, st: Station, gone: Station) {
    Recoverable(d, pub, ChoiceOf(st)) || Recoverable(d, pub, ChoiceOf(gone))
  }

  /** A sealed witness whose staged file is neither staged nor published. */
  predicate Lost(d: ReleaseDir, h: Body -> Digest) {
    && Stage !in d.files
    && exists x :: x in d.files && x.Authority? && ReadWitness(Some(d.files[x])).Some?
                   && ReadWitness(Some(d.files[x])).value.token == x.token
                   && (Output !in d.files || !Matches(ReadWitness(Some(d.files[x])).value, h, d.files[Output]))
  }

  /** A quarantined prior output without any witness authority. */
  predicate Orphaned(d: ReleaseDir) {
    && (forall x :: x in d.files ==> !x.Authority?)
    && exists k :: k in d.slots && d.slots[k].kind.OutputSlot? && d.slots[k].held.Some?
  }

  predicate Refused(d: ReleaseDir, h: Body -> Digest) {
    Lost(d, h) || Orphaned(d)
  }

  // -------------------------------------- what recovery takes on, in any directory

  predicate OneOutputSlot(d: ReleaseDir) {
    forall j, k :: j in d.slots && k in d.slots && d.slots[j].kind.OutputSlot? && d.slots[k].kind.OutputSlot? ==> j == k
  }

  /** A private authority that carries its own token. */
  predicate Genuine(f: Files, x: Name) {
    x in f && x.Authority? && f[x].body.Text? && f[x].body.record.token == x.token
  }

  /** No authority, witness or prior output; or only an authority that is not
      genuine; or one genuine authority, its own witness if there is one. */
  predicate EvidenceFits(f: Files, held: bool) {
    var authorities := set x | x in f && x.Authority?;
    if forall x :: x in authorities ==> Genuine(f, x)
    then (if authorities == {} then Witness !in f && !held
          else forall x :: x in authorities ==> authorities == {x} && (Witness in f ==> f[Witness] == f[x]))
    else Witness !in f && !held && forall x :: x in authorities ==> authorities == {x}
  }

  /** The witness binds the staged file, with the output's place free for what is
      held; or, without a stage, it binds the output. */
  predicate Conclusive(f: Files, h: Body -> Digest, held: bool) {
    Witness in f && f[Witness].body.Text? &&
    var seal := f[Witness].body.record;
    if Stage in f then seal.identity == f[Stage].id && seal.hash == h(f[Stage].body) && !(held && Output in f)
    else Output in f && seal.identity == f[Output].id && seal.hash == h(f[Output].body)
  }

  /** The public witness is the same file as its private authority. */
  predicate Backed(f: Files, token: nat) {
    Witness in f && Authority(token) in f && f[Witness] == f[Authority(token)]
  }

  /** Nothing reserved but stages and deletions of the tool's own names. */
  predicate StagesFit(d: ReleaseDir) {
    && (forall x :: x in d.files ==> !x.Foreign? && !x.Authority? && !x.Witness?)
    && (forall k :: k in d.slots && d.slots[k].kind.DeleteSlot? ==> Deletable(d.slots[k].source))
  }

  /** The directory a completed publication or recovery leaves. */
  function Final(pub: Pub, c: Choice): Files {
    var output := Chosen(pub, c);
    if output.Some? then pub.others[Output := output.value] else pub.others
  }

  lemma BareIsFinal(d: ReleaseDir, pub: Pub, h: Body -> Digest, c: Choice)
    requires PubOk(pub, h) && Residue(d, pub, Idle(c)) && Stage !in d.files
    ensures d.files == Final(pub, c)
  {
    var f := Final(pub, c);
    forall x ensures At(d.files, x) == At(f, x) {
      if x.Other? { assert At(d.files, Other(x.s)) == At(pub.others, Other(x.s)); }
    }
    assert d.files.Keys == f.Keys by {
      forall x ensures x in d.files <==> x in f { assert At(d.files, x) == At(f, x); }
    }
    forall x | x in f ensures d.files[x] == f[x] { assert At(d.files, x) == At(f, x); }
  }

  // ---------------------------------------------------------------- theorems

  /** The public witness is always backed by its private authority. */
  lemma WitnessBacked(d: ReleaseDir, pub: Pub, c: Choice)
    requires Recoverable(d, pub, c) && Witness in d.files
    ensures At(d.files, Authority(pub.token)) == Some(d.files[Witness]) && d.files[Witness] == pub.authority
  {
    var st :| Residue(d, pub, st) && ChoiceOf(st) == c;
  }

  /** The prior output is at its name, or in its slot, or a live output that
      matches the durable witness has replaced it. */
  lemma PriorNeverLost(d: ReleaseDir, pub: Pub, h: Body -> Digest, c: Choice)
    requires PubOk(pub, h) && Recoverable(d, pub, c)
    ensures At(d.files, Output) == pub.prior || SlotHoldsPrior(d, pub)
            || (c.New? && At(d.files, Output) == Some(pub.staged) && Matches(pub.authority.body.record, h, pub.staged))
  {
    var st :| Residue(d, pub, st) && ChoiceOf(st) == c;
  }

  /** Recovery refuses exactly what a process that gave up can leave. */
  predicate GivenUp(st: Station) {
    st.Orphan? || (st.Sealed? && (st.at.Stranded? || st.at.Deserted?))
  }

  lemma RefusedIsGivenUp(d: ReleaseDir, pub: Pub, h: Body -> Digest, st: Station)
    requires PubOk(pub, h) && Residue(d, pub, st)
    ensures Refused(d, h) <==> GivenUp(st)
    ensures Lost(d, h) <==> st == Sealed(Stranded) || st == Sealed(Deserted)
  {
    if st.Sealed? { assert Authority(pub.token) in d.files; }
    if st.Orphan? {
      var k :| k in d.slots && d.slots[k].kind.OutputSlot? && d.slots[k].held.Some? && d.slots[k].held == pub.prior;
    }
  }

  /** The refusals are real. A process that gives up removes its stage before its
      witness, and dying in between strands the sealed witness. */
  lemma GivingUpStrands(d: ReleaseDir, pub: Pub, h: Body -> Digest, at: Position)
    requires PubOk(pub, h) && Residue(d, pub, Sealed(at)) && (at.Before? || at.Parked?)
    ensures Residue(Dir(d.files - {Stage}, d.slots), pub, Sealed(if at.Before? then Stranded else Deserted))
    ensures Lost(Dir(d.files - {Stage}, d.slots), h)
  {
    var e, gone := Dir(d.files - {Stage}, d.slots), if at.Before? then Stranded else Deserted;
    if at.Parked? { assert SlotHoldsPrior(e, pub); }
    assert Residue(e, pub, Sealed(gone));
    RefusedIsGivenUp(e, pub, h, Sealed(gone));
  }

  /** A publication over an existing output, with the least of everything. */
  function SmallPub(h: Body -> Digest): Pub {
    var staged := File(2, Archive([1]));
    Pub(Some(File(1, Archive([]))), map[], staged, File(3, Text(Record(0, 2, h(staged.body)))), 0)
  }

  /** Given up after sealing: the authority alone beside the prior output. */
  function StrandedDir(h: Body -> Digest): ReleaseDir {
    Dir(map[Output := SmallPub(h).prior.value, Authority(0) := SmallPub(h).authority], map[])
  }

  /** Given up with the prior output in quarantine: nothing else is left. */
  function OrphanDir(h: Body -> Digest): ReleaseDir {
    Dir(map[], map[0 := Slot(OutputSlot, Output, SmallPub(h).prior)])
  }

  /** Both kinds of refused directory exist. */
  lemma RefusedResiduesExist(h: Body -> Digest)
    ensures PubOk(SmallPub(h), h)
    ensures Residue(StrandedDir(h), SmallPub(h), Sealed(Stranded)) && Lost(StrandedDir(h), h)
    ensures Residue(OrphanDir(h), SmallPub(h), Orphan(false)) && Orphaned(OrphanDir(h))
  {
    RefusedIsGivenUp(StrandedDir(h), SmallPub(h), h, Sealed(Stranded));
    assert 0 in OrphanDir(h).slots;
    assert SlotHoldsPrior(OrphanDir(h), SmallPub(h));
  }

  /** What recovery reads at the authority, and what deleting a torn one or
      linking a sealed one leaves. */
  lemma AuthoritySeen(d: ReleaseDir, pub: Pub, h: Body -> Digest, st: Station)
    requires PubOk(pub, h) && Residue(d, pub, st)
    ensures (set x | x in d.files && x.Authority?) == if st.Idle? || st.Orphan? then {} else {Authority(pub.token)}
    ensures !st.Sealed? ==> Witness !in d.files && (SlotEmpty(d) || st.Orphan?)
    ensures st.Orphan? ==> !NoOutputSlot(d)
    ensures st.Torn? ==> ReadWitness(At(d.files, Authority(pub.token))).None?
    ensures st.Torn? ==> Residue(Dir(d.files - {Authority(pub.token)}, d.slots), pub, Idle(Old))
    ensures st.Sealed? ==> At(d.files, Authority(pub.token)) == Some(pub.authority) && ReadWitness(Some(pub.authority)).Some?
    ensures st.Sealed? ==> ReadWitness(Some(pub.authority)).value.token == pub.token
    ensures st.Sealed? && Witness in d.files ==> d.files[Witness] == pub.authority
    ensures st.Sealed? && Witness !in d.files ==> Residue(Put(d, Witness, pub.authority), pub, st)
    ensures Recoverable(d, pub, ChoiceOf(st))
  {
    if st.Sealed? && SlotHoldsPrior(d, pub) { assert SlotHoldsPrior(Put(d, Witness, pub.authority), pub); }
  }

  /** What is left of a sealed publication when its witness is gone. */
  ghost function Unsealed(d: ReleaseDir, at: Position): Station {
    if SlotEmpty(d) then Idle(ChoiceOf(Sealed(at))) else Orphan(at.After?)
  }

  lemma WitnessGone(d: ReleaseDir, pub: Pub, at: Position)
    requires Residue(d, pub, Sealed(at)) && !at.Parked?
    ensures Residue(Dir(d.files - {Witness}, d.slots), pub, Sealed(at))
    ensures Unsealed(Dir(d.files - {Witness}, d.slots), at) == Unsealed(d, at)
  {
    if SlotHoldsPrior(d, pub) { assert SlotHoldsPrior(Dir(d.files - {Witness}, d.slots), pub); }
  }

  lemma AuthorityGone(d: ReleaseDir, pub: Pub, at: Position)
    requires Residue(d, pub, Sealed(at)) && !at.Parked? && Witness !in d.files
    ensures Residue(Dir(d.files - {Authority(pub.token)}, d.slots), pub, Unsealed(d, at))
  {
    if SlotHoldsPrior(d, pub) { assert SlotHoldsPrior(Dir(d.files - {Authority(pub.token)}, d.slots), pub); }
  }

  lemma StageGone(d: ReleaseDir, pub: Pub, c: Choice)
    requires Residue(d, pub, Idle(c))
    ensures Residue(Dir(d.files - {Stage}, d.slots), pub, Idle(c))
  {
  }

  /** Beginning a stage disturbs nothing. */
  lemma StageBegun(d: ReleaseDir, pub: Pub, h: Body -> Digest, c: Choice, file: File)
    requires PubOk(pub, h) && d == Dir(Final(pub, c), map[]) && !c.Kept?
    ensures Stage !in d.files && At(d.files, Output) == Chosen(pub, c)
    ensures Recoverable(d, pub, c) && Recoverable(Put(d, Stage, file), pub, c)
  {
    assert Residue(d, pub, Idle(c));
    assert Residue(Put(d, Stage, file), pub, Idle(c));
  }

  /** The new publication starts idle, with its stage. */
  lemma StageIdle(d: ReleaseDir, prev: Pub, pub: Pub, h: Body -> Digest, c: Choice)
    requires PubOk(prev, h) && d == Dir(Final(prev, c)[Stage := pub.staged], map[])
    requires pub.prior == Chosen(prev, c) && pub.others == prev.others
    ensures Residue(d, pub, Idle(Old)) && At(d.files, Stage) == Some(pub.staged)
  {
  }

  lemma RestoreCount(d: ReleaseDir, k: nat)
    requires k in d.slots && d.slots[k].held.Some?
    ensures |SlotDropped(SlotRestored(d, k), k).slots| == |d.slots| - 1
  {
    assert SlotDropped(SlotRestored(d, k), k).slots == d.slots - {k};
    RemoveCount(d.slots, k);
  }

  // ------------------------------------------------------------ faults

  /** The output at its position, with the only slot that can go with it. */
  ghost predicate Placed(d: ReleaseDir, pub: Pub, at: Position, slot: Option<nat>) {
    && Residue(d, pub, Sealed(at)) && Witness in d.files
    && (slot.None? ==> d.slots == map[] && !at.Parked?)
    && (slot.Some? ==> pub.prior.Some? && d.slots == map[slot.value := Slot(OutputSlot, Output, pub.prior)] && !at.Before?)
  }

  /** Where a fault stops the publication of the output, if it does. */
  function StopsAt(fault: Fault, prior: bool, fits: bool): (r: Option<Position>) {
    if prior && !fits then Some(Before)
    else
      match fault
      case PriorCheck => if prior then Some(Parked) else None
      case StageCheck => Some(Before)
      case RenameRefused => Some(Before)
      case RetiredCheck => if prior then Some(After) else None
      case _ => None
  }

  /** The fault has no occasion to strike. */
  predicate FaultIdle(fault: Fault, prior: bool, fits: bool) {
    !fault.BeforePublication? && !fault.OutputCheck? && StopsAt(fault, prior, fits).None?
  }

  /** The process gets as far as renaming its stage. */
  predicate Reaches(fault: Fault, prior: bool, fits: bool) {
    !fault.BeforePublication? && (StopsAt(fault, prior, fits).None? || StopsAt(fault, prior, fits).value.After?)
  }

  /** The longest output name that a quarantine can carry has 131 bytes. */
  lemma OutputNameLimit(p: Publisher)
    ensures p.Fits() <==> |p.outputName| <= 131
  {
    var n := |p.outputName|;
    if n <= 131 {
      assert n / 3 <= 43;
    } else {
      assert n / 3 >= 44;
    }
  }

  /** What each fault leaves: a refused rename and a late check preserve all
      evidence, a failed check on the quarantined output orphans it, and every
      other fault leaves the directory as it was. */
  ghost predicate FailedAt(d: ReleaseDir, pub: Pub, fault: Fault, fits: bool) {
    var stop := StopsAt(fault, pub.prior.Some?, fits);
    if fault.BeforePublication? then d == Dir(Final(pub, Old), map[])
    else if stop.None? then fault.OutputCheck? && Residue(d, pub, Sealed(After))
    else if !stop.value.Before? then Residue(d, pub, Orphan(stop.value.After?))
    else if fault.RenameRefused? && (pub.prior.None? || fits) then Residue(d, pub, Sealed(Before))
    else d == Dir(Final(pub, Old), map[])
  }

  /** A publication of the data on top of the decided directory. */
  ghost predicate Begun(pub: Pub, data: seq<Byte>, prev: Pub, c: Choice) {
    pub.prior == Chosen(prev, c) && pub.others == prev.others && pub.staged.body == Archive(data)
  }

  /** The fault strikes while the prior output is in quarantine, or after. */
  predicate Strands(fault: Fault, prior: bool, fits: bool) {
    !fault.BeforePublication? && StopsAt(fault, prior, fits).Some? && !StopsAt(fault, prior, fits).value.Before?
  }

  /** Of what faults leave, recovery refuses exactly the stranded outputs. */
  lemma FailedRefused(d: ReleaseDir, pub: Pub, h: Body -> Digest, fault: Fault, fits: bool)
    requires PubOk(pub, h) && FailedAt(d, pub, fault, fits)
    ensures Refused(d, h) <==> Strands(fault, pub.prior.Some?, fits)
  {
    var stop := StopsAt(fault, pub.prior.Some?, fits);
    if d == Dir(Final(pub, Old), map[]) {
      assert Residue(d, pub, Idle(Old));
      RefusedIsGivenUp(d, pub, h, Idle(Old));
    } else {
      RefusedIsGivenUp(d, pub, h, if Strands(fault, pub.prior.Some?, fits) then Orphan(stop.value.After?)
                                  else if stop.None? then Sealed(After) else Sealed(Before));
    }
  }

  lemma StageGivenUp(d: ReleaseDir, pub: Pub, at: Position, gone: Position)
    requires Residue(d, pub, Sealed(at))
    requires (at.Before? && gone.Stranded?) || (at.Parked? && gone.Deserted?) || (at.After? && gone.After?)
    ensures Residue(Dir(d.files - {Stage}, d.slots), pub, Sealed(gone))
  {
    if SlotHoldsPrior(d, pub) { assert SlotHoldsPrior(Dir(d.files - {Stage}, d.slots), pub); }
  }

  // ------------------------------------------------------------ publisher

  class Publisher {
    const digest: Body -> Digest
    const outputName: string
    const vol: Volume<SlotKind, Name, File>
    /** History: the current publication renamed its stage to the output. */
    ghost var renamed: bool

    constructor (digest: Body -> Digest, outputName: string, vol: Volume<SlotKind, Name, File>)
      ensures this.digest == digest && this.outputName == outputName && this.vol == vol && !this.renamed
    {
      this.digest, this.outputName, this.vol, this.renamed := digest, outputName, vol, false;
    }

    // ------------------------------------------------------------- cleanup

    /** cleanupArchiveStageIfPresent. */
    method CleanupIfPresent(x: Name) returns (r: Status)
      requires Deletable(x)
      modifies vol
      ensures !r.Failed?
      ensures r.Done? ==> vol.dir == Dir(old(vol.dir).files - {x}, old(vol.dir).slots)
      ensures r.Crashed? ==> vol.power == 0 && x in old(vol.dir).files && Discarding(old(vol.dir), vol.dir, DeleteSlot, x)
      ensures r.Done? ==> old(vol.power) <= vol.power + 4
      ensures r.Crashed? ==> old(vol.power) < 4
      ensures r.Crashed? ==> |vol.dir.slots| <= |old(vol.dir).slots| + 1
    {
      if x !in vol.dir.files {
        assert vol.dir.files - {x} == vol.dir.files;
        return Done;
      }
      r := vol.Discard(x, DeleteSlot, Deletable(x));
    }

    /** cleanupArchivePublicationWitness: the public name, then the authority. */
    method CleanupWitness(ghost pub: Pub, ghost at: Position, token: nat) returns (r: Status)
      requires PubOk(pub, digest) && token == pub.token && !at.Parked?
      requires Backed(vol.dir.files, token) ==> Residue(vol.dir, pub, Sealed(at))
      modifies vol
      ensures r.Failed? <==> !Backed(old(vol.dir).files, token)
      ensures r.Failed? ==> vol.dir == old(vol.dir) && vol.power == old(vol.power)
      ensures r.Done? ==> Residue(vol.dir, pub, Unsealed(old(vol.dir), at)) && vol.dir.slots == old(vol.dir).slots
      ensures r.Done? ==> vol.dir.files == old(vol.dir).files - {Witness} - {Authority(token)}
      ensures r.Crashed? ==> vol.power == 0 && Either(vol.dir, pub, Sealed(at), Unsealed(old(vol.dir), at))
      ensures r.Done? ==> old(vol.power) <= vol.power + 8
      ensures r.Crashed? ==> old(vol.power) < 8
      ensures r.Crashed? ==> |vol.dir.slots| <= |old(vol.dir).slots| + 1
    {
      if Authority(token) !in vol.dir.files || Witness !in vol.dir.files { return Failed; }
      if vol.dir.files[Authority(token)] != vol.dir.files[Witness] { return Failed; }
      ghost var d0 := vol.dir;
      WitnessGone(d0, pub, at);
      r := CleanupIfPresent(Witness);
      if r.Crashed? { DiscardKeeps(d0, vol.dir, pub, Witness, Sealed(at), Sealed(at)); }
      if !r.Done? { return; }
      r := CleanupAuthority(pub, at, token);
    }

    method CleanupAuthority(ghost pub: Pub, ghost at: Position, token: nat) returns (r: Status)
      requires PubOk(pub, digest) && Residue(vol.dir, pub, Sealed(at)) && !at.Parked?
      requires token == pub.token && Witness !in vol.dir.files
      modifies vol
      ensures !r.Failed?
      ensures r.Done? ==> Residue(vol.dir, pub, Unsealed(old(vol.dir), at)) && vol.dir.slots == old(vol.dir).slots
      ensures r.Done? ==> vol.dir.files == old(vol.dir).files - {Authority(token)}
      ensures r.Crashed? ==> vol.power == 0 && Either(vol.dir, pub, Sealed(at), Unsealed(old(vol.dir), at))
      ensures r.Done? ==> old(vol.power) <= vol.power + 4
      ensures r.Crashed? ==> old(vol.power) < 4
      ensures r.Crashed? ==> |vol.dir.slots| <= |old(vol.dir).slots| + 1
    {
      ghost var d0 := vol.dir;
      AuthorityGone(d0, pub, at);
      r := CleanupIfPresent(Authority(token));
      if r.Crashed? { DiscardKeeps(d0, vol.dir, pub, Authority(token), Sealed(at), Unsealed(d0, at)); }
    }

    // ------------------------------------------------------------ recovery

    /** The prior-output quarantine: at most one; an empty one is retired. */
    method ResolveOutputSlot(ghost pub: Pub, ghost st: Station) returns (r: Status, held: Option<nat>)
      requires PubOk(pub, digest) && (OneOutputSlot(vol.dir) ==> Residue(vol.dir, pub, st))
      modifies vol
      ensures r.Failed? <==> !OneOutputSlot(old(vol.dir))
      ensures r.Failed? ==> vol.dir == old(vol.dir) && vol.power == old(vol.power)
      ensures r.Done? ==> Residue(vol.dir, pub, st) && vol.dir.files == old(vol.dir).files
      ensures r.Done? ==> HeldSlot(vol.dir, held)
      ensures r.Crashed? ==> vol.power == 0 && Recoverable(vol.dir, pub, ChoiceOf(st))
      ensures r.Done? ==> old(vol.power) <= vol.power + 1 && |vol.dir.slots| <= |old(vol.dir).slots|
      ensures r.Crashed? ==> old(vol.power) < 1
      ensures r.Crashed? ==> |vol.dir.slots| <= |old(vol.dir).slots| + 1
    {
      var ok, slot := FindOutputSlot();
      if !ok { return Failed, None; }
      if slot.None? || vol.dir.slots[slot.value].held.Some? { return Done, slot; }
      EmptySlotDropped(vol.dir, pub, st, slot.value);
      RemoveCount(vol.dir.slots, slot.value);
      held := None;
      r := vol.DropSlot(slot.value);
    }

    method FindOutputSlot() returns (ok: bool, slot: Option<nat>)
      ensures ok <==> OneOutputSlot(vol.dir)
      ensures ok ==> if slot.None? then NoOutputSlot(vol.dir) else slot.value in vol.dir.slots && vol.dir.slots[slot.value].kind.OutputSlot?
    {
      var candidates := set k | k in vol.dir.slots && vol.dir.slots[k].kind.OutputSlot?;
      assert forall k :: k in vol.dir.slots && vol.dir.slots[k].kind.OutputSlot? <==> k in candidates;
      if candidates == {} { return true, None; }
      var k :| k in candidates;
      assert candidates == {k} <==> OneOutputSlot(vol.dir) by {
        if OneOutputSlot(vol.dir) {
          forall j | j in candidates ensures j == k {}
        }
      }
      return candidates == {k}, Some(k);
    }

    /** Delete a corrupt authority, or complete the link of a valid one. */
    method ResolveAuthority(held: Option<nat>, ghost pub: Pub, ghost st: Station)
      returns (r: Status, token: Option<nat>)
      requires PubOk(pub, digest) && (EvidenceFits(vol.dir.files, held.Some?) ==> Residue(vol.dir, pub, st))
      requires HeldSlot(vol.dir, held)
      modifies vol
      ensures r.Failed? <==> !EvidenceFits(old(vol.dir).files, held.Some?)
      ensures Residue(old(vol.dir), pub, st) ==> (r.Failed? <==> st.Orphan?)
      ensures r.Failed? ==> vol.dir == old(vol.dir)
      ensures r.Done? ==> Residue(vol.dir, pub, if st.Torn? then Idle(Old) else st) && vol.dir.slots == old(vol.dir).slots
      ensures r.Done? ==> (token == if st.Sealed? then Some(pub.token) else None)
      ensures r.Done? && st.Sealed? ==> Witness in vol.dir.files
      ensures r.Crashed? ==> vol.power == 0 && Recoverable(vol.dir, pub, ChoiceOf(st))
      ensures r.Done? ==> old(vol.power) <= vol.power + 4
      ensures r.Crashed? ==> old(vol.power) < 4
      ensures r.Crashed? ==> |vol.dir.slots| <= |old(vol.dir).slots| + 1
    {
      token := None;
      var authorities := set x | x in vol.dir.files && x.Authority?;
      ghost var fits := EvidenceFits(vol.dir.files, held.Some?);
      if Residue(vol.dir, pub, st) { AuthoritySeen(vol.dir, pub, digest, st); }
      if authorities == {} {
        if Witness in vol.dir.files || held.Some? { return Failed, None; }
        return Done, None;
      }
      var name :| name in authorities;
      if authorities != {name} { return Failed, None; }
      var authority := ReadWitness(Some(vol.dir.files[name]));
      assert authority.Some? && authority.value.token == name.token <==> Genuine(vol.dir.files, name);
      if authority.None? || authority.value.token != name.token {
        if Witness in vol.dir.files || held.Some? { return Failed, None; }
        ghost var d0 := vol.dir;
        r := CleanupIfPresent(name);
        if r.Crashed? { DiscardKeeps(d0, vol.dir, pub, name, st, Idle(Old)); }
        return;
      }
      assert fits <==> (Witness in vol.dir.files ==> vol.dir.files[Witness] == vol.dir.files[name]);
      if Witness !in vol.dir.files {
        r := vol.Link(name, Witness);
        if !r.Done? { return; }
      }
      if ReadWitness(At(vol.dir.files, Witness)) != authority || vol.dir.files[Witness] != vol.dir.files[name] { return Failed, None; }
      r, token := Done, Some(name.token);
    }

    /** recoverArchivePublication. */
    method RecoverPublication(ghost pub: Pub, ghost c: Choice) returns (r: Status)
      requires PubOk(pub, digest) && Recoverable(vol.dir, pub, c)
      modifies vol
      ensures r.Done? ==> Residue(vol.dir, pub, Idle(c)) && NoOutputSlot(vol.dir)
      ensures !r.Done? ==> Recoverable(vol.dir, pub, c)
      ensures !r.Crashed? ==> (r.Failed? <==> Refused(old(vol.dir), digest))
      ensures r.Failed? ==> Refused(vol.dir, digest) && (c.Undone? || c.Kept?)
      ensures r.Crashed? ==> vol.power == 0
      ensures r.Done? ==> old(vol.power) <= vol.power + 15 && |vol.dir.slots| <= |old(vol.dir).slots|
      ensures r.Crashed? ==> old(vol.power) < 15
      ensures !r.Done? ==> |vol.dir.slots| <= |old(vol.dir).slots| + 1
    {
      ghost var st :| Residue(vol.dir, pub, st) && ChoiceOf(st) == c;
      RefusedIsGivenUp(vol.dir, pub, digest, st);
      r := RecoverFrom(pub, st);
      if r.Failed? { RefusedIsGivenUp(vol.dir, pub, digest, st); }
    }

    method RecoverFrom(ghost pub: Pub, ghost st: Station) returns (r: Status)
      requires PubOk(pub, digest) && Residue(vol.dir, pub, st)
      modifies vol
      ensures r.Done? ==> Residue(vol.dir, pub, Idle(ChoiceOf(st))) && NoOutputSlot(vol.dir)
      ensures r.Crashed? ==> vol.power == 0 && Recoverable(vol.dir, pub, ChoiceOf(st))
      ensures r.Failed? ==> Residue(vol.dir, pub, st)
      ensures !r.Crashed? ==> (r.Failed? <==> GivenUp(st))
      ensures r.Done? ==> old(vol.power) <= vol.power + 15 && |vol.dir.slots| <= |old(vol.dir).slots|
      ensures r.Crashed? ==> old(vol.power) < 15
      ensures !r.Done? ==> |vol.dir.slots| <= |old(vol.dir).slots| + 1
    {
      var held, token;
      r, held := ResolveOutputSlot(pub, st);
      if !r.Done? { return; }
      r, token := ResolveAuthority(held, pub, st);
      if !r.Done? || token.None? { return; }
      r := Conclude(held, token.value, pub, st.at);
    }

    /** With a sealed witness: a stage means old, a matching output means new. */
    method Conclude(held: Option<nat>, token: nat, ghost pub: Pub, ghost at: Position) returns (r: Status)
      requires PubOk(pub, digest) && token == pub.token
      requires Conclusive(vol.dir.files, digest, held.Some?) ==> Residue(vol.dir, pub, Sealed(at))
      requires HeldSlot(vol.dir, held)
      modifies vol
      ensures r.Done? ==> Residue(vol.dir, pub, Idle(ChoiceOf(Sealed(at)))) && NoOutputSlot(vol.dir)
      ensures r.Failed? <==> !Conclusive(old(vol.dir).files, digest, held.Some?)
      ensures Residue(old(vol.dir), pub, Sealed(at)) && Witness in old(vol.dir).files ==> (r.Failed? <==> at.Stranded? || at.Deserted?)
      ensures r.Failed? ==> vol.dir == old(vol.dir)
      ensures r.Crashed? ==> vol.power == 0 && Recoverable(vol.dir, pub, ChoiceOf(Sealed(at)))
      ensures r.Done? ==> old(vol.power) <= vol.power + 10 && |vol.dir.slots| <= |old(vol.dir).slots|
      ensures r.Crashed? ==> old(vol.power) < 10
      ensures !r.Done? ==> |vol.dir.slots| <= |old(vol.dir).slots| + 1
    {
      var seal := ReadWitness(At(vol.dir.files, Witness));
      if seal.None? { return Failed; }
      if Stage in vol.dir.files {
        if !Matches(seal.value, digest, vol.dir.files[Stage]) || (held.Some? && Output in vol.dir.files) { return Failed; }
        r := ConcludeOld(held, token, pub, at);
        return;
      }
      if Output !in vol.dir.files || !Matches(seal.value, digest, vol.dir.files[Output]) { return Failed; }
      r := ConcludeNew(held, token, pub);
    }

    /** The stage is still there: the prior output is put back. */
    method ConcludeOld(held: Option<nat>, token: nat, ghost pub: Pub, ghost at: Position) returns (r: Status)
      requires PubOk(pub, digest) && Residue(vol.dir, pub, Sealed(at)) && token == pub.token && Witness in vol.dir.files
      requires HeldSlot(vol.dir, held) && at == (if held.Some? then Parked else Before)
      modifies vol
      ensures !r.Failed?
      ensures r.Done? ==> Residue(vol.dir, pub, Idle(Old)) && NoOutputSlot(vol.dir)
      ensures r.Crashed? ==> vol.power == 0 && Recoverable(vol.dir, pub, Old)
      ensures r.Done? ==> old(vol.power) <= vol.power + 10 && |vol.dir.slots| <= |old(vol.dir).slots|
      ensures r.Crashed? ==> old(vol.power) < 10
      ensures r.Crashed? ==> |vol.dir.slots| <= |old(vol.dir).slots| + 1
    {
      if held.Some? {
        r := RestorePrior(held.value, pub);
        if !r.Done? { return; }
      }
      r := CleanupWitness(pub, Before, token);
    }

    method RestorePrior(k: nat, ghost pub: Pub) returns (r: Status)
      requires PubOk(pub, digest) && Residue(vol.dir, pub, Sealed(Parked)) && HeldSlot(vol.dir, Some(k))
      modifies vol
      ensures !r.Failed?
      ensures r.Done? ==> Residue(vol.dir, pub, Sealed(Before)) && NoOutputSlot(vol.dir) && (Witness in old(vol.dir).files ==> Witness in vol.dir.files)
      ensures r.Crashed? ==> vol.power == 0 && Recoverable(vol.dir, pub, Old)
      ensures r.Done? ==> old(vol.power) <= vol.power + 2 && |vol.dir.slots| <= |old(vol.dir).slots|
      ensures r.Crashed? ==> old(vol.power) < 2
      ensures r.Crashed? ==> |vol.dir.slots| <= |old(vol.dir).slots| + 1
    {
      ghost var d0 := vol.dir;
      RestoreCount(d0, k);
      PriorRestored(d0, pub, k);
      r := vol.RestoreQuarantined(k);
    }

    /** The output is the witnessed one: the prior output is retired. */
    method ConcludeNew(held: Option<nat>, token: nat, ghost pub: Pub) returns (r: Status)
      requires PubOk(pub, digest) && Residue(vol.dir, pub, Sealed(After)) && token == pub.token && Witness in vol.dir.files
      requires HeldSlot(vol.dir, held)
      modifies vol
      ensures !r.Failed?
      ensures r.Done? ==> Residue(vol.dir, pub, Idle(New)) && NoOutputSlot(vol.dir)
      ensures r.Crashed? ==> vol.power == 0 && Recoverable(vol.dir, pub, New)
      ensures r.Done? ==> old(vol.power) <= vol.power + 10 && |vol.dir.slots| <= |old(vol.dir).slots|
      ensures r.Crashed? ==> old(vol.power) < 10
      ensures r.Crashed? ==> |vol.dir.slots| <= |old(vol.dir).slots| + 1
    {
      if held.Some? {
        ghost var d0 := vol.dir;
        RemoveCount(vol.dir.slots, held.value);
        PriorRetired(d0, pub, held.value);
        r := vol.RemoveQuarantined(held.value);
        if !r.Done? {
          assert vol.dir == d0 ==> Residue(vol.dir, pub, Sealed(After));
          return;
        }
      }
      r := CleanupWitness(pub, After, token);
    }

    // --------------------------------------------------- stages and slots

    /** recoverArchiveStagesBounded: every deletion slot, then the stage. */
    method RecoverStages(ghost pub: Pub, ghost c: Choice) returns (r: Status)
      requires PubOk(pub, digest) && (StagesFit(vol.dir) ==> Residue(vol.dir, pub, Idle(c)) && NoOutputSlot(vol.dir))
      modifies vol
      ensures r.Failed? <==> !StagesFit(old(vol.dir))
      ensures r.Failed? ==> vol.dir == old(vol.dir) && vol.power == old(vol.power)
      ensures r.Done? ==> vol.dir == Dir(Final(pub, c), map[])
      ensures r.Crashed? ==> vol.power == 0 && Recoverable(vol.dir, pub, c)
      ensures r.Done? ==> old(vol.power) <= vol.power + 2 * |old(vol.dir).slots| + 4
      ensures r.Crashed? ==> old(vol.power) < 2 * |old(vol.dir).slots| + 4
      ensures r.Crashed? ==> |vol.dir.slots| <= |old(vol.dir).slots| + 1
    {
      if exists x :: x in vol.dir.files && (x.Foreign? || x.Authority? || x.Witness?) { return Failed; }
      if exists k :: k in vol.dir.slots && vol.dir.slots[k].kind.DeleteSlot? && !Deletable(vol.dir.slots[k].source) { return Failed; }
      r := DropDeleteSlots(pub, c);
      if !r.Done? { return; }
      ghost var d1 := vol.dir;
      StageGone(d1, pub, c);
      r := CleanupIfPresent(Stage);
      if r.Crashed? { DiscardKeeps(d1, vol.dir, pub, Stage, Idle(c), Idle(c)); }
      if r.Done? { BareIsFinal(vol.dir, pub, digest, c); }
    }

    method DropDeleteSlots(ghost pub: Pub, ghost c: Choice) returns (r: Status)
      requires Residue(vol.dir, pub, Idle(c)) && NoOutputSlot(vol.dir)
      modifies vol
      ensures !r.Failed?
      ensures r.Done? ==> Residue(vol.dir, pub, Idle(c)) && vol.dir.slots == map[]
      ensures r.Crashed? ==> vol.power == 0 && Recoverable(vol.dir, pub, c)
      ensures r.Done? ==> old(vol.power) <= vol.power + 2 * |old(vol.dir).slots|
      ensures r.Crashed? ==> old(vol.power) < 2 * |old(vol.dir).slots|
      ensures r.Crashed? ==> |vol.dir.slots| <= |old(vol.dir).slots| + 1
    {
      var todo := set k | k in vol.dir.slots && vol.dir.slots[k].kind.DeleteSlot?;
      assert todo == vol.dir.slots.Keys;
      r := Done;
      while todo != {}
        invariant r.Done? && Residue(vol.dir, pub, Idle(c)) && NoOutputSlot(vol.dir)
        invariant todo == vol.dir.slots.Keys
        invariant old(vol.power) + 2 * |vol.dir.slots| <= vol.power + 2 * |old(vol.dir).slots|
        decreases todo
      {
        var k :| k in todo;
        ghost var d0 := vol.dir;
        DeleteSlotGone(d0, pub, c, k);
        RemoveCount(d0.slots, k);
        if vol.dir.slots[k].held.None? {
          r := vol.DropSlot(k);
        } else {
          r := vol.RemoveQuarantined(k);
        }
        if !r.Done? { return; }
        todo := todo - {k};
      }
    }

    /** Both recoveries, as every run of the tool begins with them. With two
        steps of power a slot and nineteen more they do not die. */
    method Recover(ghost pub: Pub, ghost c: Choice) returns (r: Status)
      requires PubOk(pub, digest) && Recoverable(vol.dir, pub, c)
      modifies vol
      ensures r.Done? ==> vol.dir == Dir(Final(pub, c), map[]) && !c.Kept?
      ensures !r.Done? ==> Recoverable(vol.dir, pub, c)
      ensures !r.Crashed? ==> (r.Failed? <==> Refused(old(vol.dir), digest))
      ensures r.Failed? ==> Refused(vol.dir, digest) && (c.Undone? || c.Kept?)
      ensures r.Crashed? ==> vol.power == 0
      ensures r.Done? ==> old(vol.power) <= vol.power + 2 * |old(vol.dir).slots| + 19
      ensures r.Crashed? ==> old(vol.power) < 2 * |old(vol.dir).slots| + 19
      ensures old(vol.power) >= 2 * |old(vol.dir).slots| + 19 ==> (r.Done? <==> !Refused(old(vol.dir), digest))
      ensures !r.Done? ==> |vol.dir.slots| <= |old(vol.dir).slots| + 1
    {
      r := RecoverPublication(pub, c);
      if !r.Done? { return; }
      r := RecoverStages(pub, c);
    }

    // -------------------------------------------------------- publication

    /** writeArchivePublicationWitness: a complete private authority first, then
        its hard link under the public name. */
    method WriteWitness(token: nat, authority: File, ghost pub: Pub) returns (r: Status)
      requires PubOk(pub, digest) && pub.token == token && pub.authority == authority
      requires Residue(vol.dir, pub, Idle(Old)) && vol.dir.slots == map[] && At(vol.dir.files, Stage) == Some(pub.staged)
      modifies vol
      ensures !r.Failed?
      ensures r.Done? ==> Residue(vol.dir, pub, Sealed(Before)) && Witness in vol.dir.files && vol.dir.slots == map[]
      ensures r.Done? ==> vol.dir.files == old(vol.dir).files[Authority(token) := authority][Witness := authority]
      ensures r.Crashed? ==> vol.power == 0 && Recoverable(vol.dir, pub, Old)
      ensures r.Done? ==> old(vol.power) <= vol.power + 3
      ensures r.Crashed? ==> old(vol.power) < 3
      ensures r.Crashed? ==> vol.dir.slots == map[]
    {
      var bytes: seq<Byte> := *;
      r := vol.CreateFile(Authority(token), authority, File(authority.id, Archive(bytes)));
      if !r.Done? {
        assert Residue(vol.dir, pub, Idle(Old)) || Residue(vol.dir, pub, Torn);
        return;
      }
      if ReadWitness(At(vol.dir.files, Authority(token))).None? { return Failed; }
      r := vol.Link(Authority(token), Witness);
      if !r.Done? { assert Residue(vol.dir, pub, Sealed(Before)); }
    }

    /** publishArchiveOutput: quarantine the prior output, check it, check the
        stage, rename it, check the retired output. A failure leaves the output
        exactly where the failing check finds it. */
    method PublishOutput(fault: Fault, ghost pub: Pub)
      returns (r: Status, slot: Option<nat>, ambiguous: bool, ghost at: Position)
      requires PubOk(pub, digest) && Placed(vol.dir, pub, Before, None) && !renamed
      modifies vol, this`renamed
      ensures !r.Crashed? ==> Placed(vol.dir, pub, at, slot) && (renamed <==> at.After?)
      ensures !r.Crashed? ==> (r.Failed? <==> StopsAt(fault, pub.prior.Some?, Fits()).Some?)
      ensures r.Failed? ==> StopsAt(fault, pub.prior.Some?, Fits()) == Some(at) && (at.Before? || slot.Some?)
      ensures r.Done? ==> at.After? && slot.Some? == pub.prior.Some?
      ensures r.Failed? ==> (ambiguous <==> fault.RenameRefused? && (pub.prior.None? || Fits()))
      ensures r.Crashed? ==> vol.power == 0 && !renamed && Recoverable(vol.dir, pub, Old)
      ensures !r.Crashed? ==> old(vol.power) <= vol.power + 4
      ensures r.Crashed? ==> old(vol.power) < 4
      ensures r.Crashed? ==> |vol.dir.slots| <= 1
    {
      slot, ambiguous, at := None, false, Before;
      if Output in vol.dir.files {
        r, slot := ParkPrior(pub);
        if !r.Done? { return; }
        at := Parked;
        if fault.PriorCheck? { return Failed, slot, false, at; }
      }
      if fault.StageCheck? || fault.RenameRefused? {
        r := PutBack(slot, pub, at);
        return r, None, fault.RenameRefused?, Before;
      }
      r := RenameStage(slot, pub, at);
      if !r.Done? { return; }
      at := After;
      if slot.Some? && fault.RetiredCheck? { r := Failed; }
    }

    /** A failed stage check or rename: the prior output goes back to its name. */
    method PutBack(slot: Option<nat>, ghost pub: Pub, ghost at: Position) returns (r: Status)
      requires PubOk(pub, digest) && Placed(vol.dir, pub, at, slot) && at == if slot.Some? then Parked else Before
      modifies vol
      ensures !r.Done?
      ensures r.Failed? ==> Placed(vol.dir, pub, Before, None) && old(vol.power) <= vol.power + 2
      ensures r.Crashed? ==> vol.power == 0 && Recoverable(vol.dir, pub, Old) && old(vol.power) < 2 && |vol.dir.slots| <= 1
    {
      r := Failed;
      if slot.Some? {
        r := UnparkPrior(slot.value, pub);
        if r.Done? { r := Failed; }
      }
    }

    predicate Fits() {
      QuarantineNameFits(23, |outputName|)
    }

    method ParkPrior(ghost pub: Pub) returns (r: Status, slot: Option<nat>)
      requires PubOk(pub, digest) && Placed(vol.dir, pub, Before, None) && Output in vol.dir.files
      modifies vol
      ensures r.Failed? <==> !Fits()
      ensures r.Failed? ==> vol.dir == old(vol.dir) && vol.power == old(vol.power) && slot.None?
      ensures r.Done? ==> slot.Some? && Placed(vol.dir, pub, Parked, slot)
      ensures r.Crashed? ==> vol.power == 0 && Recoverable(vol.dir, pub, Old)
      ensures r.Done? ==> old(vol.power) <= vol.power + 2
      ensures r.Crashed? ==> old(vol.power) < 2
      ensures r.Crashed? ==> |vol.dir.slots| <= 1
    {
      slot := None;
      ghost var d0 := vol.dir;
      assert |d0.slots| == 0;
      var k;
      r, k := vol.Quarantine(Output, OutputSlot, Fits());
      PriorParked(d0, pub, k);
      if r.Done? { slot := Some(k); }
    }

    method UnparkPrior(k: nat, ghost pub: Pub) returns (r: Status)
      requires PubOk(pub, digest) && Placed(vol.dir, pub, Parked, Some(k))
      modifies vol
      ensures !r.Failed?
      ensures r.Done? ==> Placed(vol.dir, pub, Before, None)
      ensures r.Crashed? ==> vol.power == 0 && Recoverable(vol.dir, pub, Old)
      ensures r.Done? ==> old(vol.power) <= vol.power + 2
      ensures r.Crashed? ==> old(vol.power) < 2
      ensures r.Crashed? ==> |vol.dir.slots| <= 1
    {
      PriorRestored(vol.dir, pub, k);
      r := vol.RestoreQuarantined(k);
      if r.Done? { assert vol.dir.slots == map[]; }
    }

    method RenameStage(slot: Option<nat>, ghost pub: Pub, ghost at: Position) returns (r: Status)
      requires PubOk(pub, digest) && Placed(vol.dir, pub, at, slot) && !renamed && Output !in vol.dir.files
      requires at == (if slot.Some? then Parked else Before)
      modifies vol, this`renamed
      ensures !r.Failed?
      ensures r.Done? ==> renamed && Placed(vol.dir, pub, After, slot)
      ensures r.Crashed? ==> !renamed && vol.power == 0 && Recoverable(vol.dir, pub, Old)
      ensures r.Done? ==> old(vol.power) <= vol.power + 1
      ensures r.Crashed? ==> old(vol.power) < 1
      ensures vol.dir.slots == old(vol.dir).slots
    {
      ghost var d0 := vol.dir;
      StagePublished(d0, pub, at);
      r := vol.RenameNoReplace(Stage, Output);
      if r.Done? {
        renamed := true;
      } else {
        assert Residue(vol.dir, pub, Sealed(at));
      }
    }

    /** A process that gives up removes its stage, then its witness, wherever the
        output is. Only from an untouched output is that a clean way back. */
    method GiveUp(token: nat, ghost pub: Pub, ghost at: Position, ghost slot: Option<nat>) returns (r: Status, ghost now: Choice)
      requires PubOk(pub, digest) && Placed(vol.dir, pub, at, slot) && token == pub.token
      requires at.Before? || (slot.Some? && (at.Parked? || at.After?))
      modifies vol
      ensures !r.Failed?
      ensures Recoverable(vol.dir, pub, now) && (Replaces(now) <==> at.After?)
      ensures r.Done? && at.Before? ==> vol.dir == Dir(Final(pub, Old), map[])
      ensures r.Done? && !at.Before? ==> Residue(vol.dir, pub, Orphan(at.After?))
      ensures r.Crashed? ==> vol.power == 0
      ensures r.Crashed? ==> old(vol.power) < 12
      ensures |vol.dir.slots| <= |old(vol.dir).slots| + 1
    {
      ghost var d0, gone := vol.dir, if at.After? then After else if at.Parked? then Deserted else Stranded;
      StageGivenUp(d0, pub, at, gone);
      r := CleanupIfPresent(Stage);
      if r.Crashed? {
        DiscardKeeps(d0, vol.dir, pub, Stage, Sealed(at), Sealed(gone));
        now := if Recoverable(vol.dir, pub, ChoiceOf(Sealed(at))) then ChoiceOf(Sealed(at)) else ChoiceOf(Sealed(gone));
        return;
      }
      r, now := GiveUpWitness(token, pub, at, gone, slot);
    }

    method GiveUpWitness(token: nat, ghost pub: Pub, ghost at: Position, ghost gone: Position, ghost slot: Option<nat>)
      returns (r: Status, ghost now: Choice)
      requires PubOk(pub, digest) && Residue(vol.dir, pub, Sealed(gone)) && Witness in vol.dir.files && Stage !in vol.dir.files && token == pub.token
      requires gone == if at.After? then After else if at.Parked? then Deserted else Stranded
      requires slot.None? ==> at.Before? && vol.dir.slots == map[]
      requires slot.Some? ==> !at.Before? && pub.prior.Some? && vol.dir.slots == map[slot.value := Slot(OutputSlot, Output, pub.prior)]
      modifies vol
      ensures !r.Failed?
      ensures Recoverable(vol.dir, pub, now) && (Replaces(now) <==> at.After?)
      ensures r.Done? && at.Before? ==> vol.dir == Dir(Final(pub, Old), map[])
      ensures r.Done? && !at.Before? ==> Residue(vol.dir, pub, Orphan(at.After?))
      ensures r.Crashed? ==> vol.power == 0
      ensures r.Crashed? ==> old(vol.power) < 8
      ensures |vol.dir.slots| <= |old(vol.dir).slots| + 1
    {
      ghost var d1 := vol.dir;
      if slot.Some? { assert slot.value in d1.slots && !SlotEmpty(d1); }
      r := CleanupWitness(pub, gone, token);
      if r.Crashed? {
        now := if Recoverable(vol.dir, pub, ChoiceOf(Sealed(gone))) then ChoiceOf(Sealed(gone)) else ChoiceOf(Unsealed(d1, gone));
        return;
      }
      now := ChoiceOf(Unsealed(d1, gone));
      if at.Before? { BareIsFinal(vol.dir, pub, digest, Undone); }
    }

    /** After the rename: retire the prior output, then the witness. */
    method Retire(slot: Option<nat>, token: nat, ghost pub: Pub) returns (r: Status)
      requires PubOk(pub, digest) && Placed(vol.dir, pub, After, slot) && token == pub.token
      modifies vol
      ensures !r.Failed?
      ensures r.Done? ==> vol.dir == Dir(Final(pub, New), map[])
      ensures r.Crashed? ==> vol.power == 0 && Recoverable(vol.dir, pub, New)
      ensures r.Done? ==> old(vol.power) <= vol.power + 10
      ensures r.Crashed? ==> old(vol.power) < 10
      ensures |vol.dir.slots| <= 2
    {
      if slot.Some? {
        ghost var d0 := vol.dir;
        r := vol.RemoveQuarantined(slot.value);
        PriorRetired(d0, pub, slot.value);
        if !r.Done? {
          assert vol.dir == d0 ==> Residue(vol.dir, pub, Sealed(After));
          return;
        }
        assert vol.dir.slots == map[];
      }
      r := CleanupWitness(pub, After, token);
      if r.Done? { BareIsFinal(vol.dir, pub, digest, New); }
    }

    /** writeArchive, with any fault of the publishing process. It starts from any
        residue of an earlier publication. Done means exactly the new archive
        beside the untouched other files; anything else leaves a residue of the
        earlier or of this publication, which is decided as new exactly when the
        stage had been renamed to the output. */
    method WriteArchive(data: seq<Byte>, fault: Fault, ghost prev: Pub, ghost c: Choice)
      returns (r: Status, ghost pub: Pub, ghost now: Choice)
      requires PubOk(prev, digest) && Recoverable(vol.dir, prev, c)
      modifies vol, this`renamed
      ensures r.Done? ==> renamed && pub.staged.body == Archive(data) && pub.others == prev.others && vol.dir == Dir(Final(pub, New), map[])
      ensures !r.Done? ==> PubOk(pub, digest) && Recoverable(vol.dir, pub, now)
      ensures !r.Done? ==> (pub == prev && now == c && !renamed) || (Begun(pub, data, prev, c) && (Replaces(now) <==> renamed))
      ensures r.Failed? ==> (Refused(old(vol.dir), digest) && pub == prev && now == c)
                            || (Begun(pub, data, prev, c) && FailedAt(vol.dir, pub, fault, Fits()))
      ensures !r.Crashed? ==> (r.Done? <==> !Refused(old(vol.dir), digest) && FaultIdle(fault, Chosen(prev, c).Some?, Fits()))
      ensures !r.Crashed? ==> (renamed <==> !Refused(old(vol.dir), digest) && Reaches(fault, Chosen(prev, c).Some?, Fits()))
      ensures !r.Done? && (now.Undone? || now.Kept?) ==> c.Undone? || c.Kept? || !FaultIdle(fault, Chosen(prev, c).Some?, Fits())
      ensures r.Crashed? ==> vol.power == 0
      ensures r.Crashed? ==> old(vol.power) < 2 * |old(vol.dir).slots| + 40
      ensures !r.Done? ==> |vol.dir.slots| <= |old(vol.dir).slots| + 2
    {
      pub, now, renamed := prev, c, false;
      ghost var n := |vol.dir.slots|;
      r := Recover(prev, c);
      if !r.Done? { return; }
      assert n >= 0 && old(vol.power) <= vol.power + 2 * n + 19;
      r, pub, now := PublishClean(data, fault, prev, c);
    }

    /** The rest of writeArchive, on a recovered directory. */
    method PublishClean(data: seq<Byte>, fault: Fault, ghost prev: Pub, ghost c: Choice)
      returns (r: Status, ghost pub: Pub, ghost now: Choice)
      requires PubOk(prev, digest) && vol.dir == Dir(Final(prev, c), map[]) && !c.Kept? && !renamed
      modifies vol, this`renamed
      ensures r.Done? ==> renamed && Begun(pub, data, prev, c) && vol.dir == Dir(Final(pub, New), map[])
      ensures !r.Done? ==> PubOk(pub, digest) && Recoverable(vol.dir, pub, now)
      ensures !r.Done? ==> (pub == prev && now == c && !renamed && r.Crashed?) || (Begun(pub, data, prev, c) && (Replaces(now) <==> renamed))
      ensures r.Failed? ==> FailedAt(vol.dir, pub, fault, Fits())
      ensures !r.Crashed? ==> (r.Done? <==> FaultIdle(fault, Chosen(prev, c).Some?, Fits()))
      ensures !r.Crashed? ==> (renamed <==> Reaches(fault, Chosen(prev, c).Some?, Fits()))
      ensures !r.Done? && (now.Undone? || now.Kept?) ==> c.Undone? || !FaultIdle(fault, Chosen(prev, c).Some?, Fits())
      ensures r.Crashed? ==> vol.power == 0 && old(vol.power) < 21
      ensures |vol.dir.slots| <= 2
    {
      pub, now := prev, c;
      var stage;
      r, stage := CreateStage(data, prev, c);
      if !r.Done? { return; }
      var token: nat := *;
      var aid: nat := *;
      var authority := File(aid, Text(Record(token, stage.id, digest(stage.body))));
      pub := Pub(Chosen(prev, c), prev.others, stage, authority, token);
      now := Old;
      StageIdle(vol.dir, prev, pub, digest, c);
      r := WriteWitness(token, authority, pub);
      if !r.Done? { return; }
      r, now := PublishSealed(token, fault, pub);
    }

    /** From the sealed witness on: publish and retire, or stop at the fault. */
    method PublishSealed(token: nat, fault: Fault, ghost pub: Pub) returns (r: Status, ghost now: Choice)
      requires PubOk(pub, digest) && Placed(vol.dir, pub, Before, None) && token == pub.token && !renamed
      modifies vol, this`renamed
      ensures r.Done? ==> renamed && vol.dir == Dir(Final(pub, New), map[])
      ensures !r.Crashed? ==> (r.Done? <==> FaultIdle(fault, pub.prior.Some?, Fits()))
      ensures !r.Crashed? ==> (renamed <==> Reaches(fault, pub.prior.Some?, Fits()))
      ensures r.Failed? ==> FailedAt(vol.dir, pub, fault, Fits())
      ensures !r.Done? ==> Recoverable(vol.dir, pub, now) && (Replaces(now) <==> renamed)
      ensures !r.Done? && (now.Undone? || now.Kept?) ==> !FaultIdle(fault, pub.prior.Some?, Fits())
      ensures r.Crashed? ==> vol.power == 0
      ensures r.Crashed? ==> old(vol.power) < 16
      ensures |vol.dir.slots| <= 2
    {
      if fault.BeforePublication? {
        r, now := GiveUp(token, pub, Before, None);
        if r.Done? { r := Failed; }
        return;
      }
      ghost var at;
      var slot, ambiguous;
      r, slot, ambiguous, at := PublishOutput(fault, pub);
      now := Old;
      if r.Crashed? { return; }
      r, now := Conclusion(r, token, fault, slot, ambiguous, pub, at);
    }

    /** After publishArchiveOutput: retire, or give up, or preserve everything. */
    method Conclusion(published: Status, token: nat, fault: Fault, slot: Option<nat>, ambiguous: bool, ghost pub: Pub, ghost at: Position)
      returns (r: Status, ghost now: Choice)
      requires PubOk(pub, digest) && Placed(vol.dir, pub, at, slot) && token == pub.token && !published.Crashed? && !fault.BeforePublication?
      requires published.Failed? <==> StopsAt(fault, pub.prior.Some?, Fits()).Some?
      requires published.Failed? ==> StopsAt(fault, pub.prior.Some?, Fits()) == Some(at) && (at.Before? || slot.Some?)
      requires published.Done? ==> at.After?
      requires published.Failed? ==> (ambiguous <==> fault.RenameRefused? && (pub.prior.None? || Fits()))
      modifies vol
      ensures r.Done? ==> vol.dir == Dir(Final(pub, New), map[])
      ensures !r.Crashed? ==> (r.Done? <==> published.Done? && !fault.OutputCheck?)
      ensures r.Failed? ==> FailedAt(vol.dir, pub, fault, Fits())
      ensures !r.Done? ==> Recoverable(vol.dir, pub, now) && (Replaces(now) <==> at.After?)
      ensures !r.Done? && (now.Undone? || now.Kept?) ==> published.Failed?
      ensures r.Crashed? ==> vol.power == 0 && old(vol.power) < 12
      ensures |vol.dir.slots| <= 2
    {
      now := ChoiceOf(Sealed(at));
      r := published;
      if published.Done? {
        if fault.OutputCheck? { return Failed, now; }
        r := Retire(slot, token, pub);
        return;
      }
      if ambiguous { return; }
      r, now := GiveUp(token, pub, at, slot);
      if r.Done? { r := Failed; }
    }

    method CreateStage(data: seq<Byte>, ghost prev: Pub, ghost c: Choice) returns (r: Status, stage: File)
      requires PubOk(prev, digest) && vol.dir == Dir(Final(prev, c), map[]) && !c.Kept?
      modifies vol
      ensures !r.Failed?
      ensures r.Done? ==> stage.body == Archive(data) && vol.dir == Dir(Final(prev, c)[Stage := stage], map[])
      ensures r.Done? && Chosen(prev, c).Some? ==> Chosen(prev, c).value.id != stage.id
      ensures r.Crashed? ==> vol.power == 0 && Recoverable(vol.dir, prev, c)
      ensures r.Done? ==> old(vol.power) <= vol.power + 2
      ensures r.Crashed? ==> old(vol.power) < 2
      ensures r.Crashed? ==> vol.dir.slots == map[]
    {
      FreshIdExists(vol.dir.files);
      var id: nat :| UnusedId(vol.dir.files, id);
      var bytes: seq<Byte> := *;
      stage := File(id, Archive(data));
      StageBegun(vol.dir, prev, digest, c, File(id, Archive(bytes)));
      r := vol.CreateFile(Stage, stage, File(id, Archive(bytes)));
    }
  }

  /** An interrupted deletion shows the file or does not; its slot is inert. */
  lemma DiscardKeeps(d0: ReleaseDir, d: ReleaseDir, pub: Pub, x: Name, st: Station, gone: Station)
    requires Residue(d0, pub, st) && x in d0.files && Deletable(x)
    requires Residue(Dir(d0.files - {x}, d0.slots), pub, gone)
    requires Discarding(d0, d, DeleteSlot, x)
    ensures Either(d, pub, st, gone)
  {
    if d == d0 {
      assert Residue(d, pub, st);
    } else {
      var k: nat :| k !in d0.slots && DiscardingAt(d0, d, DeleteSlot, x, k);
      if x in d.files {
        InertResidue(d0, d, pub, st, k);
      } else {
        InertResidue(Dir(d0.files - {x}, d0.slots), d, pub, gone, k);
      }
    }
  }

  lemma InertResidue(d0: ReleaseDir, d: ReleaseDir, pub: Pub, st: Station, k: nat)
    requires Residue(d0, pub, st) && k !in d0.slots && k in d.slots && d == Dir(d0.files, d0.slots[k := d.slots[k]])
    requires d.slots[k].kind.DeleteSlot? && Deletable(d.slots[k].source)
    ensures Recoverable(d, pub, ChoiceOf(st))
  {
    SlotInert(d0, pub, st, k, d.slots[k]);
  }

  lemma SlotInert(d: ReleaseDir, pub: Pub, st: Station, k: nat, s: Slot<SlotKind, Name, File>)
    requires Residue(d, pub, st) && k !in d.slots && s.kind.DeleteSlot? && Deletable(s.source)
    ensures Residue(Dir(d.files, d.slots[k := s]), pub, st)
  {
    var e := Dir(d.files, d.slots[k := s]);
    if SlotHoldsPrior(d, pub) {
      var j :| j in d.slots && d.slots[j].kind.OutputSlot? && d.slots[j].held.Some? && d.slots[j].held == pub.prior;
      assert e.slots[j] == d.slots[j];
    }
  }

  lemma EmptySlotDropped(d: ReleaseDir, pub: Pub, st: Station, k: nat)
    requires Residue(d, pub, st) && k in d.slots && d.slots[k].kind.OutputSlot? && d.slots[k].held.None?
    ensures Residue(SlotDropped(d, k), pub, st) && NoOutputSlot(SlotDropped(d, k)) && Recoverable(d, pub, ChoiceOf(st))
  {
    assert !SlotHoldsPrior(d, pub);
  }

  /** The prior output goes back while the stage still exists: old. */
  lemma PriorRestored(d: ReleaseDir, pub: Pub, k: nat)
    requires Residue(d, pub, Sealed(Parked)) && k in d.slots && d.slots[k].kind.OutputSlot? && d.slots[k].held.Some?
    ensures Residue(SlotRestored(d, k), pub, Sealed(Before)) && Recoverable(SlotRestored(d, k), pub, Old) && Recoverable(d, pub, Old)
    ensures Output !in d.files && d.slots[k].source == Output
    ensures Residue(SlotDropped(SlotRestored(d, k), k), pub, Sealed(Before)) && NoOutputSlot(SlotDropped(SlotRestored(d, k), k))
    ensures SlotEmpty(SlotDropped(SlotRestored(d, k), k))
  {
    var j :| j in d.slots && d.slots[j].kind.OutputSlot? && d.slots[j].held.Some? && d.slots[j].held == pub.prior;
    assert j == k;
    assert Residue(SlotRestored(d, k), pub, Sealed(Before));
  }

  /** The prior output is destroyed beside the matching live output: new. */
  lemma PriorRetired(d: ReleaseDir, pub: Pub, k: nat)
    requires Residue(d, pub, Sealed(After)) && k in d.slots && d.slots[k].kind.OutputSlot? && d.slots[k].held.Some?
    ensures Residue(SlotErased(d, k), pub, Sealed(After)) && Recoverable(SlotErased(d, k), pub, New)
    ensures Residue(SlotDropped(d, k), pub, Sealed(After)) && NoOutputSlot(SlotDropped(d, k))
  {
    assert Residue(SlotErased(d, k), pub, Sealed(After));
  }

  lemma DeleteSlotGone(d: ReleaseDir, pub: Pub, c: Choice, k: nat)
    requires Residue(d, pub, Idle(c)) && NoOutputSlot(d) && k in d.slots
    ensures Residue(d, pub, Idle(c)) && Recoverable(d, pub, c)
    ensures Residue(SlotErased(d, k), pub, Idle(c)) && Recoverable(SlotErased(d, k), pub, c)
    ensures Residue(SlotDropped(d, k), pub, Idle(c)) && NoOutputSlot(SlotDropped(d, k))
  {
    assert Residue(SlotErased(d, k), pub, Idle(c));
  }

  lemma PriorParked(d: ReleaseDir, pub: Pub, k: nat)
    requires Residue(d, pub, Sealed(Before)) && d.slots == map[] && Output in d.files
    ensures Recoverable(d, pub, Old)
    ensures Recoverable(SlotMade(d, k, OutputSlot, Output), pub, Old)
    ensures Witness in d.files ==> Placed(SlotFilled(SlotMade(d, k, OutputSlot, Output), k), pub, Parked, Some(k))
  {
    var e := SlotMade(d, k, OutputSlot, Output);
    assert Residue(d, pub, Sealed(Before));
    assert Residue(e, pub, Sealed(Before));
    var f := SlotFilled(e, k);
    assert f.slots[k].held == pub.prior;
    assert f.slots == map[k := Slot(OutputSlot, Output, pub.prior)];
  }

  lemma StagePublished(d: ReleaseDir, pub: Pub, at: Position)
    requires Residue(d, pub, Sealed(at)) && (at.Before? || at.Parked?) && Output !in d.files
    ensures Residue(Renamed(d, Stage, Output), pub, Sealed(After))
  {
    if SlotHoldsPrior(d, pub) { assert SlotHoldsPrior(Renamed(d, Stage, Output), pub); }
  }

  predicate UnusedId(f: Files, id: nat) {
    forall x :: x in f ==> f[x].id != id
  }

  lemma FreshIdExists(f: Files)
    ensures exists id: nat :: UnusedId(f, id)
  {
    var ids := set x | x in f :: f[x].id;
    var n := UpperBound(ids);
    assert forall x :: x in f ==> f[x].id in ids;
    assert UnusedId(f, n);
  }

  // --------------------------------------------------------------- whole runs

  /** Only the output differs from base, and it is the new archive. */
  ghost predicate Replaced(d: ReleaseDir, base: Files, data: seq<Byte>) {
    && d.slots == map[] && Output in d.files
    && d.files[Output].body == Archive(data)
    && d.files - {Output} == base - {Output}
  }

  /** One publication that may fail anywhere and die at any step, then recoveries
      that may die at any step of theirs. Once something completes, the output is
      exactly the new archive if the stage had been renamed, and exactly the old
      output (or still absent) if not; the other files are the very same and no
      stage, witness, authority or quarantine is left. A publication with power for
      forty steps renames its stage exactly when its fault does not stop it first,
      and completes when its fault has no occasion to strike. What it leaves when
      it does not die is completed by one recovery that does not die, unless its
      fault struck on the quarantined output; what never completes has died every
      time, each time on too little power, or is refused, and without a fault
      nothing is refused. */
  method Run(p: Publisher, data: seq<Byte>, fault: Fault, powers: seq<nat>, ghost base: Files) returns (finished: bool)
    requires p.vol.dir == Dir(base, map[]) && (forall x :: x in base ==> x.Output? || x.Other?)
    modifies p, p.vol
    ensures finished && !p.renamed ==> p.vol.dir == Dir(base, map[])
    ensures finished && p.renamed ==> Replaced(p.vol.dir, base, data)
    ensures old(p.vol.power) >= 40 ==> (p.renamed <==> Reaches(fault, Output in base, p.Fits()))
    ensures old(p.vol.power) >= 40 && FaultIdle(fault, Output in base, p.Fits()) ==> finished
    ensures !finished && powers != [] ==> p.vol.power == 0 || Refused(p.vol.dir, p.digest)
    ensures !finished && powers != [] && FaultIdle(fault, Output in base, p.Fits()) ==> p.vol.power == 0
    ensures !finished && FaultIdle(fault, Output in base, p.Fits()) ==> Starved(powers, |powers|, 2)
    ensures old(p.vol.power) >= 40 && powers != [] && powers[0] >= 23 && !Strands(fault, Output in base, p.Fits()) ==> finished
  {
    ghost var none := NoPublication(base, p.digest);
    ghost var pub, c;
    var r;
    r, pub, c := p.WriteArchive(data, fault, none, Old);
    FinalOutcome(pub, base, data, if r.Done? then New else c);
    finished := r.Done?;
    if !finished {
      if r.Failed? { FailedRefused(p.vol.dir, pub, p.digest, fault, p.Fits()); }
      finished := RunRecoveries(p, powers, 2, pub, c);
    }
  }

  /** Each of these recoveries is given less than it can need, with so many slots
      at the start and one more after each death. */
  predicate Starved(powers: seq<nat>, n: nat, slots: nat)
    requires n <= |powers|
  {
    n == 0 || (powers[n - 1] < 2 * (slots + n - 1) + 19 && Starved(powers, n - 1, slots))
  }

  /** A directory without reserved names, as the residue of nothing. */
  lemma NoPublication(base: Files, h: Body -> Digest) returns (none: Pub)
    requires forall x :: x in base ==> x.Output? || x.Other?
    ensures PubOk(none, h) && Recoverable(Dir(base, map[]), none, Old)
    ensures none.prior == At(base, Output) && none.others == base - {Output} && !Refused(Dir(base, map[]), h)
  {
    var stage := if Output in base then File(base[Output].id + 1, Archive([])) else File(0, Archive([]));
    none := Pub(At(base, Output), base - {Output}, stage, File(0, Text(Record(0, stage.id, h(stage.body)))), 0);
    assert Final(none, Old) == base;
    assert Residue(Dir(base, map[]), none, Idle(Old));
  }

  lemma FinalOutcome(pub: Pub, base: Files, data: seq<Byte>, c: Choice)
    ensures !Replaces(c) && pub.prior == At(base, Output) && pub.others == base - {Output} ==> Final(pub, c) == base
    ensures Replaces(c) && pub.others == base - {Output} && pub.staged.body == Archive(data) ==> Replaced(Dir(Final(pub, c), map[]), base, data)
  {
  }

  method RunRecoveries(p: Publisher, powers: seq<nat>, ghost n: nat, ghost pub: Pub, ghost c: Choice) returns (finished: bool)
    requires PubOk(pub, p.digest) && Recoverable(p.vol.dir, pub, c) && |p.vol.dir.slots| <= n
    modifies p.vol
    ensures finished ==> p.vol.dir == Dir(Final(pub, c), map[])
    ensures !finished ==> Recoverable(p.vol.dir, pub, c)
    ensures !finished && powers != [] ==> p.vol.power == 0 || (Refused(p.vol.dir, p.digest) && (c.Undone? || c.Kept?))
    ensures !finished ==> Starved(powers, |powers|, n) || c.Undone? || c.Kept?
    ensures powers != [] && powers[0] >= 2 * n + 19 && !Refused(old(p.vol.dir), p.digest) ==> finished
  {
    finished := false;
    for i := 0 to |powers|
      invariant !finished && Recoverable(p.vol.dir, pub, c) && |p.vol.dir.slots| <= n + i
      invariant Starved(powers, i, n) || c.Undone? || c.Kept?
      invariant i == 0 ==> p.vol.dir == old(p.vol.dir)
      invariant i > 0 ==> powers[0] < 2 * n + 19 || Refused(old(p.vol.dir), p.digest)
      invariant i > 0 ==> p.vol.power == 0 || (Refused(p.vol.dir, p.digest) && (c.Undone? || c.Kept?))
    {
      ghost var m := |p.vol.dir.slots|;
      finished := RunRecovery(p, powers[i], pub, c);
      if finished { return; }
      assert powers[i] < 2 * m + 19 || c.Undone? || c.Kept?;
    }
  }

  method RunRecovery(p: Publisher, power: nat, ghost pub: Pub, ghost c: Choice) returns (finished: bool)
    requires PubOk(pub, p.digest) && Recoverable(p.vol.dir, pub, c)
    modifies p.vol
    ensures finished ==> p.vol.dir == Dir(Final(pub, c), map[])
    ensures !finished ==> Recoverable(p.vol.dir, pub, c) && |p.vol.dir.slots| <= |old(p.vol.dir).slots| + 1
    ensures !finished ==> p.vol.power == 0 || (Refused(p.vol.dir, p.digest) && (c.Undone? || c.Kept?))
    ensures !finished && power >= 2 * |old(p.vol.dir).slots| + 19 ==> Refused(old(p.vol.dir), p.digest) && (c.Undone? || c.Kept?)
  {
    p.vol.power := power;
    var r := p.Recover(pub, c);
    finished := r.Done?;
  }
}
