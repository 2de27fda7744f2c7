/** The artifact directory as recovery sees it: files under classified names and
    quarantine slots of three kinds. A journal is an ordinary file whose body is
    journal text. */
module ArtifactDirectory {
  import opened ArtifactNames
  import opened Basics
  import opened AtomicFiles

  datatype Phase = Prepared | Committed

  type Digest = int

  datatype Item = Item(
    target: string, temp: nat, backup: nat,
    hadOld: bool, oldHash: Option<Digest>, oldId: Option<nat>,
    newHash: Digest, newId: nat, delete: bool)

  datatype Journal = Journal(phase: Phase, items: seq<Item>)

  type Byte = b: int | 0 <= b < 256

  datatype Body = Bytes(data: seq<Byte>) | Text(journal: Journal)

  /** A directory entry: native identity and content. */
  datatype File = File(id: nat, body: Body)

  /** A base name, classified by its prefix. NewTemp(n) and OldBackup(n) share
      the nonce n because a backup name is derived from its temp name. */
  datatype Name =
    | User(s: string)
    | NewTemp(n: nat)
    | OldBackup(n: nat)
    | JournalStage(n: nat)
    | LiveJournal
    | RecoveryJournal
    | RetiredJournal
    | Unrecognized(s: string)

  datatype SlotKind = UpdateSlot | JournalSlot | ObjectSlot

  type Files = map<Name, File>

  type ArtifactSlot = Slot<SlotKind, Name, File>

  type ArtifactDir = Directory<SlotKind, Name, File>

  function NameLength(x: Name): (n: nat) {
    match x
    case User(s) => |s|
    case NewTemp(_) => 56
    case OldBackup(_) => 56
    case JournalStage(_) => 66
    case LiveJournal => 31
    case RecoveryJournal => 32
    case RetiredJournal => 31
    case Unrecognized(s) => |s|
  }

  function PrefixLength(kind: SlotKind): (n: nat) {
    match kind
    case UpdateSlot => 46
    case JournalSlot => 39
    case ObjectSlot => OBJECT_PREFIX_LENGTH
  }

  predicate Quarantinable(kind: SlotKind, source: Name) {
    QuarantineNameFits(PrefixLength(kind), NameLength(source))
  }

  // --------------------------------------------------------- inventory

  datatype Inventory = Inventory(
    journal: bool, recovery: bool, retired: bool,
    stages: set<Name>, temps: set<Name>, backups: set<Name>,
    journalUpdates: set<nat>, journalQuarantines: set<nat>, objectQuarantines: set<nat>)

  /** What txInspect finds; an unknown reserved name is an error. */
  function Inspect(d: ArtifactDir): (r: Option<Inventory>)
  {
    if exists x :: x in d.files && x.Unrecognized? then None
    else Some(Inventory(
      LiveJournal in d.files, RecoveryJournal in d.files, RetiredJournal in d.files,
      set x | x in d.files && x.JournalStage?,
      set x | x in d.files && x.NewTemp?,
      set x | x in d.files && x.OldBackup?,
      set k | k in d.slots && d.slots[k].kind.UpdateSlot?,
      set k | k in d.slots && d.slots[k].kind.JournalSlot?,
      set k | k in d.slots && d.slots[k].kind.ObjectSlot?))
  }

  // --------------------------------------------------------- freshness

  /** No file of the directory has this identity. */
  ghost predicate Stranger(f: Files, file: File) {
    forall x :: x in f ==> f[x].id != file.id
  }

  predicate UnusedId(f: Files, id: nat) {
    forall x :: x in f ==> f[x].id != id
  }

  lemma FreshIdExists(f: Files)
    ensures exists id: nat :: UnusedId(f, id)
  {
    var used := set x | x in f :: f[x].id;
    var id := UpperBound(used);
    forall x | x in f ensures f[x].id != id { assert f[x].id in used; }
    assert UnusedId(f, id);
  }

  lemma {:induction false} FreshNonceExists(names: set<Name>)
    ensures exists n: nat :: NewTemp(n) !in names && OldBackup(n) !in names && JournalStage(n) !in names
  {
    var used := (set x | x in names && (x.NewTemp? || x.OldBackup? || x.JournalStage?) :: x.n);
    var n := UpperBound(used);
    forall x | x in names && (x.NewTemp? || x.OldBackup? || x.JournalStage?) ensures x.n < n {
      assert x.n in used;
    }
    assert NewTemp(n) !in names && OldBackup(n) !in names && JournalStage(n) !in names;
  }
}
