/** The journal validator, the legal physical states of one item and the
    identity witness, as pure checks. */
module ArtifactJournal {
  import opened Basics
  import opened NameOrder
  import opened AtomicFiles
  import opened ArtifactNames
  import opened ArtifactDirectory
  import opened ArtifactResidue

  predicate ItemValid(it: Item, h: Body -> Digest) {
    && ValidTarget(it.target)
    && it.backup == it.temp
    && it.hadOld == it.oldHash.Some?
    && it.hadOld == it.oldId.Some?
    && (it.delete ==> it.hadOld && it.newHash == h(Bytes([])))
  }

  predicate ValidItems(items: seq<Item>, n: nat, h: Body -> Digest)
    requires n <= |items|
  {
    && (forall i :: 0 <= i < n ==> ItemValid(items[i], h))
    && (forall i, k :: 0 <= i < k < n ==> Apart(items[i], items[k]))
  }

  /** Sorted targets that do not alias, and nonces of their own. */
  predicate Apart(a: Item, b: Item) {
    Less(a.target, b.target) && Lower(a.target) != Lower(b.target) && a.temp != b.temp
  }

  /** What txDecode demands of a journal it reads. */
  predicate ValidJournal(j: Journal, h: Body -> Digest) {
    0 < |j.items| <= MAX_ITEMS && ValidItems(j.items, |j.items|, h)
  }

  /** The case-folded names of an item; nonces are lower-case already. */
  function FoldedNames(it: Item): set<Name> {
    {User(Lower(it.target)), NewTemp(it.temp), OldBackup(it.backup)}
  }

  ghost function SeenNames(items: seq<Item>, n: nat): set<Name>
    requires n <= |items|
  {
    if n == 0 then {} else SeenNames(items, n - 1) + FoldedNames(items[n - 1])
  }

  ghost predicate Extends(items: seq<Item>, n: nat, h: Body -> Digest)
    requires n < |items|
  {
    && ItemValid(items[n], h)
    && (n > 0 ==> Less(items[n - 1].target, items[n].target))
    && FoldedNames(items[n]) !! SeenNames(items, n)
  }

  ghost predicate Stepwise(items: seq<Item>, n: nat, h: Body -> Digest)
    requires n <= |items|
  {
    n > 0 ==> Stepwise(items, n - 1, h) && Extends(items, n - 1, h)
  }

  lemma {:induction false} StepwiseDown(items: seq<Item>, i: nat, n: nat, h: Body -> Digest)
    requires i < n <= |items| && Stepwise(items, n, h)
    ensures Extends(items, i, h)
  {
    if i < n - 1 { StepwiseDown(items, i, n - 1, h); }
  }

  /** One pass over the items with the previous target and the names seen so
      far decides the pairwise conditions. */
  method TxValidateJournal(j: Journal, h: Body -> Digest) returns (ok: bool)
    ensures ok <==> ValidJournal(j, h)
  {
    if |j.items| == 0 || |j.items| > MAX_ITEMS { return false; }
    PairwiseIsStepwise(j.items, |j.items|, h);
    var seen: set<Name> := {};
    var prior := "";
    for i := 0 to |j.items|
      invariant i > 0 ==> prior == j.items[i - 1].target
      invariant seen == SeenNames(j.items, i)
      invariant Stepwise(j.items, i, h)
    {
      var it := j.items[i];
      if !ItemValid(it, h) || (i > 0 && !Less(prior, it.target)) || exists x :: x in FoldedNames(it) && x in seen {
        if Stepwise(j.items, |j.items|, h) { StepwiseDown(j.items, i, |j.items|, h); }
        return false;
      }
      seen := seen + FoldedNames(it);
      prior := it.target;
    }
    ok := true;
  }

  lemma {:induction false} SeenNamesMember(items: seq<Item>, n: nat, x: Name)
    requires n <= |items|
    ensures x in SeenNames(items, n) <==> exists k :: 0 <= k < n && x in FoldedNames(items[k])
  {
    if n > 0 { SeenNamesMember(items, n - 1, x); }
  }

  lemma {:induction false} PairwiseIsStepwise(items: seq<Item>, n: nat, h: Body -> Digest)
    requires n <= |items|
    ensures ValidItems(items, n, h) <==> Stepwise(items, n, h)
  {
    if n > 0 {
      PairwiseIsStepwise(items, n - 1, h);
      StepwiseExtension(items, n - 1, h);
    }
  }

  lemma StepwiseExtension(items: seq<Item>, m: nat, h: Body -> Digest)
    requires m < |items|
    ensures ValidItems(items, m + 1, h) <==> ValidItems(items, m, h) && Extends(items, m, h)
  {
    if ValidItems(items, m, h) && Extends(items, m, h) { ExtensionValid(items, m, h); }
    if ValidItems(items, m + 1, h) { ApartExtension(items, m, h); }
  }

  lemma ExtensionValid(items: seq<Item>, m: nat, h: Body -> Digest)
    requires m < |items| && ValidItems(items, m, h) && Extends(items, m, h)
    ensures ValidItems(items, m + 1, h)
  {
    LastApart(items, m, h);
    forall i, k | 0 <= i < k < m + 1 ensures Apart(items[i], items[k]) {}
  }

  lemma LastApart(items: seq<Item>, m: nat, h: Body -> Digest)
    requires m < |items| && ValidItems(items, m, h) && Extends(items, m, h)
    ensures forall k :: 0 <= k < m ==> Apart(items[k], items[m])
  {
    forall k | 0 <= k < m ensures Apart(items[k], items[m]) { ExtensionApart(items, m, h, k); }
  }

  lemma ExtensionApart(items: seq<Item>, m: nat, h: Body -> Digest, k: nat)
    requires k < m < |items| && Extends(items, m, h)
    requires forall j :: 0 <= j < m - 1 ==> Apart(items[j], items[m - 1])
    ensures Apart(items[k], items[m])
  {
    if k < m - 1 { LessTransitive(items[k].target, items[m - 1].target, items[m].target); }
    SeenNamesMember(items, m, User(Lower(items[k].target)));
    SeenNamesMember(items, m, NewTemp(items[k].temp));
    assert User(Lower(items[k].target)) in FoldedNames(items[k]);
    assert NewTemp(items[k].temp) in FoldedNames(items[k]);
  }

  lemma ApartExtension(items: seq<Item>, m: nat, h: Body -> Digest)
    requires m < |items| && ValidItems(items, m + 1, h)
    ensures ValidItems(items, m, h) && Extends(items, m, h)
  {
    forall x | x in FoldedNames(items[m]) ensures x !in SeenNames(items, m) {
      SeenNamesMember(items, m, x);
    }
  }

  /** Journals of well-formed transactions always pass the validator. */
  lemma WellFormedJournalValid(tx: Tx, h: Body -> Digest, p: Phase)
    requires WellFormed(tx, h) && tx.items != []
    ensures ValidJournal(Journal(p, tx.items), h)
  {
    forall i | 0 <= i < |tx.items| ensures ItemValid(tx.items[i], h) {
      assert ItemOk(tx, h, i);
    }
  }

  // ------------------------------------------- which journals staging can write

  ghost predicate Digests(h: Body -> Digest, d: Digest) {
    exists body :: h(body) == d
  }

  ghost function Preimage(h: Body -> Digest, d: Digest): (body: Body)
    requires Digests(h, d)
    ensures h(body) == d
  {
    var body :| h(body) == d;
    body
  }

  /** The recorded digests are digests, and no staged file has the identity of an
      old one. */
  ghost predicate Realizable(items: seq<Item>, h: Body -> Digest) {
    && (forall i :: 0 <= i < |items| ==> Digests(h, items[i].newHash))
    && (forall i :: 0 <= i < |items| && items[i].oldHash.Some? ==> Digests(h, items[i].oldHash.value))
    && (forall i, k :: 0 <= i < |items| && 0 <= k < |items| ==> items[k].oldId != Some(items[i].newId))
  }

  /** The old files that the first n items record. */
  ghost function OldFiles(items: seq<Item>, h: Body -> Digest, n: nat): Files
    requires n <= |items| && Realizable(items, h) && forall i :: 0 <= i < |items| ==> ItemValid(items[i], h)
  {
    if n == 0 then map[]
    else if !items[n - 1].hadOld then OldFiles(items, h, n - 1)
    else OldFiles(items, h, n - 1)[User(items[n - 1].target) := OldFileOf(items[n - 1], h)]
  }

  ghost function OldFileOf(it: Item, h: Body -> Digest): File
    requires it.oldId.Some? && it.oldHash.Some? && Digests(h, it.oldHash.value)
  {
    File(it.oldId.value, Preimage(h, it.oldHash.value))
  }

  lemma {:induction false} OldFileHeld(items: seq<Item>, h: Body -> Digest, n: nat, i: nat)
    requires i < n <= |items| && Realizable(items, h) && ValidItems(items, |items|, h) && items[i].hadOld
    ensures At(OldFiles(items, h, n), User(items[i].target)) == Some(OldFileOf(items[i], h))
  {
    if i < n - 1 {
      OldFileHeld(items, h, n - 1, i);
      assert Apart(items[i], items[n - 1]);
    }
  }

  lemma {:induction false} OldFileRecorded(items: seq<Item>, h: Body -> Digest, n: nat, x: Name)
    requires n <= |items| && Realizable(items, h) && ValidItems(items, |items|, h) && x in OldFiles(items, h, n)
    ensures exists i :: 0 <= i < n && items[i].hadOld && x == User(items[i].target)
  {
    if x in OldFiles(items, h, n - 1) { OldFileRecorded(items, h, n - 1, x); }
  }

  lemma OldFilesAt(items: seq<Item>, h: Body -> Digest)
    requires Realizable(items, h) && ValidItems(items, |items|, h)
    ensures forall i :: 0 <= i < |items| && items[i].hadOld ==> At(OldFiles(items, h, |items|), User(items[i].target)) == Some(OldFileOf(items[i], h))
    ensures forall x :: x in OldFiles(items, h, |items|) ==> exists i :: 0 <= i < |items| && items[i].hadOld && x == User(items[i].target)
  {
    forall i | 0 <= i < |items| && items[i].hadOld ensures At(OldFiles(items, h, |items|), User(items[i].target)) == Some(OldFileOf(items[i], h)) {
      OldFileHeld(items, h, |items|, i);
    }
    forall x | x in OldFiles(items, h, |items|) ensures exists i :: 0 <= i < |items| && items[i].hadOld && x == User(items[i].target) {
      OldFileRecorded(items, h, |items|, x);
    }
  }

  function StagedOf(it: Item, body: Body): File {
    File(it.newId, if it.delete then Bytes([]) else body)
  }

  ghost function Rebuilt(items: seq<Item>, h: Body -> Digest): Tx
    requires Realizable(items, h) && ValidItems(items, |items|, h)
  {
    Tx(OldFiles(items, h, |items|), items, seq(|items|, i requires 0 <= i < |items| => StagedOf(items[i], Preimage(h, items[i].newHash))))
  }

  lemma RebuiltItemOk(items: seq<Item>, h: Body -> Digest, i: nat)
    requires Realizable(items, h) && ValidItems(items, |items|, h) && i < |items|
    ensures ItemOk(Rebuilt(items, h), h, i)
  {
    var tx := Rebuilt(items, h);
    OldFilesAt(items, h);
    assert ItemValid(items[i], h);
    if User(items[i].target) in tx.base {
      var k :| 0 <= k < |items| && items[k].hadOld && User(items[i].target) == User(items[k].target);
      assert k < i ==> Apart(items[k], items[i]);
      assert i < k ==> Apart(items[i], items[k]);
    }
    forall x | x in tx.base ensures tx.base[x].id != items[i].newId {
      var k :| 0 <= k < |items| && items[k].hadOld && x == User(items[k].target);
      assert At(tx.base, User(items[k].target)) == Some(OldFileOf(items[k], h));
    }
  }

  lemma RebuiltWellFormed(items: seq<Item>, h: Body -> Digest)
    requires Realizable(items, h) && ValidItems(items, |items|, h) && |items| <= MAX_ITEMS
    ensures WellFormed(Rebuilt(items, h), h)
  {
    var tx := Rebuilt(items, h);
    OldFilesAt(items, h);
    forall i | 0 <= i < |items| ensures ItemOk(tx, h, i) { RebuiltItemOk(items, h, i); }
    forall i, j | 0 <= i < j < |items|
      ensures Less(items[i].target, items[j].target) && items[i].temp != items[j].temp && Lower(items[i].target) != Lower(items[j].target)
    {
      assert Apart(items[i], items[j]);
    }
    forall x | x in tx.base ensures x.User? && !(TX_PREFIX <= Lower(x.s)) {
      var k :| 0 <= k < |items| && items[k].hadOld && x == User(items[k].target);
      assert ItemValid(items[k], h);
    }
    forall i, x | 0 <= i < |items| && x in tx.base && Lower(x.s) == Lower(items[i].target) ensures x.s == items[i].target {
      var k :| 0 <= k < |items| && items[k].hadOld && x == User(items[k].target);
    }
  }

  lemma WellFormedRealizable(tx: Tx, h: Body -> Digest)
    requires WellFormed(tx, h)
    ensures Realizable(tx.items, h)
  {
    forall i | 0 <= i < |tx.items|
      ensures Digests(h, tx.items[i].newHash) && (tx.items[i].oldHash.Some? ==> Digests(h, tx.items[i].oldHash.value))
    {
      assert ItemOk(tx, h, i);
      assert h(tx.staged[i].body) == tx.items[i].newHash;
    }
    forall i, k | 0 <= i < |tx.items| && 0 <= k < |tx.items| ensures tx.items[k].oldId != Some(tx.items[i].newId) {
      assert ItemOk(tx, h, i) && ItemOk(tx, h, k);
    }
  }

  /** The validator accepts exactly the journals of well-formed transactions, as
      far as digests and identities can be met at all. */
  lemma ValidJournalExact(j: Journal, h: Body -> Digest)
    ensures ValidJournal(j, h) && Realizable(j.items, h) <==> j.items != [] && exists tx :: WellFormed(tx, h) && tx.items == j.items
  {
    if ValidJournal(j, h) && Realizable(j.items, h) {
      RebuiltWellFormed(j.items, h);
      assert Rebuilt(j.items, h).items == j.items;
    }
    if j.items != [] && exists tx :: WellFormed(tx, h) && tx.items == j.items {
      var tx :| WellFormed(tx, h) && tx.items == j.items;
      WellFormedJournalValid(tx, h, j.phase);
      WellFormedRealizable(tx, h);
    }
  }

  // ------------------------------------------------------- physical states

  predicate Has(h: Body -> Digest, s: Option<File>, hash: Option<Digest>) {
    s.Some? && hash == Some(h(s.value.body))
  }

  /** txValidState. */
  predicate ValidState(p: Phase, h: Body -> Digest, it: Item, target: Option<File>, temp: Option<File>, backup: Option<File>)
  {
    if it.delete then
      if p.Committed? then target.None? && temp.None? && (backup.None? || Has(h, backup, it.oldHash))
      else
        || (Has(h, target, it.oldHash) && temp.Some? && backup.None?)
        || (target.None? && temp.Some? && Has(h, backup, it.oldHash))
        || (target.None? && temp.None? && Has(h, backup, it.oldHash))
        || (Has(h, target, it.oldHash) && temp.None? && backup.None?)
    else if p.Committed? then
      Has(h, target, Some(it.newHash)) && temp.None? && (backup.None? || (it.hadOld && Has(h, backup, it.oldHash)))
    else if it.hadOld then
      || (Has(h, target, it.oldHash) && temp.Some? && backup.None?)
      || (target.None? && temp.Some? && backup.Some?)
      || (Has(h, target, Some(it.newHash)) && temp.None? && backup.Some?)
      || (target.None? && temp.None? && backup.Some?)
      || (Has(h, target, it.oldHash) && temp.None? && backup.None?)
    else
      || (target.None? && temp.Some? && backup.None?)
      || (Has(h, target, Some(it.newHash)) && temp.None? && backup.None?)
      || (target.None? && temp.None? && backup.None?)
  }

  predicate Identified(s: Option<File>, id: Option<nat>) {
    s.None? || Some(s.value.id) == id
  }

  /** txValidateDurableItemWitness, without native change identities. */
  predicate Witnessed(p: Phase, it: Item, target: Option<File>, temp: Option<File>, backup: Option<File>) {
    && Identified(temp, Some(it.newId))
    && Identified(backup, it.oldId)
    && Identified(target, if p.Prepared? && (it.delete || (it.hadOld && backup.None?)) then it.oldId else Some(it.newId))
  }

  /** The per-item part of txPreflight. */
  predicate PreflightItem(p: Phase, h: Body -> Digest, it: Item, target: Option<File>, temp: Option<File>, backup: Option<File>) {
    && (temp.Some? ==> h(temp.value.body) == it.newHash)
    && (backup.Some? ==> it.hadOld && Has(h, backup, it.oldHash))
    && ValidState(p, h, it, target, temp, backup)
    && Witnessed(p, it, target, temp, backup)
  }

  /** Every legal state of an item passes preflight, whether or not the old and
      the new contents (or their digests) coincide. */
  lemma LegalPassesPreflight(tx: Tx, h: Body -> Digest, i: nat, p: Phase, st: ItemState)
    requires WellFormed(tx, h) && i < |tx.items| && Legal(p, st)
    ensures PreflightItem(p, h, tx.items[i], TargetIn(tx, i, st), TempIn(tx, i, st), BackupIn(tx, i, st))
  {
    assert ItemOk(tx, h, i);
  }

  /** Absent both, or files of one identity and one digest. */
  predicate Alike(h: Body -> Digest, a: Option<File>, b: Option<File>) {
    a.Some? == b.Some? && (a.Some? ==> a.value.id == b.value.id && h(a.value.body) == h(b.value.body))
  }

  /** Conversely any triple that passes preflight is, as far as identities and
      digests tell, one of the legal states. */
  lemma PreflightMeansLegal(tx: Tx, h: Body -> Digest, i: nat, p: Phase, target: Option<File>, temp: Option<File>, backup: Option<File>)
    returns (st: ItemState)
    requires WellFormed(tx, h) && i < |tx.items|
    requires PreflightItem(p, h, tx.items[i], target, temp, backup)
    ensures Legal(p, st)
    ensures Alike(h, target, TargetIn(tx, i, st)) && Alike(h, temp, TempIn(tx, i, st)) && Alike(h, backup, BackupIn(tx, i, st))
  {
    assert ItemOk(tx, h, i);
    if p.Committed? {
      st := if backup.Some? || !tx.items[i].hadOld then Installed else Cleaned;
    } else if temp.Some? {
      st := if target.None? && tx.items[i].hadOld then Parked else Fresh;
    } else if backup.Some? {
      st := if target.Some? then Installed else Emptied;
    } else {
      st := if target.Some? && !tx.items[i].hadOld then Installed else RolledBack;
    }
  }
}
