# Machinery: verified model of its crash protocols and compilers

This project models, in Dafny, the parts of Machinery where correctness is hardest to see by
reading, and proves what they promise for every input, every run and every crash:

- **Artifact transactions** (`internal/artifactset`). A set of files is installed and deleted as one
  unit. `AtomicFiles` holds the directory, its quarantine slots and the process that can die before any
  namespace step; `ArtifactNames`, `ArtifactDirectory`, `ArtifactResidue`, `ArtifactJournal`,
  `ArtifactSteps`, `ArtifactRequest`, `ArtifactRecovery` and `ArtifactCommit` follow the transaction;
  `ArtifactTheorems` states what holds in every directory a crash can leave.
- **Release publication** (`cmd/release-archive`). `ReleaseArchive` models the witnessed publication of
  one archive and its recovery.
- **Policy, integrity and isolation compilers** (`internal/alloy`). `PolicyAlgebra`, `PolicyLoader`,
  `PolicyCompile`, `PolicyAgreement` and `PolicyMeaning` show that the emitted predicates and the decision table mean
  the same, and what the annotation says; `PolicySmallModel` and `PolicyDecisions` that bounded checks speak for every
  size, and which policies fail them; `Integrity` and `Isolation` treat the other two compilers; `StableIds` the
  identifiers of all of them.
- **Smaller cores**: the include closure (`C4Paths`, `IncludeGraph`, `C4Closure`, and `NestingExamples` at
  its nesting limit), the runtime digest framing (`RuntimeFraming`), the budgeted tree walk (`TreeBudget`) and the oracle churn classifier
  (`OracleDiff`).

`Basics` and `NameOrder` hold the shared vocabulary: optional values, sizes of finite collections, and the
byte order with its sorted listings.

## How crashes are modelled

A `Volume` has power for a number of namespace steps. Creating a file, writing it, renaming, linking,
making a slot, filling it, erasing or restoring its object and dropping it are one step each; when the
power is gone the running method returns `Crashed` and the directory stays as it is. Every method says
which directories it can leave when it dies, so quantifying over the power is quantifying over the crash
points. `Recoverable(d, tx, p)` is the set of directories the artifact protocol can leave for a decision
`p`; `Recover` maps it to `Dir(Outcome(tx, p), map[])`, and a dying `Recover` stays inside it. Contracts
with `Paid` and `Short` bound the steps: with four steps of power a file and a few more, a run does not
die, so `Crashed` is never an excuse.

Failures without a crash are parameters: `Veto` names the targets whose parking or installing is refused in
a transaction and the journal installs that are, `Fault` the check at which a publishing process fails. Every
method says exactly when it fails for them, and what it leaves then. An error return that cleans nothing up
leaves a directory that a crash at the same point leaves.

The checks with which recovery refuses a directory that no crash leaves are stated for every directory:
`Sound`, `SwapsFit`, `BoxesFit` and `FinishFits` for the artifact protocol, `OneOutputSlot`, `EvidenceFits`, `Conclusive`,
`Backed` and `StagesFit` for the release protocol. The methods refuse exactly what these predicates refuse and
touch nothing then but the name of the journal.

## What the code does that its text does not say

1. **A wedged journal swap.** A crash between making the journal-update slot and filling it, or between
   restoring its journal and dropping it, leaves an empty slot beside a live prepared journal
   (internal/fsatomic/fsatomic.go:156-218, 330-343). Recovery then refuses
   (internal/artifactset/durable.go:899-906). `Wedged` is that topology; recovery refuses for it and for
   nothing else but the next one, it loses nothing, and dropping the empty slot repairs it.
2. **A pinned target.** A quarantine directory name is at most 240 bytes and encodes its source
   (internal/fsatomic/fsatomic.go:276-286), so an installed target with a name longer than 120 bytes
   cannot be removed on rollback. `Pinned` is exactly when rollback refuses.
3. **A publication given up.** When a publishing process fails after sealing its witness, the deferred
   cleanups remove the stage first and the witness second (cmd/release-archive/main.go:536-562). A crash
   between them leaves a sealed witness with neither stage nor matching output: `Lost`. And when the check
   on the quarantined prior output fails, before or after the rename (cmd/release-archive/main.go:710-716,
   738-741), the cleanups leave that output in its slot without any authority: `Orphaned`. Recovery refuses
   both for ever, and nothing else; the prior output is intact in each.
4. **Ambiguous renames.** The comment at cmd/machinery/oracle.go:690-692 promises no pairing when several
   deleted rows share a content; the loop pairs the first of them. `NoGuessExact` says exactly when the
   promise holds, `GuessExample` is a table where it does not.
5. **Nesting.** The include walk checks its depth before its colour map
   (cmd/machinery/c4_closure.go:140-149). So the limit bounds neither the longest chain nor the level at
   which a file was read: `LongChainAccepted` is a chain of four files that passes a limit of three, and
   `SharedFileRefused` a file read at level two that is refused when it is included again at level three.
   The exact condition is on first chains in line order: a design is too deep if and only if a file that
   includes something has a first chain at least as long as the limit.
6. **Isolation keys.** A row key joins three names (internal/alloy/isolation.go:492), and the loader keeps
   only the first two of them distinct together. Keys collide exactly when an arrow inside one name lets one
   reference read as another; `ConfusedExample` is such a pair.

## Model

| member | source | states |
|---|---|---|
| `AtomicFiles.Volume.CreateFile` | internal/artifactset/durable.go:1909-1925 | exclusive create refuses exactly an existing name; a crash leaves nothing or a torn file |
| `AtomicFiles.Volume.Link` | cmd/release-archive/main.go:1309-1315 | a hard link adds the second name for the same file or changes nothing |
| `AtomicFiles.Volume.RenameNoReplace` | internal/fsatomic/fsatomic.go:51-96 | refuses exactly a missing source or a taken destination, else moves the very file in one step |
| `AtomicFiles.Volume.Quarantine` | internal/fsatomic/fsatomic.go:156-218 | makes a fresh slot and then fills it; between the two the empty slot is visible; refuses over-long names |
| `AtomicFiles.Volume.DropSlot` | internal/fsatomic/fsatomic.go:375-387 | retires an empty slot and nothing else |
| `AtomicFiles.Volume.RemoveQuarantined` | internal/fsatomic/fsatomic.go:345-358 | object gone, then slot gone, with the erased slot visible in between |
| `AtomicFiles.Volume.RestoreQuarantined` | internal/fsatomic/fsatomic.go:330-343 | object back at its source, then slot gone; refuses a taken source |
| `AtomicFiles.Volume.Discard` | internal/artifactset/durable.go:1817-1857 | a whole removal through a slot, with every directory a crash inside it can leave |
| `NameOrder.SortNames` | internal/artifactset/durable.go:366-381 | strictly sorted listing of exactly the given names |
| `NameOrder.LessTransitive` | internal/artifactset/durable.go:381-382 | the byte order is transitive |
| `NameOrder.LessTrichotomy` | internal/artifactset/durable.go:381-382 | the byte order is total and strict |
| `ArtifactNames.ObjectQuarantineLimit` | internal/fsatomic/fsatomic.go:276-286 | an object quarantine can name a target exactly up to 120 bytes |
| `ArtifactNames.LowerExact` | internal/artifactset/durable.go:388-391 | folding identifies exactly the names that differ in ASCII case only |
| `ArtifactNames.DeviceRefused` | internal/portablepath/portable.go:19-33 | a portable name is refused for a device exactly when what precedes its first dot is one in any case |
| `ArtifactRequest.ValidateTargets` | internal/artifactset/durable.go:362-419 | accepts exactly the legal requests; yields sorted names with only existing deletions |
| `ArtifactRequest.CollectRemovals` | internal/artifactset/durable.go:366-380 | refuses exactly repeated removals and removals that are also installs |
| `ArtifactRequest.CheckFolds` | internal/artifactset/durable.go:381-401 | the fold table decides aliasing among names and with entries exactly |
| `ArtifactRequest.KeepExisting` | internal/artifactset/durable.go:402-419 | drops exactly the deletions that have nothing to delete |
| `ArtifactJournal.TxValidateJournal` | internal/artifactset/durable.go:718-776 | the loop with its seen-sets decides the pairwise definition of a valid journal |
| `ArtifactJournal.PairwiseIsStepwise` | internal/artifactset/durable.go:718-776 | growing seen-sets and pairwise distinctness are the same condition |
| `ArtifactJournal.WellFormedJournalValid` | internal/artifactset/durable.go:434-509 | a journal built by staging always passes the validator, in both phases |
| `ArtifactJournal.ValidJournalExact` | internal/artifactset/durable.go:718-776 | a journal is valid, with digests and identities that can be met, exactly when it is the journal of some well-formed transaction |
| `ArtifactJournal.LegalPassesPreflight` | internal/artifactset/durable.go:1187-1249 | every item state the protocol can be in passes the state table and the identity witness |
| `ArtifactJournal.PreflightMeansLegal` | internal/artifactset/durable.go:1187-1249 | conversely, any snapshots that pass have the identities and digests of a legal state |
| `ArtifactResidue.Advance` | internal/artifactset/durable.go:1258-1318 | touching only one item's names moves only that item |
| `ArtifactResidue.AppliedAt` | internal/artifactset/durable.go:278-296 | the committed directory, name by name |
| `ArtifactResidue.DoneIsOutcome` | internal/artifactset/durable.go:1350-1409 | when every item is done the user files are exactly the decided directory |
| `ArtifactResidue.DiscardRecoverable` | internal/artifactset/durable.go:1817-1857 | an interrupted removal is invisible or complete once quarantines are resolved |
| `ArtifactSteps.NoAlias` | internal/artifactset/durable.go:1142-1155 | no entry of a residue aliases a target by case, so preflight's alias check never fires |
| `ArtifactSteps.PinnedIsBlocked` | internal/artifactset/durable.go:1258-1318 | the visible condition of a pinned target is exactly a blocked rollback |
| `ArtifactRecovery.LongNameLimit` | internal/fsatomic/fsatomic.go:276-286 | names over 120 bytes are exactly the unquarantinable ones |
| `ArtifactRecovery.SwapUndone` | internal/artifactset/durable.go:894-946 | restoring the prepared journal passes through a wedged directory and ends live and prepared |
| `ArtifactRecovery.JournalHome` | internal/artifactset/durable.go:1070-1140 | the journal has one home, reads back as the transaction and accounts for the inventory |
| `ArtifactRecovery.JournalsSeen` | internal/artifactset/durable.go:948-1009 | under the journal names a residue shows its one home and nothing else |
| `ArtifactRecovery.UpdateSlotSeen` | internal/artifactset/durable.go:894-946 | what an update slot can hold beside which live journal |
| `ArtifactRecovery.ObjectSlotSeen` | internal/artifactset/durable.go:1441-1480 | what restoring or dropping an object slot leaves |
| `ArtifactRecovery.Machine.CreateFile` | internal/artifactset/durable.go:1909-1925 | a complete or torn file of an identity that no file of the directory has |
| `ArtifactRecovery.Machine.RemoveSnapshot` | internal/artifactset/durable.go:1817-1857 | removes the object if and only if it still has the identity and digest of the snapshot and a name that can be quarantined; else refuses without change |
| `ArtifactRecovery.Machine.FindAuthority` | internal/artifactset/durable.go:1070-1140 | in any directory: finds the journal exactly when there is one, in one home, valid, with an item for every temp and backup |
| `ArtifactRecovery.Machine.BeginAuthority` | internal/artifactset/durable.go:1070-1122 | isolates the only journal and returns its text; refuses exactly a directory without such an authority, never a residue |
| `ArtifactRecovery.Machine.Preflight` | internal/artifactset/durable.go:1142-1185 | in any directory: passes exactly when no entry aliases a target and every item is in a legal, identified state, and returns what it saw |
| `ArtifactRecovery.ResidueFits` | internal/artifactset/durable.go:1142-1185 | every residue passes preflight, and each item is seen in its state |
| `ArtifactRecovery.ResidueSound` | internal/artifactset/durable.go:850-892 | every residue without slots is sound, so recovery takes it on |
| `ArtifactRecovery.Machine.RollbackTarget` | internal/artifactset/durable.go:1258-1318 | removes what was installed and puts the original back; refuses exactly a blocked target, untouched |
| `ArtifactRecovery.Machine.RollbackContent` | internal/artifactset/durable.go:1258-1318 | afterwards the target is the original, or absent if there was none |
| `ArtifactRecovery.Machine.RollbackItem` | internal/artifactset/durable.go:1258-1318 | one item reaches its rolled-back state from any legal one |
| `ArtifactRecovery.Machine.Rollback` | internal/artifactset/durable.go:1258-1318 | the old directory exactly; refused exactly when an item is blocked, and the directory is then pinned and still undecided as old |
| `ArtifactRecovery.Machine.RollbackItems` | internal/artifactset/durable.go:1258-1318 | the items from the last to the first, all rolled back or stopped at a pinned target |
| `ArtifactRecovery.Machine.FinalizeItem` | internal/artifactset/durable.go:1320-1348 | the backup is gone and the installed file untouched |
| `ArtifactRecovery.Machine.Finalize` | internal/artifactset/durable.go:1320-1348 | the new directory exactly, or a residue decided as new |
| `ArtifactRecovery.Machine.Finish` | internal/artifactset/durable.go:1350-1409 | drops stages, retires and deletes the journal, the outcome exact at the end; refuses exactly a journal that is not in its one place |
| `ArtifactRecovery.Machine.RemoveRetired` | internal/artifactset/durable.go:1411-1429 | deletes the retired journal through its slot, residues all the way |
| `ArtifactRecovery.Machine.RemoveBoxed` | internal/artifactset/durable.go:1482-1509 | deleting the quarantined journal leaves the outcome |
| `ArtifactRecovery.Machine.RecoverJournalUpdate` | internal/artifactset/durable.go:894-946 | finishes or undoes the swap; refuses exactly a swap that does not fit, in any directory, and of the residues exactly the wedged one |
| `ArtifactRecovery.Machine.RestoreObject` | internal/artifactset/durable.go:1441-1480 | a quarantined object is back at its name, an empty slot gone |
| `ArtifactRecovery.Machine.RecoverJournalSlot` | internal/artifactset/durable.go:816-849 | a completed journal's slot is retired, the decision kept; refuses exactly a foreign journal or one with other residue beside it |
| `ArtifactRecovery.Machine.DropOrphans` | internal/artifactset/durable.go:859-878 | without a journal the outcome is exact once orphans are gone |
| `ArtifactRecovery.Machine.ResolveUpdate` | internal/artifactset/durable.go:788-804 | no update slot is left; refuses exactly several swaps or one that does not fit, of the residues exactly the wedged ones, and changes nothing then |
| `ArtifactRecovery.Machine.ResolveQuarantines` | internal/artifactset/durable.go:805-849 | no slot is left and every item is in a recorded state; refuses exactly unknown reserved names, untouched |
| `ArtifactRecovery.Machine.ResolveBox` | internal/artifactset/durable.go:816-849 | a completed journal's slot is retired; refuses exactly several of them or one that does not fit |
| `ArtifactRecovery.Machine.RecoverAuthority` | internal/artifactset/durable.go:850-892 | outcome exact; of the residues it refuses exactly a blocked rollback; an unsound directory is never completed and nothing in it touched but the name of its journal |
| `ArtifactRecovery.Machine.RecoverJournalled` | internal/artifactset/durable.go:879-892 | with one journal: preflight decides whether anything is touched, then the outcome of its phase |
| `ArtifactRecovery.Machine.BeginChecked` | internal/artifactset/durable.go:879-887 | isolates and preflights: passes exactly a sound directory with a journal, and touches nothing but the name of the journal |
| `ArtifactRecovery.Machine.Decide` | internal/artifactset/durable.go:888-892 | prepared is rolled back, committed finalized |
| `ArtifactRecovery.Machine.Recover` | internal/artifactset/durable.go:788-892 | from any residue: exact outcome of its decision, or again a residue with that decision; refusal if and only if wedged or pinned, and it is left wedged or pinned; bounded number of steps and of entries |
| `ArtifactCommit.StageItem` | internal/artifactset/durable.go:447-509 | one complete temp under a fresh name, of an identity new to the directory, and an item whose fields match it and the old file |
| `ArtifactCommit.Stage` | internal/artifactset/durable.go:434-445 | a well-formed transaction that asks for exactly the request |
| `ArtifactCommit.GrownWellFormed` | internal/artifactset/durable.go:434-509 | staging a further sorted, fold-distinct name keeps the list well formed |
| `ArtifactCommit.StageJournal` | internal/artifactset/durable.go:529-574 | a journal stage, complete or torn, decides nothing |
| `ArtifactCommit.OldFilesPresent` | internal/artifactset/durable.go:529-574 | before the commit point every old file is somewhere, so a new identity is new to the base |
| `ArtifactCommit.PersistPrepared` | internal/artifactset/durable.go:529-656 | a live prepared journal with every item fresh; a refused install leaves the directory as it was |
| `ArtifactCommit.RemoveUnjournaled` | internal/artifactset/durable.go:511-527 | without a journal the temps go and exactly the old directory is left |
| `ArtifactCommit.IsolatePrepared` | internal/artifactset/durable.go:577-604 | the prepared journal goes into its update slot and the decision stays old |
| `ArtifactCommit.SwapBegun` | internal/artifactset/durable.go:577-589 | a crash after making the update slot leaves a wedged directory |
| `ArtifactCommit.SwapIsolated` | internal/artifactset/durable.go:586-604 | with the prepared journal in the slot the decision is still old |
| `ArtifactCommit.SwapInstalled` | internal/artifactset/durable.go:621-638 | the rename of the committed journal flips the decision, and nothing else does |
| `ArtifactCommit.InstallCommitted` | internal/artifactset/durable.go:605-656 | the commit point is exactly that rename |
| `ArtifactCommit.PersistCommitted` | internal/artifactset/durable.go:529-656 | live committed journal; a refused install restores the prepared one; a crash is old or new as the journal says |
| `ArtifactCommit.SwapJournals` | internal/artifactset/durable.go:577-656 | the committed journal replaces the prepared one, or a refused install puts the prepared one back |
| `ArtifactCommit.RestorePrepared` | internal/artifactset/durable.go:605-627 | a refused install puts the prepared journal back and removes the stage, undecided throughout |
| `ArtifactCommit.DecisionIsJournal` | internal/artifactset/durable.go:888-892 | until it is gone, a committed journal in an authority place is the decision |
| `ArtifactCommit.ParkAll` | internal/artifactset/durable.go:262-277 | fails exactly when some old file to be parked is refused; else every old file is parked, undecided throughout |
| `ArtifactCommit.ParkItem` | internal/artifactset/durable.go:262-277 | a refused park changes nothing; else the old file is its backup |
| `ArtifactCommit.InstallAll` | internal/artifactset/durable.go:278-296 | fails exactly when some install is refused, with exactly the items before it installed; else every item is installed or deleted |
| `ArtifactCommit.InstallItem` | internal/artifactset/durable.go:278-296 | a refused install changes nothing; else the temp is the target, or gone for a deletion |
| `ArtifactCommit.FailPrepared` | internal/artifactset/durable.go:251-261 | rolling back in the same process restores exactly the old directory, or leaves a pinned target exactly when an item is blocked |
| `ArtifactCommit.StuckIsBlocked` | internal/artifactset/durable.go:251-296 | an item is blocked exactly when a refusal follows an installed target with a name too long to remove |
| `ArtifactCommit.InstallStaged` | internal/artifactset/durable.go:240-296 | fails exactly for a refused journal, park or install; then the old directory, or pinned exactly when stuck; undecided and recoverable throughout |
| `ArtifactCommit.CommitStaged` | internal/artifactset/durable.go:240-316 | done means the committed outcome; fails exactly when the items need something refused, and leaves the old directory, or a pinned target exactly when stuck |
| `ArtifactCommit.CommitInstalled` | internal/artifactset/durable.go:297-316 | with everything installed: the committed outcome, or exactly a refused committed journal rolls back to the old directory or to a pinned target |
| `ArtifactCommit.ItemsVetoedExact` | internal/artifactset/durable.go:240-316 | the refusals of the staged items are exactly those of the request |
| `ArtifactCommit.ItemsStuckExact` | internal/artifactset/durable.go:240-316 | and so is being stuck: a long installed name before every refused one |
| `ArtifactCommit.FinishCommitted` | internal/artifactset/durable.go:308-316 | after the commit point only the new directory remains possible |
| `ArtifactCommit.AppliedReconciles` | internal/artifactset/durable.go:175-316 | the committed outcome is the requested directory |
| `ArtifactCommit.ReconcileClean` | internal/artifactset/durable.go:202-316 | on a recovered directory: completes exactly a legal request of which nothing is refused; an illegal or refused one leaves the old directory, or a pinned target exactly when stuck |
| `ArtifactCommit.StageAndCommit` | internal/artifactset/durable.go:236-316 | from validated names to the requested directory exactly when nothing needed is refused |
| `ArtifactCommit.Reconcile` | internal/artifactset/durable.go:175-316 | from any residue of an earlier transaction: completes exactly when it can be recovered, the request is legal and nothing it needs is refused; done is the requested directory; what each refusal leaves |
| `ArtifactCommit.Run` | internal/artifactset/durable.go:175-316 | crash atomicity of whole runs: the requested directory if the committed journal took the live name, else the old one; a legal request of which nothing is refused completes with power for its steps; what never completes is refused, wedged or pinned, or every recovery died on less power than it needs |
| `ArtifactCommit.RunRecoveries` | internal/artifactset/durable.go:788-892 | recoveries complete with the decided outcome as soon as one has power for its steps, or one is refused |
| `ArtifactTheorems.OriginalConserved` | internal/artifactset/durable.go:1258-1348 | before the commit point each original is at its target or its backup, once; no slot holds it; any other name of its identity had it before |
| `ArtifactTheorems.SlotHoldsStranger` | internal/artifactset/durable.go:1817-1857 | before the commit point a slot holds only files the transaction created |
| `ArtifactTheorems.OriginalUnique` | internal/artifactset/durable.go:1258-1348 | without hard links the original is nowhere but at its target or its backup |
| `ArtifactTheorems.SlotSeesStaged` | internal/artifactset/durable.go:1817-1857 | a slot only ever holds staged files of an item before the commit point |
| `ArtifactTheorems.HeldTarget` | internal/artifactset/durable.go:1258-1318 | a target is quarantined only as an installed file |
| `ArtifactTheorems.InstalledConserved` | internal/artifactset/durable.go:1320-1409 | after the commit point each installed file is at its target and in no slot |
| `ArtifactTheorems.BystandersUntouched` | internal/artifactset/durable.go:175-316 | an entry no item names is the very same file in every residue |
| `ArtifactTheorems.SingleAuthority` | internal/artifactset/durable.go:894-946 | one journal authority, apart from the pair of an unfinished swap |
| `ArtifactTheorems.DecisionUnambiguous` | internal/artifactset/durable.go:850-892 | a directory that fits both decisions has equal outcomes |
| `ArtifactTheorems.ResiduePassesPreflight` | internal/artifactset/durable.go:1142-1249 | a residue is never refused for the state of its items |
| `ArtifactTheorems.WedgedIsRepairable` | internal/artifactset/durable.go:899-906 | dropping the empty slot of a wedged directory gives a residue that is not refused for it |
| `ArtifactTheorems.WedgedResidueExists` | internal/artifactset/durable.go:899-906 | a concrete wedged residue |
| `ArtifactTheorems.PinnedResidueExists` | internal/fsatomic/fsatomic.go:276-286 | a concrete residue with a pinned target of 121 bytes |
| `ReleaseArchive.Publisher.CleanupIfPresent` | cmd/release-archive/main.go:1585-1637 | the file is gone or was never there; a crash shows a removal in progress |
| `ReleaseArchive.Publisher.CleanupWitness` | cmd/release-archive/main.go:1378-1418 | public name, then authority, the decision kept throughout; refuses exactly a witness that is not its authority, in any directory |
| `ReleaseArchive.Publisher.ResolveOutputSlot` | cmd/release-archive/main.go:783-819 | at most one prior-output slot, empty ones retired, files untouched; refuses exactly several slots |
| `ReleaseArchive.Publisher.ResolveAuthority` | cmd/release-archive/main.go:820-862 | a torn authority is deleted, a valid one linked; refuses exactly evidence that does not fit, and of the residues exactly an orphaned output |
| `ReleaseArchive.Publisher.Conclude` | cmd/release-archive/main.go:863-918 | stage present means old, matching output means new; refuses exactly when the witness does not bind by identity and digest what it must, and of the residues exactly when the stage was given up |
| `ReleaseArchive.Publisher.ConcludeNew` | cmd/release-archive/main.go:893-918 | the prior output is retired beside the witnessed one and the witness gone |
| `ReleaseArchive.Publisher.ConcludeOld` | cmd/release-archive/main.go:875-892 | the prior output is back and the witness gone |
| `ReleaseArchive.Publisher.RecoverPublication` | cmd/release-archive/main.go:745-918 | no witness, authority or output slot is left and the decision stands |
| `ReleaseArchive.Publisher.RecoverFrom` | cmd/release-archive/main.go:745-918 | each station ends idle with its decision; refused exactly when given up |
| `ReleaseArchive.Publisher.RecoverStages` | cmd/release-archive/main.go:1424-1554 | exactly the decided directory, nothing reserved left; refuses exactly foreign names and foreign deletions |
| `ReleaseArchive.Publisher.DropDeleteSlots` | cmd/release-archive/main.go:1424-1554 | any number of deletion slots is retired |
| `ReleaseArchive.Publisher.Recover` | cmd/release-archive/main.go:527-532 | exact outcome of the decision, or again a residue with it; refusal if and only if lost or orphaned; bounded number of steps |
| `ReleaseArchive.Publisher.WriteWitness` | cmd/release-archive/main.go:1242-1333 | torn, sealed and linked, with the old output decided throughout |
| `ReleaseArchive.Publisher.PublishOutput` | cmd/release-archive/main.go:696-743 | every check that can fail stops the output exactly where it is; the decision flips exactly with the rename of the stage |
| `ReleaseArchive.Publisher.UnparkPrior` | cmd/release-archive/main.go:723-734 | a failed stage check or rename puts the prior output back |
| `ReleaseArchive.Publisher.PutBack` | cmd/release-archive/main.go:717-736 | after a failed stage check or rename the prior output is back at its name |
| `ReleaseArchive.Publisher.ParkPrior` | cmd/release-archive/main.go:700-716 | the prior output in its slot, or refused for its name, or undecided as old |
| `ReleaseArchive.OutputNameLimit` | internal/fsatomic/fsatomic.go:276-286 | a prior output can be quarantined exactly up to a name of 131 bytes |
| `ReleaseArchive.Publisher.GiveUp` | cmd/release-archive/main.go:536-562 | giving up removes stage and witness wherever the output is: the old directory from an untouched output, an orphan otherwise |
| `ReleaseArchive.Publisher.Retire` | cmd/release-archive/main.go:677-694 | the prior output goes only while the new one stands, then the witness |
| `ReleaseArchive.Publisher.CreateStage` | cmd/release-archive/main.go:551-554 | a stage of a new identity disturbs nothing |
| `ReleaseArchive.Publisher.PublishSealed` | cmd/release-archive/main.go:614-694 | from the sealed witness: new exactly when the fault has no occasion to strike, renamed exactly when it does not stop it first, and for each fault exactly what it leaves |
| `ReleaseArchive.Publisher.Conclusion` | cmd/release-archive/main.go:640-694 | a published output is retired, a failed one given up, an ambiguous one preserved |
| `ReleaseArchive.Publisher.PublishClean` | cmd/release-archive/main.go:551-694 | on a recovered directory: the new archive exactly when the fault has no occasion to strike, else what the fault leaves; or a residue of this publication |
| `ReleaseArchive.Publisher.WriteArchive` | cmd/release-archive/main.go:477-694 | with any fault: succeeds exactly when recovery is not refused and the fault has no occasion to strike; then exactly the new archive beside untouched files; else a residue that is new if and only if the stage was renamed |
| `ReleaseArchive.Run` | cmd/release-archive/main.go:477-694 | old or new over whole runs with any fault and any number of dying recoveries; with power for forty steps it renames exactly when the fault does not stop it and completes when the fault has no occasion; what does not complete died on too little power or is refused, and without a fault nothing is refused |
| `ReleaseArchive.RunRecoveries` | cmd/release-archive/main.go:745-918 | repeated recoveries never change the decision and complete as soon as one has power for its steps, unless refused |
| `ReleaseArchive.WitnessBacked` | cmd/release-archive/main.go:1242-1333 | in every residue the public witness is its private authority |
| `ReleaseArchive.PriorNeverLost` | cmd/release-archive/main.go:696-743 | the prior output is at its name, in its slot, or replaced by a live output that matches the witness |
| `ReleaseArchive.RefusedIsGivenUp` | cmd/release-archive/main.go:820-898 | the refused directories are exactly those a process that gave up can leave |
| `ReleaseArchive.FailedRefused` | cmd/release-archive/main.go:820-898 | of what faults leave, recovery refuses exactly the outputs stranded in quarantine |
| `ReleaseArchive.GivingUpStrands` | cmd/release-archive/main.go:536-562 | giving up and dying between the two cleanups leaves a lost directory |
| `ReleaseArchive.RefusedResiduesExist` | cmd/release-archive/main.go:820-898 | a concrete lost and a concrete orphaned directory |
| `ReleaseArchive.DiscardKeeps` | cmd/release-archive/main.go:1585-1637 | an interrupted deletion shows the file or does not; its slot is inert |
| `ReleaseArchive.AuthoritySeen` | cmd/release-archive/main.go:820-862 | what recovery finds at the authority in each station |
| `ReleaseArchive.PriorParked` | cmd/release-archive/main.go:696-743 | quarantining the prior output keeps the old decision |
| `ReleaseArchive.PriorRestored` | cmd/release-archive/main.go:875-892 | restoring it gives the old output back |
| `ReleaseArchive.PriorRetired` | cmd/release-archive/main.go:893-918 | deleting it after the rename keeps the new decision |
| `ReleaseArchive.StagePublished` | cmd/release-archive/main.go:696-743 | the rename is the publication |
| `ReleaseArchive.BareIsFinal` | cmd/release-archive/main.go:1424-1554 | an idle directory without a stage is exactly the final one |
| `PolicyAlgebra.ParseScopeExpr` | internal/alloy/alloy.go:276-305 | accepts exactly the scope algebra; the parsed expression admits what some term admits |
| `PolicyAlgebra.ParseScopeMap` | internal/alloy/alloy.go:307-360 | accepts exactly the legal maps; each role gets its own key's scope, else the wildcard's, else none |
| `PolicyAlgebra.MapMeaning` | internal/alloy/alloy.go:307-360 | expanding the wildcard gives disjoint entries with that meaning |
| `PolicyAlgebra.ScopeForEntry` | internal/alloy/oracle.go:80-89 | with disjoint entries the first match is the only match |
| `PolicyAlgebra.ScopeForFound` | internal/alloy/oracle.go:80-89 | found means some entry names the role, absent means none does |
| `PolicyLoader.LoadPolicy` | internal/alloy/alloy.go:362-397 | accepts exactly the annotations whose subjects and rules fit, whose grants and scopes close each other and whose scope rules give something; what it accepts is a reconciled policy that says what the rules say |
| `PolicyLoader.HoldsMeans` | internal/alloy/alloy.go:800-833 | a role holds a verb exactly when a grants rule lists it, or without grants when a scope rule gives it more than none |
| `PolicyLoader.ClosedMeans` | internal/alloy/alloy.go:692-706 | the loaded policy is closed exactly when every scoped verb is granted to some role by a grants rule if and only if a rule scopes it |
| `PolicyLoader.SomethingScopedMeans` | internal/alloy/alloy.go:979-994 | the emitter's refusal is exactly a scope rule that gives none to every key |
| `PolicyLoader.Loader.LoadRules` | internal/alloy/alloy.go:545-582 | accepts exactly the rule lists in which every rule fits and none clashes; the policy says what each says and nothing more |
| `PolicyLoader.Loader.LoadGrantRule` | internal/alloy/alloy.go:584-610 | accepts exactly a first grant map over known roles |
| `PolicyLoader.ClashSeen` | internal/alloy/alloy.go:584-690 | what is already taken in the policy is exactly what an earlier rule took |
| `PolicyLoader.Loader.LoadScopeRule` | internal/alloy/alloy.go:612-630 | accepts exactly new scoped verbs with a legal map, and leaves other verbs alone |
| `PolicyLoader.Loader.LoadReassignRule` | internal/alloy/alloy.go:632-690 | accepts exactly when every role with a scope, and no other, decides its target |
| `PolicyLoader.GrantScopeClosed` | internal/alloy/alloy.go:692-706 | a granted verb has a scope and a scoped verb a grant, both ways |
| `PolicyCompile.FilterHolds` | internal/alloy/alloy.go:800-833 | exactly the listed roles that hold the verb |
| `PolicyCompile.OracleRows` | internal/alloy/oracle.go:105-205 | the nested loops emit exactly the table, each row once unless the enum repeats a role |
| `PolicyCompile.CreateRows` | internal/alloy/oracle.go:109-120 | the create rows, each once |
| `PolicyCompile.VerbRows` | internal/alloy/oracle.go:105-205 | the scoped rows of one verb, each once |
| `PolicyCompile.RoleVerbRows` | internal/alloy/oracle.go:105-205 | the scoped rows of one verb and role, each once |
| `PolicyCompile.AllReassignRows` | internal/alloy/oracle.go:105-205 | the reassign rows, each once |
| `PolicyCompile.RoleReassignRows` | internal/alloy/oracle.go:105-205 | the reassign rows of one role, each once |
| `PolicyAgreement.CaseExact` | internal/alloy/oracle.go:35-66 | a case says exactly ownership and shared team |
| `PolicyAgreement.BranchMeans` | internal/alloy/alloy.go:766-795 | an emitted branch is a role test and the evaluated scope |
| `PolicyAgreement.BranchesMean` | internal/alloy/alloy.go:971-1019 | the disjunction picks the role's own entry |
| `PolicyAgreement.CanVerbMeans` | internal/alloy/alloy.go:957-1019 | the emitted verb predicate as scope evaluation behind the grant |
| `PolicyAgreement.ScopedAgreement` | internal/alloy/oracle.go:105-205 | in every world the case has one row and it says what the emitted predicate says |
| `PolicyAgreement.CreateAgreement` | internal/alloy/oracle.go:105-205 | the create row is the emitted grant |
| `PolicyAgreement.CanReassignMeans` | internal/alloy/alloy.go:1021-1045 | the emitted reassign predicate as authority and target rule |
| `PolicyAgreement.ReassignAgreement` | internal/alloy/oracle.go:105-205 | for every actor, record and target some row speaks and every speaking row agrees |
| `PolicyAgreement.UnreachableExact` | internal/alloy/oracle.go:52-66 | a row is marked unreachable exactly when an invariant names it and no world realizes it |
| `PolicyAgreement.RowUnreachableExact` | internal/alloy/oracle.go:124-205 | a scoped or reassign row says unreachable exactly when an invariant is there to name and no world realizes its case |
| `PolicyAgreement.SpokenExact` | internal/alloy/oracle.go:157-205 | a reassign row is about some actor, owner and target of some world exactly when its case is realized, so no row has an impossible target |
| `PolicyMeaning.TableMeansRules` | internal/alloy/oracle.go:105-205 | which rows there are and what each expects, from the grants, scopes and reassign rule as written and from the worlds |
| `PolicyMeaning.CreateMeans` | internal/alloy/oracle.go:109-120 | the create rows, one for each role if there are grants: allow exactly for a role that a grants rule gives create |
| `PolicyMeaning.ScopedMeans` | internal/alloy/oracle.go:123-155 | the scoped rows: allow exactly when the verb is granted, where there are grants, and its scope admits the case |
| `PolicyMeaning.ReassignMeans` | internal/alloy/oracle.go:157-205 | the reassign rows: authority from the scope, and any target or the targets that can exist |
| `PolicySmallModel.SmallCounterexample` | internal/alloy/alloy.go:1059-1111 | any counterexample yields one with two subjects, two teams and one record |
| `PolicySmallModel.BoundIsEnough` | internal/alloy/alloy.go:737-745 | a check fails at a bound of at least two exactly when it fails at some size |
| `PolicySmallModel.CanInPair` | internal/alloy/alloy.go:957-1019 | a verb predicate sees two subjects only |
| `PolicySmallModel.EscapeInPair` | internal/alloy/alloy.go:1095-1111 | a reassign escape needs only the actor and the target |
| `PolicySmallModel.SomeWorldSatisfiable` | internal/alloy/alloy.go:1047-1057 | the vacuity run has an instance at every bound that covers the roles |
| `PolicySmallModel.PossibleExact` | internal/alloy/alloy.go:1112-1145 | a held verb is exercisable on some record exactly when its scope is not none, with one subject |
| `PolicyDecisions.WriteReadExact` | internal/alloy/alloy.go:1066-1078 | WriteImpliesRead fails in some world exactly when two rows of the table show a write without a read in a case that can arise |
| `PolicyDecisions.CapableExact` | internal/alloy/alloy.go:1079-1094 | CapableWritesOwn fails exactly when a held write has no scope, or one that rests on a team the role can be without |
| `PolicyDecisions.RetainsExact` | internal/alloy/alloy.go:1095-1111 | ReassignRetainsAuthority fails exactly when a role with limited authority may hand records to anybody, or to teammates while it rests on ownership alone |
| `PolicyDecisions.ChecksDecide` | internal/alloy/alloy.go:1059-1111 | so every bounded search of at least two decides the policy |
| `Integrity.DiagonalRel` | internal/alloy/integrity.go:134-156 | the diagonal meets every multiplicity and inverse bound |
| `Integrity.RelExact` | internal/alloy/integrity.go:134-156 | the emitted multiplicities say exactly what the cardinality means, link by link |
| `Integrity.SingletonExact` | internal/alloy/integrity.go:557-566 | exactly one record carries a singleton flag |
| `Integrity.DiagonalWorld` | internal/alloy/integrity.go:501-570 | the diagonal world satisfies all facts when domains allow it |
| `Integrity.Pigeonhole` | internal/alloy/integrity.go:527-556 | an injective map into d values has at most d keys |
| `Integrity.DomainCapsRecords` | internal/alloy/integrity.go:527-556 | a bounded unique attribute caps the records of any world |
| `Integrity.PopulatableExact` | internal/alloy/integrity.go:582-607 | n records of every entity exist in some world exactly when every bounded unique domain has n values |
| `Integrity.PopulatableAtAnyBound` | internal/alloy/integrity.go:582-607 | the verdict is the same at every accepted bound on records and open value atoms |
| `Integrity.SomeWorldSatisfiable` | internal/alloy/integrity.go:567-581 | every accepted annotation has a one-record world |
| `Integrity.MandatoryOneToOneInjects` | internal/alloy/integrity.go:134-156 | a mandatory 1:1 relationship injects its sources into its targets |
| `Isolation.LinkSameTenant` | internal/alloy/isolation.go:368-393 | a link joins owners of one tenant |
| `Isolation.ChainOneTenant` | internal/alloy/isolation.go:368-393 | all owners along any chain of references share one tenant |
| `Isolation.SharedReferent` | internal/alloy/isolation.go:415-434 | no counterexample at any size |
| `Isolation.TeamlessIsUnlinked` | internal/alloy/isolation.go:368-372 | a teamless owner is on neither side of a link |
| `Isolation.EveryReferencePossible` | internal/alloy/isolation.go:396-446 | with two tenants inhabited every reference can still be used |
| `Isolation.CasesCoverAndAgree` | internal/alloy/isolation.go:450-460 | the four cases cover every owner pair and agree with sameTenant where they overlap |
| `Isolation.OracleDecidesLinks` | internal/alloy/isolation.go:482-521 | a link of an admitted world falls only in cases the table allows |
| `Isolation.RefKeysExact` | internal/alloy/isolation.go:489-495 | two references share a key exactly when an arrow in a name confuses them |
| `Isolation.RowKeysExact` | internal/alloy/isolation.go:489-495 | row keys are distinct exactly when no reference is confused with another |
| `Isolation.ConfusedExample` | internal/alloy/isolation.go:489-495 | two accepted references with shared keys |
| `StableIds.Widen` | internal/alloy/oracle.go:238-256 | the first even width without a clash, or the full hash |
| `StableIds.GroupByPrefix` | internal/alloy/oracle.go:228-237 | the groups by first digits are exact |
| `StableIds.Ids` | internal/alloy/oracle.go:228-256 | each id is the shortest even-width prefix, from six digits on, that no other hash shares; equal hashes get equal ids; different ones get ids neither of which is a prefix of the other |
| `StableIds.PrefixFree` | internal/alloy/isolation.go:496-521 | shortest unshared prefixes are prefix-free |
| `StableIds.WidestUnique` | internal/alloy/isolation.go:496-521 | the id depends only on the hash and the set of hashes |
| `StableIds.KeyInjective` | internal/alloy/oracle.go:99-101 | a key determines verb, role, case and target even for roles that contain the separator |
| `StableIds.KeyExample` | internal/alloy/oracle.go:99-101 | the key text of one row |
| `StableIds.TableKeysDistinct` | internal/alloy/oracle.go:99-205 | two rows of the table with one key are one row |
| `C4Paths.SplitJoined` | cmd/machinery/c4_closure.go:42-63 | splitting undoes joining |
| `C4Paths.TextInjective` | cmd/machinery/c4_closure.go:130-151 | clean paths with one text are one path, so colouring by text is colouring by file |
| `C4Paths.ResolveInScope` | cmd/machinery/c4_closure.go:42-63 | what is resolved is clean and in the workspace |
| `C4Paths.EveryPathResolves` | cmd/machinery/c4_closure.go:42-63 | every path of the workspace can be named from every file |
| `C4Paths.ClimbResolves` | cmd/machinery/c4_closure.go:42-63 | a name that climbs and descends means exactly that path from the includer's directory, refused exactly outside the workspace |
| `C4Paths.SiblingResolves` | cmd/machinery/c4_closure.go:42-63 | a bare name, with blanks around it, is the file beside the includer |
| `IncludeGraph.Walker.Visit` | cmd/machinery/c4_closure.go:139-239 | success finishes the file and all it includes, at a level within the limit; each refusal shows its reason, and too deep means a first chain at the limit |
| `IncludeGraph.Walker.Inspect` | cmd/machinery/c4_closure.go:150-239 | a file is first met along its first chain, claimed, scanned and finished |
| `IncludeGraph.Walker.Claim` | cmd/machinery/c4_closure.go:150-168 | a claimed file stays within the file and byte limits |
| `IncludeGraph.Walker.VisitLines` | cmd/machinery/c4_closure.go:169-235 | every line is accepted and every include finished |
| `IncludeGraph.Walker.Finish` | cmd/machinery/c4_closure.go:236-238 | a finished file is settled and its first chain leaves room for its includes |
| `IncludeGraph.ChainDescends` | cmd/machinery/c4_closure.go:236-238 | an include chain runs strictly backwards through the finishing order |
| `IncludeGraph.SettledAcyclic` | cmd/machinery/c4_closure.go:144-149 | so no chain from the entry repeats a file |
| `IncludeGraph.FirstVisit` | cmd/machinery/c4_closure.go:139-149 | a file that is not finished is met along its first chain in line order |
| `IncludeGraph.FirstUnique` | cmd/machinery/c4_closure.go:139-149 | in an acyclic design each file has one first chain |
| `IncludeGraph.SettledIsClosure` | cmd/machinery/c4_closure.go:236-245 | the finished files are exactly the reachable ones |
| `IncludeGraph.SettledIsClear` | cmd/machinery/c4_closure.go:139-239 | success leaves no cycle, unusable file, exceeded limit or first chain at the nesting limit |
| `C4Closure.Validate` | cmd/machinery/c4_closure.go:130-245 | accepts exactly the designs in which no include path repeats a file, every file on one is fine line by line, files and node sizes are within the limits, and the nesting is; a rejection shows its reason in the same terms; the result is the sorted text of exactly the included files |
| `C4Closure.ValidateClosure` | cmd/machinery/c4_closure.go:130-245 | the exact verdict at the limits of the tool |
| `C4Closure.StepsExact` | cmd/machinery/c4_closure.go:168-235 | the graph has one step for each line: wrong exactly for a refused line, missing or special data or an escaping include, and an edge exactly for an include |
| `C4Closure.EdgeExact` | cmd/machinery/c4_closure.go:223-231 | an edge is exactly an include line of a regular file and what it names from that file |
| `C4Closure.UsableExact` | cmd/machinery/c4_closure.go:153-235 | usable is exactly a regular file within the size limit whose every line is fine |
| `C4Closure.ChainExact` | cmd/machinery/c4_closure.go:130-245 | chains of the graph are exactly paths of include lines |
| `C4Closure.RealShown` | cmd/machinery/c4_closure.go:130-245 | a reason in the graph is one over nodes and lines, bytes being sizes of regular files |
| `C4Closure.FitsAccepted` | cmd/machinery/c4_closure.go:130-245 | a design that fits over nodes and lines, and is not too deep, has no reason for a refusal |
| `C4Closure.ReachableInScope` | cmd/machinery/c4_closure.go:42-63 | every file but the entry lies in the workspace |
| `NestingExamples.LongChainAccepted` | cmd/machinery/c4_closure.go:140-149 | a design with a chain over the limit that is accepted |
| `NestingExamples.SharedFileRefused` | cmd/machinery/c4_closure.go:140-149 | a design refused only because a file read before is included again too deep |
| `RuntimeFraming.Hasher.Write` | internal/checker/registry.go:219-221 | appends one framed record |
| `RuntimeFraming.EncodeExample` | internal/checker/registry.go:219-221 | one framed record, byte by byte |
| `RuntimeFraming.Hasher.WriteRuntime` | internal/checker/registry.go:222-243 | the stream is the framing of header, commands and inputs; refuses exactly a malformed input digest |
| `RuntimeFraming.RuntimeClosureDigest` | internal/checker/registry.go:211-245 | succeeds exactly on valid runtimes and hashes the one stream of the runtime, in whatever order the map is listed |
| `NameOrder.SortedUnique` | internal/checker/registry.go:232-236 | one sorted listing of a key set |
| `RuntimeFraming.FramedUnique` | internal/checker/registry.go:211-245 | one stream per runtime |
| `RuntimeFraming.DecodeStream` | internal/checker/registry.go:219-221 | a decoder undoes the length-prefixed records |
| `RuntimeFraming.UnframeFramed` | internal/checker/registry.go:211-245 | image, platform, both commands and the input map are read back from the stream |
| `RuntimeFraming.FramingInjective` | internal/checker/registry.go:211-245 | different runtimes never feed the hash the same bytes |
| `TreeBudget.Budget.Add` | internal/cachestage/recovery.go:525-540 | charges a node; the byte counter never passes its limit |
| `TreeBudget.Walk` | internal/cachestage/recovery.go:554-599 | accepts exactly when the flattened subtree fits what is left, and spends exactly its totals |
| `TreeBudget.WalkChildren` | internal/cachestage/recovery.go:574-598 | the same for the entries of a directory |
| `TreeBudget.WalkChild` | internal/cachestage/recovery.go:575-596 | links and special entries never pass; files and directories pass exactly when they fit |
| `TreeBudget.FitsSplit` | internal/cachestage/recovery.go:565-573 | spending a budget in two parts is spending it on both, so cutting off early agrees with the whole count |
| `TreeBudget.PrefixFits` | internal/cachestage/recovery.go:565-573 | what does not fit a prefix of a directory does not fit the whole |
| `TreeBudget.ValidateTreeBounded` | internal/cachestage/recovery.go:546-552 | accepts exactly the trees whose flattened form meets all limits |
| `TreeBudget.ValidateTree` | internal/cachestage/recovery.go:542-544 | the same at the limits of the cache |
| `OracleDiff.SoleCandidate` | cmd/machinery/oracle.go:694-699 | one candidate means the sole added id with that content |
| `OracleDiff.FindRenames` | cmd/machinery/oracle.go:690-704 | the pairs are exactly sole added ids with the first deleted id of their content |
| `OracleDiff.Diff` | cmd/machinery/oracle.go:664-736 | exactly the truthful lines, in order, or the single line for a new oracle |
| `OracleDiff.AddedLines` | cmd/machinery/oracle.go:713-719 | one line per added id, a rename if it is paired |
| `OracleDiff.DeletedLines` | cmd/machinery/oracle.go:720-731 | one line per deleted id that is not paired |
| `OracleDiff.ModifiedLines` | cmd/machinery/oracle.go:732-734 | one line per id whose content changed |
| `OracleDiff.PairUnique` | cmd/machinery/oracle.go:697-704 | an added id is paired at most once |
| `OracleDiff.PairInjective` | cmd/machinery/oracle.go:697-704 | so is a deleted id |
| `OracleDiff.ReportedOnce` | cmd/machinery/oracle.go:664-736 | every added, deleted or modified id is reported at exactly one place, and no other id is |
| `OracleDiff.SilentMeansSame` | cmd/machinery/oracle.go:664-736 | no line exactly when both tables agree on ids and content |
| `OracleDiff.NoGuessExact` | cmd/machinery/oracle.go:690-704 | no ambiguous pairing exactly when no sole added id has two deleted matches |
| `OracleDiff.GuessExample` | cmd/machinery/oracle.go:690-704 | a table where the first of two deleted rows is paired |

## Left out

- fsync, file modes, stat races, external interference and the repeated re-validation of a held snapshot: a snapshot is atomic under the held lock, and what has been renamed or written is durable.
- Native change ids (`txChangeID`): platform-specific; items carry the identity only.
- The encoded size limit of a journal, directory-entry limits and file-size limits of the artifact and release directories: journals and inventories are assumed to fit.
- Removal and replacement preconditions of a reconcile request (internal/artifactset/durable.go:318-355).
- I/O errors other than a refused rename or journal install (`Veto`); the rename hook during rollback and when the journal is isolated or retired; cleanup in a process whose staging failed half-way.
- AtomicFiles.Volume.DropSlot: retires the slot in one step; the source renames the empty directory to a fresh nonce first, and a crash in between leaves an equivalent empty slot.
- AtomicFiles.Volume.Quarantine: a slot is a key with a recorded source; the bounded retries for a fresh nonce are not modelled.
- Digests are an arbitrary function of content and journal text decodes to the journal written; SHA-256 and the JSON and YAML codecs are not modelled. No result needs digests to be injective.
- Case folding is ASCII folding; the set of reserved device names is written out.
- Orphans and slots that the source visits in sorted order are visited in any order.
- ReleaseArchive.Publisher.WriteArchive: one output per directory, so witnesses and stages of other outputs and legacy decimal stage names do not occur; tar and gzip writing and the Git inputs are not modelled; faults before the witness is sealed and failures of a cleanup itself are not modelled.
- Annotation key checks, name claims and error wording of the three Alloy loaders; the rendered layout of `.als` and `.md` files.
- PolicyLoader.LoadPolicy: scope expressions arrive parsed; entity, relationship and invariant-id checks and unknown verbs or target words are not modelled.
- StableIds.Ids: hashes are given strings of one even length; the hash function is not modelled.
- C4Closure.Validate: lines arrive classified as plain, refused, data or include; comment stripping and the textual patterns are not modelled. White space is ASCII and paths are POSIX.
- RuntimeFraming.RuntimeClosureDigest: the registry loader and the OCI reference parser are not modelled.
- TreeBudget.Walk: stat failures and changes of a directory while it is listed are not modelled.
- OracleDiff.Diff: parsing of the Markdown tables into rows and reading of the baseline are not modelled.
- Cobra commands, the gate suite, the Datalog evaluator, the TLA, refine and compose generators, designlock, the test-driven store, Docker execution and provisioning.
