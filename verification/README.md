# SeekTalent verification models

Dafny models of the parts of SeekTalent in which state, order or failure decide whether the result is
right, with proofs of what those parts promise. Nothing here executes the original program.

`dafny verify dfyconfig.toml` checks the whole project.

## What is modelled

**Transactional install.** `FileTree` is a file system as a finite map from paths to nodes, with the
renames, directory creations and removals the installer performs. Every check, rename and creation
consults a fault schedule, and every removal a second one, so a statement about all schedules is a
statement about every pattern of failing operations. `Activation` is the switch of a list of staged
trees with its two-pass rollback. `Install` adds target validation, the creation and the sweeping of
parent directories, and the nesting of the try blocks of the installer, from the validated targets to
the last sweep. `Nesting` says what the switch does with two targets of which one lies in the other,
and `RaisedInstall` is about installs that raise after they have switched.

**Runtime package receipt.** `RuntimeReceipt` has the extraction walk, the receipt walk and the listing
of installed files, with binding and verification on top. `PathText` and `Listings` hold what it shares
with the delivery package: paths as text, and listings of files with size and digest.

**Benchmark scheduler.** `Benchmark` is the loop over pending attempts, running futures and retries,
driven by any outcome of any attempt and any non-empty answer of `wait`.

**Cycle check.** `Cycles` is the depth-first search that adds to a shared set of cycles, with its
graph-theoretic meaning.

**Failure envelope log.** `EnvelopeLog` is the table behind both insert triggers, the store and load
operations, runs of stores, and the schema migration that copies rows back through the triggers.

**Observation merge.** `Values` merges nested JSON-like values, `EvidenceMerge` folds evidence updates,
`FoldQuality` says when that lowers their quality, `CandidateMerge` merges two observations of one candidate.

**Redaction.** `Redaction` specifies the allowlist walk with its budget and counters, and says without
the walk when it succeeds and what it yields. `Redactor` is the walk as recursive methods that update
one object's budget and counter.

**Delivery.** `Rotation` is the promotion of a tested delivery. Its object records every state of the
distribution directory, half-done copies and deletions included, so a property of the recorded states
is a property of stopping anywhere. `Delivery` has the package builder and the validator that must
agree; `TextLines` and `SumsText` are the text of the SHA256SUMS file and its reader.

**Judging.** `Judging` has the label lookup, the grouping by snapshot, the concurrent workers under the
limiter as an arbitrary interleaving of starts and finishes, and the flush of labels.

**Diff parser.** `DiffParser` reads added lines out of a unified diff, and prints diffs ("Diff -u or -U
Output Format" of the POSIX.1-2017 diff utility) to say which of them are read back exactly.

`Basics` and `Ordering` are shared: options, distinctness, and sorted duplicate-free listings with their
uniqueness.

## Results worth knowing

- `_activate_pair` never loses a tree when no target or stage lies in another one. For an inner and an
  outer target, with or without staged trees, both end as they should exactly when the outer entry
  brings to the inner place what the inner entry brings there (`Nesting.NestedExactly`), and
  `_validate_target_paths` lets through lists for which it does not (`Nesting.AcceptedButNotSwitched`,
  `Nesting.RemovalLosesInner`).
- An install that has not switched leaves every old tree at its target or at its backup, and a refused
  one leaves every old file as it was even when its own sweeps fail. But an install that raises may have
  switched: exactly when the switch went through and the removal of the temporary directory failed
  (`Install.Install`, with such a run in `RaisedInstall.LoseOldFile`).
- A merged attribution can be later than one side's when a number exceeds the stand-in for a missing
  one (`CandidateMerge.OutOfRangeAttributionCanBeLater`); the exact condition is
  `CandidateMerge.AttributionNoLaterExactly`.
- Merging evidence can lower its leaf count, because the union drops repeats that the count sees. It
  does not exactly when the better record repeats no more than the other one adds
  (`EvidenceMerge.MergeNotWorseExactly`), and for folds when no record of the highest level repeats more
  than the others add (`FoldQuality.FoldKeepsRankExactly`).
- An evaluation that succeeded never needs the model again for the same candidates
  (`Judging.EvaluateTwice`), and one whose flush stopped early asks only for what is missing
  (`Judging.ResumesExactly`).
- The builder's package is accepted exactly when no payload file, at any depth, has one of the two
  reserved names and no path holds a line break (`Delivery.BuiltIsAccepted`). Files named `SHA256SUMS`
  below the root are covered by neither list (`Delivery.NestedSumsAreUnlisted`).
- A promotion without a failing step promotes every promotable layout, and stopping it anywhere leaves the
  candidate and the formerly active archives complete (`Rotation.Distribution.Promote`).
- A diff is read back exactly when no added text starts with `++` and no line is added behind a
  missing-newline marker (`DiffParser.ReadBackExactly`, with two inputs in `DiffParser.NotReadBack`).

## Model

| member | source | states |
|---|---|---|
| FileTree.MoveTree | src/seektalent/browser_bridge_install.py:640-645 | a rename carries the whole tree to the new place and leaves nothing at the old one |
| FileTree.MoveKeeps | src/seektalent/browser_bridge_install.py:640-645 | a rename leaves the tree at every unrelated place unchanged |
| FileTree.NothingBelowMissing | src/seektalent/browser_bridge_install.py:621-667 | nothing exists below a path that does not exist |
| FileTree.PruneTree | src/seektalent/browser_bridge_install.py:670-677 | a best-effort removal leaves part of the tree, and nothing when it succeeds |
| FileTree.FileSystem.Replace | src/seektalent/browser_bridge_install.py:621-667 | one atomic rename: all of it or nothing, refused for a missing source or an occupied target |
| FileTree.FileSystem.Rmdir | src/seektalent/browser_bridge_install.py:268-273 | a directory goes only when it is empty and the machine lets it |
| FileTree.FileSystem.RemovePath | src/seektalent/browser_bridge_install.py:670-677 | a failing removal leaves an arbitrary part of the tree behind, and touches nothing else |
| Activation.BackupApart | src/seektalent/browser_bridge_install.py:639-642 | the hidden backup beside a target overlaps neither it nor any unrelated path |
| Activation.BackupsApart | src/seektalent/browser_bridge_install.py:639-642 | backups of unrelated targets do not overlap |
| Activation.SlotsIndependent | src/seektalent/browser_bridge_install.py:621-667 | sources, targets and backups of all entries are pairwise unrelated places |
| Activation.CheckTarget | src/seektalent/browser_bridge_install.py:631-638 | the check passes only for a target whose parent exists under the install root |
| Activation.UndoActivations | src/seektalent/browser_bridge_install.py:646-655 | the first reverse pass takes every live tree out of its target, or loses it only to a fault it counts |
| Activation.UndoBackups | src/seektalent/browser_bridge_install.py:656-665 | the second reverse pass brings every backup home, or counts a fault |
| Activation.UndoneCompletely | src/seektalent/browser_bridge_install.py:646-665 | when both passes count no error the whole file system is the one before |
| Activation.UntouchedWhenAllIdle | src/seektalent/browser_bridge_install.py:646-665 | every entry back in place means the file systems are equal, staging included |
| Activation.DiscardBackups | src/seektalent/browser_bridge_install.py:666-667 | discarding backups touches nothing else, and without faults none remains |
| Activation.ActivatePair | src/seektalent/browser_bridge_install.py:621-667 | any list may be given; without faults the switch does exactly the specified run of steps; for separate entries: normal return means every target holds its staged tree or is absent and nothing else changed, the original error means the file system is as before, any other ending leaves every old tree at its target or backup; without faults it activates exactly the ready lists; and no backup is left unless its removal leaves something behind |
| Nesting.InnerFirst | src/seektalent/browser_bridge_install.py:621-667 | with the inner target first, the outer entry decides: its staged tree, or nothing, ends at the outer target and hides the inner one |
| Nesting.OuterFirst | src/seektalent/browser_bridge_install.py:621-667 | with the outer target first, the inner entry ends as it should, and the outer target holds its stage exactly when that already holds at the inner place what the inner entry brings |
| Nesting.NestedExactly | src/seektalent/browser_bridge_install.py:621-667 | in either order, and with or without staged trees, both nested entries are switched exactly when the outer entry brings to the inner place what the inner entry brings there |
| Nesting.NestedIsNotSwitched | src/seektalent/browser_bridge_install.py:621-667 | in either order entries that disagree on the inner place do not end as they should |
| Nesting.NowhereToGo | src/seektalent/browser_bridge_install.py:631-645 | an outer entry without a staged tree, first in the list, always stops the run at the inner one |
| Nesting.Mismatch | src/seektalent/browser_bridge_install.py:189-209 | two entries disagree on the inner place when just one of them has something there |
| Nesting.AcceptedButNotSwitched | src/seektalent/browser_bridge_install.py:189-209 | a nested list accepted by the target validation and ready to activate goes through without a fault, and a target does not hold its staged tree |
| Nesting.AcceptedInnerFirst | src/seektalent/browser_bridge_install.py:189-209 | every accepted and ready list with the inner target first goes through without a fault, and ends as it should exactly when the entries agree on the inner place |
| Nesting.RemovalLosesInner | src/seektalent/browser_bridge_install.py:621-667 | an accepted list that installs the inner target and then takes the outer one away goes through and loses the inner tree |
| Nesting.AcceptableExists | src/seektalent/browser_bridge_install.py:189-209 | a concrete disk and a concrete list for which this happens |
| Nesting.RemovalIsAccepted | src/seektalent/browser_bridge_install.py:189-209 | a concrete list of that kind |
| Install.ValidateTargetPaths | src/seektalent/browser_bridge_install.py:189-209 | accepted exactly when all targets differ and lie strictly under the root |
| Install.FindMissing | src/seektalent/browser_bridge_install.py:246-256 | collects the missing ancestors upwards, to the first path that exists |
| Install.MakeMissing | src/seektalent/browser_bridge_install.py:257-265 | creates the missing chain downwards, stopping only for a fault |
| Install.EnsureParentDirectory | src/seektalent/browser_bridge_install.py:245-265 | on success exactly the listed directories are new and the path is a directory; on failure only ancestors of the path may be new, and none if no removal made here was stuck; it fails only for a fault or a file in the way |
| Install.PrepareParentsOf | src/seektalent/browser_bridge_install.py:220-238 | creates the missing ancestors of one target under the root and records each |
| Install.PrepareTargetParents | src/seektalent/browser_bridge_install.py:212-242 | on success every target's parent is there and the record lists what is new, in order of creation; on failure only such directories may be left, and none if no removal made here was stuck |
| Install.Sweep | src/seektalent/browser_bridge_install.py:268-273 | the reverse sweep removes a tail of the list; it stops only at a directory whose own removal was stuck, that is no directory, or that is not empty |
| Install.LastIsChildless | src/seektalent/browser_bridge_install.py:212-273 | the directory created last holds nothing, so the reverse order always finds an empty one |
| Install.SweepRestores | src/seektalent/browser_bridge_install.py:268-273 | a sweep over created directories never stops for a non-empty one, and complete it restores the directory set |
| Install.ReadyToActivate | src/seektalent/browser_bridge_install.py:127-141 | validated targets and fresh names give the activation the independent places it needs |
| Install.CleanUp | src/seektalent/browser_bridge_install.py:63-146 | leaving the staging block removes the stage and then sweeps the staging parents; it raises exactly when the removal of the stage fails, and otherwise the stage is gone |
| Install.CleanedCompletely | src/seektalent/browser_bridge_install.py:133-146 | after a failed install whose removals work the file system is exactly the original one |
| Install.CleanedIsRefused | src/seektalent/browser_bridge_install.py:133-146 | after a failed install, whatever the cleaning leaves, every old file and directory is as it was, and what is new lies in the stage or is a directory above the root or a target |
| Install.RefusedKeepsOldTrees | src/seektalent/browser_bridge_install.py:133-146 | in such a state every old tree is at its target |
| Install.BrokenButSafe | src/seektalent/browser_bridge_install.py:137-146 | even after a failed rollback and a best-effort cleaning each old tree is at its target or its backup |
| Install.ReadyExactly | src/seektalent/browser_bridge_install.py:133-141 | after the preparation the switch is ready when nothing was in the way of the install, and only then if some entry brings a tree |
| Install.BackupsStayGone | src/seektalent/browser_bridge_install.py:127-146 | the cleaning brings no backup back |
| Install.SweptNothing | src/seektalent/browser_bridge_install.py:145-146 | after a switch the final sweep changes nothing at all |
| Install.NothingSwept | src/seektalent/browser_bridge_install.py:145-146 | after success the final sweep removes no directory that leads to a target |
| Install.InstalledAsStaged | src/seektalent/browser_bridge_install.py:127-146 | after success every target holds exactly what was staged for it |
| Install.PrepareAndActivate | src/seektalent/browser_bridge_install.py:133-144 | parents, activation and the sweep in the error path, with the outcome of each combination; a refusal leaves at most new parent directories, and none if no removal made here was stuck |
| Install.Install | src/seektalent/browser_bridge_install.py:42-146 | it has switched exactly when a passage is recorded, and then ends normally exactly when the removal of the stage works and otherwise raises; either way the targets hold the staged trees, only the stage has gone since the switch, and no backup is left unless its removal leaves something; refused: everything old untouched and at most stage entries and parent directories new, and exactly the original file system if no removal made in the run was stuck; not switched: every old tree safe; without faults of checks, renames and creations it switches if nothing is in the way, and only then if some entry brings a tree |
| RaisedInstall.SafeExactly | src/seektalent/browser_bridge_install.py:63-146 | after a switch whose backups are gone the old trees are safe exactly when each was the wanted one or there was none |
| RaisedInstall.RaiseAfterSwitch | src/seektalent/browser_bridge_install.py:67-146 | every request that can be installed has a run that switches and then raises |
| RaisedInstall.RequestCanInstall | src/seektalent/browser_bridge_install.py:42-146 | a concrete request with nothing in the way |
| RaisedInstall.LoseOldFile | src/seektalent/browser_bridge_install.py:67-146 | a concrete run that raises although the old file is gone and the new one in its place |
| RuntimeReceipt.RelativeReadsPath | src/seektalent/browser_bridge_install.py:358-365 | a legal path below "package" is read as just that path, and a legal path elsewhere has no place |
| RuntimeReceipt.RelativeRefuses | src/seektalent/browser_bridge_install.py:358-365 | absolute names and names with a parent step have no place |
| RuntimeReceipt.RelativeSkips | src/seektalent/browser_bridge_install.py:358-365 | empty steps and steps that stay in place do not count |
| RuntimeReceipt.RootNames | src/seektalent/browser_bridge_install.py:331-333 | the package root entry is "package" with any number of slashes behind it |
| RuntimeReceipt.FileIsNew | src/seektalent/browser_bridge_install.py:335-338 | distinct case-folded keys keep two files from having one path |
| RuntimeReceipt.CountersAreExact | src/seektalent/browser_bridge_runtime_receipt.py:104-150 | the walk's counters are the number and the bytes of the archive's files |
| RuntimeReceipt.SortingIsFaithful | src/seektalent/browser_bridge_runtime_receipt.py:153-153 | sorting by path keeps exactly the files, in ascending order of path |
| RuntimeReceipt.TreeHas | src/seektalent/browser_bridge_install.py:339-354 | the extracted tree holds the member paths and the directories above them, and nothing else |
| RuntimeReceipt.ClashStep | src/seektalent/browser_bridge_install.py:340-354 | directory creation and exclusive create accept a member exactly when it clashes with none before it |
| RuntimeReceipt.ExtractedFiles | src/seektalent/browser_bridge_install.py:339-354 | the files of the extracted tree are exactly the archive's |
| RuntimeReceipt.RuntimeDir.MakeDirs | src/seektalent/browser_bridge_install.py:340-352 | missing directories are made unless a file is in the way |
| RuntimeReceipt.RuntimeDir.PlaceMember | src/seektalent/browser_bridge_install.py:340-354 | a member is placed exactly when its place is free |
| RuntimeReceipt.RuntimeDir.Extract | src/seektalent/browser_bridge_install.py:319-355 | extraction succeeds exactly for a new directory, admissible members with distinct folded keys within the limits, and no file at or above another member; and then it yields their tree |
| RuntimeReceipt.NoBackslashAtRoot | src/seektalent/browser_bridge_runtime_receipt.py:230-241 | the receipt's backslash rule never touches the package root entry |
| RuntimeReceipt.ReceiptFiles | src/seektalent/browser_bridge_runtime_receipt.py:104-153 | the receipt walk succeeds exactly for walkable members without backslash whose size is that of their data; and then it lists exactly the archive's files in path order |
| RuntimeReceipt.MakeReceipt | src/seektalent/browser_bridge_runtime_receipt.py:88-163 | a receipt is made exactly for the required archive with an acceptable walk |
| RuntimeReceipt.RuntimeDir.Installed | src/seektalent/browser_bridge_runtime_receipt.py:166-193 | in any order of the directory walk, the listing is refused exactly beyond the limits and otherwise the sorted listing of all files |
| RuntimeReceipt.RuntimeDir.Verify | src/seektalent/browser_bridge_runtime_receipt.py:56-85 | verification succeeds exactly when archive and receipt are kept, the receipt is that of the archive, and the installed listing equals it |
| RuntimeReceipt.RuntimeDir.Bind | src/seektalent/browser_bridge_runtime_receipt.py:37-53 | binding replaces archive and receipt and succeeds exactly when the verification of the new pair does |
| RuntimeReceipt.WalksAgree | src/seektalent/browser_bridge_install.py:319-355 | whatever both walks accept can be listed within the limits once extracted |
| RuntimeReceipt.RuntimeDir.ExtractAndBind | src/seektalent/browser_bridge_install.py:85-111 | after a successful extraction binding fails only when the receipt walk refuses the archive: verification right after bind never fails |
| RuntimeReceipt.VerifiedMeansUnchanged | src/seektalent/browser_bridge_runtime_receipt.py:56-85 | without digest collisions an installation verifies exactly when its files are those of the archive: none added, removed or changed |
| Listings.EntriesDetermineFiles | src/seektalent/browser_bridge_runtime_receipt.py:166-193 | without digest collisions equal listings mean equal files |
| Benchmark.LoadRows | src/seektalent/cli.py:487-508 | a file loads exactly when every non-blank line is a row and there is one; rows are numbered from the start index in order |
| Benchmark.LoadDirectory | src/seektalent/cli.py:515-522 | a directory loads exactly when it has files and all load; indexes run through all files without gap, and every row names its file |
| Benchmark.PayloadsInOrder | src/seektalent/cli.py:487-508 | a usable line gives its payload, any other nothing, and lines in sequence give theirs in sequence |
| Benchmark.FilesInOrder | src/seektalent/cli.py:515-522 | files in sequence give their payloads in sequence |
| Benchmark.Scheduler.Submit | src/seektalent/cli.py:1444-1446 | moves the oldest pending attempt into the running map |
| Benchmark.Scheduler.Retry | src/seektalent/cli.py:1457-1469 | a failed attempt with retries left gets a fresh session and a pending attempt with the next number |
| Benchmark.Scheduler.AddResult | src/seektalent/cli.py:1470-1490 | records the row's result with the next completion index |
| Benchmark.Scheduler.RecordFailure | src/seektalent/cli.py:788-817 | closes a running session as failed and leaves any other as it is |
| Benchmark.Scheduler.EnsureCompleted | src/seektalent/cli.py:820-823 | closes a running session as completed and leaves any other as it is |
| Benchmark.Scheduler.Complete | src/seektalent/cli.py:1448-1490 | one finished future: retry, final failure or success, with the whole new state |
| Benchmark.Scheduler.Fill | src/seektalent/cli.py:1443-1447 | before `wait` the pool is never empty and never above the limit |
| Benchmark.Scheduler.Drain | src/seektalent/cli.py:1447-1490 | handling any non-empty set of done futures keeps the invariant and uses up attempts |
| Benchmark.Scheduler.Run | src/seektalent/cli.py:1443-1490 | the loop ends, with nothing pending and nothing running |
| Benchmark.SubmitKeepsInv | src/seektalent/cli.py:1444-1446 | submitting keeps every row queued, running or decided, exactly once |
| Benchmark.CompleteKeepsInv | src/seektalent/cli.py:1448-1490 | completing any running future keeps the invariant |
| Benchmark.CompleteUsesAttempt | src/seektalent/cli.py:1448-1490 | each completion strictly lowers the remaining attempts |
| Benchmark.OthersStayCurrent | src/seektalent/cli.py:1448-1490 | completing one row changes nothing for the attempts of other rows |
| Benchmark.AllRowsCompleted | src/seektalent/cli.py:1443-1497 | when the loop ends exactly the input indexes have a result |
| Benchmark.FinishedRun | src/seektalent/cli.py:1443-1497 | a success at attempt k had k-1 failures before it, a failure used retries+1 attempts, attempt k ran on the row's k-th session; a session its attempt left running is completed exactly if the attempt succeeded and failed exactly if not, one its attempt closed keeps its status, none is running and there are no others; completion indexes are a permutation |
| Benchmark.RunBenchmark | src/seektalent/cli.py:1437-1497 | one result per input index in order for every outcome of every attempt and every answer of `wait`, with the facts of the finished run, and completion indexes in the order in which the results were added |
| Benchmark.FailPreflight | src/seektalent/cli.py:1380-1394 | a failed preflight gives every row one failed attempt and closes its session |
| Cycles.CycleSearch.Visit | tools/check_tach_baseline.py:57-65 | the visit ends and adds exactly the boundary cycles found on walks that continue its path |
| Cycles.CycleSearch.Search | tools/check_tach_baseline.py:54-69 | the search finds exactly the simple cycles with a boundary module, in every rotation |
| Cycles.LassoContinues | tools/check_tach_baseline.py:63-65 | what lies beyond a path is what lies beyond its extensions by dependencies inside the graph |
| Cycles.FoundFromAnywhere | tools/check_tach_baseline.py:67-68 | starting at every module finds every boundary cycle |
| Cycles.CutLoop | tools/check_tach_baseline.py:54-69 | cutting a loop out of a closed walk leaves a closed walk |
| Cycles.Shorten | tools/check_tach_baseline.py:54-69 | every closed walk at a module shortens to a simple cycle at it |
| Cycles.RotationIsCycle | tools/check_tach_baseline.py:57-62 | every rotation of a simple cycle is a simple cycle through the same modules |
| Cycles.RotationIsReported | tools/check_tach_baseline.py:57-62 | every rotation of a reported cycle is reported |
| Cycles.ReportsExactlySelfReaching | tools/check_tach_baseline.py:54-69 | something is reported exactly when a boundary module reaches itself |
| Cycles.SourceBoundaryCycles | tools/check_tach_baseline.py:54-69 | the sorted list holds exactly the boundary cycles, none twice, and is empty exactly when no boundary module reaches itself |
| EnvelopeLog.ContiguousExactly | src/seektalent/diagnostics_storage.py:74-88 | the revisions of a failure are exactly 1 up to the next one |
| EnvelopeLog.InsertKeepsContiguous | src/seektalent/diagnostics_storage.py:63-88 | an insert that passes both triggers keeps the revisions contiguous and overwrites nothing |
| EnvelopeLog.Log.Execute | src/seektalent/diagnostics_storage.py:63-102 | an insert either adds the row under a free key or leaves the table as it was |
| EnvelopeLog.Log.Store | src/seektalent/diagnostics_storage.py:252-367 | storing gives the specified answer and table: refusal, exact replay or one new row |
| EnvelopeLog.Log.Load | src/seektalent/diagnostics_storage.py:370-396 | loading returns the verified envelope of that revision, or tells a missing row from a corrupt one |
| EnvelopeLog.AdmittedVerifies | src/seektalent/diagnostics_storage.py:399-440 | the row written for an admitted envelope verifies back to that envelope |
| EnvelopeLog.VerifiedExactly | src/seektalent/diagnostics_storage.py:399-440 | a row verifies as an envelope exactly when it is the row that storing the envelope writes |
| EnvelopeLog.IdentityMeans | src/seektalent/diagnostics_storage.py:317-327 | the frozen identity is correlation, run, operation and attempt, and nothing else |
| EnvelopeLog.TriggersNeverFire | src/seektalent/diagnostics_storage.py:63-88 | the code's own guard implies both insert triggers: only a check constraint can refuse the insert |
| EnvelopeLog.CreatesExactlyNext | src/seektalent/diagnostics_storage.py:252-367 | a row is created exactly for the next revision with the frozen identity, inside a transaction |
| EnvelopeLog.RefusedExactly | src/seektalent/diagnostics_storage.py:252-367 | for each reason to refuse a call, exactly when a sound log gives it; it is never found corrupt |
| EnvelopeLog.AnswerNamesRow | src/seektalent/diagnostics_storage.py:252-367 | an answer that is not a refusal names the row that holds the given envelope now, with its digest |
| EnvelopeLog.ReplaysExactlyStored | src/seektalent/diagnostics_storage.py:252-367 | a store is an exact replay exactly when that envelope is already stored |
| EnvelopeLog.StoreKeepsSound | src/seektalent/diagnostics_storage.py:252-367 | one store keeps the log sound, and no row changes or disappears |
| EnvelopeLog.RunKeepsSound | src/seektalent/diagnostics_storage.py:252-367 | any sequence of stores keeps the log sound and every earlier row |
| EnvelopeLog.EveryRunIsSound | src/seektalent/diagnostics_storage.py:252-367 | after any run from an empty table the stored revisions of each failure are exactly 1..n, with one identity |
| EnvelopeLog.RestoringIsReplay | src/seektalent/diagnostics_storage.py:252-367 | storing any earlier accepted envelope again is an exact replay that changes nothing |
| EnvelopeLog.NextRowFollows | src/seektalent/diagnostics_storage.py:195-249 | in key order each row to copy is the next revision of the copy |
| EnvelopeLog.CopyAll | src/seektalent/diagnostics_storage.py:195-249 | copying through the triggers succeeds exactly for a contiguous table that the new checks allow, and gives the same table |
| EnvelopeLog.Migrate | src/seektalent/diagnostics_storage.py:195-249 | the migration succeeds exactly for the known columns, verified rows, contiguity and allowed rows; the result is the same table |
| EnvelopeLog.MigratesExactly | src/seektalent/diagnostics_storage.py:195-249 | of the tables the older version can build exactly those migrate whose outcomes are all outcomes of the newer one, and every revision then reads as the same envelope |
| EnvelopeLog.EveryRunMigrates | src/seektalent/diagnostics_storage.py:195-249 | a newer version that keeps every outcome of the older one refuses no table |
| EnvelopeLog.RetiredOutcomeIsRefused | src/seektalent/diagnostics_storage.py:45-55 | a table that holds the retired outcome is refused, not translated |
| Values.EmptyOnlyIfBoth | src/seektalent/candidate_observation_merge.py:188-198 | the preferred value is empty exactly when both are |
| Values.PreferredOrOther | src/seektalent/candidate_observation_merge.py:188-198 | a value that is there stays, one that is not is taken from the other side, and only two mappings are merged |
| Values.PreferredLeavesStay | src/seektalent/candidate_observation_merge.py:188-198 | a merge never has fewer non-empty leaves than the preferred value |
| Values.MergeByKey | src/seektalent/candidate_observation_merge.py:191-197 | mappings merge key by key |
| Values.KnownContentStays | src/seektalent/candidate_observation_merge.py:188-198 | what the preferred value says at any path stays |
| Values.PreferSelf | src/seektalent/candidate_observation_merge.py:188-198 | merging a value with itself changes nothing |
| EvidenceMerge.UpsertLeaves | src/seektalent/candidate_observation_merge.py:106-138 | the leaves of the merged record are those of the winner, plus what only the loser adds, minus the repeats of the winner |
| EvidenceMerge.MergeNotWorseExactly | src/seektalent/candidate_observation_merge.py:106-138 | for any two records of one candidate the merged record is not lower in quality than either exactly when the winner repeats no more than the loser adds |
| EvidenceMerge.MergeNotWorse | src/seektalent/candidate_observation_merge.py:106-138 | merging two records of one candidate without repeated non-empty elements is never lower in level, leaves and date than either |
| EvidenceMerge.SelfMergeExactly | src/seektalent/candidate_observation_merge.py:106-138 | merging a record with itself keeps its quality exactly when it repeats no non-empty element |
| EvidenceMerge.DuplicatesCanLoseLeaves | src/seektalent/candidate_observation_merge.py:106-138 | a record with one hash given twice is lowered by merging it with itself, whatever else it holds |
| EvidenceMerge.MergeFacts | src/seektalent/candidate_observation_merge.py:106-138 | level is the maximum, tuples are unions, and an optional field is empty only if both are |
| EvidenceMerge.WinnerStays | src/seektalent/candidate_observation_merge.py:106-138 | what the better record says stays, what it leaves open is taken from the other one, and tuples are in ascending order |
| EvidenceMerge.EvidenceMergeSymmetric | src/seektalent/candidate_observation_merge.py:106-138 | the order of the two records does not matter, unless different records share their hash |
| EvidenceMerge.FoldSummarises | src/seektalent/candidate_observation_merge.py:141-153 | a fold succeeds exactly when the identities agree, and its level, unions and filled fields are those of all inputs |
| EvidenceMerge.FoldNotWorse | src/seektalent/candidate_observation_merge.py:141-153 | a fold of records without repeated non-empty elements is never lower in quality than any of its inputs |
| FoldQuality.OwnLeaves | src/seektalent/candidate_observation_merge.py:229-234 | the leaf count of a record is what it holds, counted once, plus its repeats |
| FoldQuality.FoldLeaves | src/seektalent/candidate_observation_merge.py:141-153 | the leaf count of a fold of two or more records is that of everything they hold together, counted once, whatever the order |
| FoldQuality.FoldKeepsRankExactly | src/seektalent/candidate_observation_merge.py:141-153 | no input is above the fold in level and leaves exactly when no input of the highest level repeats more than the others add |
| FoldQuality.FoldNotWorseExactly | src/seektalent/candidate_observation_merge.py:141-153 | no input is above the fold in quality exactly when each input of the highest level repeats less than the others add, or as much and is not dated later than the fold |
| EvidenceMerge.FoldOrderIndependent | src/seektalent/candidate_observation_merge.py:141-153 | success, identity, level, unions and filled fields do not depend on order, grouping or repetition |
| EvidenceMerge.MergeUpdates | src/seektalent/candidate_observation_merge.py:141-153 | the update loop fails exactly when some key's records disagree, and otherwise returns, in strictly ascending order of keys, for every key of the input the fold of that key's records, and nothing else |
| EvidenceMerge.OfKeyHas | src/seektalent/candidate_observation_merge.py:145-152 | the records of a key are those of the input that have it, as often as they occur |
| EvidenceMerge.MismatchFound | src/seektalent/candidate_observation_merge.py:141-153 | a mismatch met anywhere in the loop is a mismatch of the whole input |
| CandidateMerge.RanksTotal | src/seektalent/candidate_observation_merge.py:70-103 | of two rankings exactly one comes first, unless they are equal |
| CandidateMerge.FieldsCombined | src/seektalent/candidate_observation_merge.py:36-67 | every field of the outcome: attribution of the earlier observation filled up from the later one, all else of the better one filled up from the other |
| CandidateMerge.RankedInOrder | src/seektalent/candidate_observation_merge.py:70-103 | observations are ranked by level, structured leaves, completeness, number of references, date and hash, in this order |
| CandidateMerge.BestLevelIsHighest | src/seektalent/candidate_observation_merge.py:76-79 | the level is the highest of any record |
| CandidateMerge.LatestDateIsLast | src/seektalent/candidate_observation_merge.py:101-101 | the date is the last of any record |
| CandidateMerge.EvidenceRefsHas | src/seektalent/candidate_observation_merge.py:87-91 | the verified references are those of any record |
| CandidateMerge.AttributedInOrder | src/seektalent/candidate_observation_merge.py:201-215 | attributions are ranked by source round, first round, first batch, query, candidate and hash, in this order |
| CandidateMerge.MergeSymmetric | src/seektalent/candidate_observation_merge.py:24-67 | swapping the sides together with their evidence gives the same outcome |
| CandidateMerge.MergeRefusesExactly | src/seektalent/candidate_observation_merge.py:33-35 | two observations are refused exactly for different candidates, and for a provider both sides know under different keys only |
| CandidateMerge.MergedFieldEmptyOnlyIfBoth | src/seektalent/candidate_observation_merge.py:24-67 | a merged field is empty exactly when it is empty on both sides, and references are united |
| CandidateMerge.AttributionNoLaterExactly | src/seektalent/candidate_observation_merge.py:201-215 | the merged attribution is no later than both sides' exactly when the first number supplied for a missing one is below its stand-in |
| CandidateMerge.MergedAttributionNoLater | src/seektalent/candidate_observation_merge.py:201-215 | for numbers up to the stand-in the merged attribution is no later than either side's |
| CandidateMerge.OutOfRangeAttributionCanBeLater | src/seektalent/candidate_observation_merge.py:201-215 | a concrete pair whose merged attribution is later |
| CandidateMerge.WinnerContentStays | src/seektalent/candidate_observation_merge.py:24-67 | what the better observation says, at any depth of any field, is not changed |
| Redaction.ProjectSound | src/seektalent/diagnostics_redaction.py:122-176 | the output conforms to the allowlist, the nodes spent are those of the output, and every key counted is kept or reported |
| Redaction.ProjectsExactly | src/seektalent/diagnostics_redaction.py:122-176 | the walk succeeds exactly when the allowed part of the payload fits and the totals are within budget, and then prunes and reports exactly what is not allowed |
| Redaction.AdmitsExactly | src/seektalent/diagnostics_scalar.py:33-50 | exactly which values each scalar contract admits |
| Redaction.AllowedNameExactly | src/seektalent/diagnostics_redaction.py:194-194 | an allowlisted name is a lower-case letter and at most 63 lower-case letters, digits and underscores |
| Redaction.ConformingIsFixed | src/seektalent/diagnostics_redaction.py:122-176 | a conforming value within budget projects to itself with nothing reported |
| Redaction.StepsAreShort | src/seektalent/diagnostics_redaction.py:221-227 | paths grow by at most eight characters a level |
| Redaction.ProjectReportsPaths | src/seektalent/diagnostics_model_common.py:38-38 | every reported path is a redaction path and is never truncated |
| Redaction.ValidatesExactly | src/seektalent/diagnostics_redaction.py:179-203 | the validation succeeds exactly for a well-formed allowlist, plain non-sensitive names within depth and size, whose nodes and keys fit the budget left, and then spends just these |
| Redaction.RefusedForItsOwnSake | src/seektalent/diagnostics_redaction.py:122-203 | under a validated allowlist the walk never blames the allowlist or the depth |
| Redaction.ListingIsExact | src/seektalent/diagnostics_redaction.py:114-119 | the report is sorted, has true counts, and is complete unless it is full |
| Redaction.ProjectionSound | src/seektalent/diagnostics_redaction.py:102-119 | a projection conforms, and kept plus redacted keys are the keys seen, at most 512 |
| Redaction.ProjectionAnswersExactly | src/seektalent/diagnostics_redaction.py:102-119 | a projection is answered exactly when the allowlist is an affordable well-formed mapping and the allowed part of the payload fits and is affordable; the answer is the pruned payload, the number of keys dropped and the listing of just these |
| Redaction.ReportsAreAdmissible | src/seektalent/diagnostics_model_common.py:270-305 | every report satisfies the count and path rules of the stored redaction state |
| Redaction.ProjectionIdempotent | src/seektalent/diagnostics_redaction.py:102-119 | projecting the result again succeeds with the same value and nothing redacted |
| Redactor.Projector.Validate | src/seektalent/diagnostics_redaction.py:179-203 | the recursive check with a shared budget gives the specified refusal or budget |
| Redactor.Projector.ValidateEntries | src/seektalent/diagnostics_redaction.py:191-199 | the loop over one mapping's keys gives the specified refusal or budget |
| Redactor.Projector.ProjectValue | src/seektalent/diagnostics_redaction.py:122-176 | the recursive walk with a shared budget and counter gives the specified value and state |
| Redactor.Projector.ProjectFields | src/seektalent/diagnostics_redaction.py:149-166 | the loop over a mapping builds the specified output in order |
| Redactor.Projector.ProjectItems | src/seektalent/diagnostics_redaction.py:167-175 | the loop over a list builds the specified output in order |
| Redactor.Projector.Diagnose | src/seektalent/diagnostics_redaction.py:102-119 | the public operation, with a fresh budget for each of its two walks |
| Rotation.Distribution.Copy | scripts/promote_domi_delivery.py:195-196 | a copy passes through a torn file and then holds the whole one; only the scratch directory is ever touched; it fails only for a fault |
| Rotation.Distribution.Rename | scripts/promote_domi_delivery.py:199-200 | a rename is atomic |
| Rotation.Distribution.RemoveTree | scripts/promote_domi_delivery.py:201-208 | a removal may stop half way, but only that directory is ever touched; it fails only for a fault |
| Rotation.Distribution.CopyAll | scripts/promote_domi_delivery.py:195-196 | after all copies the scratch directory holds exactly the named files |
| Rotation.Distribution.MoveIn | scripts/promote_domi_delivery.py:199-201 | the two renames and the deletion pass only through whole old, old moved aside, or whole new; without a fault the new one is in place |
| Rotation.Distribution.Switch | scripts/promote_domi_delivery.py:194-201 | the body of the try ends with the new directory in place, or in one of three known states; it stops early only for a fault or a stale backup |
| Rotation.Distribution.Recover | scripts/promote_domi_delivery.py:202-205 | when the handler succeeds the old or the new directory stands in place |
| Rotation.Distribution.CleanUp | scripts/promote_domi_delivery.py:206-208 | the finally clause touches only the scratch directory, and removes it unless it fails |
| Rotation.Distribution.ReplaceArchives | scripts/promote_domi_delivery.py:187-208 | it fails only for a fault, a stale backup or a taken scratch name, and never returns normally over a stale backup; normal return: exactly the target replaced; the original error: everything as before, or the new directory in place with a leftover backup; a second error only for a fault; and no recorded state has a mixed target |
| Rotation.Distribution.Check | scripts/promote_domi_delivery.py:44-52 | a promotion starts exactly in a clean layout with valid archives |
| Rotation.Distribution.Rotate | scripts/promote_domi_delivery.py:49-53 | what was active becomes the last version if there was anything, and every recorded state is safe |
| Rotation.Distribution.Activate | scripts/promote_domi_delivery.py:54-55 | the candidate becomes active and tmp is emptied, and every recorded state is safe |
| Rotation.Distribution.Promote | scripts/promote_domi_delivery.py:37-56 | a promotable layout is promoted unless a step faults; at every recorded state the candidate and the formerly active archives each exist complete; normal return: active is the old tmp, last-version the old active if there was one, tmp empty, no scratch; the original error: no directory is missing |
| Rotation.CleanIsFree | scripts/promote_domi_delivery.py:155-167 | in a clean layout no backup and no scratch name is taken |
| Rotation.IsZipExactly | scripts/promote_domi_delivery.py:170-184 | an archive name is something followed by the suffix |
| Rotation.SafeWhileRotating | scripts/promote_domi_delivery.py:53-53 | no state while last-version is replaced loses anything |
| Rotation.SafeWhileActivating | scripts/promote_domi_delivery.py:54-54 | no state while active is replaced loses anything |
| Rotation.SafeWhileClearing | scripts/promote_domi_delivery.py:55-55 | no state while tmp is emptied loses anything |
| Rotation.LeftoversRefuse | scripts/promote_domi_delivery.py:155-167 | any leftover backup or scratch directory keeps the next promotion from starting |
| TextLines.SplitUnlines | src/seektalent/domi_host_runtime.py:373-373 | splitting undoes joining for lines without breaks |
| TextLines.SplitsAtBreak | src/seektalent/domi_host_runtime.py:373-373 | a line ends at the next break, and a carriage return with a line feed is one |
| TextLines.ReadsOneEnd | src/seektalent/domi_host_runtime.py:373-373 | reading a text turns each kind of line end into one line feed |
| Ordering.BeforeExactly | scripts/build_domi_delivery_bundle.py:199-212 | texts are compared at the first character in which they differ, prefixes first |
| Ordering.PathBeforeExactly | scripts/build_domi_delivery_bundle.py:199-212 | paths are compared at the first name in which they differ, parents first |
| SumsText.SafeExactly | src/seektalent/domi_host_runtime.py:361-368 | the safe relative paths are exactly the texts of paths with legal names |
| SumsText.Sha256Exactly | src/seektalent/domi_host_runtime.py:353-358 | a digest is sixty-four lower-case hexadecimal digits |
| SumsText.ReadSums | src/seektalent/domi_host_runtime.py:371-380 | the loop over the lines gives the specified map or refuses |
| SumsText.ParsesExactly | src/seektalent/domi_host_runtime.py:371-380 | the lines are read exactly when each is a digest, two spaces and a safe path and no path comes twice; the map then has exactly what the lines say |
| SumsText.ReadPathsAreUnbroken | src/seektalent/domi_host_runtime.py:371-380 | no path that was read holds a line break |
| Delivery.ReadList | src/seektalent/domi_host_runtime.py:206-223 | the loop over the manifest's entries gives the specified map or refuses |
| Delivery.ListedExactly | src/seektalent/domi_host_runtime.py:206-223 | the list is read exactly when every entry is in form and no path comes twice; the map then has exactly what the entries say |
| Delivery.MatchesList | src/seektalent/domi_host_runtime.py:224-237 | the two comparisons succeed exactly when the listing of the files equals the map |
| Delivery.Validate | src/seektalent/domi_host_runtime.py:196-270 | a package is accepted exactly when the manifest list, the fixture and the sums all describe it exactly; and which of the three refusals it gets |
| Delivery.FileManifest | scripts/build_domi_delivery_bundle.py:199-212 | every file is listed once, in path order |
| Delivery.Build | scripts/build_domi_delivery_bundle.py:174-191 | the package is the payload, the manifest over it, and the sums over both; nothing else is in it, and no payload file is changed |
| Delivery.ListReadsBack | scripts/build_domi_delivery_bundle.py:199-212 | the validator reads the written file list as the listing of the payload |
| Delivery.WrittenSumsReadBack | scripts/build_domi_delivery_bundle.py:215-223 | the written sums parse back to the digests of every file |
| Delivery.BuiltIsAccepted | scripts/build_domi_delivery_bundle.py:174-223 | the validator accepts what the builder writes exactly when no payload file has a reserved name and no path holds a line break |
| Delivery.AcceptedIsAsListed | src/seektalent/domi_host_runtime.py:196-270 | without digest collisions two packages accepted with one manifest have the same payload, and with the same sums the same files apart from nested sums files |
| Delivery.NestedSumsAreUnlisted | src/seektalent/domi_host_runtime.py:224-270 | a file named like the sums file below the root may be anything |
| Judging.Judge.Sort | src/seektalent/evaluation.py:386-402 | cached candidates get their label, the others are grouped by snapshot in order; it fails exactly for an undecodable label |
| Judging.Judge.Spread | src/seektalent/evaluation.py:421-422 | every candidate of a group gets the verdict, and nobody else |
| Judging.Judge.JudgeMany | src/seektalent/evaluation.py:368-449 | for every order of starts and finishes: it completes exactly when every label found can be read and the model replies to each pending snapshot; then every unlabelled candidate has the reply on its own snapshot, with one call and one pending write per distinct unlabelled snapshot; and at no time are more calls open than the limit |
| Judging.WriteStep | src/seektalent/evaluation.py:409-441 | one finished worker adds exactly its snapshot's results and write |
| Judging.EqualSnapshotsEqualResults | src/seektalent/evaluation.py:386-449 | candidates with the same snapshot get the same result |
| Judging.SameRecordOrText | src/seektalent/evaluation.py:386-449 | candidates with the same recorded snapshot, or with none and the same text, get the same result |
| Judging.AllReplied | src/seektalent/evaluation.py:409-441 | when all are judged every pending snapshot has its reply, and every candidate the one on its own snapshot |
| Judging.Judge.Flush | src/seektalent/evaluation.py:1288-1310 | the pending writes are stored in order, up to the first that fails |
| Judging.StoredHas | src/seektalent/flywheel/store.py:1279-1294 | the upserts store each label under its key and leave all other keys as they were |
| Judging.Judge.Evaluate | src/seektalent/evaluation.py:1279-1310 | it succeeds exactly when the judging completes and every pending label can be stored; every fresh result is the reply of the model; labels are stored only when everything was judged, in order, up to the first that fails |
| Judging.SecondCallHits | src/seektalent/evaluation.py:1279-1310 | after the flush a complete second call asked the model nothing, writes nothing and returns the same verdicts as hits |
| Judging.ResumesExactly | src/seektalent/evaluation.py:1288-1310 | after a flush that stopped early the stored labels can be read, and just the snapshots of the other labels are left to be asked about |
| Judging.SecondCallCompletes | src/seektalent/evaluation.py:1279-1310 | after a whole flush every label can be read and no snapshot is left to be asked about |
| Judging.OneWriteEach | src/seektalent/evaluation.py:409-441 | a complete judgement has one write for each snapshot without a label |
| Judging.EvaluateTwice | src/seektalent/evaluation.py:1279-1310 | after a successful evaluation a second one succeeds with the same verdicts, whatever the model and the label store would do, with no model call and nothing to store |
| Judging.Unique | src/seektalent/evaluation.py:1261-1263 | one candidate per id, the last one given |
| DiffParser.ParseAddedLines | tools/check_privacy_gate.py:109-138 | the line loop gives the added lines of the specified state machine |
| DiffParser.HeaderIsRead | tools/check_privacy_gate.py:113-127 | the header pattern finds the printed first line number, counts and headings aside |
| DiffParser.MatchHunkExactly | tools/check_privacy_gate.py:113-127 | the header pattern matches exactly the texts that start with a hunk header, and gives its second range |
| DiffParser.SearchIsLeftmost | tools/check_privacy_gate.py:124-127 | the search finds the first match in the line |
| DiffParser.SampleIsStandard | tools/check_privacy_gate.py:109-138 | a small diff, the lines it is printed as, and the added lines read from them |
| DiffParser.LinesAreRead | tools/check_privacy_gate.py:128-136 | the lines of a hunk are numbered with markers counted as lines |
| DiffParser.CountedExactly | tools/check_privacy_gate.py:128-136 | that numbering is right exactly while no line is added behind a marker |
| DiffParser.ReadsAtMostPluses | tools/check_privacy_gate.py:109-138 | only lines with a single plus sign are ever read |
| DiffParser.ReadBackExactly | tools/check_privacy_gate.py:109-138 | a printed diff of any files and hunks is read back exactly when no added text starts with two plus signs and nothing is added behind a missing-newline marker |
| DiffParser.NotReadBack | tools/check_privacy_gate.py:128-136 | two small diffs that are not read back: one line number off by one, one line lost |

## Left out

- ActivatePair: the guarantees about its endings are for targets and stages that do not lie in one another; for nested targets the exact outcome is stated for two entries and runs without faults, not for longer lists or for their rollback.
- Install: takes requests whose targets do not lie in one another; the installer itself does not check this of the additional targets it is given.
- FoldNotWorseExactly: for a record that repeats just as much as the others add, the condition compares its date with that of the fold, which depends on the order of the records; level and leaves alone have a condition on the records only.
- FoldOrderIndependent: the scalar contents chosen by the evidence fold do depend on order, because a merged record can outrank a third one that outranked both inputs.
- Extract: an input or output error of the machine only refuses the archive, so the extraction and the listing have no fault schedule.
- BuiltIsAccepted: assumes a fixture of the declared schema inside the payload, and 64 lower-case hexadecimal digits from the digest.
- ReadBackExactly: paths are printed unquoted, and no text holds a line separator; quoted paths and the tab behind a path with spaces are not modelled.
- Existence tests on the file system never fail: `os.path.lexists` answers False for some errors of the machine, and in the rollback that would skip a restoration without counting an error.
- Symbolic links, file modes, time stamps, Windows specifics and case-insensitive file systems.
- Everything between staging and activation that runs other programs (npm, Node probing, the candidate probe) or checks the extension files; the stage's content is a parameter of the install.
- The archive and JSON formats, UTF-8, and the digest are parameters; where needed they round-trip, are hexadecimal, or are free of collisions on the contents at hand.
- Case folding of member paths is an arbitrary function, and the sensitive-key patterns of the redaction are an arbitrary rule.
- The archive checks of a promotion (names, manifests, identities) are two arbitrary predicates; staging a build into tmp uses the same directory replacement and is not modelled.
- SQLite itself: statements, transactions as such, column lists, and check constraints other than the one on outcomes, which are an arbitrary row predicate.
- Field validators of the envelope and observation models, and candidate normalization, are arbitrary functions.
- Unicode digits in a hunk header; the pattern is modelled for ASCII digits.
- In the judging, prompt rendering, clocks and the upload of results; the model answers each call of a run as it likes and the answers arrive in any order, and a failed worker ends the call at once.
- Uploads, trace files and printed payloads of the benchmark command, and its argument checks.
- Report selection, metrics, the host runtime contract and the doctor and inspect payloads: each formats or selects from a finished result in one pass and keeps no state.
