# A verified model of the backup tool

The program backs a directory tree up into a content-addressed repository: files are stored once under the hash of
their content, a snapshot is an index of paths plus a manifest, and a garbage collector removes what no snapshot names.
Around that sit a retention policy, a restore that checks every byte, a scheduler, a runner with one job slot and an
event stream, a console protocol that holds the application still, and a browser view in which paths are ticked.

This project models the parts of the Go code (and one piece of JavaScript) whose correctness is decided by the code
itself, and proves what they promise. Code that updates things in place is a class or a method with loops, proved
against specification functions; protocols in which several parties interleave are state machines over their steps;
what is promised about either is proved as lemmas over all inputs, all runs or all reachable states.

`dafny verify dfyconfig.toml` verifies everything.

| file | models |
|---|---|
| `Protocol.dfy` | backups, forget, unforget and prune interleaved step by step, with crashes |
| `Gc.dfy`, `DryRun.dfy` | `Prune`, `Forget`, `Unforget`, `Check` and the order of housekeeping, with their figures, and what a dry run of the whole says about the real run |
| `Retention.dfy` | the retention policy as the code marks it, and what it means on sets of snapshots |
| `Backup.dfy`, `Scan.dfy` | the walk, the stat-diff, reading files that change meanwhile, the commit |
| `ObjectStore.dfy` | objects: header, choice of encoding by probe and rest, `Put`, `Open` |
| `Restore.dfy`, `RoundTrip.dfy`, `Restorability.dfy` | restoring, verifying, the way from a tree through walk, backup, snapshot and restore back to the tree, and what a clean check says about restoring |
| `Selection.dfy`, `PartialRestore.dfy`, `Ticks.dfy` | the paths asked for in a restore, the restore of a part, and the tick boxes that produce the paths |
| `Glob.dfy`, `AmpExclude.dfy` | globs compiled to regular expressions, and the exclude files of the panel |
| `Jobs.dfy`, `Events.dfy` | the two halves of the job runner: slot and history, ring and watchers |
| `Quiesce.dfy` | save-off, flush and save-on, with the watchdog that turns saving back on |
| `TreeShape.dfy`, `SnapTree.dfy`, `TreeCache.dfy` | what loading an index makes of listings and paths, the browsable tree of a snapshot, and the cache of such trees |
| `Schedule.dfy` | when backups and housekeeping fire |
| `Text.dfy`, `Paths.dfy`, `Index.dfy`, `Sums.dfy`, `Wrappers.dfy` | byte order and paths, index entries, sums over maps, options and results |

## Where the code does less than it says

* The comment at `internal/restore/paths.go:55-57` says that sorted order puts a parent immediately before its
  descendants. Space, `-` and `.` sort before `/`, so `world-old` comes between `world` and what lies below it, and
  entries below `world` are missed when both are asked for. `SelectionIsExactIffSeparated` is the exact condition.
* The two lock files are different files, so a backup and a prune do not exclude each other by locking alone, and
  forget and unforget take no lock at all. `NothingIsLostIffKeptApart` is the exact condition for losing nothing. The
  daemon's single job slot keeps backups and prunes apart, but it runs forget and unforget outside that slot
  (`internal/web/api.go:635-653`), so both stretches in which they are dangerous are open to it: forgetting after a prune
  has emptied the trash and before it has listed the live snapshots, and taking a snapshot back between the two listings.
  A forget or unforget that stops between its two renames is a third way, with no overlap at all: if only the
  manifest is in the trash, the next prune marks the snapshot neither as live nor as trashed, and if only the manifest is
  back, emptying the trash takes the index. Until then unforgetting mends either (`UnforgetMends`).
* A dry run of the daily pass is said to report what forget and prune would do (`internal/ops/ops.go:353-354`). It
  prunes as if nothing had been forgotten. With the trash to be emptied it therefore leaves out what only the forgotten
  snapshots name: one selected snapshot with one old object of its own gives 0 deletions in the dry run and 1 in the real
  one (`Understates`). And it reads the indexes of the selected snapshots, which the real run has moved away: one
  selected snapshot without an index makes the dry run fail and not the real one, whether the trash is emptied or kept
  (`FailsAlone`). `BothWays` runs both and states exactly when they report the same five figures.
* A check is said to tell whether every snapshot can still be restored (`internal/repo/check.go:33-35`). Without reading
  the data it does not see other content under a hash, and it never compares sizes, nor looks whether an entry lies below
  a file: `UnreadDataPasses`, `WrongSizePasses`, `BelowAFilePasses`. The other way round it reports an index whose hash
  is not the one in the manifest, which a restore does not look at: `OtherHashIsReported`. `CheckedIsRestorableIff` and
  `WhatACheckGetsWrong` say exactly what a check that reads the data misses and what it reports in vain; of indexes that
  backups write it misses nothing but sizes.
* An event ring that is not longer than a watcher's 64 places loses events without a reset, and so does a subscriber
  whose number the runner has not reached; `NoSilentGap` is the exact condition.
* Validation of a retention policy refuses a policy that keeps nothing, except for one family: `WhatValidationMisses`.
* A lost reply to save-off leaves saving off with nobody to turn it on, a second `Release` may return before the first
  has sent save-on, and a save-on that is sent late undoes the next hold: `LostReplyLeavesSavingOff`,
  `SecondReleaseReturnsEarly`, `LateWatchdogUndoesTheNextHold`. `SavingIsOffIff` and `HeldIsOffUnlessSomebodyIsLate` say
  when saving is off.
* `ensureDir` invents one directory and stops, so an entry with two missing directories above it can end up unreachable
  from the root: `InventedIsUnreachable`. `AllReachedIffBridged` is the exact condition on an index; those a backup
  writes meet it.
* A full tree cache makes room before it looks, and so drops the very tree that is asked for if that is the oldest:
  `FullCacheDropsWhatIsAskedFor`. `Cache.Get` states when a tree is served.
* A process that restarts before its last backup was recorded backs up again at once: `UnrecordedFireIsRepeated`.
  `RestartKeepsTheIntervalIff` is the exact condition.
* Unticking something inside a ticked directory asks for listings of at most five thousand entries, so in a longer one
  the files beyond lose their tick as well: `LongListingCuts`. `Deselect` states what exactly is lost.

## Model

| member | source | states |
|---|---|---|
| Protocol.NothingReferencedIsEverLost | internal/repo/gc.go:114-231 | in every run of backup, forget, unforget and prune steps with crashes after any of them, also between the two renames of a forget or unforget, in which backups keep away from a prune and forgets and unforgets from the moments that are dangerous to them, every hash a live or trashed snapshot names is stored, and so is every hash an unfinished backup has recorded or may still copy from its parent |
| Protocol.NothingIsLostIffKeptApart | internal/repo/gc.go:114-231 | for every choice of what may happen beside a prune: no run can lose an object if and only if backups keep away from the whole prune, forgets from the stretch between the emptying of the trash and the listing of the live snapshots, unforgets from the stretch between the two listings, the listing of the trash meets no half-forgotten snapshot that was not listed as live, and the emptying of the trash meets none that is half taken back; every other overlap is safe |
| Protocol.RunKeepsInv | internal/repo/gc.go:114-231 | the inductive invariant holds in each state of such a run: besides intactness, what a prune has marked covers everything still referenced and what it has doomed is referenced by nothing |
| Protocol.StepKeepsInv | internal/repo/snapshotwriter.go:80-133 | each single step keeps that invariant: storing, copying, renaming the index before the manifest, crashing, moving one file of a snapshot, marking, sweeping, deleting |
| Protocol.StepKeepsSnapshots | internal/repo/gc.go:24-74 | one step leaves every snapshot that can be recovered recoverable with the same contents, unless it empties the trash the snapshot is in |
| Protocol.SnapshotsNeverChange | internal/repo/gc.go:24-74 | over any stretch of a run in which the trash is not emptied, a snapshot's contents stay the same and stay stored |
| Protocol.UnforgetUndoesForget | internal/repo/gc.go:24-74 | forgetting a snapshot takes it out of the listing but leaves it recoverable, and unforgetting it gives exactly the state before |
| Protocol.UnforgetMends | internal/repo/gc.go:53-74 | wherever a forget or unforget has stopped, unforgetting leaves both files in place with the contents the snapshot had |
| Protocol.BackupDuringPruneLosesAnObject | internal/repo/objectfs.go:67-121 | if backups may overlap a prune, a run is reachable after which a live snapshot names an object that was deleted: it was found stored already and was doomed |
| Protocol.ForgetDuringPruneLosesAnObject | internal/repo/gc.go:24-50 | if a snapshot may be forgotten after the trash was emptied and before the live ones are listed, a run is reachable that leaves it in the trash without an object it names |
| Protocol.LocksAloneLoseAnObject | internal/repo/repo.go:138-164 | the two lock files alone, which keep neither of these apart, do not prevent a loss |
| Protocol.UnforgetDuringPruneLosesAnObject | internal/repo/gc.go:53-74 | if a snapshot may be taken back between the two listings, a run is reachable that leaves it live without an object it names: it was marked by neither |
| Protocol.HalfForgottenLosesAnObject | internal/repo/gc.go:24-50 | if the listing of the trash may meet a forget that has stopped after moving the manifest, a run is reachable that deletes an object of that snapshot, though no step of it overlaps the prune |
| Protocol.HalfTakenBackLosesItsIndex | internal/repo/gc.go:53-74 | if the emptying of the trash may meet an unforget that has stopped after moving the manifest, a run is reachable that leaves a live snapshot without its index |
| Gc.Repository.Prune | internal/repo/gc.go:114-231 | deletes exactly the objects that no live snapshot names (nor a trashed one, unless the trash is emptied) and whose time is at or before the cutoff; fails exactly when an index it has to read cannot be read, then deleting nothing; a dry run changes nothing and reports the same figures |
| Gc.Repository.Mark | internal/repo/gc.go:141-196 | the hashes referenced are those of live snapshots plus, if the trash stays, those of every trashed index; an unreadable index is an error and never an omission |
| Gc.Repository.MarkFrom | internal/repo/gc.go:155-174 | adds the hashes of the file entries of one index, and no zero hash, to what was marked before |
| Gc.Repository.MarkAll | internal/repo/gc.go:176-195 | marks the union over all listed indexes, or fails if one of them cannot be read |
| Gc.Repository.ListObjects | internal/repo/objectfs.go:230-256 | lists every stored object exactly once |
| Gc.Repository.Sweep | internal/repo/gc.go:198-215 | finds each unreferenced object that is old enough once, and counts all objects and those spared for being recent |
| Gc.Repository.DeleteAll | internal/repo/gc.go:217-229 | removes exactly the doomed objects, or none in a dry run, and counts them and their bytes either way |
| Gc.FreedIsTheDrop | internal/repo/gc.go:217-229 | the bytes freed plus the bytes stored afterwards are the bytes stored before |
| Gc.FiguresAddUp | internal/repo/gc.go:196-229 | total objects are the deleted, the spared and the stored ones that are referenced |
| Gc.PruneKeepsWhatIsNeeded | internal/repo/gc.go:114-231 | what a live snapshot names survives the sweep, and the reported freed bytes are the drop in stored bytes |
| Gc.Repository.Forget | internal/repo/gc.go:24-50 | moves the manifest and index of each snapshot before the first malformed id to the trash, and nothing else; succeeds exactly if no id is malformed |
| Gc.Repository.Unforget | internal/repo/gc.go:53-74 | moves a snapshot's files back; a malformed id and one that has nothing in the trash are the two errors |
| Gc.ForgetThenUnforget | internal/repo/gc.go:24-74 | unforgetting undoes forgetting on both directories |
| Gc.ForgettingKeepsRoots | internal/repo/gc.go:24-50 | forgetting frees nothing: what a prune that keeps the trash marks does not shrink |
| Gc.Repository.CheckSnapshots | internal/repo/check.go:48-91 | reports exactly the snapshots whose index is missing or not the one their manifest states, and those whose index breaks off; collects every hash that the entries read refer to, whether there are problems or not |
| Gc.Repository.CheckObjects | internal/repo/check.go:93-132 | reports exactly the referenced objects that are missing, cannot be read or, when data is read, hash to something else; counts the objects re-hashed, whether there are problems or not |
| Gc.Repository.Check | internal/repo/check.go:36-134 | the report lists exactly these problems and counts; it is clean if and only if every live index is whole and the one its manifest states, and every object they name is stored and, when data is read, hashes to its name |
| Gc.ReadingFindsTheRest | internal/repo/check.go:93-132 | a check that reads the data is clean exactly if one that does not is and no stored object the live snapshots name is unreadable or hashes to something else |
| Restorability.CheckedIsRestorableIff | internal/repo/check.go:36-134 | a check that reads the data is clean, the sizes of the entries are those of the contents and no entry lies below one that is not a directory, if and only if every live snapshot can be restored in full and every index has the hash its manifest states, which a restore does not compare |
| Restorability.WhatACheckGetsWrong | internal/repo/check.go:33-134 | so a check that reads the data reports something although all can be restored exactly if an index has another hash than its manifest states, and is clean although something cannot be restored exactly if a size differs or an entry lies below a file or link |
| Restorability.RestoreSnapshot | internal/repo/repo.go:228-246 | for an index in path order with nothing below a link: reading it to its end and restoring it into nothing succeeds exactly if it is whole, its contents are intact and nothing lies below a file, whatever hash its manifest states, and gives its tree |
| Restorability.OtherHashIsReported | internal/repo/check.go:48-91 | an index of another hash than its manifest states is a problem for the check, and its snapshot is restored all the same |
| Restorability.UnreadDataPasses | internal/repo/check.go:93-132 | a stored object with other content passes a check that does not read it, and its snapshot cannot be restored |
| Restorability.WrongSizePasses | internal/repo/check.go:48-91 | an entry of the wrong size passes even a check that reads the data, and cannot be restored |
| Restorability.BelowAFilePasses | internal/repo/check.go:48-91 | so does an entry that lies below a file, both of them intact |
| Restorability.CheckAndRestore | internal/repo/check.go:36-134 | for an index in path order with nothing below a link: after a clean check with data, with agreeing sizes and nothing below a file, restoring a live snapshot into nothing succeeds and gives its tree; clean or not, it succeeds exactly if the snapshot can be restored |
| Gc.Repository.Housekeeping | internal/ops/ops.go:367-449 | if the check is asked for and finds a problem nothing at all is changed; otherwise exactly the selected snapshots before a malformed id move to the trash, only then a prune frees exactly what is named by no snapshot left, and the outcome is a success exactly if forgetting and the prune are; a dry run changes nothing and reports the figures of a prune before which nothing was forgotten |
| DryRun.ForetellsIff | internal/ops/ops.go:367-449 | with the trash to be emptied, both runs can prune and have the same five figures if and only if every index can be read, those of the selected snapshots too, and every hash a selected snapshot names is named by one that stays; the dry run never counts more deletions, and as many if and only if no stored hash that only selected snapshots name is old enough |
| DryRun.KeptTrashForetellsIff | internal/ops/ops.go:367-449 | with the trash kept, for selected live snapshots none of which has a second index in the trash: both can prune and have the same five figures if and only if the dry run can read every index |
| DryRun.ReadableIff | internal/ops/ops.go:367-449 | with the trash to be emptied the dry run can read what it has to exactly if the real run can and the indexes of the selected snapshots can be read too |
| DryRun.KeptTrashReadableIff | internal/ops/ops.go:367-449 | with the trash kept it can exactly if the real run can and no selected snapshot is without its index |
| DryRun.BothWays | internal/ops/ops.go:367-449 | the daily pass as a dry run and for real on the same repository, check included: when each succeeds, and that both do with the same five figures exactly if the check, where asked for, lets them on, the dry run can read every index and, with the trash to be emptied, every hash a selected snapshot names is named by one that stays (with the trash kept, for selected live snapshots as above); the counts of live and trashed snapshots in the two reports are not compared, they differ once a snapshot is forgotten |
| DryRun.Understates | internal/ops/ops.go:367-449 | one live snapshot that is selected and alone names an old object: the dry run reports no deletion, the real run deletes it |
| DryRun.FailsAlone | internal/ops/ops.go:367-449 | one live snapshot that is selected and has no index: the dry run fails and the real run succeeds, whether the trash is emptied or kept |
| Retention.SortNewestFirst | internal/repo/retention.go:91-95 | a permutation of the snapshots, newest first |
| Retention.MarkLast | internal/repo/retention.go:107-111 | exactly the first keepLast snapshots get that reason |
| Retention.MarkWithin | internal/repo/retention.go:113-120 | adds the reason to exactly the snapshots younger than keepWithin, and to none when that is not positive |
| Retention.MarkTags | internal/repo/retention.go:122-128 | adds one reason per kept tag a snapshot has, in the policy's order |
| Retention.MarkBucket | internal/repo/retention.go:144-160 | one in-place pass with a set of seen buckets, stopping when the count is used up, marks exactly the snapshots that open one of the newest count buckets |
| Retention.MarkBuckets | internal/repo/retention.go:130-160 | the five passes append the reasons of each unit in order |
| Retention.MarkFloor | internal/repo/retention.go:162-180 | rescues unwanted snapshots from the newest on until as many are kept as the floor asks for, or all are |
| Retention.Apply | internal/repo/retention.go:86-183 | refuses exactly what Validate refuses, and otherwise decides each snapshot as the rules on its position say, with its reasons in order |
| Retention.Split | internal/repo/retention.go:186-199 | the kept and the removed are the two parts of those decisions, in order |
| Retention.DecisionsMarkTheKept | internal/repo/retention.go:86-183 | for snapshots with distinct times a decision keeps exactly if it records a reason, and exactly if the snapshot is in the kept set of the set-level meaning |
| Retention.DistinctTimesSortStrictly | internal/repo/retention.go:91-95 | distinct start times make the order the sort gives unique |
| Retention.BucketRuleClaims | internal/repo/retention.go:144-160 | each bucket rule claims exactly min(count, distinct buckets) snapshots, one per bucket |
| Retention.ClaimedIsNewestOfItsBucket | internal/repo/retention.go:144-160 | what it claims is the newest of its bucket |
| Retention.KeptCount | internal/repo/retention.go:162-180 | the number kept is the larger of what the rules keep and min(n, floor) |
| Retention.FloorAddsTheNewest | internal/repo/retention.go:162-180 | what the floor adds are the newest of those the rules do not want |
| Retention.RulesIgnorePruning | internal/repo/retention.go:86-183 | having removed what an earlier application did not want changes nothing about what the rules want later, for any snapshots that came since |
| Retention.PruningEarlyChangesNothing | internal/repo/retention.go:86-183 | without a floor, applying the policy early and again later keeps exactly what one application to the whole history keeps; with a floor it keeps as many |
| Retention.ApplyingTwiceRemovesNothing | internal/repo/retention.go:86-183 | the policy keeps all of what it has kept |
| Retention.WhatValidationMisses | internal/repo/retention.go:61-80 | a policy that passes validation keeps nothing of any history if and only if keepWithin is negative and everything else is off |
| Selection.CanonicalPaths | internal/restore/paths.go:44-51 | all paths made canonical, or the error of the first that is empty, absolute, not canonical or escaping |
| Selection.CollapsePaths | internal/restore/paths.go:55-64 | the single pass that drops a path lying below the last one kept |
| Selection.CollapseIsCover | internal/restore/paths.go:52-64 | when no cover member continues another with a byte below '/', the pass over the sorted paths leaves exactly the requested paths that lie below no other |
| Selection.CollapseAscends | internal/restore/paths.go:52-64 | what it leaves is strictly sorted, for every request |
| Selection.AddAncestors | internal/restore/paths.go:66-71 | adds exactly the proper ancestors of one path |
| Selection.SearchStrings | internal/restore/paths.go:99-114 | binary search gives the insertion point in byte order |
| Selection.NewSelection | internal/restore/paths.go:39-73 | no request gives no selection; otherwise it fails exactly when a path is not acceptable, and gives the collapsed paths with their ancestors |
| Selection.Selection.Keep | internal/restore/paths.go:99-114 | accepts an entry if the probe finds it or its predecessor covers it, or it is a directory above a path, and records exactly the path that was found |
| Selection.Selection.Unmatched | internal/restore/paths.go:117-125 | exactly the paths no entry was found under |
| Selection.SelectionIsExactIffSeparated | internal/restore/paths.go:52-114 | for all requests: the selection accepts exactly the entries equal to or below a requested path and the directories above one, if and only if the request's cover has no member that continues another with a byte below '/' |
| Selection.AcceptedWasAskedFor | internal/restore/paths.go:99-114 | nothing is accepted that was not asked for, whatever the request |
| Selection.AskedForIsAccepted | internal/restore/paths.go:99-114 | under the condition everything asked for is accepted |
| Selection.MissedEntry | internal/restore/paths.go:55-57 | whenever the condition fails for p there is a file directly in p that is asked for and not accepted |
| Selection.SeparatedSelectionIsTheCover | internal/restore/paths.go:52-64 | under the condition the collapsed list is prefix-free |
| Selection.Collect | internal/restore/restore.go:208-234 | keeps exactly the accepted entries, in order, and has matched exactly the paths some entry was found under, for every request |
| Selection.CollectAndReport | internal/restore/restore.go:112-123 | under the condition the restore takes exactly the entries asked for, in order, and reports exactly the cover members that no entry lies at or below; without it, exactly those the probe accepts and misses |
| PartialRestore.Select | internal/restore/restore.go:89-123 | patterns and paths together are an error, then the first malformed path; otherwise the entries the patterns match, or, for an exact request of paths, the entries wanted if something is held of every path, or exactly the paths of which nothing is |
| PartialRestore.Run | internal/restore/restore.go:80-194 | restoring a part, by patterns, by paths or all: a malformed request, and one with a path the snapshot holds nothing of, changes nothing, dry run or not; otherwise the report counts the entries selected and each is in place with its time or counted as refused; into an empty target, from an index closed under parents, it succeeds exactly if every entry selected is intact, and then the target is exactly those entries and the directories above them; an exact request of paths fails for paths not found exactly if one is not, and selects exactly what was asked for |
| PartialRestore.AnyPartIsAPart | internal/restore/restore.go:80-194 | whatever part was selected, that tree has exactly the paths at or above an entry selected, and is the full restore there, but for the modes of directories that were not selected themselves |
| PartialRestore.WantedIsWhole | internal/restore/paths.go:66-71 | what an exact request of paths selects brings its directories along, so that its tree is the restored tree of the entries asked for and holds nothing else |
| PartialRestore.PartialIsAPart | internal/restore/restore.go:80-194 | and that is the full restore cut down to what was asked for: the same nodes at exactly the paths asked for |
| PartialRestore.AskedForHasParents | internal/restore/paths.go:66-71 | what is asked for of an index that is closed under parents is closed under parents, because the directories above are carried along |
| Glob.CompileGlob | internal/exclude/glob.go:162-254 | the loop that writes the regular expression builds the compiled glob, or fails as it does on an unclosed or empty class, a trailing backslash or a class the regular expressions reject |
| Glob.CompilationKeepsMeaning | internal/exclude/glob.go:162-254 | for every glob that compiles and every path without newlines, the regular expression matches exactly what the glob directly means: floating bare names, `**/` matching nothing, everything below included |
| Glob.NodesMean | internal/exclude/glob.go:162-254 | the same for the glob's pieces, by induction on glob and path |
| Glob.Compile | internal/exclude/glob.go:57-83 | lines are trimmed, empty lines and comments skipped, negations recorded; the first bad line is the error |
| Glob.Match | internal/exclude/glob.go:137-146 | a path, with a leading slash dropped, is excluded as the last matching pattern says |
| Glob.MergedRulesTakePrecedence | internal/exclude/glob.go:150-158 | in a merged set the second set decides wherever any of its patterns matches, and the first elsewhere |
| Glob.SelectsDeeper | internal/exclude/glob.go:162-254 | what a glob means includes everything below it |
| Glob.CompiledLinesAreFromGlobs | internal/exclude/glob.go:57-83 | every pattern of a compiled set matches as some glob means |
| Glob.ExclusionGoesDeeper | internal/exclude/glob.go:137-146 | a compiled set without negations that excludes a path excludes everything below it |
| Glob.QuoteGlob | internal/exclude/glob.go:98-118 | drops one trailing slash and puts a backslash before each of `*`, `?`, `[`, `]`, backslash, `!` and `#`, and before nothing else |
| Glob.QuotedMeansItself | internal/exclude/glob.go:98-118 | the escaped text means exactly the path and what lies below it |
| Glob.QuotedPathIsExact | internal/exclude/glob.go:98-118 | for a trimmed path the quoted line compiles to one plain rule that matches exactly the path and what lies below it if it has a slash, and otherwise exactly the paths with a segment equal to it |
| Scan.Walker.Visit | internal/scan/scan.go:127-222 | one callback per entry adds what the pruned subtree contributes: items, warnings, and the count and bytes left out |
| Scan.Walker.VisitAll | internal/scan/scan.go:127-222 | the same for the entries of a directory in order |
| Scan.Walk | internal/scan/scan.go:110-230 | the items of the walk, sorted by path, with its warnings and figures |
| Scan.Split | internal/scan/scan.go:256-265 | the cold and the hot items, each in the order of the walk |
| Scan.WalkedIsVisible | internal/scan/scan.go:127-222 | the walk of a tree yields exactly the recordable entries with no excluded or skipped path at or above them, in order |
| Scan.WalkedChildrenAreVisible | internal/scan/scan.go:127-222 | the same from a directory's contents, and so from the root |
| Scan.WalkedChildrenHaveParents | internal/scan/scan.go:127-222 | whatever is excluded, every item of a walk lies in the root or in a directory that is an item too |
| Scan.WalkedChildrenAreUnique | internal/scan/scan.go:127-222 | and no path is an item twice |
| Scan.WalkIsComplete | internal/scan/scan.go:110-230 | so the items a walk returns, in their order, are relative paths, each once, each with its directory |
| Scan.HiddenMeansExcluded | internal/scan/scan.go:127-222 | for rules without negations an entry is hidden by itself or an ancestor exactly if the rules exclude its own path |
| Scan.PruningOnlyFilters | internal/scan/scan.go:110-230 | for rules without negations pruning whole directories gives the same items as filtering the full listing, whatever paths are skipped |
| Scan.FurtherRulesOnlyFilter | internal/scan/scan.go:110-230 | filtering the items of a walk under some rules by further ones gives the items of a walk under both |
| Scan.PreviewExclusions | internal/ops/ops.go:516-534 | counts the excluded entries and their bytes and shows the first twenty excluded files |
| Scan.PreviewCountsWhatAWalkLeavesOut | internal/ops/ops.go:491-536 | the entries that a preview of further rules counts in the index of a walk, and the entries a walk of the same tree with those rules added records, make up that index, entry for entry, whatever rules and skipped paths the first walk had |
| Backup.NothingHappened | internal/scan/scan.go:237-253 | if every write changes the stat data, equal stat data at two moments mean that nothing happened between them |
| Backup.TheOnlyHash | internal/scan/scan.go:237-253 | an old entry whose stat data still fit the file can hold no other hash than that of the file's content |
| Backup.Runner.Attempt | internal/backup/backup.go:300-346 | one attempt at a file: what was read is stored; if the stat data afterwards are those the file was looked at with, it is stored under the hash of the content they stand for, whatever torn reads return; a file that keeps still is always taken |
| Backup.Runner.ReadFile | internal/backup/backup.go:300-346 | the loop of read and look again, up to its limit: without a warning the entry holds the hash of the content its stat data stand for, whatever torn reads return; a file that keeps still is recorded exactly |
| Backup.Runner.StoreFile | internal/backup/backup.go:284-346 | the same when the previous snapshot vouches for the file and nothing is read; the hash is stored in either case, and what is recorded is counted once, as vouched for, new or found stored |
| Backup.Runner.Try | internal/backup/backup.go:306-344 | one turn of that loop: another turn, with the file as it looks now and one more second reading counted, or the end, with what is recorded counted once and right unless that gave a warning; a file that keeps still needs no second turn |
| Backup.Runner.Process | internal/backup/backup.go:241-280 | a phase records only stored hashes, faithful ones as long as it has not warned, and on a still tree exactly one entry per item; the files counted are always those vouched for, stored anew and found stored; on a still tree the counters are exactly the files, directories, links and bytes of the items, the files the previous snapshot vouches for and no second reading, and the contents counted as new are the growth of the store |
| Backup.Runner.BothPhases | internal/backup/backup.go:155-180 | cold phase, quiesce, hot phase, release: it ends early on the first failure, and on a still tree records exactly the tree, paranoid or not |
| Backup.SortedKeys | internal/backup/backup.go:188-192 | the recorded paths in byte order, each once |
| Backup.Commit | internal/backup/backup.go:182-198 | the index lists exactly the recorded entries in path order |
| Backup.OneIndexOnly | internal/backup/backup.go:182-198 | there is only one such index for the same entries |
| Backup.Repository.LatestFor | internal/repo/repo.go:256-267 | the complete snapshot of the instance with the greatest id, or none if there is none |
| Backup.Repository.LoadParentIndex | internal/backup/backup.go:348-369 | the entries of that snapshot by path; nothing without a parent |
| Backup.Repository.Publish | internal/backup/backup.go:182-230 | the new snapshot has the index that lists the entries and the state given, and the others are as they were |
| Backup.Repository.Run | internal/backup/backup.go:113-230 | over any history of writes: every complete snapshot's file entries hold the hash of the content their stat data stand for and every entry's object is stored; a run that does not commit leaves the snapshots alone; on a still tree it commits the one index that describes the tree, incremental or paranoid |
| ObjectStore.HeadersAreSelfDescribing | internal/repo/object.go:25-49 | a header decodes to an algorithm exactly if it is long enough and begins as the encoder writes it for that algorithm |
| ObjectStore.FileIsReadable | internal/repo/objectfs.go:126-228 | what is written with either encoding reads back as the content |
| ObjectStore.Store.WriteObject | internal/repo/objectfs.go:126-192 | the probe and the rest together make up the whole file, whatever the probe decided; hash and size are those of the content; it fails exactly if the source fails; the result is compressed exactly if the name is not of a kind known to be compressed and the content is empty or compressing its first mebibyte saves at least a twentieth |
| ObjectStore.Store.Put | internal/repo/objectfs.go:67-121 | stores the content under its hash, once: an object that is there is left as it is and reported as not new; on failure nothing changes |
| ObjectStore.Store.Open | internal/repo/objectfs.go:194-228 | the content of the object, or the error its absence or its header gives |
| ObjectStore.Store.OpenReturnsWhatWasPut | internal/repo/objectfs.go:194-228 | opening the hash of a content that is stored returns that content |
| ObjectStore.Store.Delete | internal/repo/objectfs.go:258-264 | removes that object and no other; what is not there is no error |
| Restore.Target.MakeDirs | internal/restore/restore.go:145-158 | creates the missing directories down to the path with the given mode, however many levels, changes nothing that exists, and fails exactly if the lowest thing that exists at or above the path is not a directory |
| Restore.Target.WriteFile | internal/restore/restore.go:290-354 | leaves a file only with content that hashes and measures as the entry says, and for a zero hash an empty file or the link that leads to one; a failure leaves what was there; if nothing is in its way it succeeds exactly if the object is intact, with what is missing above it made |
| Restore.Target.WriteLink | internal/restore/restore.go:270-286 | leaves the link the entry says and touches only directories above it otherwise; succeeds if nothing is in its way |
| Restore.Target.MakeAll | internal/restore/restore.go:145-158 | all directories with owner access added, before any file; into nothing it cannot fail and makes exactly those and the ones above them, each with the mode of the first entry that needs it |
| Restore.Target.WriteAll | internal/restore/restore.go:160-184 | every file and link as its entry says, never a file without a matching entry; over the directories alone it succeeds exactly if every object is intact and nothing lies below a file or link |
| Restore.Target.WriteTree | internal/restore/restore.go:145-184 | directories first, then the rest; from nothing it succeeds exactly then and gives exactly the entries and the directories above them |
| Restore.Target.ApplyTimes | internal/restore/restore.go:366-406 | every entry that has a time and is there gets it, unless it belongs to somebody else, and exactly those refused are counted |
| Restore.Target.Run | internal/restore/restore.go:80-194 | refuses a target that is not empty; a dry run touches nothing and counts what the real run counts; for any index in path order with nothing below a link, into an empty target it succeeds exactly if every object is intact and nothing lies below a file, and then the tree is exactly the entries and the directories above them; if the index is closed under parents it succeeds exactly if every object is intact and the tree is the restored tree; no file ever holds bytes the index does not vouch for |
| Restore.BlockedIff | internal/restore/restore.go:160-184 | while the entries are written into what was empty, something is in the way of one exactly if a directory is listed below it or a file or link that came before lies above it |
| Restore.StandsIsRestored | internal/restore/restore.go:145-184 | what stands in the end is each entry with its content, target and mode, and above them the directories that no entry names, with the mode of the first listed directory below or the plain one; nothing else |
| Restore.ClosedIsClear | internal/restore/restore.go:145-184 | in an index closed under parents nothing lies below a file or link, and every directory above an entry is listed |
| Restore.ClosedIsWhole | internal/restore/restore.go:145-184 | so what stands after restoring it is the restored tree of its entries |
| Restore.Target.Verify | internal/restore/restore.go:411-472 | no difference is reported exactly if every entry is there with its type, target, size, mode and hash |
| Restore.RestoredIsExact | internal/restore/restore.go:145-184 | every entry is in the restored tree with its content, target and mode, directories with owner access added |
| Restore.RestoredHasNothingElse | internal/restore/restore.go:145-184 | and nothing else is |
| Restore.VerifyAfterRestore | internal/restore/restore.go:411-472 | verifying a restored tree finds nothing to report if and only if every directory entry had owner access to begin with |
| Restore.RestoringGivesTheTree | internal/restore/restore.go:80-194 | an index that describes a tree restores to that tree |
| RoundTrip.IndexDescribesTheTree | internal/backup/backup.go:113-230 | the index a run commits of a still tree describes that tree |
| RoundTrip.SnapshotThenRestore | internal/restore/restore.go:80-194 | that index restored into nothing with every content stored is the tree, with owner access on directories |
| RoundTrip.WalkGivesParents | internal/backup/backup.go:113-230 | the index of a walk of a still tree is in path order and closed under parents, which is what an exact restore needs |
| RoundTrip.RestoreInto | internal/restore/restore.go:80-194 | restoring such a snapshot from the repository into nothing succeeds and gives the tree, and verifying the target reports nothing exactly if every directory let its owner in |
| RoundTrip.BackUpAndRestore | internal/backup/backup.go:113-230 | from walk to target: of a tree that keeps still a run, incremental or paranoid, commits a snapshot, complete exactly if the walk warned of nothing, and restoring it gives the tree back: every path, type, link target, content, file mode and, but for owner access, directory mode |
| Events.Watcher.Send | internal/jobs/jobs.go:422-433 | a send that does not wait: it succeeds exactly if one of the 64 places is free, and is never made on a closed channel |
| Events.Watcher.Offer | internal/jobs/jobs.go:422-433 | a watcher that is full is closed and keeps what it has |
| Events.Watcher.Receive | internal/jobs/jobs.go:326-356 | taking an event out of the channel takes the oldest and changes nothing about the stream |
| Events.Watcher.Drain | internal/jobs/jobs.go:448-456 | empties the channel |
| Events.Feed.Ring | internal/jobs/jobs.go:413-419 | the event gets the next number, and the ring holds the last events published, as many as its capacity |
| Events.Feed.FanOut | internal/jobs/jobs.go:421-435 | the in-place filter offers the event to every watcher once and keeps exactly those that took it |
| Events.Feed.Publish | internal/jobs/jobs.go:413-436 | ring and watchers together: afterwards every watcher that was ever subscribed still has one unbroken stretch of the published events |
| Events.Feed.EventsAfter | internal/jobs/jobs.go:399-409 | the events after a number, as far back as the ring reaches |
| Events.Feed.Fill | internal/jobs/jobs.go:330-341 | replaying a backlog into 64 places, starting over with a reset when they are used up |
| Events.Feed.Replay | internal/jobs/jobs.go:326-356 | a new watcher's stream is the consecutive events after its number, or a reset and the consecutive last ones |
| Events.Feed.Subscribe | internal/jobs/jobs.go:326-356 | the same with the watcher registered; the others are untouched |
| Events.Feed.Take | internal/jobs/jobs.go:326-356 | a subscriber that takes an event gets the oldest in its channel, and its stream is what it was |
| Events.Feed.Unsubscribe | internal/jobs/jobs.go:344-356 | closes the watcher if it is open, and takes exactly it off the list |
| Events.Feed.CloseWatchers | internal/jobs/jobs.go:386-394 | closes every open watcher once and leaves none |
| Events.OfferedStillFollows | internal/jobs/jobs.go:413-436 | live delivery continues a stream without gap or repetition, or ends it |
| Events.SubscriberSeesEveryNumber | internal/jobs/jobs.go:326-356 | what a subscriber receives until it is closed is numbered consecutively, from just after the number it asked for unless it begins with a reset, and up to the latest event while it is open |
| Events.NoSilentGap | internal/jobs/jobs.go:399-409 | a replay leaves events out without saying so if and only if the number is ahead of the runner, or the ring fits into the channel and has dropped events the subscriber has not seen |
| Events.RingMustExceedChannel | internal/jobs/jobs.go:104-105 | the ring is longer than the channel if and only if there is no such gap for any number that was published |
| Events.KeptIsARemainder | internal/jobs/jobs.go:330-341 | of a backlog of more than 64 events the subscriber gets a reset and the last (length - 65) mod 64 |
| Jobs.DecimalIsInjective | internal/jobs/jobs.go:130-132 | different counters are written differently |
| Jobs.IdsDiffer | internal/jobs/jobs.go:130-132 | job ids with different counters differ, whatever kind and time they begin with |
| Jobs.Runner.NewIdIsNew | internal/jobs/jobs.go:174-208 | the next id is not in use |
| Jobs.Record.Finish | internal/jobs/jobs.go:225-253 | how a job's record ends: cancelled exactly if its context was done before, else failed or succeeded; a result that cannot be encoded leaves a warning in the log |
| Jobs.Runner.Submit | internal/jobs/jobs.go:174-208 | refuses while shutting down or busy, naming the job in the slot; otherwise the job is running, current and announced; at most one record runs, byID holds exactly the history and the current job, and the state of a finished record never changes |
| Jobs.Runner.Finish | internal/jobs/jobs.go:225-259 | the slot is free, the job is the last of a history that does not exceed its capacity, and its end is announced |
| Jobs.Runner.ForgetOld | internal/jobs/jobs.go:262-268 | the history keeps its last jobs up to its capacity, and byID loses exactly those dropped |
| Jobs.Runner.Cancel | internal/jobs/jobs.go:306-319 | only the current job can be asked to stop; of others it says whether they have ended or are unknown |
| Jobs.Runner.BeginShutdown | internal/jobs/jobs.go:366-373 | no further job is accepted and the running one is asked to stop |
| Jobs.Runner.EndShutdown | internal/jobs/jobs.go:386-394 | once no job runs every watcher is closed |
| Jobs.Runner.Stage | internal/jobs/handle.go:30-47 | the record always has the latest stage, and an event goes out exactly if the stage changed, is finished or the throttle has elapsed since the last |
| Jobs.Runner.Logf | internal/jobs/handle.go:53-61 | the line is the last of the job's bounded log and is published |
| Jobs.Runner.List | internal/jobs/jobs.go:292-303 | the history and the current job, as they are |
| Quiesce.StepKeepsInv | internal/quiesce/console.go:118-275 | every interleaved step of one Quiesce at a time, any number of Releases and every watchdog keeps the invariant |
| Quiesce.EveryHoldIsEndedOnce | internal/quiesce/console.go:206-275 | every hold that was released or timed out has one owner, a Release or a watchdog, which has sent the only save-on for it or is about to; nobody else ever sends one |
| Quiesce.ReleaseOrTimerEndsTheHold | internal/quiesce/console.go:206-275 | once a Release that began after a hold has returned, or a watchdog has looked, that hold has such an owner, and save-on has been sent for it exactly if the owner no longer has it to send |
| Quiesce.SavingIsOffIff | internal/quiesce/console.go:118-275 | with nothing under way saving is off if and only if a save-off got through and no save-on since; if that save-off was acknowledged the one save-on for the last hold was lost; and with at most one hold saving is off exactly if a save-off was not acknowledged or that save-on was lost |
| Quiesce.HeldIsOffUnlessSomebodyIsLate | internal/quiesce/console.go:118-275 | while the application is held saving is off, except if the owner of an earlier hold sent its save-on after the save-off; if every earlier hold had its save-on sent by then, saving is off |
| Quiesce.LateWatchdogUndoesTheNextHold | internal/quiesce/console.go:235-275 | a reachable state: the application is held a second time and saving is on, because the watchdog of the first hold sent its save-on late |
| Quiesce.HeldIsGuarded | internal/quiesce/console.go:235-275 | while the application is held its watchdog has not been stopped and can still act |
| Quiesce.ConfirmedByANewLine | internal/quiesce/console.go:171-202 | a Quiesce that was not skipped succeeds only on a matching line that appeared after the console was drained |
| Quiesce.LostReplyLeavesSavingOff | internal/quiesce/console.go:118-168 | a reachable state: save-off got through, its reply was lost, and saving stays off although Release was called |
| Quiesce.SecondReleaseReturnsEarly | internal/quiesce/console.go:206-230 | a reachable state: a Release has returned while the first has not yet sent its save-on |
| Quiesce.Confirmation | internal/quiesce/console.go:171-202 | the first matching line from a position on, or none exactly if there is none |
| SnapTree.Tree.EnsureDir | internal/snaptree/snaptree.go:207-221 | the loop gives, for any tree and directory, the recursive meaning: a directory without a listing gets one and, unless its node is known, is invented in its parent, and then the same for the parent; TreeShape.AddedIs and TreeShape.InventedIsReachedIff say what that comes to |
| SnapTree.Tree.Add | internal/snaptree/snaptree.go:176-200 | for any entry, its directory known or not: the listing of its directory and the map by path get it, its own listing is opened if it is a directory, its directory is invented if unknown; counts and bytes grow by it |
| SnapTree.Tree.Load | internal/snaptree/snaptree.go:147-168 | fails exactly if the index is over the limit; otherwise the tree is what adding the entries one by one gives, for any index |
| SnapTree.PathOrderGrows | internal/snaptree/snaptree.go:176-221 | of a bridged index in path order the tree holds after every entry exactly the entries and the directories invented for them, every directory before what is in it |
| SnapTree.AddUp | internal/snaptree/snaptree.go:237-246 | the walk up the ancestors adds one entry to exactly the directories it lies below |
| SnapTree.Totals | internal/snaptree/snaptree.go:225-246 | afterwards each directory has the count and byte sum of the entries below it that are not directories |
| SnapTree.WriteBack | internal/snaptree/snaptree.go:247-256 | both stored views of each directory get its totals, everything else stays |
| SnapTree.SortNodes | internal/snaptree/snaptree.go:259-274 | a permutation with directories first and by name |
| SnapTree.Tree.RollUp | internal/snaptree/snaptree.go:225-257 | totals are in place in listings and by path |
| SnapTree.Tree.Sort | internal/snaptree/snaptree.go:259-274 | every listing is in order, with the same nodes |
| SnapTree.Tree.Build | internal/snaptree/snaptree.go:139-174 | for every index in path order: all its entries can be reached from the root if and only if it is bridged, and then the tree has every entry as it is, every node is in the listing of its directory once, as it is by path, and in no other, and the figures of every directory are the sums over its listing |
| SnapTree.AllReachedIffBridged | internal/snaptree/snaptree.go:147-221 | the condition on the index alone: no entry lies in a directory that is missing below a directory that is missing too, unless something directly in the upper one has come before |
| SnapTree.ClosedIsBridged | internal/snaptree/snaptree.go:147-221 | an index that is closed under parents, as a backup writes it, meets it |
| SnapTree.TreeIsTheIndex | internal/snaptree/snaptree.go:176-221 | the nodes of a bridged index are its entries as they are and, as directories, the missing directories of its entries |
| TreeShape.AddedIs | internal/snaptree/snaptree.go:176-221 | ensureDir invents at most one directory: having listed it in its parent it takes the parent for known |
| TreeShape.LoadedIsSane | internal/snaptree/snaptree.go:147-221 | for every index in path order no path is listed twice, listings and the map by path agree, and every node is an entry or the directory of one |
| TreeShape.InventedIsReachedIff | internal/snaptree/snaptree.go:207-221 | an invented directory is reached from the root if and only if its parent is the root or was reached before |
| TreeShape.UnsupportedIsUnreachable | internal/snaptree/snaptree.go:147-221 | an entry that breaks the condition cannot be reached |
| SnapTree.Tree.List | internal/snaptree/snaptree.go:77-95 | a page of a directory's listing with the whole length, whatever offset and limit; an unknown directory is not ok |
| SnapTree.ListingIsExact | internal/snaptree/snaptree.go:139-257 | in the finished tree of a bridged index a directory lists each of its nodes once, as it is stored by path, and nothing else |
| SnapTree.EveryEntryIsReached | internal/snaptree/snaptree.go:139-257 | every entry of a bridged index is reached from the root through listings |
| SnapTree.InventedIsUnreachable | internal/snaptree/snaptree.go:207-221 | building the tree of any single entry with two directories above it leaves that entry out of reach |
| SnapTree.TotalsCount | internal/snaptree/snaptree.go:225-246 | the totals are the number of entries below that are not directories and the sum of their sizes |
| SnapTree.TotalIsSumOverListing | internal/snaptree/snaptree.go:225-246 | what lies below a directory is made up by the shares of what it lists |
| SnapTree.ShownTotalsAddUp | internal/snaptree/snaptree.go:225-257 | in the finished tree of a bridged index the count and bytes shown for a directory are the sums over its listing, whose directories show their own |
| SnapTree.BuiltTree | internal/snaptree/snaptree.go:139-257 | the three together, for any tree that shows such an index |
| SnapTree.PagesMakeTheListing | internal/snaptree/snaptree.go:77-95 | pages of any positive size put together are the whole listing |
| TreeCache.Cache.Evict | internal/snaptree/snaptree.go:380-400 | drops the idle trees and then the least recently used ones until there is room for one more, and no other |
| TreeCache.KeptIfAnotherIsOlder | internal/snaptree/snaptree.go:380-400 | when one must go, a tree stays if some other was used before it, and only if some other was not used after it |
| TreeCache.Cache.Get | internal/snaptree/snaptree.go:340-363 | the tree asked for is cached with the present time and the bound is kept; it is served without building if it is there, not idle, and there is room or another such tree was used before it; with distinct times exactly then |
| TreeCache.FullCacheDropsWhatIsAskedFor | internal/snaptree/snaptree.go:340-363 | a request to a full cache for the tree that was used least recently is never served from it |
| TreeCache.DroppingTheOldest | internal/snaptree/snaptree.go:380-400 | dropping the oldest keeps the rest no older than anything dropped |
| Ticks.Browser.CoveredBySelection | internal/web/assets/Plugin.js:366-372 | the loop finds exactly whether the path or one above it is selected |
| Ticks.Browser.Select | internal/web/assets/Plugin.js:376-381 | ticking an uncovered box keeps the selection prefix-free and adds exactly that subtree to what is covered |
| Ticks.Browser.Deselect | internal/web/assets/Plugin.js:387-398 | unticking a covered box keeps the selection prefix-free and takes away that subtree, the ancestors up to the selected one and what listings cut at five thousand entries leave out beside the way down; that is exactly the subtree and the ancestors if and only if they leave nothing out; unticking an uncovered box changes nothing |
| Ticks.Browser.ExpandAround | internal/web/assets/Plugin.js:402-415 | terminates and adds exactly the siblings along the way down to the excluded path that are on the pages listed |
| Ticks.SelectedCovers | internal/web/assets/Plugin.js:376-381 | what replacing the paths below by the ticked one covers |
| Ticks.SelectedIsPrefixFree | internal/web/assets/Plugin.js:376-381 | that leaves no path below another |
| Ticks.RemovedUnticks | internal/web/assets/Plugin.js:387-389 | removing a selected path unticks exactly its subtree |
| Ticks.ExpandedUnticks | internal/web/assets/Plugin.js:390-398 | replacing a selected ancestor by the siblings shown around the path unticks the path's subtree, the directories between and what is cut off, and nothing else |
| Ticks.ShortListingsCutNothing | internal/web/assets/Plugin.js:402-415 | if no directory on the way lists more than five thousand entries, nothing is cut off |
| Ticks.LongListingCuts | internal/web/assets/Plugin.js:402-415 | if one lists at least two more than that, something is |
| Ticks.AroundCoversOnly | internal/web/assets/Plugin.js:402-415 | the siblings cover nothing at, below or above the excluded path |
| Ticks.AroundCoversAll | internal/web/assets/Plugin.js:402-415 | and everything else below the ancestor |
| Schedule.NextHousekeeping | internal/schedule/schedule.go:257-273 | the first daily slot strictly in the future |
| Schedule.Scheduler.Recompute | internal/schedule/schedule.go:177-239 | the next backup is the least moment that is not before now, nor before the last known run (or the start) plus the interval, nor before the start plus grace |
| Schedule.Scheduler.UntilNext | internal/schedule/schedule.go:150-174 | sleeps to whatever is due first, at most the longest sleep, never past it and never less than nothing |
| Schedule.Scheduler.FireDue | internal/schedule/schedule.go:276-300 | fires exactly what is due, and remembers when a backup was |
| Schedule.Scheduler.Wake | internal/schedule/schedule.go:106-135 | one turn of the loop, jitter included, keeps fires spaced and slots unrepeated |
| Schedule.Scheduler.Refresh | internal/schedule/schedule.go:103 | recomputing at any other moment does too |
| Schedule.Scheduler.Restart | internal/schedule/schedule.go:66-84 | a new process keeps the spacing if and only if nothing was fired, backups are off, or what is on record is recent enough |
| Schedule.RestartKeepsTheIntervalIff | internal/schedule/schedule.go:66-84 | for all settings, records and moments: the first backup a new process schedules is an interval after the last fire if and only if nothing is on record, the record is no older than that fire, or the grace period reaches that far |
| Schedule.Run | internal/schedule/schedule.go:106-135 | over every run of the loop with any number of restarts, two backups are at least the interval apart and no housekeeping slot fires twice |
| Schedule.UnrecordedFireIsRepeated | internal/schedule/schedule.go:66-84 | whenever an older run is on record, there is no grace and the restart comes within the interval after an unrecorded fire, the new process is due at once |
| AmpExclude.Parse | internal/exclude/ampexclude.go:43-81 | a line with a separator is an error; otherwise the rules in order under their directory, or the directory itself if there are none, which at the root is an error |
| AmpExclude.Render | internal/exclude/ampexclude.go:142-162 | each pattern is dropped, reported as unsupported or put into its directory's file, in order |
| AmpExclude.ComesBackIffExpressible | internal/exclude/ampexclude.go:142-162 | a pattern put into a file is read back as itself if and only if it is trimmed, has no negation, `**`, empty segment or edge slash, and its last segment begins with neither '#' nor white space |
| AmpExclude.FilesHoldThePatterns | internal/exclude/ampexclude.go:142-162 | each directory's file reads back as exactly the patterns of that directory, in order |
| AmpExclude.ThereAndBack | internal/exclude/ampexclude.go:43-162 | rendering such patterns and parsing all the files gives the same multiset of patterns, for any number of directories |
| Text.BetweenDirAndEntry | internal/restore/paths.go:55-57 | a path that sorts between a directory and an entry below it lies below the directory too, or continues its name with a byte below '/' |
| Text.SiblingBeforeContents | internal/restore/paths.go:55-57 | such a continuation sorts before everything below the directory |
| Paths.WayDown | internal/web/assets/Plugin.js:402-415 | the way from a directory to anything below it leads through something the directory lists |

## Left out

- Protocol.NothingReferencedIsEverLost: each of the two listings, and the emptying of the trash, is a single step.
- Protocol.SnapshotsNeverChange: stretches in which the trash is emptied are excluded, because emptying it is meant to lose what it holds.
- Gc.Repository.Prune: marking, sweeping and deleting run without interference here; interleavings are the subject of Protocol. An object deleted by someone else meanwhile is not modelled.
- Gc.Repository.Housekeeping: which snapshots the retention selects is a parameter; Retention says which those are. Failures of the file system during the check are left out.
- Retention.DecisionsMarkTheKept: needs distinct start times, because the sort the code uses may put equal ones in any order.
- Retention.Apply: the keys of hours, days, weeks, months and years are given with each snapshot; calendar arithmetic and time zones are left out.
- Selection.Collect: the index is read in path order, so the sort that follows, which then changes nothing, is left out; restoring by patterns is in PartialRestore.Select.
- PartialRestore.Run: for a request of paths that is not exact, what is selected is what the probe accepts; Selection.MissedEntry shows that this misses entries. Indexes that are not closed under parents are covered for full restores only, by Restore.Target.Run.
- Selection.CanonicalPaths: cleaning is a predicate on the path; the standard library's path cleaning is not modelled further.
- Glob.CompilationKeepsMeaning: a class whose body holds '[' or a backslash, or nothing after its sign, counts as one the regular expressions reject; paths with a newline are excluded because a dot does not match one.
- Glob.Match: a negated class such as `[!x]` matches a slash, as in the code.
- Scan.Walk: an unreadable root, and errors other than an unreadable directory or entry, are left out; so is the second warning for a directory that vanishes.
- Scan.PreviewCountsWhatAWalkLeavesOut: for rules without negations, as pruning a directory also prunes what a negation would take back below it, and for rules that are added; what a dropped rule brings back is not in the index.
- Backup.Runner.Process: bytes newly written are not counted; while the tree changes only the balance of the counters is stated, not each of them.
- Backup.Repository.Run: assumes that every write leaves stat data the path has not had before, which is what the stat-diff rests on; cancellation is an early failure; disk space is not checked.
- Backup.Runner.ReadFile: a read is one access that a change may overlap or not; what it returns in the first case is arbitrary.
- ObjectStore.Store.Put: the compressor is an invertible function and the hash is injective on the contents stored; fsync and temporary names are left out.
- ObjectStore.Store.WriteObject: upper-case letters outside ASCII in a file name's extension are not folded.
- Restore.Target.Run: umask, permissions, ownership and full disks are left out; loading the manifest, its partial-snapshot warning and the joining of canonical paths to the target are too; links are not followed: one above an entry, in the target before or in the index, counts as in the way, where the code goes through it if it leads to a directory.
- Restore.Target.WriteFile: an existing file under a zero hash keeps its mode, and a link there is followed, as in the code; whether what it leads to can be emptied is left out.
- Restore.Target.ApplyTimes: setting a time disturbs no other in this model, so that the code goes deepest first is not what the result rests on.
- Restore.Target.Verify: a directory or link in the place of a file is always a difference.
- Events.SubscriberSeesEveryNumber: ring and watchers are an object of their own here, while the program keeps them in the runner under one mutex; Jobs holds it as a part.
- Jobs.IdsDiffer: ids are those of the default generator.
- Jobs.Runner.Stage: a handle is used only with records of its runner; one kept beyond its job still updates the record's stage, never its state.
- Quiesce.SavingIsOffIff: that saving is always on in the end does not hold, since the only attempt may fail.
- Quiesce.EveryHoldIsEndedOnce: a state machine over steps instead of the class, since calls and watchdogs run concurrently; timers fire at any moment, and polling ends by giving up at any moment.
- SnapTree.Tree.Build: for indexes in path order, which is the order every index is written in.
- TreeCache.Cache.Get: among trees last used at the same moment any may go, as the code does not say which; the two directions are stated apart for them.
- Ticks.Browser.ExpandAround: which entries a listing that is too long comes back with is left open; a selection that changes while a listing is awaited is left out.
- Schedule.Run: settings do not change during a run and the clock does not go back; what an earlier process fired is on record when a new one starts, and Schedule.Scheduler.Restart says when less is enough; that housekeeping is never missed is not claimed, since a slot that passes during the jitter wait is recomputed to the next day.
- Schedule.NextHousekeeping: the calendar is any increasing sequence of daily slots; daylight saving and time zones are left out.
- AmpExclude.Parse: files are sequences of lines; limits of the line reader are left out.
- SnapshotWriter: the temporary index, its renaming and Abort are steps of Protocol and the method Backup.Commit; the JSON encoding is left out.
- The HTTP client of the panel, web handlers, sessions, settings, the command line, the state file, statistics and search are plumbing or would only add easy members.
