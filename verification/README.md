# Launcher backend: verified model

A Dafny model of the small protocols and loops in the Go backend of the launcher
whose comments promise something about every run: moving the data folder with
crash recovery, the build skin and its snapshot, console batching, pausing and
cancelling an import, the blocked-mods dialog, resumable downloads, two
dependency searches over graphs that may be cyclic, the clipboard bitmap, and
four list algorithms with a stated contract.

`dafny verify dfyconfig.toml` checks the whole project.

## How it is built

Each file is one module and follows one component of the backend.

| file | component |
|---|---|
| `MigrationCopy.dfy`, `MigrationTree.dfy`, `MigrationWalk.dfy`, `Migration.dfy`, `MigrationAnyRun.dfy`, `MigrationErrors.dfy`, `MigrationWrongFiles.dfy`, `MigrationCache.dfy`, `MigrationExamples.dfy`, `MigrationProgram.dfy` | `backend/data_migration.go` |
| `SkinSnapshot.dfy`, `SkinRestoreRace.dfy` | `backend/build_skin.go` |
| `ConsoleBatch.dfy` | `backend/console_batch.go` |
| `ImportPause.dfy`, `BlockedMods.dfy`, `PackIds.dfy` | `backend/custompack_api.go` |
| `ResumableDownload.dfy`, `VersionDeps.dfy` | `backend/browser_api.go` |
| `TempMods.dfy`, `Reach.dfy` | `backend/browser_tempmods_api.go`, and reachability for both searches |
| `DibEncoder.dfy` | `backend/clipboard_windows.go` |
| `ServerList.dfy`, `ServerCopy.dfy` | `backend/app.go` |
| `FreeName.dfy` | `backend/duplicate_pack.go`, `backend/content_api.go` |
| `Common.dfy` | options, joining lists, trimming |

The program's own steps are methods: classes with the fields the source changes,
loops where the source has loops. Each is proved against a function on values, and
the promises are proved about those functions: about every run, every
interleaving, every input. What the outside world does (a server, a disk, the
Mojang API, the moment of a crash) is an input of each step, so a statement about
all runs is a statement about all worlds. Protocols with several goroutines are
state machines whose steps are single critical sections or single reads and writes.

## What is false as promised, and when it holds

* **Console.** Batches leave the lock in order, but `flush` runs outside it, so two
  batches can be delivered in the wrong order (`DeliveryCanReorder`). What the front end has is the
  beginning of what was added exactly if each holder of a batch waits until all earlier ones are delivered
  (`DeliveryKeepsOrderExactly`). As a bag, everything handed out and delivered is what was added.
* **Clipboard bitmap.** The round trip holds exactly when width, height and pixel area fit the
  header's 32-bit fields (`DecodeEncode`).
* **Reordering servers** promises that no server gets lost. It is a permutation exactly when no
  address that is named is stored twice (`ReorderIsPermutation`).
* **Copying servers in a batch** equals copying one by one, whatever the target list, exactly when no
  requested server is stored in the source under two names (`BatchIsEachExactly`): the batch takes
  the last entry, the simple copy the first. With one pack as source and target they agree exactly when no requested
  server is stored a second time under another name (`BatchIntoItselfExactly`).
* **Renaming a pack and back** restores everything exactly when the new ID was free (`RenameBackRestores`).
* **Resumable download.** A `.part` file that is already complete asks for an empty range and is refused
  (416, section 15.5.17 of RFC 9110) at every later call; a crash just before the rename leads there
  (`CompletePartIsStuck`, `StuckStateIsReachable`). A call that meets only failures it tries again, until one
  attempt works, succeeds exactly when `.part` was not complete or the first reply ignores ranges (`CallSucceedsExactly`).
  From call to call the `.part` file never gets shorter with servers that honour ranges (`PartNeverShrinks`), but a call that
  begins without one asks for everything again at each retry and loses what came before (`RetryStartsOver`).
* **Build skin.** A texture or cape list that cannot be fetched is silently left out of the snapshot, and the API
  cannot take a skin off; a snapshot brings its look back exactly when neither happened
  (`ShotBringsBack`). Launching again over an outstanding snapshot loses the original
  unless the account wears it (`RelaunchOverSnapshot`). With several builds each restore brings back the look from before
  its own launch, in any interleaving (`SessionRestores`, `ExitBringsBack`). So when all is over the account wears
  the original exactly when the session restored last was launched while the original was worn
  (`EndsInOriginalExactly`); sessions that end in the reverse order of their starts are one such case
  (`NestedSessionRestores`), sessions that cross need not be (`CrossedSessions`).
* **Launching beside a restore.** A restore retries in its own goroutine; the comments rely on its look at the running
  games to keep it from disturbing a new launch. But the preset is put on before the game counts as running, so the old restore
  can delete the new snapshot. A launch with a complete snapshot is safe in every way things can go on exactly when
  no restore is on its way and the original is worn (`RelaunchIsSafeExactly`); if all launches begin like that, the original survives
  every interleaving (`OriginalSurvivesRestores`).
* **Pausing an import.** The handler's last word holds when the cancel function was called before the importer
  returned (`PauseHasTheLastWord`); in general the pack shows "paused" exactly when the handler saw
  the cancelled context or the pause showed itself last (`PausedExactly`), and an accepted
  pause can leave no trace in the window (`AcceptedPauseCanVanish`), while its mark stays behind exactly when the import
  failed by itself (`MarkStaysExactly`). A cancel is not asserted again: it sticks in every way
  things can go on exactly when no progress tick is in flight and none can follow (`CancelSticksExactly`); such a
  tick is possible (`LateTickOutlivesCancel`).
* **Blocked-mods dialog.** A reply that finds the channel before the question is asked takes its only slot, and the
  player's real answer is dropped (`FirstReplyAfterEvent`, `EarlyReplyTakesTheSlot`).
* **Migration.** With crashes only, every user file arrives. An error is different: the failed sub-folder
  is already off the list when the list is saved, so after any attempt that returns an error the next start takes the new
  folder without what is missing there (`FailureThenRestart`; `LostSkin` is a concrete case). The other sub-folders on the list
  arrive with every file, and none of these is wrong (`OtherSubsArrive`), and as long as the
  launcher is still in the old folder, choosing the new one once more repairs everything (`FreshAttemptRepairs`).
* **Half-written copies.** Crashes and errors together can leave a wrong file under the name of a user
  file. It is then at the end of a chain of user files of one sub-folder: the first is missing in the new folder, the others are
  there, and each has the temporary name of the one before (`WrongFileHasChain`). In the next attempt in which the sub-folder has
  its turn, if the launcher survives it, the wrong file stays, and stays for good, exactly if there is a file before it in the chain
  that this attempt did not begin to copy: because of a folder above that file, because the file could not be opened, or because its
  temporary file could not be created (`WrongFileStaysForGoodExactly`). Opening the missing file is not enough when the chain is
  longer (`WrongAtTwoRemoves`); `HalfSkin` is a concrete case for an unreadable folder and for an unreadable file. A walk skips
  nothing wrong as long as all targets before are there (`SkippedIsGenuine`).
* **Migration marker.** The marker is removed from the new folder although it
  lies in the old one, so it stays after every finished migration (`OldMarkerStays`).

## Assumptions of the migration theorems

The old and the new folder lie apart, the listed sub-folders are folders, and the old tree is
a tree (`Migration.Ready`). `os.ReadDir` lists names in increasing order, as its
documentation says; this is what puts `x` before `x.tmp`. Nobody else changes either folder during
a migration. A marker that was cut off in the middle cannot be read.

## Model

| member | source | states |
|---|---|---|
| `MigrationCopy.TmpInjective` | backend/data_migration.go:381 | different targets never share a temporary file |
| `MigrationCopy.PerformConcat` | backend/data_migration.go:319-361 | performing two lists of actions is performing the first and, if the launcher lives, the second |
| `MigrationCopy.DoneKeepsSources` | backend/data_migration.go:374-402 | copying never changes a source file |
| `MigrationCopy.TargetStays` | backend/data_migration.go:331-345 | a target holds its source's content if it was copied, else what it had when its turn came, and no later copy touches it |
| `MigrationCopy.CrashLeavesNoTrace` | backend/data_migration.go:381-400 | a walk started over after a crash, also one in the middle of writing a temporary file, ends with exactly the files of a walk that never crashed |
| `MigrationCopy.CrashesLeaveNoTrace` | backend/data_migration.go:306-402 | the same for any number of crashes at any points, and no source file changes |
| `MigrationCopy.TryLeavesNoTrace` | backend/data_migration.go:372-402 | trying any one copy at any time, with any outcome, changes nothing about what a complete walk leaves in the end |
| `MigrationCopy.PlanLeavesNoTrace` | backend/data_migration.go:306-402 | nor does any walk, whatever crashes and errors it meets |
| `MigrationCopy.OthersStay` | backend/data_migration.go:381-400 | any other file of the new tree is unchanged, except that it is gone exactly if it had the temporary name of a file that was copied |
| `MigrationCopy.EveryFileArrives` | backend/data_migration.go:331-345 | after a complete walk every file is in the new tree, with its old content or what was there before under its name |
| `MigrationCopy.EveryMomentIsGenuine` | backend/data_migration.go:331-400 | at every moment of a walk a file under a user file's name is that file, was there before, or is the temporary file being written for an earlier name |
| `MigrationCopy.DisplacedIsStale` | backend/data_migration.go:331-400 | a walk overwrites a file it finds only if that name is, at some remove, the temporary name of a missing user file |
| `MigrationCopy.WrongFileStaysExactly` | backend/data_migration.go:331-400 | with one file missing and those with its temporary name, the temporary name of that, and so on, there up to a wrong one: the wrong one outlives a walk without a crash exactly if the walk does not write the temporary file of each name before it |
| `MigrationTree.IncreasingPutsTmpLater` | backend/data_migration.go:308 | in a sorted listing no name is the temporary name of a later one |
| `MigrationTree.JobsMirror` | backend/data_migration.go:320-325 | every copy goes from below the old folder to the same relative path below the new one |
| `MigrationTree.JobsOrderly` | backend/data_migration.go:306-345 | for separate trees the copies of a walk have distinct targets, no source is a target or temporary file, and no target is the temporary name of a later one |
| `MigrationTree.EveryFileHasAJob` | backend/data_migration.go:306-345 | the recursive walk reaches every file below the folder |
| `MigrationTree.PlanFromJobs` | backend/data_migration.go:306-345 | whatever a walk meets, it copies only files of the tree, each to its own place |
| `MigrationTree.TriedExactly` | backend/data_migration.go:308-343 | a file is tried exactly if the walk comes through all folders above it |
| `MigrationTree.PlanInOrder` | backend/data_migration.go:306-343 | whatever a walk meets, it copies to each place at most once, and to a temporary name only behind the file it belongs to |
| `MigrationWalk.PlanIsSound` | backend/data_migration.go:306-370 | a recursive walk that returns no error has done all its copies, or died after some of them with at most one half-written temporary file; without errors it returns none |
| `MigrationWalk.WalkFrame` | backend/data_migration.go:308-325 | what a walk does depends only on the tree it walks through |
| `MigrationWalk.WalkOutside` | backend/data_migration.go:306-402 | a walk changes nothing outside its target folder |
| `Migration.JobsOfSub` | backend/data_migration.go:240-246 | the copies of all sub-folders are those of each sub-folder one after the other |
| `Migration.MoveOnTheWay` | backend/data_migration.go:273-283 | the walk through one sub-folder, whatever it meets, keeps the old data and the end that an undisturbed migration comes to |
| `Migration.DeleteOnTheWay` | backend/data_migration.go:263-271 | so does deleting a cached folder, wholly or partly, at any time |
| `Migration.MovedOnTheWay` | backend/data_migration.go:273-283 | without errors, what the saved list says is done stays done, and if the walk ends its own files are all there |
| `Migration.DeletedOnTheWay` | backend/data_migration.go:263-271 | and deleting cached data takes no copied file away |
| `Migration.ExecuteKeeps` | backend/data_migration.go:234-304 | the loop over the sub-folders left, from any saved list and with a crash anywhere, keeps the invariant and never fails |
| `Migration.RunKeeps` | backend/data_migration.go:85-304 | the invariant holds after any sequence of attempts, crashes and starts: old data intact, saved list true, result unchanged |
| `Migration.UserFilesArrive` | backend/data_migration.go:205-402 | after any number of crashes and resumes every user file is unchanged in the old folder, and once the new folder is taken it is there too, with the old content or what was there before |
| `Migration.FinishedLikeUndisturbed` | backend/data_migration.go:150-304 | apart from cached data, an interrupted and resumed migration leaves exactly the files of an undisturbed one |
| `Migration.ProgramPlaceIsReady` | backend/data_migration.go:203-209 | the seven sub-folders of the program meet what the theorems ask for |
| `MigrationAnyRun.OldDataIsSafe` | backend/data_migration.go:85-402 | whatever happens, errors included, no file of the old folder outside the cached data changes |
| `MigrationAnyRun.RunOnTheWay` | backend/data_migration.go:85-402 | in every run whatever, copying what is missing would lead to exactly the end of an undisturbed migration |
| `MigrationAnyRun.HalfCopiesAreNotMistaken` | backend/data_migration.go:307-402 | in every run whatever, what has a user file's name in the new folder is that file, was there before, or has at some remove the temporary name of a user file still missing |
| `MigrationAnyRun.SkippedIsGenuine` | backend/data_migration.go:331-334 | in every run whatever, what a walk from the start skips, with all targets before it there, is the user's file or was there before |
| `MigrationAnyRun.FreshAttemptRepairs` | backend/data_migration.go:85-304 | after any run still in the old folder, a fresh attempt without errors, crashes allowed, leaves exactly the files of an undisturbed migration |
| `MigrationAnyRun.FreshAttemptBringsFile` | backend/data_migration.go:85-304 | so every user file is in the new folder then, with its content or what was there before |
| `MigrationAnyRun.MarkerStays` | backend/data_migration.go:80-83 | after every run that ends in the new folder, the marker with an empty list is still in the old one |
| `MigrationAnyRun.OldMarkerStays` | backend/data_migration.go:128-200 | however the migration was finished; and a later start from the old folder takes the new one back |
| `MigrationErrors.ExecuteFrame` | backend/data_migration.go:240-284 | the loop changes nothing in the new place outside the sub-folders on its list |
| `MigrationErrors.FailedSubIsSkipped` | backend/data_migration.go:241-277 | over any number of starts, nothing changes below the new place of a sub-folder that is off the list |
| `MigrationErrors.SmoothFinishes` | backend/data_migration.go:234-304 | a start at which everything works comes to the end of any saved list |
| `MigrationErrors.FailureThenRestart` | backend/data_migration.go:273-277 | after any run and any attempt that returns an error, it is that of one sub-folder; the next start at which everything works takes the new folder, and what is there of that sub-folder is exactly what was there when the error came |
| `MigrationErrors.OtherSubsArrive` | backend/data_migration.go:240-284 | the other sub-folders on the list of that attempt, before and behind the failed one, arrive with every file, each with its content or what was there before; those off the list already stay as they are |
| `MigrationErrors.SmoothLeaves` | backend/data_migration.go:234-304 | a start at which everything works takes the new folder, with every file of the sub-folders on its list and the others as they were |
| `MigrationWrongFiles.WrongFileHasChain` | backend/data_migration.go:306-402 | in every run whatever, a file under a user file's name that is neither that file nor what was there before is at the end of a chain of temporary names of user files, of which only the first is missing |
| `MigrationWrongFiles.WrongFileStaysForGoodExactly` | backend/data_migration.go:306-345 | after any run: the wrong file at the end of such a chain, wherever its sub-folder is on the list, is still there after the attempt that reaches the sub-folder and does not crash, and after all later starts, if and only if that attempt did not begin to copy some file before it in the chain |
| `MigrationCache.CachedFilesGoExactly` | backend/data_migration.go:263-271 | after any attempt, however it ends: a file below a cached folder that was on its list and is off it is there exactly if it was there before and the deletion left it |
| `MigrationCache.NoCacheIsLeft` | backend/data_migration.go:207-271 | after any run that took the new folder, with deletions that work or are cut off, no file is left below the program's four cached folders |
| `MigrationCache.UserDataArrives` | backend/data_migration.go:203-205 | after any run with crashes only that took the new folder, every file of the program's three user folders is there |
| `MigrationExamples.LostSkin` | backend/data_migration.go:273-277 | a concrete disk and run after which the launcher uses the new folder and none of the player's skins is in it |
| `MigrationExamples.HalfSkin` | backend/data_migration.go:331-402 | a concrete run, with an unreadable folder or an unreadable file, after which half of one skin is another skin for good |
| `MigrationExamples.WrongAtTwoRemoves` | backend/data_migration.go:331-402 | a concrete run in which a wrong file has the temporary name of a file that is there, and stays for good although the missing file is opened and copied |
| `MigrationProgram.Mover.CopyFileWithProgress` | backend/data_migration.go:372-402 | create, fill and rename a temporary file: exactly the effect of one copy, spelled out for success, each error and each crash |
| `MigrationProgram.Mover.MoveTreeWithProgress` | backend/data_migration.go:306-370 | the recursive walk over live directories performs exactly its plan and remembers an error |
| `MigrationProgram.Mover.MoveEntry` | backend/data_migration.go:320-345 | one entry: a directory is walked, a file that is not there yet is copied, exactly as planned |
| `MigrationProgram.Mover.SaveMigrationState` | backend/data_migration.go:73-78 | the marker holds the new list; or the old one, or half a file, and the launcher is dead |
| `MigrationProgram.Mover.RemoveAll` | backend/data_migration.go:263-271 | deleting a cached folder: a file is there afterwards exactly if it lies elsewhere or the deletion left it; the launcher lives unless it was cut off |
| `MigrationProgram.Mover.ExecuteMigration` | backend/data_migration.go:234-304 | the loop over the list has exactly the effect and outcome of the specification |
| `MigrationProgram.Mover.SetAppDir` | backend/data_migration.go:85-147 | choosing a new folder; it is taken only after a finished migration whose empty list is saved and a configuration write that works, and choosing the folder in use changes nothing |
| `MigrationProgram.Mover.ResumeMigration` | backend/data_migration.go:150-200 | going on with the marker found at the start; without one that can be read nothing changes |
| `SkinSnapshot.ShotBringsBack` | backend/internal/wardrobe/service.go:385-450 | a snapshot restores its look, whatever is worn then, exactly when the account had a skin, its texture was fetched and its cape, if any, was seen |
| `SkinSnapshot.EndedExactly` | backend/build_skin.go:375-386 | the retries succeed exactly if one of the allowed tries works |
| `SkinSnapshot.FailedTriesLeave` | backend/build_skin.go:375-386 | tries without success leave what the last one that broke has left, or the look from before |
| `SkinSnapshot.PresetIsWorn` | backend/internal/wardrobe/service.go:246-293 | once a preset was applied, after any failed tries, the account wears its skin, its arms and its cape; without a cape in the preset the one worn before stays |
| `SkinSnapshot.AppliedExactly` | backend/build_skin.go:105-148 | applying succeeds exactly with a licence, a snapshot taken and saved, and a try among four that works; without the first three nothing changes; the snapshot holds what was fetched of the look before |
| `SkinSnapshot.SnapshotIsWorn` | backend/internal/wardrobe/service.go:423-450 | a restore that works puts on the cape of the snapshot or takes it off, and puts on skin and arms if the snapshot has a skin |
| `SkinSnapshot.RestoredExactly` | backend/build_skin.go:164-223 | the snapshot goes exactly if one of six tries works or restoring is off; with restoring off the look stays |
| `SkinSnapshot.StaleSpares` | backend/build_skin.go:235-265 | a start leaves the snapshots of running games alone, and clears those of a removed account without touching the look |
| `SkinSnapshot.DeadLauncherStops` | backend/build_skin.go:235-265 | a launcher that dies in the first restore of a start makes no other one |
| `SkinSnapshot.OriginalIsNeverLost` | backend/build_skin.go:105-265 | in every run with crashes and failed restores: if the look differs from the original, a snapshot that brings it back is on disk; with no snapshot left the look is the original |
| `SkinSnapshot.StartRecovers` | backend/build_skin.go:235-265 | after any such run, a start whose restore works within six tries ends with the original look and no snapshot |
| `SkinSnapshot.RelaunchOverSnapshot` | backend/build_skin.go:130-138 | relaunching over an outstanding snapshot keeps the original recoverable exactly when it is worn |
| `SkinSnapshot.SessionRestores` | backend/build_skin.go:105-223 | one session with a complete snapshot: a restore that works brings back exactly the look before its launch, whatever else happened meanwhile |
| `SkinSnapshot.ExitBringsBack` | backend/build_skin.go:105-265 | the same in any interleaving of any number of sessions, for the latest launch of the build |
| `SkinSnapshot.LaunchedIsLatest` | backend/build_skin.go:113-138 | the recorded launch is the latest one of the build that saved a snapshot |
| `SkinSnapshot.EndsInOriginalExactly` | backend/build_skin.go:105-265 | after any run that leaves no snapshot, the account wears the original if and only if the session restored last was launched while the original was worn |
| `SkinSnapshot.NestedSessionRestores` | backend/build_skin.go:105-223 | with sessions of other builds nested to any depth, an exit leaves exactly the snapshots before the matching launch, and with its own snapshot complete also exactly the look, whether or not the inner presets and snapshots worked |
| `SkinSnapshot.NestedSessionsRestore` | backend/build_skin.go:105-223 | any number of such sessions one after the other leave the snapshots as they were |
| `SkinSnapshot.CrossedSessions` | backend/build_skin.go:105-223 | an instance: two crossing sessions leave the first build's preset look |
| `SkinSnapshot.RetriedOk` | backend/build_skin.go:375-386 | retries that succeed end in the goal whatever failed tries left behind |
| `SkinSnapshot.Account.WithSkinRetries` | backend/build_skin.go:375-386 | the retry loop stops at the first success and after the given number of tries |
| `SkinSnapshot.Account.ApplyBuildSkinBeforeLaunch` | backend/build_skin.go:105-148 | the snapshot is saved before the preset is applied, nothing is applied without it, and on success the preset's skin, arms and cape are worn |
| `SkinSnapshot.Account.RestoreBuildSkinAfterExit` | backend/build_skin.go:164-223 | on success the look of the snapshot is worn and the snapshot gone; with restoring off only the snapshot goes |
| `SkinSnapshot.Account.RestoreStaleBuildSkins` | backend/build_skin.go:235-265 | the loop at start-up over the snapshot directory |
| `SkinSnapshot.Account.Handle` | backend/build_skin.go:105-265 | one event of a run, and which games run after it |
| `SkinRestoreRace.RestoreAlone` | backend/build_skin.go:164-229 | a restore that nothing comes between has the effect of the single step that stands for it |
| `SkinRestoreRace.LaunchAlone` | backend/build_skin.go:105-148 | so has a launch |
| `SkinRestoreRace.RestoreGivesUp` | backend/build_skin.go:187-205 | a restore that finds the game running at all its tries ends without touching look or snapshot |
| `SkinRestoreRace.StartBeginsRestore` | backend/build_skin.go:235-265 | after a crash the next start begins a restore exactly if a snapshot is left and the game does not run |
| `SkinRestoreRace.OriginalSurvivesRestores` | backend/build_skin.go:105-229 | in every interleaving of API calls, file accesses and deaths of the launcher: if no launch begins beside a restore or over another look, the original is worn or the snapshot on disk brings it back |
| `SkinRestoreRace.OldRestoreComes` | backend/app.go:2366-2374 | wherever a restore stands while a preset is being tried, there is a way to go on in which it deletes the new snapshot and another look than the original stays |
| `SkinRestoreRace.RelaunchIsSafeExactly` | backend/build_skin.go:187-197 | at any moment of such a run: a launch with a complete snapshot leaves the original safe in every continuation if and only if no restore is on its way and the original is worn |
| `SkinRestoreRace.LookStaysWhilePlaying` | backend/build_skin.go:187-197 | what looking at the running games does give: while the game runs, a restore that did not look before it started leaves the look alone |
| `ConsoleBatch.Clock.AfterFunc` | backend/console_batch.go:78 | a new timer is armed |
| `ConsoleBatch.Clock.Stop` | backend/console_batch.go:87 | stopping disarms a timer; a callback that has already started still runs |
| `ConsoleBatch.ConsoleLineBatcher.Add` | backend/console_batch.go:71-95 | the locked section of `add`: append, start a timer of 40 ms for the first line, or hand out exactly 500 lines and stop the timer |
| `ConsoleBatch.ConsoleLineBatcher.FlushNow` | backend/console_batch.go:98-109 | the locked section of the timer callback: everything that waits is handed out |
| `ConsoleBatch.RunIsSound` | backend/console_batch.go:71-109 | what every interleaving of adders, timers and stale callbacks keeps |
| `ConsoleBatch.ExtractionKeepsOrder` | backend/console_batch.go:71-109 | in every interleaving the extracted batches in order, then the pending lines, are the lines added |
| `ConsoleBatch.BatchSizes` | backend/console_batch.go:33-42 | every batch has 1 to 500 lines and fewer than 500 lines wait when the lock is free |
| `ConsoleBatch.AddHandsOutFullBatches` | backend/console_batch.go:80-95 | in every interleaving `add` hands out nothing before the 500th line and then all 500 |
| `ConsoleBatch.FirstLineStartsTimer` | backend/console_batch.go:74-79 | the first waiting line starts a timer of exactly 40 ms |
| `ConsoleBatch.TimerIsNeverEarly` | backend/console_batch.go:71-109 | in every interleaving a timer keeps its deadline until it is stopped or goes off, and does not go off before |
| `ConsoleBatch.NoLineIsStuck` | backend/console_batch.go:71-109 | while lines wait, a callback still has to run or a timer is armed that fires within 40 ms of the oldest line |
| `ConsoleBatch.AnyTimerDrains` | backend/console_batch.go:98-109 | any callback on its way empties the batcher, and the timer that is due first can go off and do so |
| `ConsoleBatch.EveryLineIsDeliveredOnce` | backend/console_batch.go:71-109 | once all batches are delivered and none waits, the lines received are the lines added as a bag |
| `ConsoleBatch.InTurnKeepsOrder` | backend/console_batch.go:91-108 | if each holder waits until all earlier batches are delivered, what was received is at every moment the beginning of what was added |
| `ConsoleBatch.DeliveryKeepsOrderExactly` | backend/console_batch.go:91-108 | in every interleaving, with lines that differ, it is that beginning if and only if each holder waited |
| `ConsoleBatch.DeliveryCanReorder` | backend/console_batch.go:91-108 | and holders need not wait: a concrete interleaving, each timer going off after its 40 ms, in which two batches arrive in the other order |
| `ImportPause.RunKeeps` | backend/custompack_api.go:627-817 | what every interleaving of ticks, pauses and the result handler keeps while nobody cancels |
| `ImportPause.PauseHasTheLastWord` | backend/custompack_api.go:669-702 | an accepted pause whose cancel came before the importer returned with an error ends in "paused" in every interleaving |
| `ImportPause.LateTickIsOverruled` | backend/custompack_api.go:804-817 | the race this guards against happens: a tick that passed the context check puts "running" over "paused" after the pause, and the handler brings "paused" back |
| `ImportPause.PausedExactly` | backend/custompack_api.go:669-702 | an accepted pause of a failed import ends in "paused" exactly when the handler saw the cancelled context or the pause showed itself after the handler's deletion |
| `ImportPause.MarkStaysExactly` | backend/custompack_api.go:669-712 | when the handler is done the paused mark is left exactly if a pause was accepted, the import failed and the handler saw a live context |
| `ImportPause.SuccessLeavesNothing` | backend/custompack_api.go:703-711 | in every run, cancels included, an import that succeeded leaves no mark and no cancel function |
| `ImportPause.AcceptedPauseCanVanish` | backend/custompack_api.go:673-685 | an accepted and finished pause can leave no entry |
| `ImportPause.CancelSticksExactly` | backend/custompack_api.go:836-854 | after the last cancel the entry stays deleted, in every way things can go on, if and only if no progress tick is in flight and none can follow |
| `ImportPause.LateTickAlwaysWins` | backend/custompack_api.go:635-638 | if only progress ticks are in flight after it, the entry comes back in every way things can go on |
| `ImportPause.LateTickOutlivesCancel` | backend/custompack_api.go:635-638 | such a tick is possible |
| `ImportPause.Imports.RecordProgress` | backend/custompack_api.go:1059-1080 | a tick's write to the shown state |
| `ImportPause.Imports.Register` | backend/custompack_api.go:659-662 | storing the cancel function |
| `ImportPause.Imports.Unregister` | backend/custompack_api.go:665-668 | taking it away when the result is there |
| `ImportPause.Imports.AskPause` | backend/custompack_api.go:748-756 | the locked section of a pause |
| `ImportPause.Imports.CallCancelFunction` | backend/custompack_api.go:757-758 | cancelling the context |
| `ImportPause.Imports.EmitCustomPaused` | backend/custompack_api.go:768-802 | showing "paused" |
| `ImportPause.Imports.TakeMark` | backend/custompack_api.go:809-817 | taking the paused mark |
| `ImportPause.Imports.AskCancel` | backend/custompack_api.go:843-846 | the locked section of a cancel |
| `ImportPause.Imports.DropTransient` | backend/custompack_api.go:850-854 | deleting the shown entry |
| `BlockedMods.RunKeeps` | backend/custompack_api.go:886-967 | what every interleaving of handler rounds and replies keeps |
| `BlockedMods.FirstReplyWins` | backend/custompack_api.go:886-923 | a round returns the first decision sent to it, and gives up only when the import was cancelled |
| `BlockedMods.FirstReplyAfterEvent` | backend/custompack_api.go:892-923 | without a cancel, the first reply after the event is the result exactly when no different one was sent before the event |
| `BlockedMods.WaitingHandlerIsAnswered` | backend/custompack_api.go:888-922 | while a handler waits every reply finds its channel, and once one was sent the handler can return |
| `BlockedMods.LaterRepliesChangeNothing` | backend/custompack_api.go:941-953 | further replies never change a result |
| `BlockedMods.EarlyReplyTakesTheSlot` | backend/custompack_api.go:892-895 | a reply between registration and event takes the slot; the player's answer is dropped |
| `BlockedMods.Channel.TrySend` | backend/custompack_api.go:949-954 | sending without blocking to a channel with one slot |
| `BlockedMods.Channel.TryReceive` | backend/custompack_api.go:915-917 | taking from the slot |
| `BlockedMods.Waiters.Register` | backend/custompack_api.go:892-895 | a fresh channel, found by replies at once: the step of the state machine |
| `BlockedMods.Waiters.Receive` | backend/custompack_api.go:915-917 | the handler takes the decision that the state machine gives as the result of its round |
| `BlockedMods.Waiters.Leave` | backend/custompack_api.go:896-900 | the channel is removed: the step of the state machine |
| `BlockedMods.Waiters.RespondBlockedMods` | backend/custompack_api.go:929-967 | checked mods are remembered in any case; each of the four known words fills an empty slot with its own decision, as in the state machine, and any other word changes nothing |
| `BlockedMods.SplitJoins` | backend/custompack_api.go:937 | the remembered names hold no comma and give the string back when joined with commas |
| `PackIds.RenameBackRestores` | backend/custompack_api.go:1193-1271 | renaming and renaming back restores every list exactly when the new ID was free |
| `PackIds.RenamedExactly` | backend/custompack_api.go:1193-1260 | the new ID stands at exactly the places of the old one, in lists of the same order and folders of the same names, and a key keeps its address |
| `PackIds.KeyBelongsToOnePack` | backend/custompack_api.go:1220-1226 | an ID that extends another one is never taken for it |
| `PackIds.KeysOfOtherPacksStay` | backend/custompack_api.go:1220-1226 | a server key keeps its address and changes its pack exactly if that is renamed |
| `PackIds.NoPhantomIsLeft` | backend/custompack_api.go:1186-1192 | nothing refers to the old ID afterwards |
| `PackIds.OthersAreMentionedAsBefore` | backend/custompack_api.go:1193-1226 | every other ID is mentioned exactly as before |
| `PackIds.Unmentioned` | backend/custompack_api.go:1195-1230 | without a mention nothing changes, so no write is needed |
| `PackIds.Config.UpdateSettings` | backend/custompack_api.go:1228-1230 | a settings write works or changes nothing |
| `PackIds.ListHasId` | backend/custompack_api.go:1264-1271 | membership |
| `PackIds.ReplaceIdInList` | backend/custompack_api.go:1245-1260 | all occurrences renamed, positions kept |
| `PackIds.RenameInFolder` | backend/custompack_api.go:1200-1205 | the inner loop over one folder |
| `PackIds.RenameInFolders` | backend/custompack_api.go:1199-1206 | the loop over the folders |
| `PackIds.RenameInList` | backend/custompack_api.go:1209-1216 | order and pins |
| `PackIds.RenameInKeys` | backend/custompack_api.go:1220-1226 | the keys `id|address` |
| `PackIds.MigratePackIdReferences` | backend/custompack_api.go:1193-1230 | the stored settings change exactly by the rename, with one write, and only if the old ID is mentioned |
| `ResumableDownload.OverwriteKeepsPrefix` | backend/browser_api.go:3590-3611 | writing at an old resume offset over a longer `.part` keeps it a prefix of the content |
| `ResumableDownload.EveryRunIsSafe` | backend/browser_api.go:3533-3647 | after any calls, cut off anywhere, with any mix of 200 and 206: `.part` is a prefix, `dest` is absent or complete, and success means complete |
| `ResumableDownload.StoredExactly` | backend/browser_api.go:3604-3623 | the bytes that reach the file are all that were delivered, or a part of the last chunk when writing it fails or the launcher dies |
| `ResumableDownload.ReplyExactly` | backend/browser_api.go:3571-3641 | one reply: after a range `.part` reaches as far as before or as the new bytes go, after a whole answer as far as these go, and the attempt's outcome in every case |
| `ResumableDownload.PartNeverShrinks` | backend/browser_api.go:3533-3647 | over any calls to servers that honour ranges `.part` never gets shorter until `dest` is there, and then nothing changes |
| `ResumableDownload.PausedCallContinues` | backend/browser_api.go:3628-3633 | a pause keeps exactly what was there and the bytes received |
| `ResumableDownload.NothingReceived` | backend/browser_api.go:3543-3573 | without content nothing changes: three attempts, ended early by a cancel or by another status than 429 |
| `ResumableDownload.RetryStartsOver` | backend/browser_api.go:3553-3594 | a concrete call without a `.part` file whose second attempt leaves one byte of all but one that the first had stored |
| `ResumableDownload.CompletePartIsStuck` | backend/browser_api.go:3556-3573 | a complete `.part` makes every later call to a range-honouring server fail and change nothing |
| `ResumableDownload.CallSucceedsExactly` | backend/browser_api.go:3542-3646 | a call in which some attempt works, after failures that are tried again, succeeds exactly when `.part` was not already complete or the first reply ignores ranges |
| `ResumableDownload.StuckStateIsReachable` | backend/browser_api.go:3624-3640 | a crash just before the rename leads to the stuck state |
| `ResumableDownload.Files.ReadBody` | backend/browser_api.go:3604-3623 | the read loop stores exactly the bytes read, at the offset |
| `ResumableDownload.Files.TakeReply` | backend/browser_api.go:3571-3641 | one reply: range or whole content, truncation, rename, or another attempt, with the exact content of `.part` afterwards |
| `ResumableDownload.Files.DownloadFileToResumable` | backend/browser_api.go:3533-3647 | the loop of three attempts in any world |
| `VersionDeps.BestIsUnique` | backend/browser_api.go:3378-3404 | there is only one best version |
| `VersionDeps.PickBestVersion` | backend/browser_api.go:3378-3404 | the first release, else beta, else alpha, else the first of all |
| `VersionDeps.ResolveDependency` | backend/browser_api.go:3131-3155 | with any reply to this lookup, a dependency resolves to its version, or to the best fitting version of its project, and otherwise to nothing |
| `VersionDeps.BrowserPrimaryFile` | backend/browser_api.go:3158-3171 | the first file marked primary, or the first of all when none is marked |
| `VersionDeps.SafeFileNameExactly` | backend/browser_api.go:3511-3520 | a file name has no slashes, no white space at its ends and is no folder's name; otherwise the fallback is taken |
| `VersionDeps.Installer.Fetch` | backend/browser_api.go:3072-3076 | a missing file is downloaded, and reported exactly if that worked; a failure is the download's own; no file is replaced |
| `VersionDeps.Installer.MainFile` | backend/browser_api.go:3096-3111 | the primary file of a version is there already or downloaded from its own address to its own place |
| `VersionDeps.SearchIsComplete` | backend/browser_api.go:3057-3117 | a search that settled all it saw has seen exactly what is reachable through entered versions |
| `VersionDeps.Installer.Companions` | backend/browser_api.go:3060-3077 | companion files are there afterwards unless their download failed |
| `VersionDeps.Installer.Walk` | backend/browser_api.go:3057-3117 | entering a version |
| `VersionDeps.Installer.Dependencies` | backend/browser_api.go:3079-3115 | the loop over the dependencies: what they require has been seen |
| `VersionDeps.Installer.Follow` | backend/browser_api.go:3080-3090 | one dependency |
| `VersionDeps.Installer.Visit` | backend/browser_api.go:3091-3114 | a version met for the first time: tried once, entered only if its primary file is there |
| `VersionDeps.InstallBrowserVersionDeps` | backend/browser_api.go:3043-3122 | the search ends on cyclic graphs, tries no version twice, replaces no file, reports exactly the files it downloaded, returns an error exactly if a folder could not be made, and is complete otherwise: required dependencies seen, entered versions there with their primary file, and a version that was not entered has no file or its download failed |
| `Reach.ReachNext` | backend/browser_tempmods_api.go:153-175 | reachability goes on from open nodes |
| `Reach.ClosedHasReachable` | backend/browser_tempmods_api.go:153-175 | a set closed under the edges of its open nodes has everything reachable |
| `TempMods.FindModByProvidedId` | backend/browser_tempmods_api.go:86-98 | the first mod with the ID, its own or a provided one |
| `TempMods.VisitedIsNeeded` | backend/browser_tempmods_api.go:152-175 | a search that settled all it visited has visited exactly the mods reachable through mods without a manual mark |
| `TempMods.MarkStore.SetTempMod` | backend/browser_tempmods_api.go:166-171 | storing a mark works or changes nothing |
| `TempMods.Propagation.Walk` | backend/browser_tempmods_api.go:154-174 | the loop over the dependency IDs of one mod |
| `TempMods.Propagation.Visit` | backend/browser_tempmods_api.go:160-172 | a mod met for the first time: a manual mark is neither changed nor passed through |
| `TempMods.PropagateTempModToDeps` | backend/browser_tempmods_api.go:135-176 | it ends on cyclic graphs and marks exactly the mods reachable from the root without passing a manual mark; everything else stays |
| `DibEncoder.RowSizeIsLeast` | backend/clipboard_windows.go:235 | the row size is the least multiple of 4 that holds three bytes a pixel |
| `DibEncoder.PixelsDoNotOverlap` | backend/clipboard_windows.go:259-271 | no byte of a pixel overwrites another pixel's, the header, or anything outside the buffer |
| `DibEncoder.RowAt` | backend/clipboard_windows.go:260-262 | row `y` of the picture is the row `h-1-y` of the buffer |
| `DibEncoder.PaddingIsZero` | backend/clipboard_windows.go:235-269 | padding stays zero |
| `DibEncoder.HeaderReadsBack` | backend/clipboard_windows.go:239-256 | the header fields read back modulo their width |
| `DibEncoder.HeaderIsThere` | backend/clipboard_windows.go:239-257 | the forty bytes of the header and the length of the buffer |
| `DibEncoder.PixelIsThere` | backend/clipboard_windows.go:259-271 | the three bytes of every pixel: the upper eight bits of its blue, green and red, in the mirrored row |
| `DibEncoder.DecodeEncode` | backend/clipboard_windows.go:228-271 | reading header and rows back gives the same size and, for every pixel, the upper eight bits of its red, green and blue, exactly when the sizes fit 32 bits |
| `DibEncoder.PutU32` | backend/clipboard_windows.go:241-246 | four little-endian bytes, nothing else |
| `DibEncoder.PutU16` | backend/clipboard_windows.go:247-250 | two little-endian bytes, nothing else |
| `DibEncoder.PutHeader` | backend/clipboard_windows.go:251-257 | the header of the bitmap |
| `DibEncoder.PutRow` | backend/clipboard_windows.go:263-269 | the inner loop over one row, nothing else |
| `DibEncoder.PutRows` | backend/clipboard_windows.go:259-270 | the loop over the rows |
| `DibEncoder.EncodeDib` | backend/clipboard_windows.go:228-271 | the whole buffer, every pixel's bytes in their place, or nothing for an empty picture |
| `ServerList.ReorderIsPermutation` | backend/app.go:4654-4682 | no server is lost or doubled exactly when no named address is stored twice |
| `ServerList.DoubledAddressLosesAServer` | backend/app.go:4664-4667 | a concrete list that loses a server |
| `ServerList.ReorderedIsRanked` | backend/app.go:4668-4680 | named addresses first in order of first mention, the rest behind them in their old order |
| `ServerList.RestComesLast` | backend/app.go:4676-4680 | behind the named servers come exactly the entries that nothing names, in their old order, each once |
| `ServerList.LastEntryWins` | backend/app.go:4664-4667 | of several entries with one address the last one stands for it |
| `ServerList.ReorderTwice` | backend/app.go:4658-4682 | reordering again with the same list changes nothing |
| `ServerList.Store.SaveServersDat` | backend/app.go:4706-4711 | a write works or leaves the file alone |
| `ServerList.Store.IndexByIp` | backend/app.go:4664-4667 | the last entry of an address wins |
| `ServerList.Store.PickNamed` | backend/app.go:4668-4675 | the loop over the named addresses |
| `ServerList.Store.ReorderPackServers` | backend/app.go:4658-4682 | the file holds the reordered list, or is unchanged |
| `ServerCopy.PutAllKeepsOrder` | backend/app.go:4740-4745 | copying keeps the target's entries in place, with their addresses |
| `ServerCopy.PutExactly` | backend/app.go:4780-4792 | one server into a list: the first entry of its address gets the name, keeps its own or is called by the address; without one an entry is appended; all else stays |
| `ServerCopy.CopiedAreThere` | backend/app.go:4768-4795 | after a batch every requested server the source knows is in the target under its name, and every other one as it was |
| `Common.TrimExactly` | backend/app.go:4569 | trimming takes exactly the white space at both ends |
| `ServerCopy.BatchRefinesEach` | backend/app.go:4746-4806 | the batch leaves exactly the files of copying each address in turn, with duplicates, unknown and empty addresses, a missing target, or one pack as source and target |
| `ServerCopy.BatchDiffersOnTwins` | backend/app.go:4760-4763 | a requested server stored under two names gives a target on which the two differ |
| `ServerCopy.BatchIsEachExactly` | backend/app.go:4746-4806 | batch and simple copy agree on every target exactly when no requested server is stored under two names |
| `ServerCopy.BatchIntoItselfExactly` | backend/app.go:4746-4806 | with one pack as source and target, batch and simple copy agree exactly when no requested server is stored a second time under another name |
| `ServerCopy.DistinctHaveSameName` | backend/app.go:4760-4763 | distinct addresses meet that condition |
| `ServerCopy.AddPackServer` | backend/app.go:4568-4586 | a known address gets the name, a new one goes to the end |
| `ServerCopy.CopyServerToPack` | backend/app.go:4716-4727 | one server copied by its address |
| `ServerCopy.PutInPlace` | backend/app.go:4780-4792 | the inner loop over the target |
| `ServerCopy.CopyNext` | backend/app.go:4769-4794 | one address of the batch and its report |
| `ServerCopy.CopyInto` | backend/app.go:4768-4795 | the loop over the addresses and all reports |
| `ServerCopy.CopyServersToPack` | backend/app.go:4746-4806 | the files of the batch with one write, a report for each address, and every error case |
| `FreeName.DecimalInjective` | backend/duplicate_pack.go:65 | different numbers have different decimal forms |
| `FreeName.SuffixedInjective` | backend/duplicate_pack.go:65 | so the candidates of one name differ |
| `FreeName.DecimalIsNumeral` | backend/duplicate_pack.go:65 | the decimal form has digits only, no zero in front, and the value of the number |
| `FreeName.IdCandidateIs` | backend/duplicate_pack.go:63-66 | the candidates are the ID, then the ID, a hyphen and a number from 2 on |
| `FreeName.GrownIdIs` | backend/duplicate_pack.go:189-191 | each growing candidate is the one before, a hyphen and the next number |
| `FreeName.CandidatesDiffer` | backend/duplicate_pack.go:63-66 | the candidates `id`, `id-2`, `id-3`, ... are pairwise different |
| `FreeName.GrownIdsDiffer` | backend/duplicate_pack.go:189-191 | the candidates that grow with every try are pairwise different |
| `FreeName.IdTriesBounded` | backend/duplicate_pack.go:64-66 | failed tries are at most the taken IDs |
| `FreeName.GrownTriesBounded` | backend/duplicate_pack.go:189-191 | the same for the growing candidates |
| `FreeName.Packs.PackIdExists` | backend/duplicate_pack.go:37-54 | an ID is taken by the empty name, a custom pack or a catalogue pack |
| `FreeName.Packs.CheckDuplicatePackId` | backend/duplicate_pack.go:58-72 | the suggested ID is the first free candidate, found after at most as many failures as IDs are taken |
| `FreeName.Packs.FallbackId` | backend/duplicate_pack.go:181-193 | the chosen ID is the first free one of its candidates, with the same bound |
| `FreeName.FileCandidatesDiffer` | backend/content_api.go:650-661 | the candidate file names are pairwise different |
| `FreeName.ExtExactly` | backend/content_api.go:645 | the extension begins with the last dot, and there is none without a dot |
| `FreeName.AcceptedExactly` | backend/content_api.go:645-649 | files that end in `.zip` or `.jar`, in letters of either case, are accepted |
| `FreeName.FileCandidateIs` | backend/content_api.go:650-661 | the first candidate is the name, the others are its stem, a number from 2 on and the extension in lower case |
| `FreeName.CandidateIsAccepted` | backend/content_api.go:650-661 | an imported file keeps the kind of its source |
| `FreeName.FailedTriesBounded` | backend/content_api.go:654-661 | failed tries are at most the names that are used or whose disabled twin is |
| `FreeName.ContentFolder.CopyFile` | backend/content_api.go:305-323 | a copy succeeds exactly if source and target can be opened and all is written, and then has the whole content; one that fails may leave a part; nothing else changes |
| `FreeName.ContentFolder.FreeFile` | backend/content_api.go:650-661 | the first candidate that neither exists nor has a disabled twin |
| `FreeName.ContentFolder.ImportOne` | backend/content_api.go:650-666 | one accepted file |
| `FreeName.ContentFolder.ImportContentFiles` | backend/content_api.go:632-669 | nothing in the folder is replaced; every imported file is there under its own free name with its content; a path is skipped exactly if it is not accepted and failed exactly if it cannot be copied; new files come only from accepted paths |

## Left out

* Migration: directories as objects. An empty directory counts as absent, and a directory in the new tree where a file belongs, or the other way round, does not occur.
* Migration: progress counters and percentages, the error text in the marker, asset paths and configuration beyond the chosen folder, a marker in the new folder, a marker write that fails while the launcher lives on, removal of a temporary file that fails.
* `MigrationProgram.Mover.MoveTreeWithProgress`: asks for separate trees and for a bound on the depth; the theorems ask that the old tree is no deeper.
* Build skin: in `SkinSnapshot` a restore is one step of a run. `SkinRestoreRace` takes restores and launches apart, for one account and one build that is launched by one call at a time, with restoring switched on; several builds are not taken apart. The status shown in the window (the tracker is cleared with its two keys swapped in one place), collisions of snapshot file names, snapshot files that cannot be parsed, and more than one account are left out.
* Console: event names, payloads, and the precision of timers beyond "not before they are due, and time does not pass a due timer".
* Import: the branch of `ImportModpackArchive` in which the import ends before its first tick, the archive-download phase of `DownloadBrowserModpack`, resuming a paused import, the stored import state, the taskbar, and two imports of one pack at a time.
* Download: HTTP details beyond status 200, 206, 416 and 429; a body that ends early is taken to be reported as an error; the remote content does not change.
* Version search: `safeModFileName` is a parameter, progress events and logging are not modelled.
* Temporary mods: the scan of the mods folder is an input with distinct file names, and dates are numbers.
* Clipboard: the Windows clipboard calls, and pictures whose rows or pixel area overflow the program's integers.
* Servers: the encoding of servers.dat, pins and icons.
* Free names: `SlugifyName`, `UniqueIDAndName` and path handling; letters are put in lower case for ASCII only.
* Renaming: playtime, the desktop shortcut, and that in-memory lists are changed in place before the write.
* The packages under `backend/internal` beyond the wardrobe calls, and everything in the backend without a stated contract over runs: caches, getters, windows, network clients.
