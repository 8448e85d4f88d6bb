# A model of the surdoc backup service

The service copies the files of every *brick* (a source folder) to removable
disks. One worker per brick advances a time window over the source tree, walks
the tree breadth first, copies every file whose modification time lies in the
window, and stores a checkpoint that lags one window behind. Disks are
accounted for in unsigned 64-bit arithmetic and owned through a database; a
disk-full failure is passed on through a semaphore that each poll takes and
puts back. Around the workers stand a thread pool, a registry of stop
semaphores, a message queue with one consumer, and a status map. Beside the
service the repository has a command-line parser, an `itoa`, and a source
filter that strips the Windows blocks and the Linux directives from a source
tree.

How the model is laid out:

| files | about |
|---|---|
| `prelude.dfy` | what several components share |
| `tables.dfy`, `disk_container.dfy` | the database tables; choosing a disk, measuring it, copying one file |
| `copy_properties.dfy`, `brick_fleet.dfy` | what one container keeps; any number of bricks copying at the same time |
| `file_frame.dfy`, `walk_properties.dfy` | the work-list walk with its callbacks; that it refines the recursive reading of the tree |
| `backup_windows.dfy` | the window arithmetic; runs of windows, checkpoints, crashes, restarts |
| `backup_engine.dfy`, `engine_properties.dfy`, `engine_space.dfy` | a whole worker: walk, copies, semaphore and checkpoint together, while other bricks work; full disks, and space over whole runs |
| `engine_refinement.dfy`, `engine_outcome.dfy`, `engine_lives.dfy` | that a worker skips no file, and that a brick skips none over restarts and crashes |
| `engine_progress.dfy` | when a worker stops, what its counters say, and that it catches up |
| `fleet_deeds.dfy` | that what a worker sees of other bricks is what bricks do |
| `task_control.dfy`, `task_lifecycle.dfy` | the registry of stop semaphores; `proc` run by many threads, its messages, the status map |
| `thread_pool.dfy`, `pool_progress.dfy`, `msg_queue.dfy` | the two hand-off protocols, in every interleaving; that `process` hands out all it can and every task can start |
| `format_src.dfy`, `format_meaning.dfy`, `format_labels.dfy` | the two line filters; that they keep what the preprocessor selects on Linux; both for sources labelled by their literal texts |
| `arg_parser.dfy`, `arg_render.dfy`, `systools.dfy` | the command-line parser and a printer for it; `itoa` |

Objects that the program updates in place are classes; each of their methods
is tied to a specification function of the old state, and what the program
promises is proved about these functions and about runs of steps. Where
threads interleave, the code is cut into atomic steps, and the results hold for
every sequence of steps.

What the outside world answers (the clock, the tree found by a walk, the disk
mounted at the target, whether a write succeeds) is a parameter of each
operation, so the results hold for every such answer. Disk ids, paths and file
contents are strings and sequences; byte counts are unsigned 64-bit numbers
with wrap-around where the program computes with them.

## Where the code does not do what its design suggests

* A brick without disk positions passes `init`, because the answer is preset to
  success and the loop never runs. It then owns no disk, and may write to the
  disk of another brick (`FirstInitOwnsIffPositions`, `NoPositionsWritesForeignDisk`).
  No two bricks share a disk if every brick has a position (`NoSharedDisk`).
* The index is keyed by the relative path alone. A path that is already
  recorded, also by another brick or for an older version of the file, makes
  `copy` answer success with nothing written (`RecordedPathBackedIff`,
  `SamePathInTwoBricks`).
* A re-init that finds a disk which is too full has already stored the new total
  size next to the old usage (`InitWrapsIff` says exactly when usage is then above
  the size), and the subtraction in `copy_try` would wrap
  (`WrappedSpaceAcceptsTooMuch`). What keeps a copy from meeting it is only the stop
  request that the same failure posts: over every run of a worker no copy begins
  like that (`NoCopyMeetsWrap`), and within one copy no try does (`TriesStayInside`).
* A file that is larger than the free space of a disk that keeps passing `init` is
  retried without end (`RetryUnbounded`).
* A worker restarted inside a process begins at the value read when the process
  started. One failed checkpoint write then leaves the stored checkpoint past
  the begin of the last completed window (`RoundLagsIff`, `StaleStartOvertakes`);
  no gap arises from that (`NoGap`).
* A worker that starts between a day and a day and an hour behind idles in its first
  turn although up to a day is outstanding (`ExecutesIff`, `RoundsFromStart`).
* When the disk fills up at the last entry of a walk, the next walk is what
  notices. If it finds the source root empty or not readable it ends without a
  stop, and the checkpoint passes the failed window: exactly then
  (`PassesFailureIffEscapes`), and it can happen (`FullDiskThenEmptyRoot`). A root
  that cannot be opened completes its window with nothing offered
  (`UnreadableRootSkips`).
* The source filter never ends on a file with a line of 1024 characters or more
  (`LoopEndsIff`), loses what stands under the `#else` of a Windows block
  (`ElseOfWindowsBlockIsLost`), leaves the `#else` of a Linux block without its
  `#ifdef` (`ElseOfLinuxBlockKeptIff`, `StrayElseHidesRest`), and writes one empty line when nothing remains
  (`FormattedFileMeansTheSame`).

## Model

| member | source | states |
|---|---|---|
| BackupTables.Database.AddDiskForBrick | backup/db_exec.cpp:50-78 | succeeds exactly if the disk is this brick's afterwards; an owner is never replaced |
| BackupTables.Database.AddFileLog | backup/db_exec.cpp:26-30 | the insert succeeds exactly if a new row appears: the path is new, its disk known, the write accepted |
| BackupTables.Database.IsBackuped | backup/db_exec.cpp:31-48 | answers for the path alone, whatever the disk |
| BackupTables.Database.UpdateBackupTime | backup/db_exec.cpp:21-25 | changes only the begin time of an existing row |
| DiskContainers.DiskContainer.constructor | include/disk_container.h:25-28 | a new container has no disk and no space |
| DiskContainers.DiskContainer.Init | backup/disk_container.cpp:27-91 | the loop over the positions computes the specified choice of disk, ownership rows, space figures and code |
| DiskContainers.DiskContainer.CopyTry | backup/disk_container.cpp:209-226 | limit, warning, success or stat error in unsigned arithmetic; no state changes; TryMeaning says what each answer means |
| DiskContainers.DiskContainer.Copy | backup/disk_container.cpp:93-207 | container, tables, disks, code and stop request after a copy, for every list of re-init answers |
| CopyProperties.InitOnlyAddsOwners | backup/disk_container.cpp:38-73 | whatever init answers, ownership rows are only added and the file index is untouched |
| CopyProperties.InitMakesReady | backup/disk_container.cpp:38-91 | a successful init of a brick with positions makes it the owner of the disk mounted at the target |
| CopyProperties.InitSucceedsIff | backup/disk_container.cpp:27-91 | init of a brick with positions succeeds exactly if the target is accessible, its disk is the brick's or can become it, and at least half of it is free |
| CopyProperties.InitAnswers | backup/disk_container.cpp:27-91 | every code of init and its exact condition; the one ownership row that it may leave, also when the disk is then found too full; the disk, the usage and the flag that a failed init leaves |
| CopyProperties.InitTakesFirstPosition | backup/disk_container.cpp:38-69 | init settles on the first position if the disk is the brick's already, and otherwise on the first for which the database takes the disk |
| CopyProperties.FirstInitOwnsIffPositions | backup/disk_container.cpp:37-78 | a first init that succeeds makes the brick the owner exactly if it has a position |
| CopyProperties.NoPositionsWritesForeignDisk | backup/disk_container.cpp:37-78 | without positions a brick can write to the disk of another brick: a concrete case |
| CopyProperties.InitLeavesHalfFree | backup/disk_container.cpp:76-90 | after a successful init at most half of the disk is in use, which is below the warning line; the accounting is exact, the limit is 95 percent, and the container counts as prepared |
| CopyProperties.InitWrapsIff | backup/disk_container.cpp:27-91 | init leaves usage above the size exactly if it measures a disk of the brick that is too full and smaller than the usage kept, or that reports more free than total space |
| CopyProperties.WrappedSpaceAcceptsTooMuch | backup/disk_container.cpp:209-224 | were copy_try called again after such a failed init, a file larger than the disk would pass: a concrete case |
| CopyProperties.TriesStayInside | backup/disk_container.cpp:100-140 | every call of copy_try in the retry loop finds usage within the disk |
| CopyProperties.TryMeaning | backup/disk_container.cpp:209-226 | with usage inside the disk, copy_try accepts exactly if the file fits and usage is not above the limit, answers limit exactly if it does not fit, and warning otherwise; by the limit that init sets, the warning begins exactly above 95 percent |
| CopyProperties.RoomIsTaken | backup/disk_container.cpp:100-140 | a file for which there is room below the warning line is taken at the first try: no re-init, no disk-full failure, no change of the container |
| CopyProperties.FullMeansNoRoom | backup/disk_container.cpp:100-140 | a copy fails with the disk full only if its disk had no room for the file or was above 95 percent |
| EngineSpace.NoCopyMeetsWrap | backup/disk_container.cpp:100-138 | over every run of a worker, failed re-inits included, every copy finds usage within the disk, and reports a full disk only if its disk had no room for the file or was above 95 percent; the accounting stays right until the worker is told to stop |
| EngineSpace.NoCopyMeetsWrapAfterInit | backup/disk_container.cpp:27-140 | the same for a worker that a successful init has made |
| CopyProperties.FitLeavesRoom | backup/disk_container.cpp:100-140 | when the retry loop ends in success the file fits and the warning line is kept |
| CopyProperties.CopyKeepsSpace | backup/disk_container.cpp:93-207 | a copy without a disk-full failure keeps usage within the disk, and adds the size of the file exactly if its bytes were written |
| CopyProperties.CopiesKeepSpace | backup/disk_container.cpp:93-226 | any sequence of copies up to the first disk-full failure keeps usage within the disk, so the subtraction never wraps |
| CopyProperties.ReinitFitsIffFree | backup/disk_container.cpp:76-90 | after a successful re-init a file passes exactly if it is no larger than the free space |
| CopyProperties.RetryAtMostTwice | backup/disk_container.cpp:100-140 | a file no larger than half of every disk offered is decided in at most two tries |
| CopyProperties.RetryUnbounded | backup/disk_container.cpp:100-140 | a file larger than the free space of a disk that passes init is tried once more for every offer, and never fits |
| CopyProperties.FinishKeepsIndex | backup/disk_container.cpp:150-206 | the writing half of a copy touches one path on the own disk, records at most that path, and keeps the index true |
| CopyProperties.CopyKeepsIndex | backup/disk_container.cpp:93-207 | a copy keeps the index in agreement with the disks and every recorded file byte for byte |
| CopyProperties.SuccessMeaning | backup/disk_container.cpp:142-206 | success means that the path is recorded or that a file of the source's size is on the current disk |
| CopyProperties.CopyFailsIff | backup/disk_container.cpp:93-207 | a copy fails exactly if the source cannot be read, no disk takes the file, or it has to be written and the writing fails |
| CopyProperties.TargetAfterWrite | backup/disk_container.cpp:149-201 | what lies at the target after each way the writing can end; every other path is untouched |
| CopyProperties.FailureRecordsNothing | backup/disk_container.cpp:118-190 | a failed copy records nothing, and leaves at most an empty file at the target |
| CopyProperties.NewPathBackedIff | backup/disk_container.cpp:150-206 | for a new path, success leaves the source's bytes behind the index exactly if the row was accepted and no other file of that size lay there |
| CopyProperties.RecordedPathBackedIff | backup/disk_container.cpp:142-148 | for a recorded path nothing is written: the bytes are behind the index exactly if they were before |
| CopyProperties.SamePathInTwoBricks | backup/disk_container.cpp:142-148 | the same relative path in another brick yields success although no disk holds the bytes: a concrete case |
| BrickFleet.StepKeepsInv | backup/disk_container.cpp:27-207 | every step of any brick, the kill in the middle of a copy included, keeps index, ownership and everything recorded |
| BrickFleet.RunKeepsInv | sql/backup.sql:48-65 | the same over all runs of any number of bricks |
| BrickFleet.NoSharedDisk | sql/backup.sql:50-56 | in no run do two bricks write to the same disk |
| BrickFleet.EveryChangeIsAWrite | backup/disk_container.cpp:166-201 | the history of writes is complete: a step changes no file without being in it |
| BrickFleet.FreshFleet | sql/backup.sql:50-65 | empty tables with any disks are a start of such runs |
| FileFrames.FileFrame.SearchByFolder | backup/file_frame.cpp:135-196 | scanning one folder computes the specified calls, work items, state and stop, with the second filter call |
| FileFrames.FileFrame.Start | backup/file_frame.cpp:311-349 | the work-list loop ends and computes the specified walk; without a stop the list is empty again |
| FileFrames.FileFrame.Finish | backup/file_frame.cpp:351-357 | the counter starts again at zero |
| WalkProperties.WalkOffers | backup/file_frame.cpp:145-196 | a walk without a stop makes, as a multiset, the calls that the recursive reading of the tree lists |
| WalkProperties.OfferedDistinct | backup/file_frame.cpp:154-192 | with distinct sibling names no path is offered twice |
| WalkProperties.OfferedIsReachable | backup/file_frame.cpp:154-192 | an entry is offered exactly if readable folders lead to it and it is a folder or wanted |
| WalkProperties.WalkByDepth | backup/file_frame.cpp:316-341 | the calls come level by level, stopped or not |
| WalkProperties.FolderBeforeContents | backup/file_frame.cpp:316-341 | a folder is processed before anything below it, whatever the callbacks answer |
| WalkProperties.WalkIsExact | backup/file_frame.cpp:145-341 | a walk without a stop processes exactly the reachable folders and wanted files, each once |
| BackupRuns.EveryWindowWithinBounds | backup/backup_worker.cpp:59-83 | in every run each completed window is at least 3600 s long, and at most 36000 s and no later than clock minus space, but for the first of a worker, which may end a day before its clock instead |
| BackupWindows.FrozenClock | backup/backup_worker.cpp:68-83 | with a standing clock: the exact number of windows, its bound, and less than an hour outstanding at the end |
| BackupWindows.PlannedWindow | backup/backup_worker.cpp:59-71 | for every state and clock: a first turn that is 86400 s or more behind goes up to 86400 s before the clock, every other turn up to 36000 s after its begin or to clock minus space, whichever is less |
| BackupWindows.ExecutesIff | backup/backup_worker.cpp:59-83 | a turn walks exactly if 3600 s or more are outstanding, counted to a day ago in that first case and to clock minus space otherwise |
| BackupRuns.RoundsOfFrozenClock | backup/backup_worker.cpp:68-100 | any number of rounds under a standing clock completes exactly that many windows, then idles |
| BackupRuns.RoundsFromStart | backup/backup_worker.cpp:49-101 | from the start of a worker, however far behind: the exact number of windows that n rounds complete under a standing clock, and when less than an hour is left |
| BackupRuns.StepKeepsInv | backup/backup_worker.cpp:49-101 | every window, idle tick, stop, failed write, crash and restart keeps the covering without gap |
| BackupRuns.RunKeepsInv | backup/backup_worker.cpp:49-101 | the same over all runs |
| BackupRuns.NoGap | backup/backup_worker.cpp:49-101 | completed windows cover everything from the first begin to the worker's begin, and everything before any begin a restart uses |
| BackupRuns.WindowsOfOneWorker | backup/backup_worker.cpp:49-101 | the windows of one worker are disjoint and increase |
| BackupRuns.RoundLagsIff | backup/backup_worker.cpp:98-100 | the checkpoint is at or before the begin of the window just completed exactly if it was written or was there already |
| BackupRuns.CheckpointLags | backup/backup_worker.cpp:98-100 | if workers begin where the checkpoint stands, it never passes the begin of the last completed window |
| BackupRuns.StaleStartOvertakes | backup/backup_master.cpp:50-68 | a restart inside the process and one failed write break that: a concrete case |
| BackupEngine.BackupWorker.constructor | include/backup_worker.h:12-37 | a worker begins at the given begin time, with its first run ahead |
| BackupEngine.BackupWorker.OneTurn | backup/backup_worker.cpp:50-101 | one turn computes the specified window, walk, checkpoint and stop (what they are: PlannedWindow, WindowIsOffered, TurnKeepsSound, StopsOnlyIfTold) |
| BackupEngine.BackupWorker.Start | backup/backup_worker.cpp:41-102 | a worker that no init has prepared is refused with BK_INIT_NEEDED and nothing done; otherwise the loop composes these turns, and answers BK_STOP exactly if one of them stopped |
| EngineProperties.WorkerFilter | backup/backup_worker.cpp:171-208 | the filter lets in folders and the files of the window, and repeats a stop |
| EngineProperties.WindowIsOffered | backup/backup_worker.cpp:129-208 | a walk without a stop calls copy once for each reachable file of the window and create_dir once for each folder, parents first, and nothing else |
| EngineProperties.ProcessKeeps | backup/backup_worker.cpp:129-162 | a copy or create_dir keeps: a disk-full failure is the last effect and requests a stop; index and disks agree |
| EngineProperties.WalkKeeps | backup/file_frame.cpp:161-171 | over a whole walk: after a disk-full failure no further create_dir or copy |
| EngineProperties.StoppedWalk | backup/file_frame.cpp:161-171 | a worker told to stop polls twice and ends its walk with a stop if the root has an entry to filter, and otherwise does nothing and ends without one |
| EngineProperties.StoppedTurn | backup/backup_worker.cpp:72-100 | a worker told to stop returns exactly unless a window is due and the root is empty or unreadable; only then does the checkpoint move |
| EngineProperties.TurnKeepsSound | backup/backup_worker.cpp:92-100 | a turn moves the checkpoint to the begin of its window exactly if it completed one and the write was accepted |
| EngineProperties.OthersKeep | backup/db_exec.cpp:26-78 | whatever other bricks do between two polls, the index stays true and nothing recorded or owned is taken away |
| EngineProperties.RunKeepsCheckpoint | backup/backup_worker.cpp:41-102 | over any number of turns of which none escapes, the checkpoint stays at or before the worker's begin, or the begin of the failed window |
| EngineProperties.InitMakesNewWorker | backup/backup_task.cpp:45-49 | a successful init leaves a worker that is prepared and that these results apply to |
| EngineProperties.FailureHoldsCheckpoint | backup/backup_worker.cpp:92-100 | unless a walk after the failure finds the root empty or unreadable: a disk-full failure is the last thing a worker does and the checkpoint never passes the begin of its window |
| EngineProperties.PassesFailureIffEscapes | backup/backup_worker.cpp:72-100 | after a disk-full failure the checkpoint is past the begin of the failed window exactly if a later turn with a window due found the root empty or unreadable and its write was accepted |
| EngineProperties.FullDiskThenEmptyRoot | backup/backup_worker.cpp:92-100 | that happens: a full disk at the last file of a walk, then an empty root |
| EngineRefinement.RunRefines | backup/backup_worker.cpp:41-102 | every run of the whole worker is a run of windows and checkpoints |
| EngineLives.LivesLeaveNoGap | backup/backup_worker.cpp:49-101 | the completed windows of all lives of a brick cover everything from the first begin to the stored checkpoint and to where the last worker stands |
| EngineLives.LivesKeepLag | backup/backup_worker.cpp:98-100 | if every life begins at the stored checkpoint, it never passes the begin of the last completed window |
| EngineRefinement.EveryMomentIsWalked | backup/backup_worker.cpp:49-101 | every moment that the worker's begin has passed lies in a window that was walked to its end |
| EngineRefinement.NoFileSkipped | backup/backup_worker.cpp:41-208 | for each such moment copy was called, in a window around that moment, for every file of it that the tree held in readable folders |
| EngineProgress.StopsOnlyIfTold | backup/backup_worker.cpp:72-107 | over any run: a stop is requested at the end exactly if it was before, or a thread requested it before one of the polls, or a disk was full; and a worker returns only then |
| EngineProgress.CatchesUp | backup/backup_worker.cpp:49-101 | however far behind a worker starts, if it is not told to stop it is less than an hour from clock minus space after one turn more than it has windows to walk |
| EngineProgress.EveryFileIsReached | backup/backup_worker.cpp:49-208 | by then copy was called for every file whose time lies at least an hour before clock minus space, as far as the tree held it in readable folders when its window was walked |
| EngineProgress.RunTallies | backup/backup_worker.cpp:142-162 | over any run the three counters are the numbers of folders not made, copies failed and copies that succeeded |
| EngineOutcome.SuccessRecordsIff | backup/disk_container.cpp:142-204 | after a success the path is in the index exactly if it was before or the row was accepted |
| EngineOutcome.CopyIsAccounted | backup/disk_container.cpp:142-206 | what the index leads to after one successful copy, by the way it took: some file for a recorded path, one of the same size, or these bytes if it wrote them and the row was accepted |
| EngineOutcome.RunRecords | backup/backup_worker.cpp:41-208 | over any run every copy stays accounted for: reported as failed, or its row refused, or the index leads to its file, with the bytes that it wrote |
| EngineOutcome.EveryFileIsSettled | backup/backup_worker.cpp:41-208 | over any run of an initialised worker: for each file of a moment passed a copy of its bytes was called in the window around that moment, and it was reported as failed, or the database refused its row, or the file is on the disk it is recorded for, with its bytes if that copy wrote them |
| EngineLives.CheckpointSkipsNothing | backup/backup_worker.cpp:41-208 | over every sequence of process starts, restarts, stops and crashes: each moment before the stored or the loaded checkpoint was walked in some life, and every file of it settled as above |
| EngineLives.NoFileSkippedOverLives | backup/backup_worker.cpp:41-208 | the same up to where the last worker stands: a restart may redo work but skips no file |
| EngineLives.FailedFileIsOfferedAgain | backup/backup_master.cpp:50-68 | after a life that a full disk has ended, the next life of the brick offers the files of the failed window again: always in a restart inside the process, and in a new process unless the stored checkpoint has passed the failure |
| FleetDeeds.FleetStepIsDeeds | backup/disk_container.cpp:27-207 | every step of another brick in a reachable fleet is among the deeds that a worker may meet between its polls |
| EngineRefinement.UnreadableRootSkips | backup/file_frame.cpp:330-340 | a root that cannot be opened completes the window with nothing offered |
| TaskControls.TaskControl.Reg | backup/backup_task.cpp:97-119 | registers a brick once, with count zero; answers whether it was new |
| TaskControls.TaskControl.Unreg | backup/backup_task.cpp:120-141 | removes this brick and no other |
| TaskControls.TaskControl.SetSem | backup/backup_task.cpp:142-171 | one more token for a registered brick, nothing for others |
| TaskControls.TaskControl.WaitSem | backup/backup_task.cpp:209-239 | the try-wait and re-post answers whether a stop is requested and changes nothing |
| TaskControls.TaskControl.SetAll | backup/backup_task.cpp:249-269 | one more token for every registered brick |
| TaskControls.StopReaches | backup/backup_task.cpp:142-171 | a stop request reaches the brick it names if that is registered, and no other |
| BrickStatus.ShowsStartIffBegun | backup_ui/backup_status.cpp:3-27 | the map shows START exactly if the last begin or end message of the brick was a begin |
| BrickStatus.ShowsTheLast | backup_ui/backup_status.cpp:3-27 | after any messages the map shows for each key the state set last and the text sent last |
| BrickStatus.BackupStatus.Dispose | backup_ui/deamon.cpp:83-114 | one message changes the map as specified |
| TaskLifecycle.StepKeepsInv | backup/backup_task.cpp:4-95 | every step of any thread keeps registration exclusive and the messages alternating |
| TaskLifecycle.RunKeepsInv | backup/backup_task.cpp:4-95 | the same over all interleavings |
| TaskLifecycle.EveryTaskIsReported | backup/backup_task.cpp:45-94 | in every interleaving: a worker is started only if its init succeeded, and a task that has ended posted exactly one closing error, with the text of the code, if its init or its start failed, and none otherwise |
| TaskLifecycle.RegisteredIffHeld | backup/backup_task.cpp:97-141 | in every interleaving a brick is registered exactly while a task of it is between reg and unreg; a new task is let in exactly if no other holds the brick, and finds no stop requested |
| TaskLifecycle.BrickCanStartAgain | backup/backup_task.cpp:89-141 | from every reachable state a brick can be entered again and come to a running worker |
| TaskLifecycle.StopHoldsUntilUnregistered | backup/backup_task.cpp:97-269 | in every interleaving a stop request for a brick stays until the worker's own unreg, whatever other tasks do |
| TaskLifecycle.MessagesAlternate | backup/backup_task.cpp:45-89 | begin and end messages of a brick strictly alternate, and at most one worker of it is at work |
| TaskLifecycle.StatusFollowsWorkers | backup_ui/deamon.cpp:83-114 | once the queue is drained the map shows START exactly if a worker is between its two posts |
| ThreadPool.StepKeepsInv | backup/thread_pool.cpp:39-103 | every step of the dispatcher and of a worker keeps all clauses about slots, dormant list, order and places of tasks |
| ThreadPool.RunKeepsInv | backup/sys_thread.cpp:83-117 | the same over all interleavings |
| PoolProgress.ProcessHandsOut | backup/thread_pool.cpp:67-103 | over every interleaving, when process returns it has handed out as many tasks as the smaller of the numbers of queued tasks and of workers listed, the first tasks to the listed workers in order; a worker that was running and paused when it was called is listed |
| PoolProgress.RunByWhomItWasGiven | backup/sys_thread.cpp:88-107 | over every interleaving a task is begun only by the worker that process gave it to |
| PoolProgress.EveryTaskCanStart | backup/thread_pool.cpp:61-103 | if there is a worker, tasks return and process is called again, each task submitted before shut_down can come to be started, from every reachable state |
| ThreadPool.WorkerNeverMeetsNull | backup/sys_thread.cpp:88-107 | a worker that passed the unlocked pause test always has a task |
| ThreadPool.SetTaskNeverOverwrites | backup/thread_pool.cpp:84-95 | a task is only ever set into an empty slot of a running worker |
| ThreadPool.TaskIsInExactlyOnePlace | backup/thread_pool.cpp:61-103 | each task is in the queue, in the dispatcher's hand, in one slot, or deleted, and in one of these only |
| ThreadPool.RunOnceInOrder | backup/thread_pool.cpp:61-103 | tasks are handed out in order of submission; each is started and deleted at most once |
| ThreadPool.ShutDownDeletesEachOnce | backup/thread_pool.cpp:39-59 | after shut_down exactly the submitted tasks have been deleted, once each, and no worker can act |
| ThreadPool.ShutDownEnds | backup/thread_pool.cpp:39-59 | if tasks return, every reachable state of a shut_down in progress can go on to its end, with each task deleted |
| ThreadPool.NoStartAfterLoop | backup/sys_thread.cpp:88-117 | in every continuation a worker that has left its loop starts no task any more |
| MsgQueues.MsgQueue.PushBack | backup/msg_queue.cpp:28-33 | appends, and posts the semaphore once |
| MsgQueues.MsgQueue.SetEmpty | backup/msg_queue.cpp:125-139 | the drain loop ends with count zero |
| MsgQueues.MsgQueue.PopFront | backup/msg_queue.cpp:35-46 | takes the first message and keeps count and length in step |
| MsgQueues.MsgQueue.GetMsg | backup/backup.cpp:46-76 | too small a buffer gets -2 and the size and changes nothing; otherwise the first message is handed over and removed |
| MsgQueues.MsgQueue.Dispose | backup_ui/deamon.cpp:71-82 | the consumer loop takes exactly the first message, in one call or two |
| MsgQueueSteps.StepKeepsInv | backup/msg_queue.cpp:28-139 | every step of producers and consumer keeps the count, the token and the push in progress above the length |
| MsgQueueSteps.RunKeepsInv | backup/msg_queue.cpp:28-139 | the same over all interleavings |
| MsgQueueSteps.ConsumerIsSafe | backup/backup.cpp:52-65 | front after a wait is never null, -2 comes at most once per message, and deliveries are a prefix of the posts |
| MsgQueueSteps.NoLostWakeup | backup/msg_queue.cpp:97-124 | with a message queued and no push in progress a waiting consumer can go on |
| MsgQueueSteps.DrainIsAlone | backup/msg_queue.cpp:131-138 | during the drain nobody else moves the semaphore |
| MsgQueueSteps.ConsumerDeliversAll | backup_ui/deamon.cpp:68-118 | from every reachable state the consumer can empty the queue once a push in progress is over: each post delivered once, in order, with its payload |
| LineFilters.LoopEndsIff | format_src/main.cpp:39-41 | the loop reaches the end of the file exactly if every line leaves room for the terminator |
| SourceLabels.LinesFitMeans | format_src/main.cpp:21-41 | these are exactly the files all of whose lines have at most 1023 characters |
| LineFilters.StripWindows | format_src/main.cpp:21-74 | the loop writes exactly the lines outside Windows blocks, joined by newlines |
| LineFilters.StripLinux | format_src/main.cpp:415-463 | the loop writes exactly the lines that are no Linux mark, joined by newlines |
| LineFilters.WindowsDroppedFits | format_src/main.cpp:432-434 | if the first filter ends on a file, the second ends on its output |
| SourceLabels.MarksByText | format_src/main.cpp:42-56 | which lines the two filters take for marks, for every line: those that mention the literal texts #ifdef or #endif together with SYS_WINDOWS or SYS_LINUX |
| SourceLabels.NextLineIsKeptIff | format_src/main.cpp:39-60 | for any text, labelled or not: the Windows filter drops the next line exactly if an opening line mentions #ifdef and SYS_WINDOWS and no line from there up to this one closes it; the Linux filter exactly if the line is a mark |
| SourceLabels.OutputIsText | format_src/main.cpp:47-54 | no NUL comes out of either filter, whatever goes in |
| LineFilters.Format | format_src/main.cpp:494-524 | the two passes over one file end and compose |
| FormatMeaning.SeeAgrees | format_src/main.cpp:39-60 | each line does to the remaining conditionals what it does to all of them, or is dropped and does nothing |
| FormatMeaning.FiltersKeepMeaning | format_src/main.cpp:432-449 | the lines selected on Linux are the same before and after both filters, from inside any open conditionals |
| FormatMeaning.FormattedFileMeansTheSame | format_src/main.cpp:494-524 | the same for whole well-nested, labelled files; a file of which nothing remains becomes one empty line |
| SourceLabels.LabelledFileMeansTheSame | format_src/main.cpp:494-524 | the same for every source that is labelled by its literal texts, with no reference to what the filters look for: #ifdef SYS_WINDOWS to an #endif that names SYS_WINDOWS, likewise for Linux |
| SourceLabels.WindowsBlockByText | format_src/main.cpp:39-60 | such a Windows block goes as a whole, with every line in it |
| SourceLabels.LinuxBlockByText | format_src/main.cpp:432-449 | such a Linux block loses its two ends and keeps the lines in it |
| SourceLabels.WindowsElseByText | format_src/main.cpp:39-60 | the result on the #else of a Windows block, for blocks given by their literal texts |
| SourceLabels.LinuxElseByText | format_src/main.cpp:432-449 | likewise for the #else of a Linux block |
| FormatMeaning.BlockIsDropped | format_src/main.cpp:39-60 | a Windows block with an #else is removed whole, whatever nested lines its parts hold |
| FormatMeaning.ElseOfWindowsBlockIsSelected | format_src/main.cpp:39-60 | on Linux such a block selects what its second part does, inside any open conditionals and before any rest |
| FormatMeaning.ElseOfWindowsBlockIsLost | format_src/main.cpp:39-60 | the filter keeps the meaning of such a block exactly if its second part selects nothing |
| FormatMeaning.EndsAreDropped | format_src/main.cpp:432-449 | of a Linux block with an #else only the two ends are removed |
| FormatMeaning.ElseOfLinuxBlockIsPassedOver | format_src/main.cpp:432-449 | on Linux such a block selects what its first part does, in any context |
| FormatMeaning.ElseOfLinuxBlockKeptIff | format_src/main.cpp:432-449 | the filter keeps the meaning of such a block exactly if its second part selects nothing under the branch that the stray #else opens |
| FormatMeaning.StrayElseHidesRest | format_src/main.cpp:432-449 | inside a conditional of which a branch is taken, what follows such a block is lost |
| FormatMeaning.WindowsDroppedTwice | format_src/main.cpp:39-60 | the Windows filter is idempotent on every text |
| FormatMeaning.UnmarkedFileIsReproduced | format_src/main.cpp:39-60 | a file without a matching line comes back byte for byte |
| ArgParsers.ScanIsTheRule | systools/arg_parser.cpp:17-40 | the first-match scan decides by the rule over the set of matching names: exact first, else the first if all agree |
| ArgParsers.NamesByFields | systools/arg_parser.cpp:17-40 | by the fields of the table: a name is unknown exactly if it begins no option name, ambiguous exactly if it is none and begins two that differ in code or argument, and otherwise stands for the first exact or first beginning one |
| ArgParsers.PartitionRearranges | systools/arg_parser.cpp:146-156 | options first, then the others: a permutation, with nothing out of its group |
| ArgParsers.PartitionKeepsOrder | systools/arg_parser.cpp:146-156 | each record has its own place; options come before the others, and two records of one kind keep their order |
| ArgParsers.ArgParser.ParseLongOption | systools/arg_parser.cpp:8-74 | record, consumed arguments and error of a long option |
| ArgParsers.ArgParser.ParseShortOption | systools/arg_parser.cpp:77-116 | records, consumed arguments and error of a cluster of short options |
| ArgParsers.ArgParser.constructor | systools/arg_parser.cpp:119-157 | records in order, or their stable partition, with the same error; the loop ends |
| ArgRendering.ItemRead | systools/arg_parser.cpp:128-146 | one written option or operand is read back as its records, whatever follows |
| ArgRendering.RenderedIsRead | systools/arg_parser.cpp:119-157 | any written list, then optionally "--" and any strings, is read back as exactly those records |
| ArgRendering.OptionAccepted | systools/arg_parser.cpp:8-116 | what is accepted is one of the written forms |
| ArgRendering.AcceptedIsRendered | systools/arg_parser.cpp:119-157 | a command line is accepted only if it is made of valid written forms |
| ArgRendering.AbbreviationMeansTheSame | systools/arg_parser.cpp:17-40 | an inexact abbreviation, the empty one of `--=text` included, parses like the full name if all its matches agree, and is ambiguous otherwise |
| ArgRendering.UnknownNameAnswers | systools/arg_parser.cpp:28-38 | the error text of an unknown and of an ambiguous name |
| ArgRendering.ValuedOptionAnswers | systools/arg_parser.cpp:40-59 | what a long option written with = and a value is answered, for each kind of argument, error texts included |
| ArgRendering.PlainOptionAnswers | systools/arg_parser.cpp:61-73 | likewise for one written without a value |
| ArgRendering.ShortAnswers | systools/arg_parser.cpp:77-116 | what a cluster of short options is answered at its first letter that is not a plain flag, error texts included |
| SysTools.LowDigitsAreCanonical | systools/systools.cpp:19-27 | the digits, last first, have the value in the radix and no leading zero |
| SysTools.DigitsByAlphabet | systools/systools.cpp:20-26 | the digits are 0 to 9 and a to z, in that order |
| SysTools.CanonicalIsUnique | systools/systools.cpp:9-38 | there is one such numeral for each value |
| SysTools.DigitsFit | systools/systools.cpp:19-29 | how long the text of a bounded value can be |
| SysTools.WriteDigits | systools/systools.cpp:16-29 | the digit loop writes the digits, last first, and the terminator |
| SysTools.ReverseDigits | systools/systools.cpp:29-37 | the two pointers reverse the digits in place |
| SysTools.Itoa | systools/systools.cpp:9-38 | a terminated text whose value in the radix is the input, with no leading zero but for zero itself |

## Left out

- The GTK windows, the administration tool, FIFOs, signals, daemon set-up and logging.
- MySQL access and SQL text: tables are keyed maps, writes may be refused, reads answer what the table holds. A failed index read (which leaves the SQL buffer uncleared), the width of the path column (100 characters) and the 32-bit reading of the begin time in backup/config.cpp are not modelled.
- syslayer/sysinfod.cpp: `get_diskid` is the disk whose first partition is mounted at the target, "" if there is none; it is taken to be the disk really mounted there, and to change only between one init and the next.
- File streaming, permissions and partial reads: a file is its contents and its modification time, and the source does not change during one walk or copy. What a killed copy leaves behind is arbitrary.
- BrickFleet.NoSharedDisk: bricks are started with at least one disk position; the other case is decided by FirstInitOwnsIffPositions.
- DiskContainers.DiskContainer.Copy: the answers met by the re-inits are a finite list, so only calls that return are described; RetryUnbounded is about the others. `statfs` is assumed to report no more free than total blocks where a lemma says Plausible, and 0.50 and 0.95 are exact fractions.
- DiskContainers.DiskContainer.Init: the message posted for a new disk and `m_work_level` are not modelled.
- FileFrames.FileFrame.Start: one source root, which is what a worker adds; the work list holds the folder nodes of the snapshot beside their paths, and a `stat` that fails on a listed entry is not modelled. Symbolic link cycles are excluded by the tree being finite.
- EngineProperties.FailureHoldsCheckpoint: assumes that no walk after the failure finds the root empty or unreadable; PassesFailureIffEscapes decides the other case.
- EngineLives.NoFileSkippedOverLives: between two lives the disks and the tables may change in any way that keeps the index true and the begin time of the brick; a crash inside a turn is the end of a life before that turn, since it moves no checkpoint.
- Other bricks act between two polls of a worker, not inside one copy; in BrickFleet they act there too, and what a copy then meets is a refused row.
- EngineOutcome.EveryFileIsSettled: for a path that was in the index before, and for a file of the same size found at the target, it speaks of the path and the size; the bytes may be those of another file (RecordedPathBackedIff, NewPathBackedIff).
- EngineRefinement.NoFileSkipped: is about files in readable folders; a folder that cannot be opened is passed over by the program with a warning.
- BackupEngine.BackupWorker.Start: the endless loop is followed for any finite number of turns; the sleeping is left out, and so is the test of the walk's callbacks, which init always sets.
- EngineProgress.CatchesUp: the clock stands still while the worker catches up.
- TaskControls.TaskControl.WaitSem: the blocking wait, which is documented to deadlock and is not used, is left out.
- TaskLifecycle.EveryTaskIsReported: codes that the worker never answers (BK_INIT_ADD_DISK, a BK_SUCESS of start) are left out.
- TaskLifecycle.RunKeepsInv: messages of a running worker are arbitrary brick messages; payloads are not cut off at 99 characters as COPYDATA does.
- The thread pool and `proc` are transition systems rather than classes: their point is the interleaving. Thread start-up, the second join in the destructor and the counters `m_nactive` and `m_ndormant` are left out; one dispatcher thread is assumed, as the program does.
- PoolProgress.EveryTaskCanStart: says that a task can come to be started if tasks return and process is called again; the program calls it once, and then ProcessHandsOut says how many tasks get a worker.
- ThreadPool.ShutDownEnds: says that shut_down can end if tasks return, not that they do: a task that registers its brick after `set_all` runs on.
- `msg_queue::clear`, which nothing calls, and the removal from an empty list, which is undefined in the program.
- FormatMeaning.FormattedFileMeansTheSame: the preprocessor is modelled line by line, without comments and continued lines, and passes over an `#else` or `#endif` with no conditional open, which a compiler reports; conditions other than the two marks are an arbitrary function of the lines selected before. Files hold no NUL characters.
- ArgParsers.ArgParser.constructor: strings are of bytes without NUL, the option table ends where the list ends, and null arrays and the constructor for a single argument are left out.
- SysTools.Itoa: assumes a buffer large enough, as the function itself does; DigitsFit says when it is.
- Windows branches of all files.
