# Verified models of the SONiC host services

Dafny models of the parts of this repository where several steps, threads or failures have to
work together, with proofs of what they keep:

* `ChannelParser`, `GnoiHandler`, `EventLoop`, `EventPaths`, `DeadlineLoop`, `Counting`: the DPU shutdown daemon
  (`scripts/gnoi_shutdown_daemon.py`). One transition is a class whose methods run the two deadline
  loops and leave a trace of calls; the event loop and its threads are a state machine over the
  lock, the shared set and the threads' program counters.
* `Reboot`, `RebootMachine`, `RebootPaths`: the reboot service (`host_modules/reboot.py`). The worker's halt loop is
  a method; the status record is written and read field by field by any number of threads.
* `DebugExecutor`, `DebugStream`: the streaming executor (`host_modules/debug_service.py`), one step per
  system call, signal and event access, and what it makes of a command told from the steps of a run.
* `SshOptions`, `SshFiles`, `SshRuns`, `SshService`, `SshHistory`, `SshKeys`: the ssh service (`host_modules/ssh_mgmt.py`) on a file system
  whose every operation may fail, and what its option renderer writes as sshd reads it
  (sshd(8), AUTHORIZED_KEYS FILE FORMAT).
* `ConsoleRewrite`, `ConsoleFiles`: the console password service (`host_modules/gnsi_console.py`).
* `Glome`: the GLOME configuration service (`host_modules/glome.py`).
* `Selection`, `ProcessStats`, `ByteCount`, `DockerStats`, `LastWins`, `StateDb`, `StatsDaemon`: the
  statistics collector (`crates/procdockerstatsd-rs/src/main.rs`), with the partial selection as an
  in-place quickselect.
* `ImageList`: the parser of the installed images (`host_modules/image_service.py`).
* `Text`, `Wrappers`, `FileFaults`, `Runs`: strings, results, failing file operations and runs of machines, as the
  others use them.

`dafny verify dfyconfig.toml` checks everything.

## How it is modelled

What a program learns from outside is a parameter: a `World`, a request, an oracle `nat -> T` for the
i-th observation. Clocks are real numbers that sleeping and calls advance. Which operations of a
call on files fail, and how, is a parameter of the call too: each endpoint of the file services is a
function of the disk, the request and the faults (`Created`, `Restored`, `Pushed`, `DoneSet`), and the
method that carries it out returns and leaves exactly what that function says. What holds of a call
whatever fails is a relation between the disk before, the disk after and the reply (`Creates`,
`Restores`, `Pushes`, `Sets`), which the functions are proved to meet. Theorems about whole histories
assume no more than the relations, with `Outside` steps for whatever else edits the live files in
between; what can go wrong is shown on the functions. Database calls fail by a nondeterministic
choice, unless the parameter `works` says that none does. Threads are state machines, and their theorems are about every state of every run.

Assumptions about the outside:

* A move within one directory is atomic: it happens or it does not, and a failed one changes
  nothing. The fallback of `shutil.move` to copy and delete is not modelled.
* A failed write or copy leaves its destination as it was or with the beginning of the text;
  `os.path.exists`, `os.path.isfile` and `os.path.isdir` tell the truth; closing a descriptor does not fail.
* `shutil.rmtree` may fail after removing any part of the tree. Where a result needs more, its
  `requires` says so.
* A failed database call may or may not have been carried out; deleting by pattern may fail half-way.
* Reading a lock-protected field is one step; `threading.Lock` excludes.

## What the code does not do

Each of these is proved, with the exact condition under which the expected behaviour holds where
there is one.

* A halt timeout of zero or less makes a shutdown transition give up polling at once, so it never
  succeeds unless it is skipped (`GnoiHandler.PollLoopBounds`). A timeout that cannot be read because
  of an error the reader does not catch leaves the halt flag set (`GnoiHandler.FlagClearedOnceAndLast`).
* With requests dispatched one at a time, the reboot service can get ready for another reboot if and
  only if no reboot thread has failed to start and none has died, as one does when the configured
  timeout overflows the integer conversion (`RebootPaths.ReadyAgainIffNothingLost`); until then it
  refuses every request (`RebootMachine.NoRecoveryAfterLoss`), and every acceptable request can end
  that way (`RebootPaths.EveryCallCanBeLost`). Requests dispatched one at a time exclude each other
  (`RebootMachine.ActiveWhileOneRequestOwes`); of any two acceptable ones in flight at once, while no
  reboot is published, both can be carried out (`RebootPaths.ConcurrentCallsCanBothReboot`).
* `host_modules/debug_service.py:126` says the timeout starts when the command begins. It starts at
  submission: a command, timed out or not, can still be started if and only if it is queued or being
  opened (`DebugExecutor.CanStartIffQueuedOrOpening`). A cancelled job is over after at most nine steps
  of the thread (`DebugExecutor.CancelledJobEndsWithinNineSteps`), but in select the thread takes its
  next step only when select comes back (`DebugExecutor.StillSelectingIffSelectHasNotReturned`). The
  `return` in the `finally` block swallows every error after the process has been started
  (`DebugExecutor.AnswersTellWhatHappened`).
* An ssh option value with a quote in it, or with a backslash at its end, is not read back
  (`SshOptions.ScanUndoesRender` gives the exact condition). `set` returns the code of the last
  recognised key only; its 0 means that every key was written if and only if the keys before the last
  recognised one were written before the call (`SshHistory.ZeroMeansWrittenIff`). After a removal of
  the checkpoint that stopped half-way, restore returns 0 and brings back exactly what was not lost
  (`SshHistory.HalfDeletedCheckpointRestoresLess`).
* Console users are matched by prefix: with colon-free names a line ends up as its user's last request
  wants it if and only if every requested name that is a prefix of it is its user's
  (`ConsoleRewrite.LastRequestIffNoForeignPrefix`). A name with a colon can hit a line that an earlier
  request wrote; where none does, the same condition is exact (`ConsoleRewrite.LastRequestIffWhereColonsMiss`).
  A request makes all lines alike if and only if one of its names is empty
  (`ConsoleRewrite.AllLinesMeetIffEmptyName`). A create answered 1 is no protection
  (`ConsoleFiles.RestorableIffCreated`), and a restore answered 1 can be repeated if and only if the
  checkpoint is still there (`ConsoleFiles.RetryIffCheckpointLeft`), which a failed move tries to remove. A successful `set`
  also turns carriage returns into newlines (`ConsoleFiles.WriteUndoesReadIff`).
* What a GLOME push leaves can be restored from, whatever failed in it, if and only if it did not
  report a file error, or its backup could not go wrong (`Glome.RestorableIffNoFileError`).
* `docker stats` sizes in kib, tib, gb and tb are recorded as that many bytes
  (`ByteCount.UnitsReadRight`). The comment on the TIME field names the format of a Python `timedelta`,
  which shows zero hours; the code leaves the hours out below one hour. The result is unambiguous
  all the same (`ProcessStats.TimeReadsBack`). The update time stamp of the containers moves on even
  when the containers were not updated (`StatsDaemon.ProcDockerStats.RunCycle`).
* A listed image whose name holds a heading word, or a colon in the current or next name, is not
  parsed back (`ImageList.ListingReadsBackIff`).

## Model

| member | source | states |
|---|---|---|
| `ChannelParser.ParseUndoesTopic` | scripts/gnoi_shutdown_daemon.py:324-358 | the channel of a module is the keyspace topic of its key; every non-empty module name, with colons or bars in it or not, is recovered from it, and the key rebuilt from it is the key notified |
| `ChannelParser.ParsedIffKeyInTable` | scripts/gnoi_shutdown_daemon.py:342-358 | a channel is parsed to a name exactly when its key is that module's key and the name is not empty |
| `DeadlineLoop.FoundIffSomeProbeInTime` | scripts/gnoi_shutdown_daemon.py:214-234 | a deadline loop succeeds exactly when some probe that starts before the deadline succeeds |
| `DeadlineLoop.OutcomeUnique` | scripts/gnoi_shutdown_daemon.py:254-268 | number of probes, answer and end time of a deadline loop are determined |
| `DeadlineLoop.CountAndTimeBounds` | scripts/gnoi_shutdown_daemon.py:254-268 | bounds on the number of probes and on the end time for any clock advanced by probes and pauses |
| `DeadlineLoop.CeilingBound` | scripts/gnoi_shutdown_daemon.py:209-234 | a budget of T whole seconds with pause p allows at most ceil(max(T,0)/p) probes |
| `GnoiHandler.GnoiRebootHandler.ShouldSkip` | scripts/gnoi_shutdown_daemon.py:122-168 | skips exactly when the module is found with status offline or powered down; not knowing and an exception both mean going on |
| `GnoiHandler.GnoiRebootHandler.WaitForGnoiHaltInProgress` | scripts/gnoi_shutdown_daemon.py:209-234 | the loop that waits for the flag meets the deadline-loop specification and reads the table that many times; an unreadable timeout raises before anything is done |
| `GnoiHandler.GnoiRebootHandler.PollRebootStatus` | scripts/gnoi_shutdown_daemon.py:252-268 | likewise for the status RPCs |
| `GnoiHandler.GnoiRebootHandler.GetDpuGnmiPort` | scripts/gnoi_shutdown_daemon.py:91-107 | the port is the first non-empty one under the lower-case, upper-case and given name; the default if there is none or a caught exception comes first |
| `GnoiHandler.PortUnique` | scripts/gnoi_shutdown_daemon.py:91-107 | that specification leaves one answer |
| `GnoiHandler.PortsInTurn` | scripts/gnoi_shutdown_daemon.py:91-107 | it is the port under the lower-case name, else under the upper-case one, else under the given one, and 8080 if none of them is there |
| `GnoiHandler.GnoiRebootHandler.ClearHaltFlag` | scripts/gnoi_shutdown_daemon.py:270-289 | true exactly when the module was found and its clearing call did not raise |
| `GnoiHandler.GnoiRebootHandler.HaltAndPoll` | scripts/gnoi_shutdown_daemon.py:180-207 | from the configuration read on, the course taken, its calls and its result |
| `GnoiHandler.GnoiRebootHandler.HandleTransition` | scripts/gnoi_shutdown_daemon.py:145-207 | every transition takes one of six courses, makes exactly that course's calls in order and returns that course's result |
| `GnoiHandler.CountEffects` | scripts/gnoi_shutdown_daemon.py:145-207 | how often a course clears the flag and sends HALT |
| `GnoiHandler.FlagClearedOnceAndLast` | scripts/gnoi_shutdown_daemon.py:145-207 | a transition that returns clears the flag exactly once, as its last call; one that raises never does, and when exactly it raises; HALT is sent at most once, and when exactly it is sent |
| `GnoiHandler.PolledAnswer` | scripts/gnoi_shutdown_daemon.py:194-207 | polling only follows an accepted HALT, and its answer is whether one of its RPCs saw completion |
| `GnoiHandler.SuccessMeansSkippedOrSeenComplete` | scripts/gnoi_shutdown_daemon.py:145-207 | the result is true exactly when skipped and cleared, or HALT was accepted and a poll saw completion, whatever the wait found |
| `GnoiHandler.WaitLoopBounds` | scripts/gnoi_shutdown_daemon.py:209-234 | at most ceil(max(T,0)/5) reads, over before max(T,0) + 5 s plus one read |
| `GnoiHandler.PollLoopBounds` | scripts/gnoi_shutdown_daemon.py:252-268 | at most max(T,0) RPCs, over before max(T,0) + 11 s; no success with a timeout of zero or less |
| `GnoiHandler.CourseTakenIffAttainable` | scripts/gnoi_shutdown_daemon.py:145-268 | every course, with any number of rounds, is taken in some outside, except one that saw completion without an RPC |
| `EventLoop.NoticedIffModuleDown` | scripts/gnoi_shutdown_daemon.py:337-369 | a message makes the loop look at a DPU exactly when its key is that module's and the module is down |
| `EventLoop.RunKeepsInv` | scripts/gnoi_shutdown_daemon.py:316-396 | every reachable state meets the invariants on lock, set, threads and log |
| `EventLoop.AtMostOneWorkerPerDpu` | scripts/gnoi_shutdown_daemon.py:316-396 | in every interleaving each DPU has at most one unfinished thread, and the set is exactly the DPUs being spawned or having a thread that has not removed its entry |
| `EventLoop.SpawnsAndEndsBalance` | scripts/gnoi_shutdown_daemon.py:369-396 | started minus removed is 1 while a thread is live and else 0, and every notice is ignored, started or in hand: no entry leaks, even when transitions raise |
| `EventLoop.TransitionsOfOneDpuAreSerial` | scripts/gnoi_shutdown_daemon.py:369-396 | the log of one DPU is whole transitions one after the other |
| `EventLoop.HaltsBoundedByNotices` | scripts/gnoi_shutdown_daemon.py:194-199 | over any run a DPU is told to halt at most once per shutdown notice |
| `EventPaths.TakenInUnlessReadingRaises` | scripts/gnoi_shutdown_daemon.py:337-366 | a waiting loop takes in every message but one about a module whose status cannot be read because of an exception that is not caught |
| `EventPaths.IgnoredIffBusy` | scripts/gnoi_shutdown_daemon.py:369-374 | in every run a notice is ignored if and only if some thread started for that DPU has not removed its entry yet |
| `EventPaths.EveryShutdownCanBe` | scripts/gnoi_shutdown_daemon.py:337-396 | from every reachable state in which the loop waits, the lock is free and the module has no live thread, a notice for it can be followed by all the calls of a transition that goes any attainable way, and leave the daemon as ready as before |
| `Reboot.RebootWorker.StillRunning` | host_modules/reboot.py:115-138 | one observation looks for the halt command and for pmon, and finds something running unless both are gone |
| `Reboot.RebootWorker.AwaitHalt` | host_modules/reboot.py:171-192 | the halt loop and the observation after it, with the status they publish |
| `Reboot.RebootWorker.ExecuteReboot` | host_modules/reboot.py:140-197 | a worker publishes exactly one status in every ending it can have, when it has it, and none if the method is unsupported or the timeout reader raises |
| `Reboot.SuccessIffSomeObservationQuiet` | host_modules/reboot.py:177-192 | success is published exactly when some observation found neither the halt command nor pmon, failure exactly when all observations, the last included, found either |
| `Reboot.HaltDecidesInTime` | host_modules/reboot.py:40-62 | the timeout is the configured one if that is positive and 60 otherwise, so there is at least one observation in the loop and at most ceil(T/5), and the worker decides before T + 5 s plus two observations |
| `Reboot.AcceptedIff` | host_modules/reboot.py:99-113 | a request is accepted exactly when it is an object with method 1, COLD, 3, HALT, 4 or WARM and no delay or a delay of 0; and which requests raise |
| `Reboot.EndingHappensIff` | host_modules/reboot.py:140-197 | the endings a worker for a method can have are exactly those that some outside leads it to |
| `Reboot.EndingPublished` | host_modules/reboot.py:157-197 | what the record of each ending says: inactive, the method, success without a time stamp for a halt that was seen, failure with one otherwise |
| `RebootMachine.RunKeepsInv` | host_modules/reboot.py:83-97 | every reachable state meets the invariants on lock, record, history and counters |
| `RebootMachine.RepliesArePublishedRecords` | host_modules/reboot.py:83-97 | field-by-field writes refine atomic publication: every reply is one published record; the first is the default one, active ones have status unknown, success comes only inactive with method 3 or HALT and `when` 0; counts never go down nor above the number of calls; workers carry supported methods |
| `RebootMachine.ReplyIsLatestRecord` | host_modules/reboot.py:246-251 | a reply is the latest record published when it is given |
| `RebootMachine.CallPublishesIffAcceptable` | host_modules/reboot.py:209-243 | in every interleaving a call goes on to publish a reboot, its own request, exactly when the record it read was inactive and its request is an acceptable one |
| `RebootMachine.SerialRunKeepsExclusion` | host_modules/reboot.py:200-243 | with one call in flight at a time, one owner of the active record |
| `RebootMachine.ActiveWhileOneRequestOwes` | host_modules/reboot.py:200-243 | then `active` is true exactly while one accepted request owes its final status, and meanwhile no call passes the check |
| `RebootMachine.WorkersEndInactive` | host_modules/reboot.py:157-197 | every worker that runs to its end publishes an inactive record |
| `RebootMachine.NoRecoveryAfterLoss` | host_modules/reboot.py:238-242 | after a failed thread start or a dead worker the record stays active for good and later calls are refused |
| `RebootPaths.ConcurrentCallsCanBothReboot` | host_modules/reboot.py:209-243 | from every state with the lock free and no reboot published, any two calls at their start with acceptable requests can lead to two workers at once: the check and the publication are separate critical sections |
| `RebootPaths.ReadyAgainIffNothingLost` | host_modules/reboot.py:140-243 | in every state that calls dispatched one at a time lead to, the lock can become free with an inactive record again if and only if no reboot thread has failed to start or died |
| `RebootPaths.FreeLock` | host_modules/reboot.py:83-97 | whoever holds the lock can get to its release |
| `RebootPaths.EveryCallCanBeLost` | host_modules/reboot.py:224-243 | from every ready state with no call in flight every acceptable request can end with a thread that did not start, and every HALT request with a worker that died |
| `RebootPaths.InitReady` | host_modules/reboot.py:69-81 | the service starts out as such a state |
| `RebootPaths.EveryRebootCanEnd` | host_modules/reboot.py:140-243 | from every ready service with no call in flight every acceptable request can be carried out to every ending of its method: its own record, then that of the ending, and ready again |
| `RebootPaths.AskIsAnswered` | host_modules/reboot.py:245-251 | with the lock free a query can be answered, with the record |
| `DebugExecutor.RunKeepsInv` | host_modules/debug_service.py:30-157 | every reachable state meets the invariants on queue, jobs, children and trace |
| `DebugExecutor.AtMostOneChild` | host_modules/debug_service.py:57-106 | at most one child is unreaped in any state, and none when the pool is idle |
| `DebugExecutor.SignalsNeverInterleave` | host_modules/debug_service.py:57-120 | the global signal trace is the commands' own signals, command after command in submission order; the queue is first come first served |
| `DebugExecutor.CancelledJobsFallSilent` | host_modules/debug_service.py:58-82 | after the cancellation event is set at most one more Stdout and one more Stderr signal of the job come |
| `DebugExecutor.AnswersTellWhatHappened` | host_modules/debug_service.py:133-157 | EIO means the process was never started; an exit code means it was reaped |
| `DebugExecutor.FinishedJobsStayFinished` | host_modules/debug_service.py:133-140 | nothing of a command follows once its future is set |
| `DebugExecutor.CanStartIffQueuedOrOpening` | host_modules/debug_service.py:123-157 | in every reachable state a command, whatever its client has been told, can still be started if and only if it is queued or being opened |
| `DebugExecutor.TimedOutCommandCanStillStart` | host_modules/debug_service.py:133-147 | every command waiting in the queue can be reported as timed out and run after that |
| `DebugExecutor.CancelledJobEndsWithinNineSteps` | host_modules/debug_service.py:57-106 | in every run a cancelled job that the thread is on is over after at most nine steps of the thread, whatever else happens in between |
| `DebugExecutor.StillSelectingIffSelectHasNotReturned` | host_modules/debug_service.py:57-63 | in every run, a cancelled job in select is still there, its child neither signalled nor reaped, if and only if select has neither found anything readable nor raised since |
| `DebugExecutor.CancelledSelectCanGoOn` | host_modules/debug_service.py:57-63 | for a cancelled job in select there are paths of every length on which select does not come back |
| `DebugExecutor.ThreadToIdle` | host_modules/debug_service.py:57-106 | left alone the thread can bring its job to an end from wherever it is |
| `DebugStream.StreamsUntilBothEnd` | host_modules/debug_service.py:54-86 | in every run, once the process is started and while its job is not cancelled and nothing raises, the thread goes on reading, and comes to closing if and only if a ready pty read gave EIO and a ready stderr read gave nothing; until then every round ends in select |
| `DebugStream.TroubleStopsReading` | host_modules/debug_service.py:58-76 | a select or a read that raises, and a set event, stop the reading at once; an event that is not set does not |
| `DebugStream.SignalsAreWhatWasRead` | host_modules/debug_service.py:65-82 | in every run, the signals of a command are the data of the pty as Stdout and of stderr as Stderr, in the order they were read, and nothing else |
| `DebugStream.ProcessIsEnded` | host_modules/debug_service.py:87-106 | in every run, the process is told to terminate exactly if it has not exited when it is looked at, killed if it does not exit in time, and left only when it has exited |
| `DebugStream.JobsAreSubmissions` | host_modules/debug_service.py:132-133 | the jobs are the commands submitted, in order |
| `DebugStream.ClientsAreTold` | host_modules/debug_service.py:134-157 | a client that timed out is told so, one that got its result is told that, and the event is set exactly for a time-out or an exception |
| `DebugStream.EveryOutputCanBe` | host_modules/debug_service.py:57-157 | from every reachable state with the thread idle, the next command can produce any sequence of readable data, exit of itself, when told to or killed, and be answered with its code, with exactly that output signalled |
| `SshOptions.WriteOptions` | host_modules/ssh_mgmt.py:48-62 | the loop with the `first` flag writes the named options separated by commas, then a blank if there were any |
| `SshOptions.WriteLines` | host_modules/ssh_mgmt.py:223-224 | the file has one line per key |
| `SshOptions.WriteItems` | host_modules/ssh_mgmt.py:245-250 | one line per kept key of an account, options first |
| `SshOptions.WriteAccounts` | host_modules/ssh_mgmt.py:240-250 | one line per kept key of root's accounts, in order |
| `SshOptions.FileHasOneLinePerKey` | host_modules/ssh_mgmt.py:240-250 | reading the file by lines gives the lines of the kept keys back |
| `SshOptions.UnquoteGivesSafeValues` | host_modules/ssh_mgmt.py:57-58 | the quoted value reads back exactly when it has no quote and no backslash at its end |
| `SshOptions.ScanUndoesRender` | host_modules/ssh_mgmt.py:48-62 | for clean names, scanning the rendered options gives them and the key back if and only if every value is safe |
| `SshOptions.LineReadsBack` | host_modules/ssh_mgmt.py:245-250 | the same for the whole line of a kept key: nameless options dropped, missing values empty |
| `SshFiles.PathsAreDistinctFiles` | host_modules/ssh_mgmt.py:15-39 | no two of the live, saved, staged and scratch paths are the same file |
| `SshService.SshMgmt.CopyFile` | host_modules/ssh_mgmt.py:65-89 | carries out one copy with the faults given; a missing source succeeds and changes nothing, otherwise the destination is the source or as before, and only the scratch file else changes |
| `SshService.SshMgmt.CopyFiles` | host_modules/ssh_mgmt.py:92-107 | copies pairwise, with destinations that occur twice; lists of different length change nothing |
| `SshRuns.FilesCopiedFollows` | host_modules/ssh_mgmt.py:92-107 | whatever fails, each destination is as it was or as its source was, the latter for all if the code is 0, and only scratch files else change |
| `SshService.SshMgmt.CreateCheckpoint` | host_modules/ssh_mgmt.py:111-145 | leaves and answers exactly what the faults given make of it |
| `SshRuns.CreateFollows` | host_modules/ssh_mgmt.py:111-145 | whatever fails, 0 means the three saved copies are the live files, and live files never change |
| `SshService.SshMgmt.RestoreCheckpoint` | host_modules/ssh_mgmt.py:149-188 | leaves and answers exactly what the faults given make of it |
| `SshRuns.RestoreFollows` | host_modules/ssh_mgmt.py:149-188 | whatever fails, each live file becomes its saved copy or stays, saved copies are not altered, and 0 means every saved copy is live again and the checkpoint is gone |
| `SshService.SshMgmt.DeleteCheckpoint` | host_modules/ssh_mgmt.py:192-202 | leaves and answers exactly what the fault given makes of it |
| `SshRuns.DeleteFollows` | host_modules/ssh_mgmt.py:192-202 | whatever fails, only saved copies go, all of them if it returns 0 |
| `SshService.SshMgmt.RenderEntry` | host_modules/ssh_mgmt.py:219-277 | the staged text of one key of the request |
| `SshService.SshMgmt.Publish` | host_modules/ssh_mgmt.py:222-286 | stages one key's text, where it stays, and copies it: the live file is as before or the new text, the latter if the code is 0 |
| `SshRuns.PublishFollows` | host_modules/ssh_mgmt.py:222-286 | the same of the function, whatever fails |
| `SshService.SshMgmt.Set` | host_modules/ssh_mgmt.py:206-294 | leaves and answers exactly what the faults given make of the request |
| `SshRuns.SetFollows` | host_modules/ssh_mgmt.py:206-294 | whatever fails, each live file is as before or what its key asked for, saved copies are untouched, and the code is that of the last recognised key |
| `SshHistory.SavedCopiesNeverAltered` | host_modules/ssh_mgmt.py:111-294 | in every history, a saved copy that is there is the file as it was at the latest create |
| `SshHistory.RestoreGivesBackSavedFiles` | host_modules/ssh_mgmt.py:111-294 | create 0, then restore 0: each file with a saved copy is as it was at the create, every other one keeps its current content |
| `SshHistory.RestoreUndoesEverySet` | host_modules/ssh_mgmt.py:111-294 | the same in terms of the files at the create, when no removal failed half-way in between |
| `SshHistory.HalfDeletedCheckpointRestoresLess` | host_modules/ssh_mgmt.py:149-202 | for every checkpoint and every part of it that a delete loses before it stops with 1: the restore after it returns 0 and brings back exactly the other files |
| `SshHistory.RestoredIffNothingNeededWasLost` | host_modules/ssh_mgmt.py:111-202 | so after a create that returned 0 everything is brought back if and only if the files whose copies were lost have their content from then anyway |
| `SshHistory.RestoredIffCopiesOrContentsLeft` | host_modules/ssh_mgmt.py:111-294 | in every history, a restore that returns 0 brings every file of the latest create back if and only if each one with no saved copy left has its content from then anyway |
| `SshHistory.SetCodeIsTheLastKeys` | host_modules/ssh_mgmt.py:218-294 | `set` returns 0 exactly when the copies of the last recognised key succeeded |
| `SshHistory.SetCanReturnZeroUnwritten` | host_modules/ssh_mgmt.py:218-294 | for every disk and request, `set` can return 0 without having written any given key but the last recognised one |
| `SshHistory.ZeroMeansWrittenIff` | host_modules/ssh_mgmt.py:218-294 | all runs of `set` that return 0 leave every recognised key written if and only if those before the last recognised one were written before the call |
| `SshHistory.ZeroMeansWrittenForOneKey` | host_modules/ssh_mgmt.py:218-294 | on all disks this is so exactly for requests with at most one recognised key |
| `SshKeys.PathsOfFiles` | host_modules/ssh_mgmt.py:15-39 | the paths of the live files, the saved copies and the staged texts |
| `SshKeys.RootsLinesIff` | host_modules/ssh_mgmt.py:238-250 | the lines written for accounts are those of the kept keys or users of the accounts named root: each once, in order, no others |
| `SshKeys.WrittenWhere` | host_modules/ssh_mgmt.py:219-286 | what is written for SshCaPublicKey is in the CA's file, for SshAccountKeys in authorized_keys and for SshAccountUsers in authorized_users, with exactly those lines |
| `SshKeys.SetWritesEachKeysOwnFile` | host_modules/ssh_mgmt.py:206-294 | whatever fails, a file changes only if the request has its key, and when the answer is 0 the file of the last recognised key has exactly the lines that key asks for |
| `ConsoleRewrite.UpdatePasswordIfUserFound` | host_modules/gnsi_console.py:85-99 | in place, exactly the lines with the name as a prefix are replaced |
| `ConsoleRewrite.ApplyRequest` | host_modules/gnsi_console.py:179-193 | one request: skipped without name, password or hash |
| `ConsoleRewrite.ApplyRequests` | host_modules/gnsi_console.py:179-193 | the nested loops equal a line-wise fold of the hashed requests; count and order of lines are kept |
| `ConsoleRewrite.EachLineItsUsersLastRequest` | host_modules/gnsi_console.py:179-193 | with colon-free names that are prefixes of their own user's line only, each line is the last hashed request for its user or byte for byte as before |
| `ConsoleRewrite.LastRequestIffNoForeignPrefix` | host_modules/gnsi_console.py:179-193 | for whole requests with colon-free names: a line is its user's last hashed request, or as before, if and only if every requested name that is a prefix of the line is its user's |
| `ConsoleRewrite.AllLinesMeetIffEmptyName` | host_modules/gnsi_console.py:179-193 | a request makes all lines of every file one and the same if and only if one of its names is empty |
| `ConsoleRewrite.LastRequestIffWhereColonsMiss` | host_modules/gnsi_console.py:179-193 | the same for all requests none of whose names with a colon is a prefix of the line or of what an earlier request writes |
| `ConsoleRewrite.ColonNameHitsRewrittenLine` | host_modules/gnsi_console.py:179-193 | a request for which this last condition fails, and with it the result |
| `ConsoleFiles.WriteUndoesReadIff` | host_modules/gnsi_console.py:75-108 | writing the lines read in text mode gives the same file if and only if it has no carriage return |
| `ConsoleFiles.ReturnsBecomeNewlines` | host_modules/gnsi_console.py:75-83 | reading turns every carriage return, with the newline behind it if there is one, into one newline |
| `ConsoleFiles.GnsiConsole.CreateCheckpoint` | host_modules/gnsi_console.py:31-39 | leaves and answers exactly what the fault given makes of it; 0 means the checkpoint is the password file, which never changes |
| `ConsoleFiles.GnsiConsole.RestoreCheckpoint` | host_modules/gnsi_console.py:42-51 | 0 means the checkpoint has become the password file; otherwise that is as before |
| `ConsoleFiles.GnsiConsole.DeleteCheckpoint` | host_modules/gnsi_console.py:54-62 | only the checkpoint can go |
| `ConsoleFiles.GnsiConsole.CreateTempPasswdFile` | host_modules/gnsi_console.py:101-122 | 0 means the temporary file has the content |
| `ConsoleFiles.GnsiConsole.MoveTempToPasswd` | host_modules/gnsi_console.py:124-145 | 0 means the temporary file has become the password file; otherwise that is as before |
| `ConsoleFiles.GnsiConsole.Set` | host_modules/gnsi_console.py:148-202 | leaves and answers exactly what the faults given make of it, an undecodable password file included; a failed set leaves the password file as it was, a successful one makes it the requested file; the checkpoint is untouched either way |
| `ConsoleFiles.CallsFollow` | host_modules/gnsi_console.py:31-62 | what holds of create, restore and delete whatever fails |
| `ConsoleFiles.SetFollows` | host_modules/gnsi_console.py:148-202 | what holds of `set` whatever fails |
| `ConsoleFiles.SetRewritesLineByLine` | host_modules/gnsi_console.py:85-202 | after a `set` that returns 0 on a file of whole lines, with plain names and hashes, the file read back has as many lines as before, each as it was if no name of the request is a prefix of it, and else the name, the hash and the fixed tail of the last element that hit it |
| `ConsoleFiles.CheckpointKeptOrGone` | host_modules/gnsi_console.py:31-202 | in every history, until the next create the checkpoint is what the create left, or gone |
| `ConsoleFiles.RestoreUndoesEverySet` | host_modules/gnsi_console.py:31-202 | create 0, anything without a create, restore 0: the password file is as at the create and the checkpoint is used up |
| `ConsoleFiles.GoneCheckpointRefusesAll` | host_modules/gnsi_console.py:42-152 | without a checkpoint every restore and set is refused and changes nothing |
| `ConsoleFiles.TornCheckpointCanBeInstalled` | host_modules/gnsi_console.py:31-51 | wherever the copy can go wrong, some failed create leaves a checkpoint that restore installs with 0 in place of another password file |
| `ConsoleFiles.RestorableIffCreated` | host_modules/gnsi_console.py:31-51 | restoring is safe after every create with a given reply if and only if the reply is not 1 or the copy cannot go wrong |
| `ConsoleFiles.RetryIffCheckpointLeft` | host_modules/gnsi_console.py:42-51 | after a restore answered 1 the password file is as before, and another restore can succeed if and only if the checkpoint is still there |
| `ConsoleFiles.FailedRestoreEndsTheCheckpoint` | host_modules/gnsi_console.py:42-152 | in every history that goes on from one that did, restores and sets are refused until the next create |
| `Glome.Glome.BackUp` | host_modules/glome.py:50-55 | without a fault the backup is the configuration, content or absence |
| `Glome.Glome.RemoveConfig` | host_modules/glome.py:22-26 | removing succeeds also when there is no file |
| `Glome.Glome.WriteConfig` | host_modules/glome.py:28-38 | the requested file, or a missing key before anything is written |
| `Glome.Glome.PushConfig` | host_modules/glome.py:43-74 | leaves and answers exactly what the faults given make of the request |
| `Glome.PushPushes` | host_modules/glome.py:43-74 | whatever fails, what each reply code says about configuration and backup |
| `Glome.PushedConfigIsPayloads` | host_modules/glome.py:28-61 | after a push that returns 0 the configuration is gone if the payload disables it, and else has the service section with the key, the key version and the URL prefix of the payload, each on its own line |
| `Glome.Glome.RestoreCheckpoint` | host_modules/glome.py:79-93 | leaves and answers exactly what the faults given make of it; 0 means the configuration is the backup, and a failure leaves it as it was or with the beginning of the backup |
| `Glome.BackupKept` | host_modules/glome.py:43-93 | only a push changes the backup |
| `Glome.RestoreUndoesLatestPush` | host_modules/glome.py:43-93 | in every history, unless the latest push reported a file error, a restore that returns 0 yields the configuration just before that push, accepted or not |
| `Glome.RestoreIdempotent` | host_modules/glome.py:79-93 | a second restore changes nothing |
| `Glome.RefusedPushKeepsConfig` | host_modules/glome.py:56-73 | a push answered 3 or 4, or raising, leaves the configuration alone |
| `Glome.TornBackupCanBeInstalled` | host_modules/glome.py:50-93 | wherever the backup can go wrong, for every request some push that reports a file error leaves a backup that restore installs with 0 in place of another configuration |
| `Glome.RestorableIffNoFileError` | host_modules/glome.py:43-93 | for every configuration, backup, request and reply: a push with that reply can be restored from whatever failed in it if and only if the reply is not 1 or 2 or the backup cannot go wrong |
| `Selection.Partition` | crates/procdockerstatsd-rs/src/main.rs:210-213 | in-place partition of a range around one of its elements, a permutation that keeps the outer bounds |
| `Selection.SelectNth` | crates/procdockerstatsd-rs/src/main.rs:210-213 | the vector stays a permutation, with everything up to the chosen position at least everything behind it |
| `Selection.SortSorts` | crates/procdockerstatsd-rs/src/main.rs:210-214 | the reference sort is a descending permutation |
| `Selection.DescendingUnique` | crates/procdockerstatsd-rs/src/main.rs:210-214 | a multiset has one descending order |
| `Selection.SelectionRefinesSort` | crates/procdockerstatsd-rs/src/main.rs:194-214 | the kept CPU values are, as a multiset, the first `limit` of the fully sorted list |
| `ProcessStats.ValidProcesses` | crates/procdockerstatsd-rs/src/main.rs:193-207 | the loop collects the eligible entries |
| `ProcessStats.EligibleExactly` | crates/procdockerstatsd-rs/src/main.rs:193-207 | these are the processes that are neither unknown nor zombies, each with its CPU value, NaN as 0 |
| `ProcessStats.TopProcesses` | crates/procdockerstatsd-rs/src/main.rs:208-214 | min(1024, n) entries, none below one that is dropped |
| `ProcessStats.TopAreTheBusiest` | crates/procdockerstatsd-rs/src/main.rs:208-214 | sorted, their CPU values are the head of the full sort |
| `ProcessStats.SelectedDistinct` | crates/procdockerstatsd-rs/src/main.rs:208-214 | the selected entries are different processes of the list |
| `ProcessStats.DroppedAreNotBusier` | crates/procdockerstatsd-rs/src/main.rs:194-214 | the selected processes are alive, and no live process left out has a higher usage than one of them, NaN counting as 0 |
| `ProcessStats.SelectedUsagesAreTheHighest` | crates/procdockerstatsd-rs/src/main.rs:193-214 | at most 1024 processes are selected, all live ones if there are no more; sorted, their usages are the head of the usages of all live processes in descending order |
| `ProcessStats.TimeReadsBack` | crates/procdockerstatsd-rs/src/main.rs:235-248 | the TIME field determines the CPU seconds it was made from |
| `ProcessStats.TimeShape` | crates/procdockerstatsd-rs/src/main.rs:242-247 | it has hours from one hour on, and minutes and seconds below 60, in two digits but for the first part |
| `ProcessStats.RecordShowsProcess` | crates/procdockerstatsd-rs/src/main.rs:226-268 | the record of a process is under its pid; its nine fields show the process: pid and CPU seconds as numbers, the others as they are |
| `ProcessStats.KeysDiffer` | crates/procdockerstatsd-rs/src/main.rs:226 | records of different processes have different keys |
| `ByteCount.SizeIsRead` | crates/procdockerstatsd-rs/src/main.rs:73-86 | digits, with or without a fraction, and a unit are read as that number times the unit's factor, rounded down, up to the largest u64 |
| `ByteCount.LeftmostSizeIsRead` | crates/procdockerstatsd-rs/src/main.rs:73-89 | what precedes the leftmost size of a text does not matter, and a text with none is 0 |
| `ByteCount.UnitsReadRight` | crates/procdockerstatsd-rs/src/main.rs:76-85 | a whole size of up to 2^53 bytes is read as docker means it if and only if its unit is not kib, tib, gb or tb |
| `LastWins.FilledUnique` | crates/procdockerstatsd-rs/src/main.rs:91-153 | the lines determine the table that the last line per key fills |
| `DockerStats.ParseDockerJsonOutput` | crates/procdockerstatsd-rs/src/main.rs:91-153 | one record per container ID, from its last kept line; empty exactly when no line is kept |
| `DockerStats.SplitOnFirst` | crates/procdockerstatsd-rs/src/main.rs:127-131 | splitting takes off what stands before the first separator, and goes on behind it |
| `DockerStats.PairReads` | crates/procdockerstatsd-rs/src/main.rs:127-145 | the two fields of a pair hold the byte counts of the first two pieces of its usage |
| `DockerStats.PercentTrimmed` | crates/procdockerstatsd-rs/src/main.rs:119-124 | all percent signs at the end of a percentage go, and nothing else |
| `DockerStats.NoPartHidesAnother` | crates/procdockerstatsd-rs/src/main.rs:115-147 | the record shows the name, the percentages, the pids and every pair of byte counts that parsed: no field hides another |
| `DockerStats.RecordShowsContainer` | crates/procdockerstatsd-rs/src/main.rs:108-149 | a line is kept exactly when it lists a container with a name other than "--"; its record is under its id, with the name, the pids, the percentages without their signs and the byte counts of the first two pieces of each usage |
| `StateDb.HoldsUnique` | crates/procdockerstatsd-rs/src/main.rs:175-180 | the written items determine the records, in whatever order they are written |
| `StatsDaemon.Listed` | crates/procdockerstatsd-rs/src/main.rs:176-180 | iterating over a map gives each entry once, in some order |
| `StatsDaemon.CollectRecords` | crates/procdockerstatsd-rs/src/main.rs:217-271 | the pids and the records of the selected processes |
| `StatsDaemon.ProcDockerStats.DeleteAllByPattern` | crates/procdockerstatsd-rs/src/main.rs:283-284 | only records under the prefix go, all of them if it succeeds |
| `StatsDaemon.ProcDockerStats.Hmset` | crates/procdockerstatsd-rs/src/main.rs:337-340 | fields are merged into the hash of one key |
| `StatsDaemon.ProcDockerStats.Rewrite` | crates/procdockerstatsd-rs/src/main.rs:284-289 | success: exactly the items under the prefix; failure: only old records or only new ones, never a mixture; other keys as before |
| `StatsDaemon.ProcDockerStats.UpdateProcessStats` | crates/procdockerstatsd-rs/src/main.rs:188-292 | a cycle selects the top processes, prunes the cache to them and rewrites their records |
| `StatsDaemon.ProcDockerStats.UpdateDockerStats` | crates/procdockerstatsd-rs/src/main.rs:167-186 | true: the container records are those of the last kept line per ID, whatever the map's order; false: exactly when nothing was kept, and nothing is touched |
| `StatsDaemon.ProcDockerStats.RunCycle` | crates/procdockerstatsd-rs/src/main.rs:351-358 | a pass: containers survive the process refresh, stamps are set even when a refresh failed, all other keys are as before; where database calls work, all of it succeeds |
| `StatsDaemon.OneRecordPerSelectedProcess` | crates/procdockerstatsd-rs/src/main.rs:217-291 | after a successful refresh there is exactly one record per selected process, under its pid, with exactly nine fields that show that process, and nothing stale |
| `StatsDaemon.NoProcessIsTheStamp` | crates/procdockerstatsd-rs/src/main.rs:283-284 | the wipe takes the time stamp of the process records with it |
| `ImageList.ParseSonicInstallerList` | host_modules/image_service.py:187-222 | current and next are named by the last line of their kind, the available images are the other lines trimmed, in order |
| `ImageList.ParseUnique` | host_modules/image_service.py:197-222 | that leaves one listing |
| `ImageList.EveryLineOnce` | host_modules/image_service.py:201-213 | every line falls into exactly one of the four branches |
| `ImageList.KeywordHasColon` | host_modules/image_service.py:202-209 | on a heading line the name is always found |
| `ImageList.ListingReadsBackIff` | host_modules/image_service.py:197-222 | parsing recovers a printed listing if and only if the current and next names are trimmed and colon-free and the available ones trimmed and free of headings |

## Left out

- `SshHistory.RestoreUndoesEverySet`: assumes that no failed removal took only a part of the checkpoint, because the statement is false otherwise (`SshHistory.HalfDeletedCheckpointRestoresLess`); `SshHistory.RestoreGivesBackSavedFiles` has no such condition.
- `RebootMachine.ActiveWhileOneRequestOwes`: assumes calls dispatched one at a time, because the statement is false otherwise (`RebootPaths.ConcurrentCallsCanBothReboot`).
- `EventLoop.TransitionsOfOneDpuAreSerial`: a thread may take any course that some outside leads to (`GnoiHandler.CourseTakenIffAttainable`); which one a given outside leads to is `GnoiHandler.GnoiRebootHandler.HandleTransition`.
- `ConsoleFiles.SetRewritesLineByLine`: assumes that the password file ends in a newline and that no name or hash holds a newline or a carriage return; what `set` writes otherwise is `ConsoleFiles.GnsiConsole.Set`.
- `ByteCount.UnitsReadRight`: up to 2^53 bytes only, because f64, in which the source computes, does not hold every larger whole number.
- `ByteCount.SizeIsRead`: exact numbers rounded down, where the source computes in f64; digits outside ASCII, which the pattern also accepts, are not modelled.
- `StatsDaemon.ProcDockerStats.RunCycle`: the FIPS part of the pass, which writes one key of its own, is not modelled.
- `ImageList.ListingReadsBackIff`: blanks are space, tab, newline and carriage return, where Python strips all Unicode white space.
- The source's `select_nth_unstable_by` is a library call whose algorithm is not in the repository: quickselect stands for it, and only what it ensures is used.
- CPU values are integers ordered as `total_cmp` orders the floats; formatted process fields other than PID and TIME are opaque texts.
- Decoding JSON, the ConfigParser output for values of several lines, hashing with openssl, log and message texts: inputs are taken as decoded, and the hash is an arbitrary function that may fail or raise.
- Decoded ssh requests that are not of the documented shape, which raise part-way.
- D-Bus, Redis and pubsub transport, subprocesses, the Docker SDK, psutil and ptys are oracles; file modes and ownership are not modelled.
- `gcu.py`, `config_engine.py`, `showtech.py`, `systemd_service.py`, `docker_service.py`, `file_service.py`, `debug_info.py`, `ldap.py` and the utilities: thin wrappers or straight-line calls.
- `gnoi_reset.py`: its argument parser always returns code 0, so what follows the check is unreachable or straight-line.
- `caclmgrd`, `hostcfgd`, `featured`, `console-monitor` and the Python `procdockerstatsd` are not part of this model.
