/**
  The debug executor (host_modules/debug_service.py): clients of `RunCommand`, the queue of the
  one-thread pool, the pool's thread inside `_run_and_stream`, and the child processes, one step per
  system call, signal or event access.  Jobs are numbered in the order they are submitted.
*/
module DebugExecutor {
  import opened Runs
  import opened Wrappers

  datatype Signal = Stdout(data: string) | Stderr(data: string)
  datatype Child = NotStarted | Running | Exited | Reaped
  datatype Future = Pending | Result | Exception

  /** How RunCommand answered: with the exit code, with ETIMEDOUT, with EIO. */
  datatype Client = Waiting | Returned | TimedOut | Failed

  datatype Job = Job(
    argv: seq<string>,
    client: Client,
    cancelled: bool,      // cancellation_event
    future: Future,
    child: Child,
    master: bool,         // master_fd is in fds
    stderr: bool,         // stderr_fd is in fds
    log: seq<Signal>,     // the signals emitted for this job
    lateOut: nat,         // Stdout signals emitted after the event was set
    lateErr: nat          // Stderr signals emitted after the event was set
  )

  datatype Pc =
    | Idle
    | Opening(job: nat)
    | Selecting(job: nat)
    | Woken(job: nat, m: bool, e: bool)    // select returned; which descriptors are ready
    | Checked(job: nat, m: bool, e: bool)  // the event was not set
    | MasterDone(job: nat, e: bool)
    | ErrDone(job: nat)
    | Closing(job: nat)                    // in `finally`
    | Terminating(job: nat)                // SIGTERM sent, in wait(timeout=5)
    | Killing(job: nat)                    // SIGKILL sent, in wait()
    | Leaving(job: nat)                    // about to return the exit code

  datatype State = State(jobs: seq<Job>, queue: seq<nat>, pc: Pc, trace: seq<(nat, Signal)>)

  datatype ReadResult = Data(s: string) | Eio | Raises

  /** What the pool's thread does next, for the job it is on. */
  datatype WorkerStep =
    | OpenFails | OpenWorks
    | Wake(m: bool, e: bool) | SelectRaises
    | Check
    | ReadMaster(r: ReadResult) | ReadErr(r: ReadResult)
    | CheckList
    | Poll | WaitReaps | WaitExpires | KillReaps
    | Finish

  datatype Step =
    | Submit(argv: seq<string>)
    | Dequeue
    | Worker(w: WorkerStep)
    | ClientGets(j: nat) | ClientTimesOut(j: nat)
    | ChildExits(j: nat)

  const INIT := State([], [], Idle, [])

  predicate WorkerEnabled(s: State, step: WorkerStep)
    requires !s.pc.Idle? && s.pc.job < |s.jobs|
  {
    var job := s.jobs[s.pc.job];
    match step
    case OpenFails => s.pc.Opening?
    case OpenWorks => s.pc.Opening?
    case Wake(m, e) => s.pc.Selecting? && (m || e) && (m ==> job.master) && (e ==> job.stderr)
    case SelectRaises => s.pc.Selecting?
    case Check => s.pc.Woken?
    case ReadMaster(_) => s.pc.Checked?
    case ReadErr(r) => s.pc.MasterDone? && !r.Eio?
    case CheckList => s.pc.ErrDone?
    case Poll => s.pc.Closing?
    case WaitReaps => s.pc.Terminating? && job.child.Exited?
    case WaitExpires => s.pc.Terminating?
    case KillReaps => s.pc.Killing? && job.child.Exited?
    case Finish => s.pc.Leaving?
  }

  predicate Enabled(s: State, step: Step) {
    match step
    case Submit(_) => true
    case Dequeue => s.pc.Idle? && s.queue != [] && s.queue[0] < |s.jobs|
    case Worker(w) => !s.pc.Idle? && s.pc.job < |s.jobs| && WorkerEnabled(s, w)
    case ClientGets(j) => j < |s.jobs| && s.jobs[j].client.Waiting? && !s.jobs[j].future.Pending?
    case ClientTimesOut(j) => j < |s.jobs| && s.jobs[j].client.Waiting? && s.jobs[j].future.Pending?
    case ChildExits(j) => j < |s.jobs| && s.jobs[j].child.Running?
  }

  function Emit(job: Job, signal: Signal): Job {
    job.(log := job.log + [signal],
         lateOut := job.lateOut + (if job.cancelled && signal.Stdout? then 1 else 0),
         lateErr := job.lateErr + (if job.cancelled && signal.Stderr? then 1 else 0))
  }

  function Apply(s: State, step: Step): State
    requires Enabled(s, step)
  {
    match step
    case Submit(argv) =>
      s.(jobs := s.jobs + [Job(argv, Waiting, false, Pending, NotStarted, false, false, [], 0, 0)], queue := s.queue + [|s.jobs|])
    case Dequeue => s.(pc := Opening(s.queue[0]), queue := s.queue[1..])
    case Worker(w) => WorkerApply(s, w)
    case ClientGets(j) =>
      var job := s.jobs[j];
      s.(jobs := s.jobs[j := if job.future.Result? then job.(client := Returned) else job.(client := Failed, cancelled := true)])
    case ClientTimesOut(j) => s.(jobs := s.jobs[j := s.jobs[j].(client := TimedOut, cancelled := true)])
    case ChildExits(j) => s.(jobs := s.jobs[j := s.jobs[j].(child := Exited)])
  }

  function WorkerApply(s: State, step: WorkerStep): State
    requires !s.pc.Idle? && s.pc.job < |s.jobs| && WorkerEnabled(s, step)
  {
    var j := s.pc.job;
    var job := s.jobs[j];
    match step
    case OpenFails => s.(pc := Idle, jobs := s.jobs[j := job.(future := Exception)])
    case OpenWorks => s.(pc := Selecting(j), jobs := s.jobs[j := job.(child := Running, master := true, stderr := true)])
    case Wake(m, e) => s.(pc := Woken(j, m, e))
    case SelectRaises => s.(pc := Closing(j))
    case Check => s.(pc := if job.cancelled then Closing(j) else Checked(j, s.pc.m, s.pc.e))
    case ReadMaster(r) =>
      if !s.pc.m then s.(pc := MasterDone(j, s.pc.e))
      else if r.Raises? then s.(pc := Closing(j))
      else if r.Eio? then s.(pc := MasterDone(j, s.pc.e), jobs := s.jobs[j := job.(master := false)])
      else Say(s, Stdout(r.s), MasterDone(j, s.pc.e))
    case ReadErr(r) =>
      if !s.pc.e then s.(pc := ErrDone(j))
      else if r.Raises? then s.(pc := Closing(j))
      else if r.s == "" then s.(pc := ErrDone(j), jobs := s.jobs[j := job.(stderr := false)])
      else Say(s, Stderr(r.s), ErrDone(j))
    case CheckList => s.(pc := if job.master || job.stderr then Selecting(j) else Closing(j))
    case Poll => if job.child.Exited? then Reap(s) else s.(pc := Terminating(j))
    case WaitReaps => Reap(s)
    case WaitExpires => s.(pc := Killing(j))
    case KillReaps => Reap(s)
    case Finish => s.(pc := Idle, jobs := s.jobs[j := job.(future := Result)])
  }

  /** The signal goes out for the job at hand. */
  function Say(s: State, signal: Signal, next: Pc): State
    requires !s.pc.Idle? && s.pc.job < |s.jobs|
  {
    var j := s.pc.job;
    s.(pc := next, jobs := s.jobs[j := Emit(s.jobs[j], signal)], trace := s.trace + [(j, signal)])
  }

  function Reap(s: State): State
    requires !s.pc.Idle? && s.pc.job < |s.jobs|
  {
    s.(pc := Leaving(s.pc.job), jobs := s.jobs[s.pc.job := s.jobs[s.pc.job].(child := Reaped)])
  }

  /* ----- invariants ----- */

  predicate Unreaped(c: Child) { c.Running? || c.Exited? }

  /** The jobs taken off the queue so far. */
  function Taken(s: State): int { |s.jobs| - |s.queue| }

  /** The queue holds exactly the jobs not taken yet, in order; the thread works on the last one taken. */
  ghost predicate QueueInv(s: State) {
    && |s.queue| <= |s.jobs|
    && (forall i | 0 <= i < |s.queue| :: s.queue[i] == Taken(s) + i)
    && (!s.pc.Idle? ==> 0 < Taken(s) && s.pc.job == Taken(s) - 1)
  }

  /** What job `i` looks like, by where it stands: waiting, being run, or over. */
  ghost predicate JobInv(s: State, i: nat)
    requires i < |s.jobs|
  {
    var job := s.jobs[i];
    && (job.client.Returned? ==> job.future.Result?)
    && (job.client.Failed? ==> job.future.Exception?)
    && (job.client.TimedOut? ==> job.cancelled)
    && (!job.cancelled ==> job.lateOut == 0 && job.lateErr == 0)
    && job.lateOut <= 1 && job.lateErr <= 1 && job.lateOut + job.lateErr <= |job.log|
    && if i >= Taken(s) then job.future.Pending? && job.child.NotStarted? && job.log == []
       else if !s.pc.Idle? && i == s.pc.job then
         && job.future.Pending?
         && (match s.pc
             case Opening(_) => job.child.NotStarted? && job.log == []
             case Leaving(_) => job.child.Reaped?
             case _ => Unreaped(job.child))
         && (s.pc.Opening? || s.pc.Checked? ==> job.lateOut == 0 && job.lateErr == 0)
         && (s.pc.MasterDone? ==> job.lateErr == 0)
       else
         && !job.future.Pending?
         && (job.future.Result? ==> job.child.Reaped?)
         && (job.future.Exception? ==> job.child.NotStarted? && job.log == [])
  }

  function Tagged(j: nat, log: seq<Signal>): seq<(nat, Signal)> {
    seq(|log|, i requires 0 <= i < |log| => (j, log[i]))
  }

  /** The jobs' own signals, job after job in submission order. */
  function Blocks(jobs: seq<Job>): seq<(nat, Signal)> {
    if jobs == [] then [] else Blocks(jobs[..|jobs| - 1]) + Tagged(|jobs| - 1, jobs[|jobs| - 1].log)
  }

  ghost predicate Inv(s: State) {
    && QueueInv(s)
    && (forall i: nat | i < |s.jobs| :: JobInv(s, i))
    && s.trace == Blocks(s.jobs)
  }

  lemma {:induction false} BlocksSame(before: seq<Job>, after: seq<Job>)
    requires |before| == |after| && forall i | 0 <= i < |before| :: after[i].log == before[i].log
    ensures Blocks(after) == Blocks(before)
  {
    if before != [] {
      BlocksSame(before[..|before| - 1], after[..|after| - 1]);
    }
  }

  /** A signal of the last job that has any goes to the end of the blocks. */
  lemma {:induction false} BlocksGrow(jobs: seq<Job>, j: nat, job: Job, signal: Signal)
    requires j < |jobs| && job.log == jobs[j].log + [signal]
    requires forall i | j < i < |jobs| :: jobs[i].log == []
    ensures Blocks(jobs[j := job]) == Blocks(jobs) + [(j, signal)]
  {
    var n := |jobs| - 1;
    var after := jobs[j := job];
    if j == n {
      assert after[..n] == jobs[..n];
      assert Tagged(j, job.log) == Tagged(j, jobs[j].log) + [(j, signal)];
    } else {
      assert after[..n] == jobs[..n][j := job];
      BlocksGrow(jobs[..n], j, job, signal);
      assert after[n].log == [] && Tagged(n, after[n].log) == [];
    }
  }

  lemma QueueStep(s: State, step: Step)
    requires QueueInv(s) && Enabled(s, step)
    ensures QueueInv(Apply(s, step))
  {
  }

  lemma JobsStep(s: State, step: Step)
    requires Inv(s) && Enabled(s, step)
    ensures forall i: nat | i < |Apply(s, step).jobs| :: JobInv(Apply(s, step), i)
  {
    var t := Apply(s, step);
    forall i: nat | i < |t.jobs| ensures JobInv(t, i) {
      if i < |s.jobs| {
        assert JobInv(s, i);
        JobStep(s, step, i);
      }
    }
  }

  lemma JobStep(s: State, step: Step, i: nat)
    requires QueueInv(s) && i < |s.jobs| && JobInv(s, i) && Enabled(s, step)
    ensures JobInv(Apply(s, step), i)
  {
    if step.Worker? {
      WorkerJobStep(s, step.w, i);
    }
  }

  lemma WorkerJobStep(s: State, step: WorkerStep, i: nat)
    requires QueueInv(s) && i < |s.jobs| && JobInv(s, i) && Enabled(s, Worker(step))
    ensures JobInv(WorkerApply(s, step), i)
  {
    if i != s.pc.job {
      assert WorkerApply(s, step).jobs[i] == s.jobs[i];
    } else if Reads(step) {
      ReadingJobStep(s, step);
    } else if step.Poll? || step.WaitReaps? || step.WaitExpires? || step.KillReaps? || step.Finish? {
      EndingJobStep(s, step);
    } else {
      StartingJobStep(s, step);
    }
  }

  lemma ReadingJobStep(s: State, step: WorkerStep)
    requires QueueInv(s) && Enabled(s, Worker(step)) && JobInv(s, s.pc.job) && Reads(step)
    ensures JobInv(WorkerApply(s, step), s.pc.job)
  {
  }

  lemma EndingJobStep(s: State, step: WorkerStep)
    requires QueueInv(s) && Enabled(s, Worker(step)) && JobInv(s, s.pc.job)
    requires step.Poll? || step.WaitReaps? || step.WaitExpires? || step.KillReaps? || step.Finish?
    ensures JobInv(WorkerApply(s, step), s.pc.job)
  {
  }

  lemma StartingJobStep(s: State, step: WorkerStep)
    requires QueueInv(s) && Enabled(s, Worker(step)) && JobInv(s, s.pc.job)
    requires step.OpenFails? || step.OpenWorks? || step.Wake? || step.SelectRaises? || step.Check? || step.CheckList?
    ensures JobInv(WorkerApply(s, step), s.pc.job)
  {
  }

  lemma TraceStep(s: State, step: Step)
    requires Inv(s) && Enabled(s, step)
    ensures Apply(s, step).trace == Blocks(Apply(s, step).jobs)
  {
    var t := Apply(s, step);
    if step.Submit? {
      assert t.jobs[..|s.jobs|] == s.jobs;
    } else if t.trace == s.trace {
      BlocksSame(s.jobs, t.jobs);
    } else {
      var j := s.pc.job;
      forall i | j < i < |s.jobs| ensures s.jobs[i].log == [] {
        assert JobInv(s, i);
      }
      BlocksGrow(s.jobs, j, t.jobs[j], t.jobs[j].log[|s.jobs[j].log|]);
    }
  }

  ghost predicate Transition(s: State, step: Step, t: State) {
    Enabled(s, step) && t == Apply(s, step)
  }

  ghost predicate IsRun(run: seq<State>, steps: seq<Step>) {
    IsPath(Transition, run, steps) && run[0] == INIT
  }

  lemma RunStep(run: seq<State>, steps: seq<Step>, k: nat)
    requires IsRun(run, steps) && k < |steps|
    ensures Enabled(run[k], steps[k]) && run[k + 1] == Apply(run[k], steps[k])
  {
    assert Transition(run[k], steps[k], run[k + 1]);
  }

  lemma {:induction false} RunKeepsInv(run: seq<State>, steps: seq<Step>, k: nat)
    requires IsRun(run, steps) && k < |run|
    ensures Inv(run[k])
  {
    if k > 0 {
      RunStep(run, steps, k - 1);
      RunKeepsInv(run, steps, k - 1);
      QueueStep(run[k - 1], steps[k - 1]);
      JobsStep(run[k - 1], steps[k - 1]);
      TraceStep(run[k - 1], steps[k - 1]);
    }
  }

  /** In every state of every run at most one child process exists that has not been reaped. */
  lemma AtMostOneChild(run: seq<State>, steps: seq<Step>, k: nat)
    requires IsRun(run, steps) && k < |run|
    ensures forall i: nat, j: nat | i < |run[k].jobs| && j < |run[k].jobs|
                && Unreaped(run[k].jobs[i].child) && Unreaped(run[k].jobs[j].child) :: i == j
    ensures run[k].pc.Idle? ==> forall i: nat | i < |run[k].jobs| :: !Unreaped(run[k].jobs[i].child)
  {
    RunKeepsInv(run, steps, k);
    forall i: nat | i < |run[k].jobs| && Unreaped(run[k].jobs[i].child)
      ensures !run[k].pc.Idle? && i == run[k].pc.job
    {
      assert JobInv(run[k], i);
    }
  }

  /**
    The signals of all commands together are the commands' own signals, one whole command after the
    other in the order they were submitted: output is never interleaved and queues are first come
    first served.
  */
  lemma SignalsNeverInterleave(run: seq<State>, steps: seq<Step>, k: nat)
    requires IsRun(run, steps) && k < |run|
    ensures run[k].trace == Blocks(run[k].jobs)
    ensures forall i | 0 <= i < |run[k].queue| :: run[k].queue[i] == |run[k].jobs| - |run[k].queue| + i
  {
    RunKeepsInv(run, steps, k);
  }

  /** How many signals of a log are Stdout, or are Stderr. */
  function Signals(log: seq<Signal>, stdout: bool): nat {
    if log == [] then 0
    else Signals(log[..|log| - 1], stdout) + if log[|log| - 1].Stdout? == stdout then 1 else 0
  }

  /** The late counters of a job have grown by as many signals of each kind as its log. */
  ghost predicate LateGrowth(before: Job, after: Job) {
    && after.cancelled
    && Signals(after.log, true) - Signals(before.log, true) == after.lateOut - before.lateOut
    && Signals(after.log, false) - Signals(before.log, false) == after.lateErr - before.lateErr
  }

  /** From the moment the event is set, the late counters count. */
  lemma {:induction false} LateCountersCount(run: seq<State>, steps: seq<Step>, a: nat, b: nat, j: nat)
    requires IsRun(run, steps) && a <= b < |run| && j < |run[a].jobs| && run[a].jobs[j].cancelled
    ensures j < |run[b].jobs| && LateGrowth(run[a].jobs[j], run[b].jobs[j])
    decreases b
  {
    if a < b {
      LateCountersCount(run, steps, a, b - 1, j);
      CancelledRunStep(run, steps, b - 1, j);
      LateGrowthAdds(run[a].jobs[j], run[b - 1].jobs[j], run[b].jobs[j]);
    }
  }

  lemma CancelledRunStep(run: seq<State>, steps: seq<Step>, k: nat, j: nat)
    requires IsRun(run, steps) && k < |steps| && j < |run[k].jobs| && run[k].jobs[j].cancelled
    ensures j < |run[k + 1].jobs| && LateGrowth(run[k].jobs[j], run[k + 1].jobs[j])
  {
    RunStep(run, steps, k);
    CancelledStep(run[k], steps[k], j);
  }

  lemma LateGrowthAdds(a: Job, b: Job, c: Job)
    requires LateGrowth(a, b) && LateGrowth(b, c)
    ensures LateGrowth(a, c)
  {
  }

  lemma CancelledStep(s: State, step: Step, j: nat)
    requires Enabled(s, step) && j < |s.jobs| && s.jobs[j].cancelled
    ensures j < |Apply(s, step).jobs| && LateGrowth(s.jobs[j], Apply(s, step).jobs[j])
  {
    if step.Worker? && j == s.pc.job && Reads(step.w) {
      CancelledRead(s, step.w);
    } else {
      QuietStep(s, step, j);
    }
  }

  lemma CancelledRead(s: State, w: WorkerStep)
    requires Enabled(s, Worker(w)) && Reads(w) && s.jobs[s.pc.job].cancelled
    ensures LateGrowth(s.jobs[s.pc.job], WorkerApply(s, w).jobs[s.pc.job])
  {
    var before, after := s.jobs[s.pc.job], WorkerApply(s, w).jobs[s.pc.job];
    ReadSpeaks(s, w);
    if after.log != before.log {
      EmitCounts(before, after.log[|before.log|]);
    }
  }

  predicate Reads(w: WorkerStep) { w.ReadMaster? || w.ReadErr? }

  /** A read lets out one signal of the job, or none. */
  lemma ReadSpeaks(s: State, w: WorkerStep)
    requires Enabled(s, Worker(w)) && Reads(w)
    ensures var before, after := s.jobs[s.pc.job], WorkerApply(s, w).jobs[s.pc.job];
            || after == before.(master := after.master, stderr := after.stderr)
            || (|after.log| > |before.log| && after == Emit(before, after.log[|before.log|]))
  {
  }

  ghost predicate Quietly(before: Job, after: Job) {
    && after.log == before.log && after.lateOut == before.lateOut && after.lateErr == before.lateErr
    && (before.cancelled ==> after.cancelled)
  }

  lemma QuietStep(s: State, step: Step, j: nat)
    requires Enabled(s, step) && j < |s.jobs|
    requires !(step.Worker? && j == s.pc.job && Reads(step.w))
    ensures j < |Apply(s, step).jobs| && Quietly(s.jobs[j], Apply(s, step).jobs[j])
  {
    if step.Worker? {
      if j != s.pc.job {
        assert WorkerApply(s, step.w).jobs[j] == s.jobs[j];
      } else {
        QuietWorker(s, step.w);
      }
    }
  }

  lemma QuietWorker(s: State, w: WorkerStep)
    requires Enabled(s, Worker(w)) && !Reads(w)
    ensures Quietly(s.jobs[s.pc.job], WorkerApply(s, w).jobs[s.pc.job])
  {
  }

  lemma EmitCounts(job: Job, signal: Signal)
    requires job.cancelled
    ensures LateGrowth(job, Emit(job, signal))
  {
    assert (job.log + [signal])[..|job.log|] == job.log;
  }

  /** After a job's event is set, by a timeout for one, at most one more Stdout and one more Stderr signal come from it. */
  lemma CancelledJobsFallSilent(run: seq<State>, steps: seq<Step>, a: nat, b: nat, j: nat)
    requires IsRun(run, steps) && a <= b < |run| && j < |run[a].jobs| && run[a].jobs[j].cancelled
    ensures j < |run[b].jobs|
    ensures Signals(run[b].jobs[j].log, true) <= Signals(run[a].jobs[j].log, true) + 1
    ensures Signals(run[b].jobs[j].log, false) <= Signals(run[a].jobs[j].log, false) + 1
  {
    LateCountersCount(run, steps, a, b, j);
    RunKeepsInv(run, steps, b);
    assert JobInv(run[b], j);
  }

  /**
    RunCommand answers EIO only for a command whose process was never started: what goes wrong later
    is swallowed by the `return` in the `finally` block.  An exit code is only ever answered for a
    process that has been reaped.
  */
  lemma AnswersTellWhatHappened(run: seq<State>, steps: seq<Step>, k: nat, j: nat)
    requires IsRun(run, steps) && k < |run| && j < |run[k].jobs|
    ensures run[k].jobs[j].client.Failed? ==> run[k].jobs[j].child.NotStarted? && run[k].jobs[j].log == []
    ensures run[k].jobs[j].client.Returned? ==> run[k].jobs[j].child.Reaped?
  {
    RunKeepsInv(run, steps, k);
    assert JobInv(run[k], j);
  }

  /** The job's future is set, and log and child are what they were. */
  ghost predicate Settled(before: Job, after: Job) {
    !after.future.Pending? && after.log == before.log && after.child == before.child
  }

  /** Once a job's future is set, and so once its client has been given a code, no signal of it follows. */
  lemma {:induction false} FinishedJobsStayFinished(run: seq<State>, steps: seq<Step>, a: nat, b: nat, j: nat)
    requires IsRun(run, steps) && a <= b < |run| && j < |run[a].jobs| && !run[a].jobs[j].future.Pending?
    ensures j < |run[b].jobs| && Settled(run[a].jobs[j], run[b].jobs[j])
    decreases b
  {
    if a < b {
      FinishedJobsStayFinished(run, steps, a, b - 1, j);
      FinishedRunStep(run, steps, b - 1, j);
    }
  }

  lemma FinishedRunStep(run: seq<State>, steps: seq<Step>, k: nat, j: nat)
    requires IsRun(run, steps) && k < |steps| && j < |run[k].jobs| && !run[k].jobs[j].future.Pending?
    ensures j < |run[k + 1].jobs| && Settled(run[k].jobs[j], run[k + 1].jobs[j])
  {
    RunStep(run, steps, k);
    RunKeepsInv(run, steps, k);
    FinishedStep(run[k], steps[k], j);
  }

  lemma FinishedStep(s: State, step: Step, j: nat)
    requires Inv(s) && Enabled(s, step) && j < |s.jobs| && !s.jobs[j].future.Pending?
    ensures j < |Apply(s, step).jobs| && Settled(s.jobs[j], Apply(s, step).jobs[j])
  {
    assert JobInv(s, j);
    if step.Worker? {
      assert j != s.pc.job;
    }
  }

  /* ----- a command reported as timed out may still be started ----- */

  ghost predicate Reachable(s: State) {
    Leads(Transition, INIT, s)
  }

  lemma Go(origin: State, s: State, step: Step) returns (t: State)
    requires Leads(Transition, origin, s) && Enabled(s, step)
    ensures t == Apply(s, step) && Leads(Transition, origin, t)
  {
    t := Apply(s, step);
    LeadsOn(Transition, origin, s, step, t);
  }

  lemma ReachableInv(s: State)
    requires Reachable(s)
    ensures Inv(s)
  {
    var run, steps :| IsPath(Transition, run, steps) && run[0] == INIT && run[|steps|] == s;
    RunKeepsInv(run, steps, |steps|);
  }

  /** How far the thread still is from having nothing to do. */
  function Distance(pc: Pc): nat {
    match pc
    case Idle => 0
    case Opening(_) => 1
    case Leaving(_) => 1
    case Killing(_) => 2
    case Terminating(_) => 3
    case Closing(_) => 4
    case Selecting(_) => 5
    case ErrDone(_) => 6
    case MasterDone(_, _) => 7
    case Checked(_, _, _) => 8
    case Woken(_, _, _) => 9
  }

  /** A step of the thread, or the end of the child it waits for, that brings it nearer to its end. */
  function StepDown(s: State): WorkerStep
    requires !s.pc.Idle?
  {
    match s.pc
    case Opening(_) => OpenFails
    case Selecting(_) => SelectRaises
    case Woken(_, _, _) => Check
    case Checked(_, _, _) => ReadMaster(Raises)
    case MasterDone(_, _) => ReadErr(Raises)
    case ErrDone(_) => CheckList
    case Closing(_) => Poll
    case Terminating(_) => WaitReaps
    case Killing(_) => KillReaps
    case _ => Finish
  }

  /** Only the job at hand may differ, and its client has been told what it had been told before. */
  ghost predicate OnlyThreadMoved(s: State, t: State) {
    && t.queue == s.queue && |t.jobs| == |s.jobs|
    && forall i | 0 <= i < |s.jobs| :: t.jobs[i].client == s.jobs[i].client
  }

  /** The step is enabled, except that a child that is waited for may have to exit first. */
  lemma StepDownEnabled(s: State)
    requires Inv(s) && !s.pc.Idle?
    requires s.pc.Terminating? || s.pc.Killing? ==> s.jobs[s.pc.job].child.Exited?
    ensures Enabled(s, Worker(StepDown(s)))
  {
    assert JobInv(s, s.pc.job);
  }

  lemma StepDownNearer(s: State)
    requires !s.pc.Idle? && s.pc.job < |s.jobs| && Enabled(s, Worker(StepDown(s)))
    ensures var t := WorkerApply(s, StepDown(s)); Distance(t.pc) < Distance(s.pc) && OnlyThreadMoved(s, t)
  {
  }

  lemma ChildExitsFirst(s: State) returns (t: State)
    requires Reachable(s) && !s.pc.Idle?
    ensures Leads(Transition, s, t) && Reachable(t) && t.pc == s.pc && OnlyThreadMoved(s, t)
    ensures t.pc.Terminating? || t.pc.Killing? ==> t.pc.job < |t.jobs| && t.jobs[t.pc.job].child.Exited?
  {
    ReachableInv(s);
    assert JobInv(s, s.pc.job);
    LeadsNowhere(Transition, s);
    t := s;
    if (s.pc.Terminating? || s.pc.Killing?) && s.jobs[s.pc.job].child.Running? {
      t := Go(s, s, ChildExits(s.pc.job));
      LeadsThrough(Transition, INIT, s, t);
    }
  }

  /** Left alone, the thread can bring the job it is on to an end, wherever it is. */
  lemma {:induction false} ThreadToIdle(s: State) returns (t: State)
    requires Reachable(s)
    ensures Leads(Transition, s, t) && t.pc.Idle? && OnlyThreadMoved(s, t)
    decreases Distance(s.pc)
  {
    if s.pc.Idle? {
      LeadsNowhere(Transition, s);
      t := s;
    } else {
      var u := ChildExitsFirst(s);
      ReachableInv(u);
      StepDownEnabled(u);
      StepDownNearer(u);
      var v := Go(s, u, Worker(StepDown(u)));
      LeadsThrough(Transition, INIT, s, v);
      t := ThreadToIdle(v);
      LeadsThrough(Transition, s, v, t);
    }
  }

  /** The thread can come to open the job while its client has been told what it has been told by now. */
  ghost predicate CanBeStarted(s: State, j: nat) {
    exists t :: Leads(Transition, s, t) && AboutToStart(s, t, j)
  }

  ghost predicate AboutToStart(s: State, t: State, j: nat) {
    t.pc == Opening(j) && j < |t.jobs| && j < |s.jobs| && t.jobs[j].client == s.jobs[j].client
  }

  lemma {:induction false} QueueEmptiesTo(s: State, j: nat) returns (t: State)
    requires Reachable(s) && j < |s.jobs| && (j in s.queue || s.pc == Opening(j))
    ensures Leads(Transition, s, t) && AboutToStart(s, t, j)
    decreases |s.queue|
  {
    if s.pc == Opening(j) {
      LeadsNowhere(Transition, s);
      t := s;
    } else {
      var u := ThreadToIdle(s);
      LeadsThrough(Transition, INIT, s, u);
      ReachableInv(u);
      var v := Go(s, u, Dequeue);
      LeadsThrough(Transition, INIT, s, v);
      t := QueueEmptiesTo(v, j);
      LeadsThrough(Transition, s, v, t);
    }
  }

  /** Neither queued nor being opened: the job is not about to be started. */
  predicate NotComing(s: State, j: nat) { j < |s.jobs| && j !in s.queue && s.pc != Opening(j) }

  lemma {:induction false} NeverComesAgain(run: seq<State>, steps: seq<Step>, j: nat, k: nat)
    requires IsPath(Transition, run, steps) && k < |run| && NotComing(run[0], j)
    ensures NotComing(run[k], j)
  {
    if k > 0 {
      assert Transition(run[k - 1], steps[k - 1], run[k]);
      NeverComesAgain(run, steps, j, k - 1);
    }
  }

  /**
    The timeout runs from submission, not from the start of the command.  In every reachable state, a
    command whatever its client has been told, ETIMEDOUT for one, can still be started if and only if
    it is queued or being opened.
  */
  lemma CanStartIffQueuedOrOpening(s: State, j: nat)
    requires Reachable(s) && j < |s.jobs|
    ensures CanBeStarted(s, j) <==> j in s.queue || s.pc == Opening(j)
  {
    if j in s.queue || s.pc == Opening(j) {
      var t := QueueEmptiesTo(s, j);
    } else if CanBeStarted(s, j) {
      var t :| Leads(Transition, s, t) && AboutToStart(s, t, j);
      var run, steps :| IsPath(Transition, run, steps) && run[0] == s && run[|steps|] == t;
      NeverComesAgain(run, steps, j, |steps|);
    }
  }

  /** So every command that is waiting in the queue can be reported as timed out and be run after that. */
  lemma TimedOutCommandCanStillStart(s: State, j: nat) returns (t: State)
    requires Reachable(s) && j in s.queue && j < |s.jobs| && !s.jobs[j].client.Failed? && !s.jobs[j].client.Returned?
    ensures Leads(Transition, s, t) && j < |t.jobs| && t.jobs[j].client.TimedOut? && t.jobs[j].child.Running?
  {
    ReachableInv(s);
    assert JobInv(s, j);
    LeadsNowhere(Transition, s);
    var u := s;
    if s.jobs[j].client.Waiting? {
      u := Go(s, s, ClientTimesOut(j));
    }
    LeadsThrough(Transition, INIT, s, u);
    var v := QueueEmptiesTo(u, j);
    LeadsThrough(Transition, s, u, v);
    t := Go(s, v, Worker(OpenWorks));
  }

  /* ----- what cancelling brings about, and when ----- */

  /** How many more steps of the thread a cancelled job can take. */
  function CancelRank(pc: Pc): nat {
    match pc
    case Idle => 0
    case Leaving(_) => 1
    case Killing(_) => 2
    case Terminating(_) => 3
    case Closing(_) => 4
    case Woken(_, _, _) => 5
    case Selecting(_) => 6
    case Opening(_) => 7
    case ErrDone(_) => 7
    case MasterDone(_, _) => 8
    case Checked(_, _, _) => 9
  }

  function ThreadSteps(steps: seq<Step>): nat {
    if steps == [] then 0 else ThreadSteps(steps[..|steps| - 1]) + if steps[|steps| - 1].Worker? then 1 else 0
  }

  predicate AtHand(s: State, j: nat) { !s.pc.Idle? && s.pc.job == j && j < |s.jobs| }

  /** Every step the thread takes for a cancelled job brings the job nearer to its end. */
  lemma CancelledStepDown(s: State, w: WorkerStep)
    requires Enabled(s, Worker(w)) && s.jobs[s.pc.job].cancelled
    ensures var t := WorkerApply(s, w);
            && CancelRank(t.pc) < CancelRank(s.pc) && |t.jobs| == |s.jobs|
            && (if t.pc.Idle? then !t.jobs[s.pc.job].future.Pending?
                else t.pc.job == s.pc.job && t.jobs[s.pc.job].cancelled)
  {
  }

  /** The steps of everything else leave the thread where it is, and the job cancelled and pending. */
  lemma OtherStepsLeaveIt(s: State, step: Step, j: nat)
    requires Enabled(s, step) && !step.Worker? && AtHand(s, j) && s.jobs[j].cancelled
    ensures var t := Apply(s, step);
            && t.pc == s.pc && AtHand(t, j) && t.jobs[j].cancelled && t.jobs[j].future == s.jobs[j].future
            && t.jobs[j].log == s.jobs[j].log && (Unreaped(s.jobs[j].child) ==> Unreaped(t.jobs[j].child))
  {
  }

  /** While the job's future is not set, the thread has taken so many steps and no more. */
  ghost predicate StillGoing(s: State, j: nat, taken: nat, rank: nat) {
    AtHand(s, j) && s.jobs[j].cancelled && taken + CancelRank(s.pc) <= rank
  }

  lemma OneMoreStep(steps: seq<Step>, a: nat, b: nat)
    requires a < b <= |steps|
    ensures ThreadSteps(steps[a..b]) == ThreadSteps(steps[a..b - 1]) + if steps[b - 1].Worker? then 1 else 0
  {
    var part := steps[a..b];
    assert part[..|part| - 1] == steps[a..b - 1] && part[|part| - 1] == steps[b - 1];
  }

  /** Either the job's future is set, or the thread is still at it. */
  ghost predicate OverOrGoing(s: State, j: nat, taken: nat, rank: nat) {
    j < |s.jobs| && (s.jobs[j].future.Pending? ==> StillGoing(s, j, taken, rank))
  }

  lemma {:induction false} CancelledJobCountsDown(run: seq<State>, steps: seq<Step>, a: nat, b: nat, j: nat)
    requires IsRun(run, steps) && a <= b < |run| && AtHand(run[a], j) && run[a].jobs[j].cancelled
    ensures OverOrGoing(run[b], j, ThreadSteps(steps[a..b]), CancelRank(run[a].pc))
    decreases b
  {
    if a < b {
      CancelledJobCountsDown(run, steps, a, b - 1, j);
      CountDownTo(run, steps, a, b, j, CancelRank(run[a].pc));
    } else {
      assert steps[a..b] == [];
    }
  }

  lemma CountDownTo(run: seq<State>, steps: seq<Step>, a: nat, b: nat, j: nat, rank: nat)
    requires IsRun(run, steps) && a < b < |run| && OverOrGoing(run[b - 1], j, ThreadSteps(steps[a..b - 1]), rank)
    ensures OverOrGoing(run[b], j, ThreadSteps(steps[a..b]), rank)
  {
    OneMoreStep(steps, a, b);
    CountDownStep(run, steps, b - 1, j, ThreadSteps(steps[a..b - 1]), rank);
  }

  lemma CountDownStep(run: seq<State>, steps: seq<Step>, k: nat, j: nat, taken: nat, rank: nat)
    requires IsRun(run, steps) && k < |steps| && OverOrGoing(run[k], j, taken, rank)
    ensures OverOrGoing(run[k + 1], j, taken + if steps[k].Worker? then 1 else 0, rank)
  {
    if !run[k].jobs[j].future.Pending? {
      FinishedRunStep(run, steps, k, j);
    } else {
      RunStep(run, steps, k);
      if steps[k].Worker? {
        CancelledStepDown(run[k], steps[k].w);
      } else {
        OtherStepsLeaveIt(run[k], steps[k], j);
      }
    }
  }

  /** In every run, a cancelled job that the thread is on is over after at most nine steps of the thread. */
  lemma CancelledJobEndsWithinNineSteps(run: seq<State>, steps: seq<Step>, a: nat, b: nat, j: nat)
    requires IsRun(run, steps) && a <= b < |run| && AtHand(run[a], j) && run[a].jobs[j].cancelled
    ensures j < |run[b].jobs|
    ensures ThreadSteps(steps[a..b]) >= 9 ==> !run[b].jobs[j].future.Pending?
  {
    CancelledJobCountsDown(run, steps, a, b, j);
  }

  /** Select comes back, with something readable, or raises. */
  predicate SelectReturns(step: Step) { step.Worker? && (step.w.Wake? || step.w.SelectRaises?) }

  ghost predicate InSelect(s: State, j: nat) {
    s.pc == Selecting(j) && AtHand(s, j) && s.jobs[j].cancelled
  }

  lemma {:induction false} SelectingUntilItReturns(run: seq<State>, steps: seq<Step>, a: nat, b: nat, j: nat)
    requires IsRun(run, steps) && a <= b < |run| && InSelect(run[a], j)
    requires forall i | a <= i < b :: !SelectReturns(steps[i])
    ensures InSelect(run[b], j) && run[b].jobs[j].log == run[a].jobs[j].log
    decreases b
  {
    if a < b {
      SelectingUntilItReturns(run, steps, a, b - 1, j);
      SelectingStep(run, steps, b - 1, j);
    }
  }

  lemma SelectingStep(run: seq<State>, steps: seq<Step>, k: nat, j: nat)
    requires IsRun(run, steps) && k < |steps| && InSelect(run[k], j) && !SelectReturns(steps[k])
    ensures InSelect(run[k + 1], j) && run[k + 1].jobs[j].log == run[k].jobs[j].log
  {
    RunStep(run, steps, k);
    OnlySelectReturns(run[k], steps[k], j);
    OtherStepsLeaveIt(run[k], steps[k], j);
  }

  /** In select, the thread can do nothing but come back from it. */
  lemma OnlySelectReturns(s: State, step: Step, j: nat)
    requires InSelect(s, j) && Enabled(s, step)
    ensures step.Worker? ==> SelectReturns(step)
  {
  }

  lemma {:induction false} StepsCounted(steps: seq<Step>, i: nat)
    requires i < |steps| && steps[i].Worker?
    ensures ThreadSteps(steps) > 0
  {
    if i < |steps| - 1 {
      StepsCounted(steps[..|steps| - 1], i);
    }
  }

  /**
    Cancelling a job in select takes effect exactly when select comes back: in every run the thread is
    still there, with the child neither signalled nor reaped and nothing said, if and only if select
    has neither found anything readable nor raised since.
  */
  lemma StillSelectingIffSelectHasNotReturned(run: seq<State>, steps: seq<Step>, a: nat, b: nat, j: nat)
    requires IsRun(run, steps) && a <= b < |run| && InSelect(run[a], j)
    ensures run[b].pc == Selecting(j) <==> forall i | a <= i < b :: !SelectReturns(steps[i])
    ensures run[b].pc == Selecting(j) ==>
              j < |run[b].jobs| && Unreaped(run[b].jobs[j].child) && run[b].jobs[j].log == run[a].jobs[j].log
  {
    RunKeepsInv(run, steps, b);
    if i :| a <= i < b && SelectReturns(steps[i]) {
      CancelledJobCountsDown(run, steps, a, b, j);
      assert steps[a..b][i - a] == steps[i];
      StepsCounted(steps[a..b], i - a);
      assert JobInv(run[b], j);
    } else {
      SelectingUntilItReturns(run, steps, a, b, j);
      assert JobInv(run[b], j);
    }
  }

  /** And select need not come back: from such a state there are paths of every length on which it does not. */
  lemma {:induction false} CancelledSelectCanGoOn(s: State, n: nat) returns (run: seq<State>, steps: seq<Step>)
    requires s.pc.Selecting? && InSelect(s, s.pc.job)
    ensures IsPath(Transition, run, steps) && run[0] == s && |steps| == n
    ensures forall i | 0 <= i < n :: !SelectReturns(steps[i])
    ensures InSelect(run[n], s.pc.job) && run[n].jobs[s.pc.job] == s.jobs[s.pc.job]
  {
    if n == 0 {
      run, steps := [s], [];
    } else {
      run, steps := CancelledSelectCanGoOn(s, n - 1);
      var next := Apply(run[n - 1], Submit([]));
      assert Transition(run[n - 1], Submit([]), next);
      run, steps := run + [next], steps + [Submit([])];
    }
  }
}
