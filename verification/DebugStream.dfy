/**
  What the streaming executor makes of a command's output (host_modules/debug_service.py), told from
  the steps of a run: what select and the reads brought, when children exited, what clients did.
*/
module DebugStream {
  import opened DebugExecutor
  import opened Runs
  import opened Wrappers

  /* ----- what the steps say ----- */

  /** Whether the latest select found the pty readable, and the pipe of stderr. */
  function Awake(steps: seq<Step>): (bool, bool) {
    if steps == [] then (false, false)
    else
      match steps[|steps| - 1]
      case Worker(Wake(m, e)) => (m, e)
      case _ => Awake(steps[..|steps| - 1])
  }

  /** The pty is read after select found it readable. */
  predicate PtyRead(steps: seq<Step>, i: nat) {
    i < |steps| && steps[i].Worker? && steps[i].w.ReadMaster? && Awake(steps[..i]).0
  }

  /** The pipe of stderr is read after select found it readable. */
  predicate PipeRead(steps: seq<Step>, i: nat) {
    i < |steps| && steps[i].Worker? && steps[i].w.ReadErr? && Awake(steps[..i]).1
  }

  /** The end of a pty shows as EIO, that of a pipe as an empty read. */
  predicate PtyEnds(steps: seq<Step>, i: nat) { PtyRead(steps, i) && steps[i].w.r == Eio }
  predicate PipeEnds(steps: seq<Step>, i: nat) { PipeRead(steps, i) && steps[i].w.r == Data("") }

  ghost predicate PtyEnded(steps: seq<Step>, a: nat, b: nat) { exists i | a <= i < b :: PtyEnds(steps, i) }
  ghost predicate PipeEnded(steps: seq<Step>, a: nat, b: nat) { exists i | a <= i < b :: PipeEnds(steps, i) }

  ghost predicate BothEnded(steps: seq<Step>, a: nat, b: nat) {
    PtyEnded(steps, a, b) && PipeEnded(steps, a, b)
  }

  lemma EndedNext(steps: seq<Step>, a: nat, k: nat)
    requires a <= k
    ensures PtyEnded(steps, a, k + 1) <==> PtyEnded(steps, a, k) || PtyEnds(steps, k)
    ensures PipeEnded(steps, a, k + 1) <==> PipeEnded(steps, a, k) || PipeEnds(steps, k)
  {
  }

  /** Select, or the read of something readable, raises. */
  predicate Trouble(steps: seq<Step>, i: nat) {
    && i < |steps|
    && (steps[i] == Worker(SelectRaises) || (PtyRead(steps, i) && steps[i].w.r == Raises)
        || (PipeRead(steps, i) && steps[i].w.r == Raises))
  }

  /** The signal a step gives out after such a select: what was read, on its own channel. */
  function SaidOf(step: Step, awake: (bool, bool)): seq<Signal> {
    match step
    case Worker(ReadMaster(Data(s))) => if awake.0 then [Stdout(s)] else []
    case Worker(ReadErr(Data(s))) => if awake.1 && s != "" then [Stderr(s)] else []
    case _ => []
  }

  function Said(steps: seq<Step>, a: nat, b: nat): seq<Signal>
    requires b <= |steps|
  {
    if b <= a then [] else Said(steps, a, b - 1) + SaidOf(steps[b - 1], Awake(steps[..b - 1]))
  }

  /* ----- what the thread remembers of select ----- */

  predicate Remembers(pc: Pc, awake: (bool, bool)) {
    && (pc.Woken? || pc.Checked? ==> (pc.m, pc.e) == awake)
    && (pc.MasterDone? ==> pc.e == awake.1)
  }

  lemma RemembersStep(s: State, step: Step, awake: (bool, bool))
    requires Enabled(s, step) && Remembers(s.pc, awake)
    ensures Remembers(Apply(s, step).pc, if step.Worker? && step.w.Wake? then (step.w.m, step.w.e) else awake)
  {
  }

  lemma {:induction false} RemembersSelect(run: seq<State>, steps: seq<Step>, k: nat)
    requires IsRun(run, steps) && k < |run|
    ensures Remembers(run[k].pc, Awake(steps[..k]))
  {
    if k > 0 {
      RunStep(run, steps, k - 1);
      RemembersSelect(run, steps, k - 1);
      RemembersStep(run[k - 1], steps[k - 1], Awake(steps[..k - 1]));
      assert steps[..k][..k - 1] == steps[..k - 1];
    }
  }

  /* ----- the loop goes on until both have ended ----- */

  predicate InLoop(s: State, j: nat) {
    AtHand(s, j) && (s.pc.Selecting? || s.pc.Woken? || s.pc.Checked? || s.pc.MasterDone? || s.pc.ErrDone?)
  }

  /** The thread is done with the job's output. */
  predicate Over(s: State, j: nat) {
    j < |s.jobs| && (!s.jobs[j].future.Pending? || (AtHand(s, j) && !InLoop(s, j) && !s.pc.Opening?))
  }

  /** The thread is in the loop, with those descriptors open whose ends it has not seen. */
  predicate Streaming(s: State, j: nat, pty: bool, pipe: bool) {
    && InLoop(s, j) && s.jobs[j].master == !pty && s.jobs[j].stderr == !pipe
    && (pty && pipe ==> s.pc.MasterDone? || s.pc.ErrDone?)
  }

  lemma StreamingStep(s: State, step: Step, j: nat, awake: (bool, bool), pty: bool, pipe: bool)
    requires Enabled(s, step) && Streaming(s, j, pty, pipe) && Remembers(s.pc, awake)
    requires !Apply(s, step).jobs[j].cancelled && step != Worker(SelectRaises)
    requires step == Worker(ReadMaster(Raises)) ==> !awake.0
    requires step == Worker(ReadErr(Raises)) ==> !awake.1
    ensures var t := Apply(s, step);
            var pty', pipe' := pty || (step == Worker(ReadMaster(Eio)) && awake.0),
                               pipe || (step == Worker(ReadErr(Data(""))) && awake.1);
            && (Streaming(t, j, pty', pipe') || (t.pc == Closing(j) && AtHand(t, j) && pty && pipe))
            && (step == Worker(CheckList) ==> t.pc == if pty && pipe then Closing(j) else Selecting(j))
  {
  }

  lemma OverStays(s: State, step: Step, j: nat)
    requires Inv(s) && Enabled(s, step) && Over(s, j)
    ensures Over(Apply(s, step), j)
  {
    assert JobInv(s, j);
  }

  ghost predicate OpenedAt(run: seq<State>, steps: seq<Step>, a: nat, j: nat) {
    IsRun(run, steps) && a < |steps| && steps[a] == Worker(OpenWorks) && run[a].pc == Opening(j)
  }

  /** Up to `b` nothing has kept the job's output from being read. */
  ghost predicate Undisturbed(run: seq<State>, steps: seq<Step>, a: nat, b: nat, j: nat)
    requires b < |run|
  {
    j < |run[b].jobs| && !run[b].jobs[j].cancelled && forall i | a < i < b :: !Trouble(steps, i)
  }

  predicate StreamingOrOver(s: State, j: nat, pty: bool, pipe: bool) {
    Streaming(s, j, pty, pipe) || (Over(s, j) && pty && pipe)
  }

  lemma StreamingOrOverStep(s: State, step: Step, j: nat, awake: (bool, bool), pty: bool, pipe: bool)
    requires Inv(s) && Enabled(s, step) && StreamingOrOver(s, j, pty, pipe) && Remembers(s.pc, awake)
    requires !Apply(s, step).jobs[j].cancelled && step != Worker(SelectRaises)
    requires step == Worker(ReadMaster(Raises)) ==> !awake.0
    requires step == Worker(ReadErr(Raises)) ==> !awake.1
    ensures var t := Apply(s, step);
            && StreamingOrOver(t, j, pty || (step == Worker(ReadMaster(Eio)) && awake.0),
                               pipe || (step == Worker(ReadErr(Data(""))) && awake.1))
            && (step == Worker(CheckList) && AtHand(s, j) ==> t.pc == if pty && pipe then Closing(j) else Selecting(j))
  {
    assert JobInv(s, j);
    if Streaming(s, j, pty, pipe) {
      StreamingStep(s, step, j, awake, pty, pipe);
    } else {
      OverStays(s, step, j);
    }
  }

  lemma CancelledForGood(run: seq<State>, steps: seq<Step>, k: nat, j: nat)
    requires IsRun(run, steps) && k < |steps| && j < |run[k + 1].jobs| && !run[k + 1].jobs[j].cancelled
    ensures j < |run[k].jobs| ==> !run[k].jobs[j].cancelled
  {
    if j < |run[k].jobs| && run[k].jobs[j].cancelled {
      CancelledRunStep(run, steps, k, j);
    }
  }

  lemma OpenedStreams(run: seq<State>, steps: seq<Step>, a: nat, j: nat)
    requires OpenedAt(run, steps, a, j)
    ensures StreamingOrOver(run[a + 1], j, PtyEnded(steps, a, a + 1), PipeEnded(steps, a, a + 1)) && run[a + 1].pc == Selecting(j)
  {
    RunStep(run, steps, a);
  }

  lemma {:induction false} StreamsOn(run: seq<State>, steps: seq<Step>, a: nat, b: nat, j: nat)
    requires OpenedAt(run, steps, a, j) && a < b < |run| && Undisturbed(run, steps, a, b, j)
    ensures StreamingOrOver(run[b], j, PtyEnded(steps, a, b), PipeEnded(steps, a, b))
    decreases b
  {
    if a + 1 == b {
      OpenedStreams(run, steps, a, j);
    } else {
      JobStays(run, steps, a, b - 1, j);
      CancelledForGood(run, steps, b - 1, j);
      StreamsOn(run, steps, a, b - 1, j);
      StreamsOnce(run, steps, a, b - 1, j);
    }
  }

  lemma {:induction false} JobStays(run: seq<State>, steps: seq<Step>, a: nat, b: nat, j: nat)
    requires OpenedAt(run, steps, a, j) && a <= b < |run|
    ensures j < |run[b].jobs|
    decreases b
  {
    if a == b {
      RunStep(run, steps, a);
    } else {
      JobStays(run, steps, a, b - 1, j);
      RunStep(run, steps, b - 1);
    }
  }

  lemma StreamsOnce(run: seq<State>, steps: seq<Step>, a: nat, k: nat, j: nat)
    requires OpenedAt(run, steps, a, j) && a < k < |steps| && Undisturbed(run, steps, a, k + 1, j)
    requires StreamingOrOver(run[k], j, PtyEnded(steps, a, k), PipeEnded(steps, a, k))
    ensures StreamingOrOver(run[k + 1], j, PtyEnded(steps, a, k + 1), PipeEnded(steps, a, k + 1))
    ensures steps[k] == Worker(CheckList) && AtHand(run[k], j) ==>
              run[k + 1].pc == if BothEnded(steps, a, k + 1) then Closing(j) else Selecting(j)
  {
    RunStep(run, steps, k);
    RunKeepsInv(run, steps, k);
    RemembersSelect(run, steps, k);
    EndedNext(steps, a, k);
    assert !Trouble(steps, k);
    StreamingOrOverStep(run[k], steps[k], j, Awake(steps[..k]), PtyEnded(steps, a, k), PipeEnded(steps, a, k));
  }

  /**
    A command is read to the end.  In every run, once the process is started, and as long as its job
    is not cancelled and neither select nor a read raises, the thread goes on reading until both the
    pty has shown EIO and the pipe an empty read; at the end of every round it goes back to select if
    that is not so, and on to closing if it is.
  */
  lemma StreamsUntilBothEnd(run: seq<State>, steps: seq<Step>, a: nat, b: nat, j: nat)
    requires OpenedAt(run, steps, a, j) && a < b < |run| && Undisturbed(run, steps, a, b, j)
    ensures !BothEnded(steps, a, b) ==> InLoop(run[b], j)
    ensures run[b].pc == Closing(j) ==> BothEnded(steps, a, b)
    ensures steps[b - 1] == Worker(CheckList) && AtHand(run[b - 1], j) ==>
              run[b].pc == if BothEnded(steps, a, b) then Closing(j) else Selecting(j)
  {
    StreamsOn(run, steps, a, b, j);
    if a + 1 < b {
      JobStays(run, steps, a, b - 1, j);
      CancelledForGood(run, steps, b - 1, j);
      StreamsOn(run, steps, a, b - 1, j);
      StreamsOnce(run, steps, a, b - 1, j);
    }
  }

  /** Reading stops at once when select, or the read of something readable, raises, and when the event is found set. */
  lemma TroubleStopsReading(run: seq<State>, steps: seq<Step>, k: nat)
    requires IsRun(run, steps) && k < |steps| && steps[k].Worker?
    ensures AtHand(run[k], run[k].pc.job)
    ensures Trouble(steps, k) ==> run[k + 1].pc == Closing(run[k].pc.job)
    ensures steps[k].w.Check? ==>
              if run[k].jobs[run[k].pc.job].cancelled then run[k + 1].pc == Closing(run[k].pc.job)
              else InLoop(run[k + 1], run[k].pc.job)
  {
    RunStep(run, steps, k);
    RemembersSelect(run, steps, k);
  }

  /* ----- what is signalled ----- */

  lemma LogStep(s: State, step: Step, j: nat, awake: (bool, bool))
    requires Inv(s) && Enabled(s, step) && AtHand(s, j) && Remembers(s.pc, awake)
    ensures var t := Apply(s, step);
            && j < |t.jobs| && t.jobs[j].log == s.jobs[j].log + SaidOf(step, awake)
            && (AtHand(t, j) || !t.jobs[j].future.Pending?)
  {
    assert JobInv(s, j);
    if step.Worker? && Reads(step.w) {
      ReadLogs(s, step.w, awake);
    } else if step.Worker? {
      QuietWorker(s, step.w);
    }
  }

  lemma ReadLogs(s: State, w: WorkerStep, awake: (bool, bool))
    requires Enabled(s, Worker(w)) && Reads(w) && Remembers(s.pc, awake)
    ensures var t := WorkerApply(s, w);
            t.jobs[s.pc.job].log == s.jobs[s.pc.job].log + SaidOf(Worker(w), awake) && AtHand(t, s.pc.job)
  {
  }

  /** Until its future is set a job has said what has been read since `a`, and afterwards what had been read at some time. */
  ghost predicate SaidSoFar(s: State, j: nat, steps: seq<Step>, a: nat, b: nat)
    requires b <= |steps|
  {
    && j < |s.jobs|
    && if s.jobs[j].future.Pending? then AtHand(s, j) && s.jobs[j].log == Said(steps, a, b)
       else exists e | a < e <= b :: s.jobs[j].log == Said(steps, a, e)
  }

  lemma SaidOnce(run: seq<State>, steps: seq<Step>, a: nat, k: nat, j: nat)
    requires IsRun(run, steps) && a < k < |steps| && SaidSoFar(run[k], j, steps, a, k)
    ensures SaidSoFar(run[k + 1], j, steps, a, k + 1)
  {
    if run[k].jobs[j].future.Pending? {
      RunStep(run, steps, k);
      RunKeepsInv(run, steps, k);
      RemembersSelect(run, steps, k);
      LogStep(run[k], steps[k], j, Awake(steps[..k]));
      assert run[k + 1].jobs[j].log == Said(steps, a, k + 1);
    } else {
      FinishedRunStep(run, steps, k, j);
    }
  }

  lemma {:induction false} SaidOn(run: seq<State>, steps: seq<Step>, a: nat, k: nat, b: nat, j: nat)
    requires a < k <= b <= |steps| < |run| && SaidSoFar(run[k], j, steps, a, k)
    requires forall i | k <= i < b && SaidSoFar(run[i], j, steps, a, i) :: SaidSoFar(run[i + 1], j, steps, a, i + 1)
    ensures SaidSoFar(run[b], j, steps, a, b)
    decreases b
  {
    if k < b {
      SaidOn(run, steps, a, k, b - 1, j);
    }
  }

  lemma OpenedLog(run: seq<State>, steps: seq<Step>, a: nat, j: nat)
    requires OpenedAt(run, steps, a, j)
    ensures SaidSoFar(run[a + 1], j, steps, a, a + 1)
  {
    RunStep(run, steps, a);
    RunKeepsInv(run, steps, a);
    assert JobInv(run[a], j);
    assert Said(steps, a, a) == [];
  }

  /**
    What is signalled for a command is what was read from it: as long as the thread is at it, cancelled
    or not, its signals are the data of the pty as Stdout and those of the pipe as Stderr, piece by
    piece in the order they were read, and nothing else.
  */
  lemma SignalsAreWhatWasRead(run: seq<State>, steps: seq<Step>, a: nat, b: nat, j: nat)
    requires OpenedAt(run, steps, a, j) && a < b < |run|
    ensures j < |run[b].jobs|
    ensures if run[b].jobs[j].future.Pending? then AtHand(run[b], j) && run[b].jobs[j].log == Said(steps, a, b)
            else exists e | a < e <= b :: run[b].jobs[j].log == Said(steps, a, e)
  {
    OpenedLog(run, steps, a, j);
    forall i | a + 1 <= i < b && SaidSoFar(run[i], j, steps, a, i) ensures SaidSoFar(run[i + 1], j, steps, a, i + 1) {
      SaidOnce(run, steps, a, i, j);
    }
    SaidOn(run, steps, a, a + 1, b, j);
  }

  /* ----- how the process and its client come to an end ----- */

  predicate HasExited(s: State, j: nat) { j < |s.jobs| && (s.jobs[j].child.Exited? || s.jobs[j].child.Reaped?) }

  lemma ExitStep(s: State, step: Step, j: nat)
    requires Inv(s) && Enabled(s, step) && j < |s.jobs|
    ensures HasExited(Apply(s, step), j) <==> HasExited(s, j) || step == ChildExits(j)
  {
    assert JobInv(s, j);
  }

  lemma {:induction false} ExitedIffItDid(run: seq<State>, steps: seq<Step>, k: nat, j: nat)
    requires IsRun(run, steps) && k < |run| && j < |run[k].jobs|
    ensures HasExited(run[k], j) <==> ChildExits(j) in steps[..k]
  {
    if k > 0 {
      RunStep(run, steps, k - 1);
      assert steps[..k] == steps[..k - 1] + [steps[k - 1]];
      if j < |run[k - 1].jobs| {
        ExitedIffItDid(run, steps, k - 1, j);
        RunKeepsInv(run, steps, k - 1);
        ExitStep(run[k - 1], steps[k - 1], j);
      } else {
        NothingBeforeSubmission(run, steps, k - 1, j);
      }
    }
  }

  lemma {:induction false} NothingBeforeSubmission(run: seq<State>, steps: seq<Step>, k: nat, j: nat)
    requires IsRun(run, steps) && k < |run| && j >= |run[k].jobs|
    ensures ChildExits(j) !in steps[..k] && ClientGets(j) !in steps[..k] && ClientTimesOut(j) !in steps[..k]
  {
    if k > 0 {
      RunStep(run, steps, k - 1);
      NothingBeforeSubmission(run, steps, k - 1, j);
      assert steps[..k] == steps[..k - 1] + [steps[k - 1]];
    }
  }

  /**
    How the process ends: it is told to terminate exactly if it has not exited by the time it is looked
    at, is killed if it then does not exit in time, and the thread leaves only when it has exited.
  */
  lemma ProcessIsEnded(run: seq<State>, steps: seq<Step>, k: nat)
    requires IsRun(run, steps) && k < |steps| && steps[k].Worker?
    ensures !run[k].pc.Idle?
    ensures var j, w, pc := run[k].pc.job, steps[k].w, run[k + 1].pc;
            && (w.Poll? ==> pc == if ChildExits(j) in steps[..k] then Leaving(j) else Terminating(j))
            && (w.WaitExpires? ==> pc == Killing(j))
            && (w.WaitReaps? || w.KillReaps? ==> pc == Leaving(j) && ChildExits(j) in steps[..k])
            && (w.Finish? ==> pc.Idle? && ChildExits(j) in steps[..k])
  {
    RunStep(run, steps, k);
    RunKeepsInv(run, steps, k);
    assert JobInv(run[k], run[k].pc.job);
    ExitedIffItDid(run, steps, k, run[k].pc.job);
  }

  /** The commands submitted. */
  function Submitted(steps: seq<Step>): seq<seq<string>> {
    if steps == [] then []
    else
      Submitted(steps[..|steps| - 1]) +
      match steps[|steps| - 1] case Submit(argv) => [argv] case _ => []
  }

  predicate CommandsAre(s: State, commands: seq<seq<string>>) {
    |s.jobs| == |commands| && forall j | 0 <= j < |s.jobs| :: s.jobs[j].argv == commands[j]
  }

  lemma CommandsStep(s: State, step: Step, commands: seq<seq<string>>)
    requires Enabled(s, step) && CommandsAre(s, commands)
    ensures CommandsAre(Apply(s, step), if step.Submit? then commands + [step.argv] else commands)
  {
  }

  /** The jobs are the commands submitted, in order. */
  lemma {:induction false} JobsAreSubmissions(run: seq<State>, steps: seq<Step>, k: nat)
    requires IsRun(run, steps) && k < |run|
    ensures CommandsAre(run[k], Submitted(steps[..k]))
  {
    if k > 0 {
      RunStep(run, steps, k - 1);
      JobsAreSubmissions(run, steps, k - 1);
      assert steps[..k][..k - 1] == steps[..k - 1];
      CommandsStep(run[k - 1], steps[k - 1], Submitted(steps[..k - 1]));
    }
  }

  /** The job's client has been told what it has been told: a time-out, or the result, with the event set accordingly. */
  predicate Told(job: Job, timedOut: bool, got: bool) {
    && (job.client.TimedOut? <==> timedOut)
    && (job.client.Returned? || job.client.Failed? <==> got)
    && (job.client.Returned? ==> job.future.Result?) && (job.client.Failed? ==> job.future.Exception?)
    && (job.cancelled <==> job.client.TimedOut? || job.client.Failed?)
  }

  lemma ToldStep(s: State, step: Step, j: nat, timedOut: bool, got: bool)
    requires Inv(s) && Enabled(s, step) && j < |s.jobs| && Told(s.jobs[j], timedOut, got)
    ensures Told(Apply(s, step).jobs[j], timedOut || step == ClientTimesOut(j), got || step == ClientGets(j))
  {
    assert JobInv(s, j);
  }

  /**
    What a client is told: it waits until it gets its result or times out, and is told just that; its
    job is cancelled exactly if it timed out, or got an exception.
  */
  lemma {:induction false} ClientsAreTold(run: seq<State>, steps: seq<Step>, k: nat, j: nat)
    requires IsRun(run, steps) && k < |run| && j < |run[k].jobs|
    ensures Told(run[k].jobs[j], ClientTimesOut(j) in steps[..k], ClientGets(j) in steps[..k])
  {
    if k > 0 {
      RunStep(run, steps, k - 1);
      assert steps[..k] == steps[..k - 1] + [steps[k - 1]];
      if j < |run[k - 1].jobs| {
        ClientsAreTold(run, steps, k - 1, j);
        RunKeepsInv(run, steps, k - 1);
        ToldStep(run[k - 1], steps[k - 1], j, ClientTimesOut(j) in steps[..k - 1], ClientGets(j) in steps[..k - 1]);
      } else {
        NothingBeforeSubmission(run, steps, k - 1, j);
      }
    }
  }

  /* ----- every output can be streamed ----- */

  /** One round of the loop: what select finds readable, and what the two reads bring where they are made. */
  datatype Round = Round(m: bool, e: bool, pty: ReadResult, pipe: ReadResult)

  /** Whether the pty, and the pipe, are still open after the round. */
  predicate PtyAfter(r: Round, open: bool) { open && !(r.m && r.pty.Eio?) }
  predicate PipeAfter(r: Round, open: bool) { open && !(r.e && r.pipe == Data("")) }

  predicate PossibleRound(r: Round, m: bool, e: bool) {
    (r.m || r.e) && (r.m ==> m) && (r.e ==> e) && !r.pty.Raises? && r.pipe.Data?
  }

  /** Rounds a thread can go through with the pty or the pipe open, or both, at whose end both have ended. */
  predicate PossibleRounds(rounds: seq<Round>, m: bool, e: bool) {
    if rounds == [] then !m && !e
    else
      var r := rounds[0];
      PossibleRound(r, m, e) && PossibleRounds(rounds[1..], PtyAfter(r, m), PipeAfter(r, e))
  }

  function OutputOf(r: Round): seq<Signal> {
    (if r.m && r.pty.Data? then [Stdout(r.pty.s)] else []) +
    (if r.e && r.pipe.Data? && r.pipe.s != "" then [Stderr(r.pipe.s)] else [])
  }

  function Output(rounds: seq<Round>): seq<Signal> {
    if rounds == [] then [] else OutputOf(rounds[0]) + Output(rounds[1..])
  }

  /** The job after reading on: the descriptors that are open then, and the signals given out. */
  function ReadOn(job: Job, m: bool, e: bool, output: seq<Signal>): Job {
    job.(master := m, stderr := e, log := job.log + output)
  }

  lemma RoundBegins(origin: State, s: State, j: nat, r: Round) returns (t: State)
    requires Leads(Transition, origin, s) && s.pc == Selecting(j) && AtHand(s, j) && !s.jobs[j].cancelled
    requires PossibleRound(r, s.jobs[j].master, s.jobs[j].stderr)
    ensures Leads(Transition, origin, t) && t == s.(pc := Checked(j, r.m, r.e))
  {
    t := Go(origin, s, Worker(Wake(r.m, r.e)));
    t := Go(origin, t, Worker(Check));
  }

  lemma OneRound(origin: State, s: State, j: nat, r: Round) returns (t: State)
    requires Leads(Transition, origin, s) && s.pc == Selecting(j) && AtHand(s, j) && !s.jobs[j].cancelled
    requires PossibleRound(r, s.jobs[j].master, s.jobs[j].stderr)
    ensures Leads(Transition, origin, t) && |t.jobs| == |s.jobs|
    ensures var m, e := PtyAfter(r, s.jobs[j].master), PipeAfter(r, s.jobs[j].stderr);
            && t.pc == (if m || e then Selecting(j) else Closing(j))
            && t.jobs[j] == ReadOn(s.jobs[j], m, e, OutputOf(r))
  {
    t := RoundBegins(origin, s, j, r);
    t := Go(origin, t, Worker(ReadMaster(r.pty)));
    t := Go(origin, t, Worker(ReadErr(r.pipe)));
    t := Go(origin, t, Worker(CheckList));
  }

  lemma ReadOnFurther(job: Job, m: bool, e: bool, first: seq<Signal>, others: seq<Signal>)
    ensures ReadOn(ReadOn(job, m, e, first), false, false, others) == ReadOn(job, false, false, first + others)
  {
    assert job.log + first + others == job.log + (first + others);
  }

  lemma {:induction false} RoundsCanBe(origin: State, s: State, j: nat, rounds: seq<Round>) returns (t: State)
    requires Leads(Transition, origin, s) && AtHand(s, j) && !s.jobs[j].cancelled
    requires PossibleRounds(rounds, s.jobs[j].master, s.jobs[j].stderr)
    requires s.pc == if s.jobs[j].master || s.jobs[j].stderr then Selecting(j) else Closing(j)
    ensures Leads(Transition, origin, t) && |t.jobs| == |s.jobs| && t.pc == Closing(j)
    ensures t.jobs[j] == ReadOn(s.jobs[j], false, false, Output(rounds))
    decreases |rounds|
  {
    if rounds == [] {
      t := s;
    } else {
      var r, m, e := rounds[0], s.jobs[j].master, s.jobs[j].stderr;
      t := OneRound(origin, s, j, r);
      t := RoundsCanBe(origin, t, j, rounds[1..]);
      ReadOnFurther(s.jobs[j], PtyAfter(r, m), PipeAfter(r, e), OutputOf(r), Output(rounds[1..]));
    }
  }

  /** How a process exits once its output has ended: of itself, when told to, or killed. */
  datatype Exit = Itself | WhenTold | WhenKilled

  lemma CanBeReaped(origin: State, s: State, j: nat, how: Exit) returns (t: State)
    requires Leads(Transition, origin, s) && s.pc == Closing(j) && AtHand(s, j) && s.jobs[j].child.Running?
    ensures Leads(Transition, origin, t) && t.pc == Leaving(j) && t.jobs == s.jobs[j := s.jobs[j].(child := Reaped)]
  {
    match how
    case Itself =>
      t := Go(origin, s, ChildExits(j));
      t := Go(origin, t, Worker(Poll));
    case WhenTold =>
      t := Go(origin, s, Worker(Poll));
      t := Go(origin, t, ChildExits(j));
      t := Go(origin, t, Worker(WaitReaps));
    case WhenKilled =>
      t := Go(origin, s, Worker(Poll));
      t := Go(origin, t, Worker(WaitExpires));
      t := Go(origin, t, ChildExits(j));
      t := Go(origin, t, Worker(KillReaps));
  }

  lemma CanExit(origin: State, s: State, j: nat, how: Exit) returns (t: State)
    requires Leads(Transition, origin, s) && s.pc == Closing(j) && AtHand(s, j) && s.jobs[j].child.Running?
    requires s.jobs[j].client.Waiting?
    ensures Leads(Transition, origin, t) && |t.jobs| == |s.jobs| && t.pc.Idle?
    ensures t.jobs[j] == s.jobs[j].(child := Reaped, future := Result, client := Returned)
  {
    t := CanBeReaped(origin, s, j, how);
    t := Go(origin, t, Worker(Finish));
    t := Go(origin, t, ClientGets(j));
  }

  /**
    Every output can be streamed: from every reachable state with the thread idle, the next command, if
    its client is still waiting, can make its thread go through any possible rounds that end both
    descriptors, exit in any way, and have its client told so.
  */
  lemma EveryOutputCanBe(s: State, rounds: seq<Round>, how: Exit) returns (t: State)
    requires Reachable(s) && s.pc.Idle? && s.queue != [] && s.queue[0] < |s.jobs| && s.jobs[s.queue[0]].client.Waiting?
    requires PossibleRounds(rounds, true, true)
    ensures Leads(Transition, s, t) && t.pc.Idle? && |t.jobs| == |s.jobs|
    ensures var job := t.jobs[s.queue[0]];
            job.client.Returned? && job.child.Reaped? && job.log == Output(rounds)
  {
    var j := s.queue[0];
    ReachableInv(s);
    assert JobInv(s, j);
    WaitingIsNotCancelled(s, j);
    LeadsNowhere(Transition, s);
    t := Go(s, s, Dequeue);
    t := Go(s, t, Worker(OpenWorks));
    t := RoundsCanBe(s, t, j, rounds);
    t := CanExit(s, t, j, how);
  }

  lemma WaitingIsNotCancelled(s: State, j: nat)
    requires Reachable(s) && j < |s.jobs| && s.jobs[j].client.Waiting?
    ensures !s.jobs[j].cancelled
  {
    var run, steps :| IsPath(Transition, run, steps) && run[0] == INIT && run[|steps|] == s;
    ClientsAreTold(run, steps, |steps|, j);
  }
}
