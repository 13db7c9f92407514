/**
  The daemon's event loop and its background threads (scripts/gnoi_shutdown_daemon.py, `main`),
  one step per access to the shared set, the lock or the outside.  A thread is a worker; workers are
  numbered in the order they are started.
*/
module EventLoop {
  import opened ChannelParser
  import opened Counting
  import opened GnoiHandler
  import opened Runs
  import opened Wrappers

  /** What `pubsub.get_message` and the `admin_status` read brought. */
  datatype Message =
    | NoMessage
    | OtherType
    | Keyspace(channel: string, admin: Reply)

  datatype LoopPc =
    | Waiting                  // in get_message
    | Wanting(dpu: string)     // before `with active_transitions_lock`
    | Checking(dpu: string)    // holds the lock
    | Leaving                  // holds the lock, found the DPU in the set
    | Adding(dpu: string)      // holds the lock, did not find it
    | Added(dpu: string)       // holds the lock
    | Starting(dpu: string)    // before thread.start()
    | Dead(pending: Option<string>) // an exception left main

  datatype WorkerPc =
    | Working(todo: seq<Effect>)  // inside _handle_transition
    | Unlocking                  // in `finally`, before the lock
    | Discarding                 // holds the lock
    | Discarded                  // holds the lock
    | Finished

  /** A thread carrying out a transition that goes the way of `course`, whose calls are `doing`. */
  datatype Worker = Worker(dpu: string, course: Course, doing: seq<Effect>, pc: WorkerPc)

  datatype Owner = Main | Thread(id: nat)

  datatype Event =
    | Noticed(dpu: string)       // admin_status "down" read for it
    | Ignored(dpu: string)       // already in the set
    | Started(dpu: string)
    | Did(dpu: string, effect: Effect)
    | Ended(dpu: string)         // removed from the set

  datatype State = State(loop: LoopPc, lock: Option<Owner>, active: set<string>, workers: seq<Worker>, log: seq<Event>)

  datatype Step =
    | Receive(m: Message)
    | LoopRaises
    | MainAcquire | MainLookup | MainLeave | MainAdd | MainRelease
    | ThreadStart(course: Course)
    | ThreadStartRaises
    | WorkerEffect(id: nat)
    | WorkerToFinally(id: nat)
    | WorkerAcquire(id: nat)
    | WorkerDiscard(id: nat)
    | WorkerRelease(id: nat)

  const INIT := State(Waiting, None, {}, [], [])

  /** The DPU a message makes the loop look at the active set for. */
  function Request(m: Message): Option<string> {
    match m
    case Keyspace(channel, admin) => if admin == Value("down") then ModuleOf(channel) else None
    case _ => None
  }

  /** Holding the lock is a matter of the program counter. */
  predicate MainHolds(pc: LoopPc) { pc.Checking? || pc.Leaving? || pc.Adding? || pc.Added? }
  predicate WorkerHolds(pc: WorkerPc) { pc.Discarding? || pc.Discarded? }

  ghost predicate Enabled(s: State, step: Step) {
    match step
    case Receive(m) => s.loop.Waiting? && !(m.Keyspace? && ModuleOf(m.channel).Some? && m.admin.Uncaught?)
    case LoopRaises => s.loop.Waiting?
    case MainAcquire => s.loop.Wanting? && s.lock.None?
    case MainLookup => s.loop.Checking?
    case MainLeave => s.loop.Leaving?
    case MainAdd => s.loop.Adding?
    case MainRelease => s.loop.Added?
    case ThreadStart(course) => s.loop.Starting? && Attainable(course)
    case ThreadStartRaises => s.loop.Starting?
    case WorkerEffect(i) => i < |s.workers| && s.workers[i].pc.Working? && s.workers[i].pc.todo != []
    case WorkerToFinally(i) => i < |s.workers| && s.workers[i].pc == Working([])
    case WorkerAcquire(i) => i < |s.workers| && s.workers[i].pc.Unlocking? && s.lock.None?
    case WorkerDiscard(i) => i < |s.workers| && s.workers[i].pc.Discarding?
    case WorkerRelease(i) => i < |s.workers| && s.workers[i].pc.Discarded?
  }

  function SetPc(s: State, i: nat, pc: WorkerPc): State
    requires i < |s.workers|
  {
    s.(workers := s.workers[i := s.workers[i].(pc := pc)])
  }

  ghost function Apply(s: State, step: Step): State
    requires Enabled(s, step)
  {
    match step
    case Receive(m) =>
      (match Request(m)
       case Some(d) => s.(loop := Wanting(d), log := s.log + [Noticed(d)])
       case None => s)
    case LoopRaises => s.(loop := Dead(None))
    case MainAcquire => s.(loop := Checking(s.loop.dpu), lock := Some(Main))
    case MainLookup =>
      var d := s.loop.dpu;
      if d in s.active then s.(loop := Leaving, log := s.log + [Ignored(d)]) else s.(loop := Adding(d))
    case MainLeave => s.(loop := Waiting, lock := None)
    case MainAdd => s.(loop := Added(s.loop.dpu), active := s.active + {s.loop.dpu})
    case MainRelease => s.(loop := Starting(s.loop.dpu), lock := None)
    case ThreadStart(course) =>
      var d := s.loop.dpu;
      var effects := EffectsOf(course);
      s.(loop := Waiting, workers := s.workers + [Worker(d, course, effects, Working(effects))], log := s.log + [Started(d)])
    case ThreadStartRaises => s.(loop := Dead(Some(s.loop.dpu)))
    case WorkerEffect(i) =>
      var w := s.workers[i];
      SetPc(s, i, Working(w.pc.todo[1..])).(log := s.log + [Did(w.dpu, w.pc.todo[0])])
    case WorkerToFinally(i) => SetPc(s, i, Unlocking)
    case WorkerAcquire(i) => SetPc(s, i, Discarding).(lock := Some(Thread(i)))
    case WorkerDiscard(i) =>
      var d := s.workers[i].dpu;
      SetPc(s, i, Discarded).(active := s.active - {d}, log := s.log + [Ended(d)])
    case WorkerRelease(i) => SetPc(s, i, Finished).(lock := None)
  }

  /** A message makes the loop notice a DPU exactly when its key is a module's and that module is down. */
  lemma NoticedIffModuleDown(s: State, m: Message, name: string)
    requires Enabled(s, Receive(m))
    ensures Apply(s, Receive(m)).loop == Wanting(name) <==>
              m.Keyspace? && m.admin == Value("down") && name != "" && KeyOf(m.channel) == "CHASSIS_MODULE|" + name
  {
    if m.Keyspace? {
      ParsedIffKeyInTable(m.channel, name);
    }
  }

  /* ----- what holds in every reachable state ----- */

  /** The worker has not yet removed its DPU from the set. */
  predicate Live(w: Worker) { w.pc.Working? || w.pc.Unlocking? || w.pc.Discarding? }

  /** The loop has put `d` into the set and no thread has taken it over. */
  predicate Pending(pc: LoopPc, d: string) {
    pc == Added(d) || pc == Starting(d) || pc == Dead(Some(d))
  }

  ghost predicate HasLive(workers: seq<Worker>, d: string) {
    exists i | 0 <= i < |workers| :: workers[i].dpu == d && Live(workers[i])
  }

  ghost predicate AllFinished(workers: seq<Worker>, d: string) {
    forall i | 0 <= i < |workers| && workers[i].dpu == d :: workers[i].pc.Finished?
  }

  /** The lock's holder is whoever is at a holding program counter, and there is at most one. */
  ghost predicate LockInv(s: State) {
    && (MainHolds(s.loop) <==> s.lock == Some(Main))
    && (forall i | 0 <= i < |s.workers| :: WorkerHolds(s.workers[i].pc) <==> s.lock == Some(Thread(i)))
    && (s.lock.Some? && s.lock.value.Thread? ==> s.lock.value.id < |s.workers|)
  }

  /** The set is exactly the DPUs being spawned or having a live worker, never both. */
  ghost predicate ActiveInv(s: State) {
    && (forall d :: d in s.active <==> Pending(s.loop, d) || HasLive(s.workers, d))
    && (forall d | Pending(s.loop, d) :: AllFinished(s.workers, d))
    && (s.loop.Adding? ==> AllFinished(s.workers, s.loop.dpu))
  }

  /** Of the workers of one DPU all but the latest have finished. */
  ghost predicate OneWorker(workers: seq<Worker>) {
    forall i, j | 0 <= i < j < |workers| && workers[i].dpu == workers[j].dpu :: workers[i].pc.Finished?
  }

  /** The calls a worker has made so far. */
  function SoFar(w: Worker): seq<Effect> {
    if w.pc.Working? then
      if |w.pc.todo| <= |w.doing| then w.doing[..|w.doing| - |w.pc.todo|] else []
    else w.doing
  }

  /** What a worker has logged so far: its start, the calls it has made, and its end if it got there. */
  function Block(w: Worker): seq<Event> {
    [Started(w.dpu)] + Dids(w.dpu, SoFar(w)) + if w.pc.Discarded? || w.pc.Finished? then [Ended(w.dpu)] else []
  }

  function Dids(d: string, effects: seq<Effect>): (events: seq<Event>)
    ensures |events| == |effects|
  {
    seq(|effects|, i requires 0 <= i < |effects| => Did(d, effects[i]))
  }

  /** The blocks of the workers of `d`, in the order they were started. */
  function Blocks(workers: seq<Worker>, d: string): seq<Event> {
    if workers == [] then []
    else
      var last := workers[|workers| - 1];
      Blocks(workers[..|workers| - 1], d) + if last.dpu == d then Block(last) else []
  }

  predicate OfWorker(e: Event, d: string) {
    e.dpu == d && (e.Started? || e.Did? || e.Ended?)
  }

  /** The part of the log that workers of `d` wrote. */
  function Part(log: seq<Event>, d: string): seq<Event> {
    if log == [] then []
    else
      var e := log[|log| - 1];
      Part(log[..|log| - 1], d) + if OfWorker(e, d) then [e] else []
  }

  /** What a worker still has to do is a suffix of the transition it was started with. */
  ghost predicate TodoOk(w: Worker) {
    w.pc.Working? ==> |w.pc.todo| <= |w.doing| && w.pc.todo == w.doing[|w.doing| - |w.pc.todo|..]
  }

  ghost predicate TodoInv(workers: seq<Worker>) {
    forall i | 0 <= i < |workers| :: TodoOk(workers[i])
  }

  ghost predicate TransitionInv(workers: seq<Worker>) {
    forall i | 0 <= i < |workers| :: workers[i].doing == EffectsOf(workers[i].course)
  }

  ghost predicate LogInv(s: State) {
    forall d :: Part(s.log, d) == Blocks(s.workers, d)
  }

  ghost predicate Inv(s: State) {
    LockInv(s) && ActiveInv(s) && OneWorker(s.workers) && TodoInv(s.workers) && TransitionInv(s.workers) && LogInv(s)
  }

  /* ----- the log ----- */

  lemma PartAppend(log: seq<Event>, e: Event, d: string)
    ensures Part(log + [e], d) == Part(log, d) + if OfWorker(e, d) then [e] else []
  {
    assert (log + [e])[..|log|] == log;
  }

  lemma {:induction false} BlocksAppend(workers: seq<Worker>, w: Worker, d: string)
    ensures Blocks(workers + [w], d) == Blocks(workers, d) + if w.dpu == d then Block(w) else []
  {
    assert (workers + [w])[..|workers|] == workers;
  }

  /** Changing worker `i` so that its block grows by `more` grows its DPU's blocks by `more`, at the end. */
  lemma {:induction false} BlocksGrow(workers: seq<Worker>, i: nat, w: Worker, more: seq<Event>, d: string)
    requires i < |workers| && w.dpu == workers[i].dpu
    requires Block(w) == Block(workers[i]) + more
    requires more != [] ==> forall j | i < j < |workers| :: workers[j].dpu != w.dpu
    ensures Blocks(workers[i := w], d) == Blocks(workers, d) + if w.dpu == d then more else []
  {
    var n := |workers| - 1;
    var updated := workers[i := w];
    if i == n {
      assert updated[..n] == workers[..n];
      var before := Blocks(workers[..n], d);
      assert before + (Block(workers[n]) + more) == before + Block(workers[n]) + more;
    } else {
      assert updated[..n] == workers[..n][i := w];
      BlocksGrow(workers[..n], i, w, more, d);
      assert updated[n] == workers[n];
    }
  }

  /* ----- every step keeps the invariant ----- */

  lemma LockStep(s: State, step: Step)
    requires LockInv(s) && Enabled(s, step)
    ensures LockInv(Apply(s, step))
  {
  }

  lemma ActiveStep(s: State, step: Step)
    requires LockInv(s) && ActiveInv(s) && OneWorker(s.workers) && Enabled(s, step)
    ensures ActiveInv(Apply(s, step)) && OneWorker(Apply(s, step).workers)
  {
    match step
    case WorkerDiscard(_) => ActiveStepDiscard(s, step);
    case WorkerEffect(i) => LiveKept(s.workers, Apply(s, step).workers, i);
    case WorkerToFinally(i) => LiveKept(s.workers, Apply(s, step).workers, i);
    case WorkerAcquire(i) => LiveKept(s.workers, Apply(s, step).workers, i);
    case WorkerRelease(i) => LiveKept(s.workers, Apply(s, step).workers, i);
    case ThreadStart(_) => ActiveStepStart(s, step);
    case _ => ActiveStepMain(s, step);
  }

  lemma ActiveStepMain(s: State, step: Step)
    requires LockInv(s) && ActiveInv(s) && OneWorker(s.workers) && Enabled(s, step)
    requires Apply(s, step).workers == s.workers
    ensures ActiveInv(Apply(s, step))
  {
    var t := Apply(s, step);
    if step.MainLookup? && t.loop.Adding? {
      forall i | 0 <= i < |s.workers| && s.workers[i].dpu == t.loop.dpu ensures s.workers[i].pc.Finished? {
        assert !Live(s.workers[i]);
        assert !WorkerHolds(s.workers[i].pc);
      }
    }
    if step.MainAdd? {
      assert AllFinished(s.workers, s.loop.dpu);
      assert !HasLive(s.workers, s.loop.dpu);
    }
    if step.ThreadStartRaises? {
      assert Pending(s.loop, s.loop.dpu);
    }
    forall d | Pending(t.loop, d) ensures AllFinished(t.workers, d) {
      assert Pending(s.loop, d) || step.MainAdd?;
    }
  }

  lemma ActiveStepStart(s: State, step: Step)
    requires LockInv(s) && ActiveInv(s) && OneWorker(s.workers) && Enabled(s, step) && step.ThreadStart?
    ensures ActiveInv(Apply(s, step)) && OneWorker(Apply(s, step).workers)
  {
    var t := Apply(s, step);
    var d := s.loop.dpu;
    assert Pending(s.loop, d) && AllFinished(s.workers, d);
    LiveAppend(s.workers, t.workers[|s.workers|]);
  }

  lemma LiveAppend(workers: seq<Worker>, w: Worker)
    ensures forall e :: HasLive(workers + [w], e) <==> HasLive(workers, e) || (w.dpu == e && Live(w))
  {
    var after := workers + [w];
    forall e ensures HasLive(after, e) <==> HasLive(workers, e) || (w.dpu == e && Live(w)) {
      if HasLive(workers, e) {
        var i :| 0 <= i < |workers| && workers[i].dpu == e && Live(workers[i]);
        assert after[i] == workers[i];
      }
      if w.dpu == e && Live(w) {
        assert after[|workers|] == w;
      }
    }
  }

  lemma ActiveStepDiscard(s: State, step: Step)
    requires LockInv(s) && ActiveInv(s) && OneWorker(s.workers) && Enabled(s, step) && step.WorkerDiscard?
    ensures ActiveInv(Apply(s, step)) && OneWorker(Apply(s, step).workers)
    ensures !HasLive(Apply(s, step).workers, s.workers[step.id].dpu)
  {
    var t := Apply(s, step);
    var d := s.workers[step.id].dpu;
    assert HasLive(s.workers, d);
    forall e | e != d ensures HasLive(s.workers, e) <==> HasLive(t.workers, e) {
      LiveElsewhere(s.workers, t.workers, step.id, e);
    }
  }

  /** Changing worker `i` does not matter to another DPU. */
  lemma LiveElsewhere(before: seq<Worker>, after: seq<Worker>, i: nat, e: string)
    requires i < |before| && |after| == |before| && forall j | 0 <= j < |before| && j != i :: after[j] == before[j]
    requires before[i].dpu != e && after[i].dpu != e
    ensures HasLive(before, e) <==> HasLive(after, e)
  {
    if HasLive(before, e) {
      var j :| 0 <= j < |before| && before[j].dpu == e && Live(before[j]);
      assert after[j] == before[j];
    }
    if HasLive(after, e) {
      var j :| 0 <= j < |after| && after[j].dpu == e && Live(after[j]);
      assert after[j] == before[j];
    }
  }

  lemma LiveKept(before: seq<Worker>, after: seq<Worker>, i: nat)
    requires i < |before| && |after| == |before| && forall j | 0 <= j < |before| && j != i :: after[j] == before[j]
    requires after[i].dpu == before[i].dpu && (Live(after[i]) <==> Live(before[i]))
    ensures forall e :: HasLive(before, e) <==> HasLive(after, e)
  {
    forall e ensures HasLive(before, e) <==> HasLive(after, e) {
      if HasLive(before, e) {
        var j :| 0 <= j < |before| && before[j].dpu == e && Live(before[j]);
        assert after[j].dpu == e && Live(after[j]);
      }
      if HasLive(after, e) {
        var j :| 0 <= j < |after| && after[j].dpu == e && Live(after[j]);
        assert before[j].dpu == e && Live(before[j]);
      }
    }
  }

  lemma TransitionsStep(s: State, step: Step)
    requires TransitionInv(s.workers) && Enabled(s, step)
    ensures TransitionInv(Apply(s, step).workers)
  {
    var t := Apply(s, step);
    forall i | 0 <= i < |t.workers| ensures t.workers[i].doing == EffectsOf(t.workers[i].course) {
      if i < |s.workers| {
        assert t.workers[i].doing == s.workers[i].doing && t.workers[i].course == s.workers[i].course;
      }
    }
  }

  lemma TodoStep(s: State, step: Step)
    requires TodoInv(s.workers) && Enabled(s, step)
    ensures TodoInv(Apply(s, step).workers)
  {
    var t := Apply(s, step);
    forall i | 0 <= i < |t.workers| ensures TodoOk(t.workers[i]) {
      if i < |s.workers| && t.workers[i] != s.workers[i] && step.WorkerEffect? {
        TodoShrinks(s.workers[i]);
      }
    }
  }

  lemma TodoShrinks(w: Worker)
    requires TodoOk(w) && w.pc.Working? && w.pc.todo != []
    ensures TodoOk(w.(pc := Working(w.pc.todo[1..])))
  {
  }

  /** The steps of the event loop itself, except the one that starts a thread. */
  predicate OfLoop(step: Step) {
    || step.Receive? || step.LoopRaises? || step.MainAcquire? || step.MainLookup? || step.MainLeave? || step.MainAdd?
    || step.MainRelease? || step.ThreadStartRaises?
  }

  /** A worker that logs something is the last one of its DPU, so its DPU's part of the log grows at its block. */
  lemma LogStep(s: State, step: Step)
    requires OneWorker(s.workers) && TodoInv(s.workers) && LogInv(s) && Enabled(s, step)
    ensures LogInv(Apply(s, step))
  {
    if OfLoop(step) {
      LogStepMain(s, step);
    } else if step.ThreadStart? {
      LogStepStart(s, step);
    } else {
      LogStepOfWorker(s, step, step.id);
    }
  }

  lemma LogStepMain(s: State, step: Step)
    requires LogInv(s) && Enabled(s, step) && OfLoop(step)
    ensures LogInv(Apply(s, step))
  {
    var t := Apply(s, step);
    var more := LoopLogs(s, step);
    forall d ensures Part(t.log, d) == Blocks(t.workers, d) {
      LogPart(s, t, more, d);
    }
  }

  lemma LoopLogs(s: State, step: Step) returns (more: seq<Event>)
    requires Enabled(s, step) && OfLoop(step)
    ensures Apply(s, step).workers == s.workers && Apply(s, step).log == s.log + more
    ensures more == [] || exists d :: more == [Noticed(d)] || more == [Ignored(d)]
  {
    var log, after := s.log, Apply(s, step).log;
    more := if after == log then [] else [after[|log|]];
  }

  lemma LogPart(s: State, t: State, more: seq<Event>, d: string)
    requires LogInv(s) && t.workers == s.workers && t.log == s.log + more
    requires more == [] || exists d :: more == [Noticed(d)] || more == [Ignored(d)]
    ensures Part(t.log, d) == Blocks(t.workers, d)
  {
    assert Part(s.log, d) == Blocks(s.workers, d);
    if more == [] {
      assert t.log == s.log;
    } else {
      PartAppend(s.log, more[0], d);
    }
  }

  lemma LogStepStart(s: State, step: Step)
    requires LogInv(s) && Enabled(s, step) && step.ThreadStart?
    ensures LogInv(Apply(s, step))
  {
    var t := Apply(s, step);
    forall d ensures Part(t.log, d) == Blocks(t.workers, d) {
      StartedPart(s, t, step.course, d);
    }
  }

  lemma StartedPart(s: State, t: State, course: Course, d: string)
    requires LogInv(s) && s.loop.Starting? && t.log == s.log + [Started(s.loop.dpu)]
    requires t.workers == s.workers + [Worker(s.loop.dpu, course, EffectsOf(course), Working(EffectsOf(course)))]
    ensures Part(t.log, d) == Blocks(t.workers, d)
  {
    var w := t.workers[|s.workers|];
    assert Part(s.log, d) == Blocks(s.workers, d);
    PartAppend(s.log, Started(w.dpu), d);
    BlocksAppend(s.workers, w, d);
    assert w.doing[..0] == [];
    assert Block(w) == [Started(w.dpu)];
  }

  lemma LogStepOfWorker(s: State, step: Step, i: nat)
    requires OneWorker(s.workers) && TodoInv(s.workers) && LogInv(s) && Enabled(s, step)
    requires !OfLoop(step) && !step.ThreadStart? && i == step.id
    ensures LogInv(Apply(s, step))
  {
    var t := Apply(s, step);
    var more := WorkerLogs(s, step, i);
    forall d ensures Part(t.log, d) == Blocks(t.workers, d) {
      WorkerPart(s, t, i, more, d);
    }
  }

  /** A worker's step changes that worker alone and adds to the log what it adds to its block. */
  ghost predicate OneLogs(s: State, t: State, i: nat, more: seq<Event>) {
    && i < |s.workers| && |t.workers| == |s.workers| && |more| <= 1
    && t.workers == s.workers[i := t.workers[i]] && t.workers[i].dpu == s.workers[i].dpu
    && t.log == s.log + more
    && Block(t.workers[i]) == Block(s.workers[i]) + more
    && (forall e | e in more :: OfWorker(e, s.workers[i].dpu))
    && (more != [] ==> !s.workers[i].pc.Finished?)
  }

  lemma WorkerLogs(s: State, step: Step, i: nat) returns (more: seq<Event>)
    requires TodoInv(s.workers) && Enabled(s, step) && !OfLoop(step) && !step.ThreadStart? && i == step.id
    ensures OneLogs(s, Apply(s, step), i, more)
  {
    var w := s.workers[i];
    if step.WorkerEffect? {
      more := [Did(w.dpu, w.pc.todo[0])];
      EffectLogged(w);
    } else if step.WorkerDiscard? {
      more := [Ended(w.dpu)];
    } else {
      more := [];
      if step.WorkerToFinally? {
        AllLogged(w);
      }
    }
  }

  lemma WorkerPart(s: State, t: State, i: nat, more: seq<Event>, d: string)
    requires OneWorker(s.workers) && LogInv(s) && OneLogs(s, t, i, more)
    ensures Part(t.log, d) == Blocks(t.workers, d)
  {
    assert Part(s.log, d) == Blocks(s.workers, d);
    BlocksGrow(s.workers, i, t.workers[i], more, d);
    if more == [] {
      assert t.log == s.log;
    } else {
      assert more == [more[0]] && more[0] in more;
      PartAppend(s.log, more[0], d);
    }
  }

  lemma AllLogged(w: Worker)
    requires w.pc == Working([])
    ensures Block(w.(pc := Unlocking)) == Block(w)
  {
    assert w.doing[..|w.doing|] == w.doing;
  }

  lemma EffectLogged(w: Worker)
    requires w.pc.Working? && w.pc.todo != [] && |w.pc.todo| <= |w.doing|
    requires w.pc.todo == w.doing[|w.doing| - |w.pc.todo|..]
    ensures Block(w.(pc := Working(w.pc.todo[1..]))) == Block(w) + [Did(w.dpu, w.pc.todo[0])]
  {
    var k := |w.doing| - |w.pc.todo|;
    assert w.pc.todo[0] == w.doing[k];
    var v := w.(pc := Working(w.pc.todo[1..]));
    assert SoFar(w) == w.doing[..k] && SoFar(v) == w.doing[..k + 1];
    assert Dids(w.dpu, w.doing[..k + 1]) == Dids(w.dpu, w.doing[..k]) + [Did(w.dpu, w.doing[k])];
  }

  /* ----- runs ----- */

  ghost predicate Transition(s: State, step: Step, t: State) {
    Enabled(s, step) && t == Apply(s, step)
  }

  ghost predicate IsRun(run: seq<State>, steps: seq<Step>) {
    IsPath(Transition, run, steps) && run[0] == INIT
  }

  lemma RunStep(run: seq<State>, steps: seq<Step>, k: nat)
    requires IsRun(run, steps) && k < |steps|
    ensures Enabled(run[k], steps[k]) && run[k + 1] == Apply(run[k], steps[k])
  {
    assert Transition(run[k], steps[k], run[k + 1]);
  }

  lemma {:induction false} RunKeepsInv(run: seq<State>, steps: seq<Step>, i: nat)
    requires IsRun(run, steps) && i < |run|
    ensures Inv(run[i])
  {
    if i > 0 {
      RunStep(run, steps, i - 1);
      RunKeepsInv(run, steps, i - 1);
      var s, step := run[i - 1], steps[i - 1];
      LockStep(s, step);
      ActiveStep(s, step);
      TransitionsStep(s, step);
      TodoStep(s, step);
      LogStep(s, step);
    }
  }

  /**
    In every state of every run: no DPU has two threads that are not finished, and the set holds
    exactly the DPUs that are being spawned or whose thread has not removed them yet, one or the
    other and never both.
  */
  lemma AtMostOneWorkerPerDpu(run: seq<State>, steps: seq<Step>, k: nat)
    requires IsRun(run, steps) && k < |run|
    ensures forall i, j | 0 <= i < |run[k].workers| && 0 <= j < |run[k].workers| && i != j
                && !run[k].workers[i].pc.Finished? && !run[k].workers[j].pc.Finished?
              :: run[k].workers[i].dpu != run[k].workers[j].dpu
    ensures forall d :: d in run[k].active <==> Pending(run[k].loop, d) || HasLive(run[k].workers, d)
    ensures forall d :: !(Pending(run[k].loop, d) && HasLive(run[k].workers, d))
  {
    RunKeepsInv(run, steps, k);
  }

  /* ----- counting ----- */

  /** How many times `d` is on its way from being noticed to being ignored or started. */
  function Underway(pc: LoopPc, d: string): nat {
    if pc == Wanting(d) || pc == Checking(d) || pc == Adding(d) || Pending(pc, d) then 1 else 0
  }

  ghost predicate CountsAgree(s: State, d: string, live: bool) {
    && Count(s.log, Noticed(d)) == Count(s.log, Ignored(d)) + Count(s.log, Started(d)) + Underway(s.loop, d)
    && Count(s.log, Started(d)) == Count(s.log, Ended(d)) + if live then 1 else 0
  }

  /** The four counters of `d` after one more event. */
  lemma CountersAppend(log: seq<Event>, e: Event, d: string)
    ensures Count(log + [e], Noticed(d)) == Count(log, Noticed(d)) + if e == Noticed(d) then 1 else 0
    ensures Count(log + [e], Ignored(d)) == Count(log, Ignored(d)) + if e == Ignored(d) then 1 else 0
    ensures Count(log + [e], Started(d)) == Count(log, Started(d)) + if e == Started(d) then 1 else 0
    ensures Count(log + [e], Ended(d)) == Count(log, Ended(d)) + if e == Ended(d) then 1 else 0
  {
    CountAppend(log, e, Noticed(d));
    CountAppend(log, e, Ignored(d));
    CountAppend(log, e, Started(d));
    CountAppend(log, e, Ended(d));
  }

  /** How a step changes whether `d` has a live thread. */
  ghost predicate LiveMoves(s: State, step: Step, d: string, before: bool, after: bool)
    requires Enabled(s, step)
  {
    if step.ThreadStart? && s.loop.dpu == d then !before && after
    else if step.WorkerDiscard? && s.workers[step.id].dpu == d then before && !after
    else before <==> after
  }

  lemma CountStepFor(s: State, step: Step, d: string, before: bool, after: bool)
    requires Enabled(s, step) && CountsAgree(s, d, before) && LiveMoves(s, step, d, before, after)
    ensures CountsAgree(Apply(s, step), d, after)
  {
    match step
    case Receive(_) => CountStepReceive(s, step, d, before, after);
    case MainLookup => CountStepLookup(s, step, d, before, after);
    case ThreadStart(_) => CountStepStart(s, step, d, before, after);
    case WorkerEffect(_) => CountStepEffect(s, step, d, before, after);
    case WorkerDiscard(_) => CountStepEnd(s, step, d, before, after);
    case _ => CountStepQuiet(s, step, d, before, after);
  }

  lemma CountStepQuiet(s: State, step: Step, d: string, before: bool, after: bool)
    requires Enabled(s, step) && CountsAgree(s, d, before) && LiveMoves(s, step, d, before, after)
    requires !step.Receive? && !step.MainLookup? && !step.ThreadStart? && !step.WorkerEffect? && !step.WorkerDiscard?
    ensures CountsAgree(Apply(s, step), d, after)
  {
    var t := Apply(s, step);
    assert t.log == s.log;
    assert Underway(t.loop, d) == Underway(s.loop, d);
  }

  lemma CountStepLookup(s: State, step: Step, d: string, before: bool, after: bool)
    requires Enabled(s, step) && CountsAgree(s, d, before) && LiveMoves(s, step, d, before, after)
    requires step.MainLookup?
    ensures CountsAgree(Apply(s, step), d, after)
  {
    var t, e := Apply(s, step), s.loop.dpu;
    assert before <==> after;
    if e in s.active {
      IgnoringCounts(s.log, e, d);
      assert t.log == s.log + [Ignored(e)] && Underway(t.loop, d) == 0;
      assert Underway(s.loop, d) == if e == d then 1 else 0;
    } else {
      assert t.log == s.log && Underway(t.loop, d) == Underway(s.loop, d);
    }
  }

  lemma IgnoringCounts(log: seq<Event>, e: string, d: string)
    ensures var after := log + [Ignored(e)];
            && Count(after, Noticed(d)) == Count(log, Noticed(d))
            && Count(after, Ignored(d)) == Count(log, Ignored(d)) + (if e == d then 1 else 0)
            && Count(after, Started(d)) == Count(log, Started(d))
            && Count(after, Ended(d)) == Count(log, Ended(d))
  {
    CountersAppend(log, Ignored(e), d);
  }

  lemma CountStepReceive(s: State, step: Step, d: string, before: bool, after: bool)
    requires Enabled(s, step) && CountsAgree(s, d, before) && LiveMoves(s, step, d, before, after)
    requires step.Receive?
    ensures CountsAgree(Apply(s, step), d, after)
  {
    var request := Request(step.m);
    if request.Some? {
      CountersAppend(s.log, Noticed(request.value), d);
    }
  }

  lemma CountStepStart(s: State, step: Step, d: string, before: bool, after: bool)
    requires Enabled(s, step) && CountsAgree(s, d, before) && LiveMoves(s, step, d, before, after)
    requires step.ThreadStart?
    ensures CountsAgree(Apply(s, step), d, after)
  {
    CountersAppend(s.log, Started(s.loop.dpu), d);
  }

  lemma CountStepEffect(s: State, step: Step, d: string, before: bool, after: bool)
    requires Enabled(s, step) && CountsAgree(s, d, before) && LiveMoves(s, step, d, before, after)
    requires step.WorkerEffect?
    ensures CountsAgree(Apply(s, step), d, after)
  {
    var w := s.workers[step.id];
    CountersAppend(s.log, Did(w.dpu, w.pc.todo[0]), d);
  }

  lemma CountStepEnd(s: State, step: Step, d: string, before: bool, after: bool)
    requires Enabled(s, step) && CountsAgree(s, d, before) && LiveMoves(s, step, d, before, after)
    requires step.WorkerDiscard?
    ensures CountsAgree(Apply(s, step), d, after)
  {
    CountersAppend(s.log, Ended(s.workers[step.id].dpu), d);
  }

  lemma LiveAfter(s: State, step: Step, d: string)
    requires Inv(s) && Enabled(s, step)
    ensures LiveMoves(s, step, d, HasLive(s.workers, d), HasLive(Apply(s, step).workers, d))
  {
    var t := Apply(s, step);
    match step
    case WorkerDiscard(i) =>
      ActiveStepDiscard(s, step);
      assert Live(s.workers[i]);
      if s.workers[i].dpu != d {
        LiveElsewhere(s.workers, t.workers, i, d);
      }
    case WorkerEffect(i) => LiveKept(s.workers, t.workers, i);
    case WorkerToFinally(i) => LiveKept(s.workers, t.workers, i);
    case WorkerAcquire(i) => LiveKept(s.workers, t.workers, i);
    case WorkerRelease(i) => LiveKept(s.workers, t.workers, i);
    case ThreadStart(_) =>
      assert Pending(s.loop, s.loop.dpu) && AllFinished(s.workers, s.loop.dpu);
      LiveAppend(s.workers, t.workers[|s.workers|]);
    case _ =>
  }

  lemma {:induction false} RunKeepsCounts(run: seq<State>, steps: seq<Step>, k: nat, d: string)
    requires IsRun(run, steps) && k < |run|
    ensures CountsAgree(run[k], d, HasLive(run[k].workers, d))
  {
    if k > 0 {
      RunStep(run, steps, k - 1);
      RunKeepsInv(run, steps, k - 1);
      RunKeepsCounts(run, steps, k - 1, d);
      LiveAfter(run[k - 1], steps[k - 1], d);
      CountStepFor(run[k - 1], steps[k - 1], d, HasLive(run[k - 1].workers, d), HasLive(run[k].workers, d));
    }
  }

  /**
    No entry leaks: however transitions end, the threads started for a DPU outnumber the removals
    from the set by one exactly while a thread is live, and every notice that asked for a shutdown
    has been ignored, has started a thread, or is the one being worked on.
  */
  lemma SpawnsAndEndsBalance(run: seq<State>, steps: seq<Step>, k: nat, d: string)
    requires IsRun(run, steps) && k < |run|
    ensures Count(run[k].log, Started(d)) - Count(run[k].log, Ended(d)) == if HasLive(run[k].workers, d) then 1 else 0
    ensures Count(run[k].log, Noticed(d)) - Count(run[k].log, Ignored(d)) - Count(run[k].log, Started(d))
              == Underway(run[k].loop, d)
  {
    RunKeepsCounts(run, steps, k, d);
  }

  /**
    What the threads of one DPU do is never interleaved: its part of the log is, thread after
    thread in the order they were started, the start, the calls of one whole transition, the
    removal; only the latest block may be incomplete.
  */
  lemma TransitionsOfOneDpuAreSerial(run: seq<State>, steps: seq<Step>, k: nat, d: string)
    requires IsRun(run, steps) && k < |run|
    ensures Part(run[k].log, d) == Blocks(run[k].workers, d)
    ensures forall i | 0 <= i < |run[k].workers| ::
              var w := run[k].workers[i];
              && w.doing == EffectsOf(w.course)
              && (w.pc.Finished? ==> Block(w) == [Started(w.dpu)] + Dids(w.dpu, w.doing) + [Ended(w.dpu)])
    ensures forall i, j | 0 <= i < j < |run[k].workers| && run[k].workers[i].dpu == run[k].workers[j].dpu ::
              run[k].workers[i].pc.Finished?
  {
    RunKeepsInv(run, steps, k);
    forall i | 0 <= i < |run[k].workers|
      ensures var w := run[k].workers[i];
              w.pc.Finished? ==> Block(w) == [Started(w.dpu)] + Dids(w.dpu, w.doing) + [Ended(w.dpu)]
    {
      var w := run[k].workers[i];
      assert [Started(w.dpu)] + (Dids(w.dpu, w.doing) + [Ended(w.dpu)]) == [Started(w.dpu)] + Dids(w.dpu, w.doing) + [Ended(w.dpu)];
    }
  }

  lemma {:induction false} CountPart(log: seq<Event>, d: string, e: Event)
    requires OfWorker(e, d)
    ensures Count(Part(log, d), e) == Count(log, e)
  {
    if log != [] {
      var n := |log| - 1;
      CountPart(log[..n], d, e);
      assert log == log[..n] + [log[n]];
      CountAppend(log[..n], log[n], e);
      if OfWorker(log[n], d) {
        CountAppend(Part(log[..n], d), log[n], e);
      } else {
        assert Part(log, d) == Part(log[..n], d);
      }
    }
  }

  lemma {:induction false} CountDids(d: string, effects: seq<Effect>, x: Effect)
    ensures Count(Dids(d, effects), Did(d, x)) == Count(effects, x)
  {
    if effects != [] {
      var n := |effects| - 1;
      CountDids(d, effects[..n], x);
      assert effects == effects[..n] + [effects[n]];
      assert Dids(d, effects) == Dids(d, effects[..n]) + [Did(d, effects[n])];
      CountAppend(Dids(d, effects[..n]), Did(d, effects[n]), Did(d, x));
    }
  }

  lemma BlockCount(w: Worker, e: Event)
    ensures Count(Block(w), e) ==
              (if e == Started(w.dpu) then 1 else 0) + Count(Dids(w.dpu, SoFar(w)), e) +
              (if (w.pc.Discarded? || w.pc.Finished?) && e == Ended(w.dpu) then 1 else 0)
  {
    var middle := Dids(w.dpu, SoFar(w));
    var last := if w.pc.Discarded? || w.pc.Finished? then [Ended(w.dpu)] else [];
    CountConcat([Started(w.dpu)], middle, e);
    CountConcat([Started(w.dpu)] + middle, last, e);
    assert [Started(w.dpu)][..0] == [] && [Ended(w.dpu)][..0] == [];
  }

  lemma HaltsInPrefix(c: Course, k: nat)
    requires k <= |EffectsOf(c)|
    ensures Count(EffectsOf(c)[..k], SendHalt) <= 1
  {
    CountEffects(c);
    CountPrefix(EffectsOf(c), k, SendHalt);
  }

  lemma SoFarIsPrefix(w: Worker)
    ensures |SoFar(w)| <= |w.doing| && SoFar(w) == w.doing[..|SoFar(w)|]
  {
  }

  /** One thread sends HALT at most once, however far it has got. */
  lemma HaltsInBlock(w: Worker)
    requires w.doing == EffectsOf(w.course)
    ensures Count(Block(w), Did(w.dpu, SendHalt)) <= Count(Block(w), Started(w.dpu))
  {
    var effects := SoFar(w);
    assert Count(effects, SendHalt) <= 1 by {
      SoFarIsPrefix(w);
      HaltsInPrefix(w.course, |effects|);
    }
    BlockCount(w, Did(w.dpu, SendHalt));
    BlockCount(w, Started(w.dpu));
    CountDids(w.dpu, effects, SendHalt);
  }

  lemma {:induction false} HaltsInBlocks(workers: seq<Worker>, d: string)
    requires TransitionInv(workers)
    ensures Count(Blocks(workers, d), Did(d, SendHalt)) <= Count(Blocks(workers, d), Started(d))
  {
    if workers != [] {
      var n := |workers| - 1;
      HaltsInBlocks(workers[..n], d);
      if workers[n].dpu == d {
        HaltsInBlock(workers[n]);
        CountConcat(Blocks(workers[..n], d), Block(workers[n]), Did(d, SendHalt));
        CountConcat(Blocks(workers[..n], d), Block(workers[n]), Started(d));
      } else {
        assert Blocks(workers, d) == Blocks(workers[..n], d);
      }
    }
  }

  /** Over a whole run a DPU is told to halt at most once per shutdown notice, whatever the interleaving. */
  lemma HaltsBoundedByNotices(run: seq<State>, steps: seq<Step>, k: nat, d: string)
    requires IsRun(run, steps) && k < |run|
    ensures Count(run[k].log, Did(d, SendHalt)) <= Count(run[k].log, Started(d)) <= Count(run[k].log, Noticed(d))
  {
    RunKeepsInv(run, steps, k);
    RunKeepsCounts(run, steps, k, d);
    HaltsInBlocks(run[k].workers, d);
    CountPart(run[k].log, d, Did(d, SendHalt));
    CountPart(run[k].log, d, Started(d));
  }
}
