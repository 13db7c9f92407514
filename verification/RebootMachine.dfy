/**
  The reboot service as threads over one shared status record (host_modules/reboot.py).  Threads are
  `issue_reboot` calls, `get_reboot_status` calls and reboot workers; each step is one access to the
  record, the counter or the lock, so a thread can be stopped between any two field writes.
*/
module RebootMachine {
  import opened Reboot
  import opened Runs
  import opened Wrappers

  datatype Rec = Rec(active: bool, when: int, reason: string, count: nat, kind: Json, status: Status)

  /** What a publishing thread does next: start the worker, or end. */
  datatype Next = StartWorker | Finish

  datatype Pc =
    // issue_reboot
    | CallEnter(req: Request)                  // before lock.acquire
    | CallRead(req: Request)                   // holds the lock
    | CallCount(req: Request, ongoing: bool)   // holds the lock, has read `active`
    | CallRelease(req: Request, ongoing: bool) // holds the lock, has counted
    | CallDecide(req: Request, ongoing: bool)
    | CallStart(kind: Json)                    // about to start the thread
    | StartFailed(kind: Json)                  // Thread.start raised; the call has returned
    // populate_reboot_status_flag
    | PubEnter(args: Args, next: Next)
    | PubWrite(done: nat, args: Args, next: Next) // holds the lock, `done` fields written
    // execute_reboot
    | Work(kind: Json)
    | WorkerDied(kind: Json)
    // get_reboot_status
    | AskEnter
    | AskRead(done: nat, seen: Rec)            // holds the lock, `done` fields read
    | Done

  datatype State = State(
    holder: Option<nat>,   // the thread holding the lock
    flag: Rec,             // reboot_status_flag
    count: nat,            // reboot_count
    threads: seq<Pc>,
    calls: nat,            // issue_reboot calls so far
    published: seq<Rec>,   // the record of every completed populate call, the constructor's first
    replies: seq<Rec>      // every get_reboot_status reply
  )

  datatype Step =
    | NewCall(req: Request) | NewAsk
    | Enter(t: nat)                            // lock.acquire
    | ReadActive(t: nat) | CountCall(t: nat) | ReleaseCall(t: nat)
    | Decide(t: nat, now: int)
    | ThreadStarts(t: nat) | ThreadStartFails(t: nat)
    | WriteField(t: nat) | ReleasePub(t: nat)
    | WorkerEnds(t: nat, ending: Ending) | WorkerDies(t: nat)
    | ReadField(t: nat) | ReleaseAsk(t: nat)

  const FIELDS := 6

  function RecordOf(a: Args, count: nat): Rec {
    Rec(a.active, a.when, a.reason, count, a.kind, a.status)
  }

  const DEFAULT := RecordOf(DEFAULT_ARGS, 0)
  const INIT := State(None, DEFAULT, 0, [], 0, [DEFAULT], [])

  /** `to` with field number `k` taken from `from`. */
  function CopyField(to: Rec, from: Rec, k: nat): Rec {
    if k == 0 then to.(active := from.active)
    else if k == 1 then to.(when := from.when)
    else if k == 2 then to.(reason := from.reason)
    else if k == 3 then to.(count := from.count)
    else if k == 4 then to.(kind := from.kind)
    else if k == 5 then to.(status := from.status)
    else to
  }

  predicate Holds(pc: Pc) {
    pc.CallRead? || pc.CallCount? || pc.CallRelease? || pc.PubWrite? || pc.AskRead?
  }

  predicate Entering(pc: Pc) { pc.CallEnter? || pc.PubEnter? || pc.AskEnter? }

  predicate Enabled(s: State, step: Step) {
    match step
    case NewCall(_) => true
    case NewAsk => true
    case Enter(t) => t < |s.threads| && Entering(s.threads[t]) && s.holder.None?
    case ReadActive(t) => t < |s.threads| && s.threads[t].CallRead?
    case CountCall(t) => t < |s.threads| && s.threads[t].CallCount?
    case ReleaseCall(t) => t < |s.threads| && s.threads[t].CallRelease?
    case Decide(t, _) => t < |s.threads| && s.threads[t].CallDecide?
    case ThreadStarts(t) => t < |s.threads| && s.threads[t].CallStart?
    case ThreadStartFails(t) => t < |s.threads| && s.threads[t].CallStart?
    case WriteField(t) => t < |s.threads| && s.threads[t].PubWrite? && s.threads[t].done < FIELDS
    case ReleasePub(t) => t < |s.threads| && s.threads[t].PubWrite? && s.threads[t].done == FIELDS
    case WorkerEnds(t, e) => t < |s.threads| && s.threads[t].Work? && CanEnd(s.threads[t].kind, e)
    case WorkerDies(t) => t < |s.threads| && s.threads[t].Work? && s.threads[t].kind in HALT
    case ReadField(t) => t < |s.threads| && s.threads[t].AskRead? && s.threads[t].done < FIELDS
    case ReleaseAsk(t) => t < |s.threads| && s.threads[t].AskRead? && s.threads[t].done == FIELDS
  }

  function Goto(s: State, t: nat, pc: Pc): State
    requires t < |s.threads|
  {
    s.(threads := s.threads[t := pc])
  }

  function Apply(s: State, step: Step): State
    requires Enabled(s, step)
  {
    match step
    case NewCall(req) => s.(threads := s.threads + [CallEnter(req)], calls := s.calls + 1)
    case NewAsk => s.(threads := s.threads + [AskEnter])
    case Enter(t) =>
      var pc := s.threads[t];
      Goto(s, t, if pc.CallEnter? then CallRead(pc.req)
                 else if pc.PubEnter? then PubWrite(0, pc.args, pc.next)
                 else AskRead(0, DEFAULT)).(holder := Some(t))
    case ReadActive(t) => Goto(s, t, CallCount(s.threads[t].req, s.flag.active))
    case CountCall(t) => Goto(s, t, CallRelease(s.threads[t].req, s.threads[t].ongoing)).(count := s.count + 1)
    case ReleaseCall(t) => Goto(s, t, CallDecide(s.threads[t].req, s.threads[t].ongoing)).(holder := None)
    case Decide(t, now) =>
      var pc := s.threads[t];
      if pc.ongoing || Validate(pc.req) != Accepted then Goto(s, t, Done)
      else Goto(s, t, PubEnter(Args(true, now, pc.req.message, pc.req.kind.value, Unknown), StartWorker))
    case ThreadStarts(t) =>
      var kind := s.threads[t].kind;
      s.(threads := s.threads[t := Done] + [Work(kind)])
    case ThreadStartFails(t) => Goto(s, t, StartFailed(s.threads[t].kind))
    case WriteField(t) =>
      var pc := s.threads[t];
      Goto(s, t, PubWrite(pc.done + 1, pc.args, pc.next)).(flag := CopyField(s.flag, RecordOf(pc.args, s.count), pc.done))
    case ReleasePub(t) =>
      var pc := s.threads[t];
      Goto(s, t, if pc.next.StartWorker? then CallStart(pc.args.kind) else Done)
      .(holder := None, published := s.published + [s.flag])
    case WorkerEnds(t, e) => Goto(s, t, PubEnter(EndArgs(s.threads[t].kind, e), Finish))
    case WorkerDies(t) => Goto(s, t, WorkerDied(s.threads[t].kind))
    case ReadField(t) =>
      var pc := s.threads[t];
      Goto(s, t, AskRead(pc.done + 1, CopyField(pc.seen, s.flag, pc.done)))
    case ReleaseAsk(t) => Goto(s, t, Done).(holder := None, replies := s.replies + [s.threads[t].seen])
  }

  function Last(s: State): Rec
    requires s.published != []
  {
    s.published[|s.published| - 1]
  }

  /* ----- atomicity: any number of calls, queries and workers, in any interleaving ----- */

  /** The first `k` fields of `a` are those of `b`. */
  predicate Agree(a: Rec, b: Rec, k: nat) {
    && (k > 0 ==> a.active == b.active)
    && (k > 1 ==> a.when == b.when)
    && (k > 2 ==> a.reason == b.reason)
    && (k > 3 ==> a.count == b.count)
    && (k > 4 ==> a.kind == b.kind)
    && (k > 5 ==> a.status == b.status)
  }

  /** The fields of `a` from `k` on are those of `b`. */
  predicate AgreeFrom(a: Rec, b: Rec, k: nat) {
    && (k <= 0 ==> a.active == b.active)
    && (k <= 1 ==> a.when == b.when)
    && (k <= 2 ==> a.reason == b.reason)
    && (k <= 3 ==> a.count == b.count)
    && (k <= 4 ==> a.kind == b.kind)
    && (k <= 5 ==> a.status == b.status)
  }

  ghost predicate LockInv(s: State) {
    && (forall t: nat | t < |s.threads| :: Holds(s.threads[t]) <==> s.holder == Some(t))
    && (s.holder.Some? ==> s.holder.value < |s.threads|)
  }

  /** Under the lock the record is part new, part last published; otherwise it is what was last published. */
  ghost predicate FlagInv(s: State) {
    && s.published != []
    && match s.holder {
         case Some(t) =>
           t < |s.threads| &&
           (match s.threads[t]
            case PubWrite(k, args, _) =>
              k <= FIELDS && Agree(s.flag, RecordOf(args, s.count), k) && AgreeFrom(s.flag, Last(s), k)
            case AskRead(k, seen) => s.flag == Last(s) && k <= FIELDS && Agree(seen, s.flag, k)
            case _ => s.flag == Last(s))
         case None => s.flag == Last(s)
       }
  }

  /** The arguments and methods threads carry are in order. */
  ghost predicate PcOk(pc: Pc) {
    match pc
    case PubEnter(args, next) => InOrder(args) && Supported(args.kind) && (args.active <==> next.StartWorker?)
    case PubWrite(_, args, next) => InOrder(args) && Supported(args.kind) && (args.active <==> next.StartWorker?)
    case CallStart(kind) => Supported(kind)
    case Work(kind) => Supported(kind)
    case _ => true
  }

  ghost predicate RecordOk(r: Rec) {
    InOrder(Args(r.active, r.when, r.reason, r.kind, r.status))
  }

  ghost predicate HistoryInv(s: State) {
    && (forall t: nat | t < |s.threads| :: PcOk(s.threads[t]))
    && s.published != [] && s.published[0] == DEFAULT
    && (forall i | 0 <= i < |s.published| :: RecordOk(s.published[i]) && s.published[i].count <= s.count)
    && (forall i, j | 0 <= i <= j < |s.published| :: s.published[i].count <= s.published[j].count)
    && (forall r | r in s.replies :: r in s.published)
  }

  /** 1 for a call that has not counted itself yet. */
  function Weight(pc: Pc): nat {
    if pc.CallEnter? || pc.CallRead? || pc.CallCount? then 1 else 0
  }

  function Uncounted(threads: seq<Pc>): nat {
    if threads == [] then 0 else Uncounted(threads[..|threads| - 1]) + Weight(threads[|threads| - 1])
  }

  ghost predicate CallsInv(s: State) {
    s.calls == s.count + Uncounted(s.threads)
  }

  lemma {:induction false} UncountedUpdate(threads: seq<Pc>, t: nat, pc: Pc)
    requires t < |threads|
    ensures Uncounted(threads[t := pc]) == Uncounted(threads) - Weight(threads[t]) + Weight(pc)
  {
    var n := |threads| - 1;
    if t == n {
      assert threads[t := pc][..n] == threads[..n];
    } else {
      UncountedUpdate(threads[..n], t, pc);
      assert threads[t := pc][..n] == threads[..n][t := pc];
    }
  }

  lemma UncountedAppend(threads: seq<Pc>, pc: Pc)
    ensures Uncounted(threads + [pc]) == Uncounted(threads) + Weight(pc)
  {
    assert (threads + [pc])[..|threads|] == threads;
  }

  lemma LockStep(s: State, step: Step)
    requires LockInv(s) && Enabled(s, step)
    ensures LockInv(Apply(s, step))
  {
  }

  lemma FlagStep(s: State, step: Step)
    requires LockInv(s) && FlagInv(s) && Enabled(s, step)
    ensures FlagInv(Apply(s, step))
  {
    match step
    case Enter(t) => FlagEnter(s, t);
    case WriteField(t) => FlagWrite(s, t);
    case ReadField(t) => FlagRead(s, t);
    case ReleaseCall(t) => FlagRelease(s, step);
    case ReleasePub(t) => FlagRelease(s, step);
    case ReleaseAsk(t) => FlagRelease(s, step);
    case ReadActive(t) => FlagCall(s, step);
    case CountCall(t) => FlagCall(s, step);
    case _ => FlagElsewhere(s, step);
  }

  lemma FlagEnter(s: State, t: nat)
    requires LockInv(s) && FlagInv(s) && Enabled(s, Enter(t))
    ensures FlagInv(Apply(s, Enter(t)))
  {
  }

  lemma FlagWrite(s: State, t: nat)
    requires LockInv(s) && FlagInv(s) && Enabled(s, WriteField(t))
    ensures FlagInv(Apply(s, WriteField(t)))
  {
    assert s.holder == Some(t);
  }

  lemma FlagRead(s: State, t: nat)
    requires LockInv(s) && FlagInv(s) && Enabled(s, ReadField(t))
    ensures FlagInv(Apply(s, ReadField(t)))
  {
    assert s.holder == Some(t);
  }

  lemma FlagRelease(s: State, step: Step)
    requires LockInv(s) && FlagInv(s) && Enabled(s, step)
    requires step.ReleaseCall? || step.ReleasePub? || step.ReleaseAsk?
    ensures FlagInv(Apply(s, step))
  {
    assert s.holder == Some(step.t);
  }

  lemma FlagCall(s: State, step: Step)
    requires LockInv(s) && FlagInv(s) && Enabled(s, step) && (step.ReadActive? || step.CountCall?)
    ensures FlagInv(Apply(s, step))
  {
    assert s.holder == Some(step.t);
  }

  /** The other steps are made without the lock: the record, its history and the holder stay. */
  predicate Lockless(step: Step) {
    || step.NewCall? || step.NewAsk? || step.Decide? || step.ThreadStarts? || step.ThreadStartFails?
    || step.WorkerEnds? || step.WorkerDies?
  }

  lemma FlagElsewhere(s: State, step: Step)
    requires LockInv(s) && FlagInv(s) && Enabled(s, step) && Lockless(step)
    ensures FlagInv(Apply(s, step))
  {
    LocklessKeeps(s, step);
  }

  lemma LocklessKeeps(s: State, step: Step)
    requires LockInv(s) && Enabled(s, step) && Lockless(step)
    ensures var t := Apply(s, step);
            && t.holder == s.holder && t.flag == s.flag && t.published == s.published && t.count == s.count
            && |t.threads| >= |s.threads|
            && (s.holder.Some? ==> t.threads[s.holder.value] == s.threads[s.holder.value])
  {
  }

  lemma PcsStep(s: State, step: Step)
    requires (forall t: nat | t < |s.threads| :: PcOk(s.threads[t])) && Enabled(s, step)
    ensures forall t: nat | t < |Apply(s, step).threads| :: PcOk(Apply(s, step).threads[t])
  {
    var after := Apply(s, step);
    forall t: nat | t < |after.threads| ensures PcOk(after.threads[t]) {
      if t < |s.threads| {
        assert PcOk(s.threads[t]);
      } else if step.ThreadStarts? {
        assert PcOk(s.threads[step.t]);
      }
    }
  }

  lemma HistoryStep(s: State, step: Step)
    requires LockInv(s) && FlagInv(s) && HistoryInv(s) && Enabled(s, step)
    ensures HistoryInv(Apply(s, step))
  {
    if step.ReleasePub? {
      PublishedInOrder(s, step.t);
    } else if step.ReleaseAsk? {
      RepliedInOrder(s, step.t);
    } else {
      PcsStep(s, step);
      HistoryKept(s, step);
    }
  }

  lemma HistoryKept(s: State, step: Step)
    requires Enabled(s, step) && !step.ReleasePub? && !step.ReleaseAsk?
    ensures var t := Apply(s, step); t.published == s.published && t.replies == s.replies && t.count >= s.count
  {
  }

  lemma RepliedInOrder(s: State, i: nat)
    requires LockInv(s) && FlagInv(s) && HistoryInv(s) && Enabled(s, ReleaseAsk(i))
    ensures HistoryInv(Apply(s, ReleaseAsk(i)))
  {
    PcsStep(s, ReleaseAsk(i));
    assert s.threads[i].seen == Last(s);
  }

  lemma PublishedInOrder(s: State, i: nat)
    requires LockInv(s) && FlagInv(s) && HistoryInv(s) && Enabled(s, ReleasePub(i))
    ensures HistoryInv(Apply(s, ReleasePub(i)))
  {
    var t := Apply(s, ReleasePub(i));
    assert s.holder == Some(i);
    assert s.flag == RecordOf(s.threads[i].args, s.count);
    assert forall j | 0 <= j < |s.published| :: t.published[j] == s.published[j];
  }

  lemma CallsStep(s: State, step: Step)
    requires CallsInv(s) && Enabled(s, step)
    ensures CallsInv(Apply(s, step))
  {
    match step
    case NewCall(req) => UncountedAppend(s.threads, CallEnter(req));
    case NewAsk => UncountedAppend(s.threads, AskEnter);
    case ThreadStarts(i) =>
      UncountedUpdate(s.threads, i, Done);
      UncountedAppend(s.threads[i := Done], Work(s.threads[i].kind));
    case _ => CallsMove(s, step);
  }

  lemma CallsMove(s: State, step: Step)
    requires CallsInv(s) && Enabled(s, step) && !step.NewCall? && !step.NewAsk? && !step.ThreadStarts?
    ensures CallsInv(Apply(s, step))
  {
    OneThreadMoves(s, step);
    UncountedUpdate(s.threads, step.t, Apply(s, step).threads[step.t]);
  }

  /** A call counts itself exactly once, at the step that raises the count. */
  lemma OneThreadMoves(s: State, step: Step)
    requires Enabled(s, step) && !step.NewCall? && !step.NewAsk? && !step.ThreadStarts?
    ensures var t := Apply(s, step);
            && t.threads == s.threads[step.t := t.threads[step.t]] && t.calls == s.calls
            && t.count - s.count == Weight(s.threads[step.t]) - Weight(t.threads[step.t])
  {
  }

  ghost predicate Transition(s: State, step: Step, t: State) {
    Enabled(s, step) && t == Apply(s, step)
  }

  ghost predicate IsRun(run: seq<State>, steps: seq<Step>) {
    IsPath(Transition, run, steps) && run[0] == INIT
  }

  lemma RunStep(run: seq<State>, steps: seq<Step>, k: nat)
    requires IsRun(run, steps) && k < |steps|
    ensures Enabled(run[k], steps[k]) && run[k + 1] == Apply(run[k], steps[k])
  {
    assert Transition(run[k], steps[k], run[k + 1]);
  }

  lemma {:induction false} RunKeepsInv(run: seq<State>, steps: seq<Step>, i: nat)
    requires IsRun(run, steps) && i < |run|
    ensures LockInv(run[i]) && FlagInv(run[i]) && HistoryInv(run[i]) && CallsInv(run[i])
  {
    if i > 0 {
      RunStep(run, steps, i - 1);
      RunKeepsInv(run, steps, i - 1);
      LockStep(run[i - 1], steps[i - 1]);
      FlagStep(run[i - 1], steps[i - 1]);
      HistoryStep(run[i - 1], steps[i - 1]);
      CallsStep(run[i - 1], steps[i - 1]);
    }
  }

  /**
    Field-by-field writing and reading under the lock looks atomic from outside: in every
    interleaving every reply is the whole record of one completed publication, the records
    published are in order, their counts never go down, and no count exceeds the number of
    issue_reboot calls.
  */
  lemma RepliesArePublishedRecords(run: seq<State>, steps: seq<Step>, k: nat)
    requires IsRun(run, steps) && k < |run|
    ensures forall r | r in run[k].replies :: r in run[k].published
    ensures run[k].published != [] && run[k].published[0] == Rec(false, 0, "", 0, Text(""), Unknown)
    ensures forall r | r in run[k].published :: r.count <= run[k].count <= run[k].calls
    ensures forall r | r in run[k].published ::
              && (r.active ==> r.status == Unknown)
              && (r.status == Success ==> !r.active && r.when == 0 && (r.kind == Number(3) || r.kind == Text("HALT")))
    ensures forall i, j | 0 <= i <= j < |run[k].published| :: run[k].published[i].count <= run[k].published[j].count
    ensures forall t: nat | t < |run[k].threads| && run[k].threads[t].Work? :: Supported(run[k].threads[t].kind)
  {
    RunKeepsInv(run, steps, k);
    forall r | r in run[k].published ensures RecordOk(r) && r.count <= run[k].count {
      var i :| 0 <= i < |run[k].published| && run[k].published[i] == r;
    }
    forall t: nat | t < |run[k].threads| && run[k].threads[t].Work? ensures Supported(run[k].threads[t].kind) {
      assert PcOk(run[k].threads[t]);
    }
  }

  /** The reply given at a step is the latest record at that moment. */
  lemma ReplyIsLatestRecord(run: seq<State>, steps: seq<Step>, k: nat)
    requires IsRun(run, steps) && k < |steps| && steps[k].ReleaseAsk?
    ensures run[k].published != [] && run[k + 1].replies == run[k].replies + [Last(run[k])]
  {
    RunStep(run, steps, k);
    RunKeepsInv(run, steps, k);
  }

  /* ----- what a call does with its request ----- */

  /** A call with this request that has not read the record yet. */
  predicate Unread(pc: Pc, req: Request) { pc == CallEnter(req) || pc == CallRead(req) }

  /** A call with this request that found a reboot ongoing or not, and has yet to decide. */
  predicate Undecided(pc: Pc, req: Request, ongoing: bool) {
    pc == CallCount(req, ongoing) || pc == CallRelease(req, ongoing) || pc == CallDecide(req, ongoing)
  }

  /** No longer a call that has yet to decide. */
  predicate Beyond(pc: Pc) {
    !pc.CallEnter? && !pc.CallRead? && !pc.CallCount? && !pc.CallRelease? && !pc.CallDecide?
  }

  lemma {:induction false} CallKeepsRequest(run: seq<State>, steps: seq<Step>, n: nat, a: nat)
    requires IsRun(run, steps) && n < a < |run| && steps[n].NewCall?
    requires forall i | n < i < a :: steps[i] != ReadActive(|run[n].threads|)
    ensures |run[n].threads| < |run[a].threads| && Unread(run[a].threads[|run[n].threads|], steps[n].req)
    decreases a
  {
    RunStep(run, steps, a - 1);
    if n + 1 < a {
      CallKeepsRequest(run, steps, n, a - 1);
    }
  }

  lemma {:induction false} CallKeepsWhatItRead(run: seq<State>, steps: seq<Step>, a: nat, b: nat)
    requires IsRun(run, steps) && a < b < |run| && steps[a].ReadActive?
    ensures Enabled(run[a], steps[a]) && steps[a].t < |run[b].threads|
    ensures var t := steps[a].t; var pc := run[b].threads[t];
            Beyond(pc) || Undecided(pc, run[a].threads[t].req, run[a].flag.active)
    decreases b
  {
    RunStep(run, steps, a);
    RunStep(run, steps, b - 1);
    if a + 1 < b {
      CallKeepsWhatItRead(run, steps, a, b - 1);
    }
  }

  /**
    In every interleaving, a call goes on to publish a reboot exactly when the record it read was
    inactive and its own request is acceptable; what it then publishes is that request.
  */
  lemma CallPublishesIffAcceptable(run: seq<State>, steps: seq<Step>, n: nat, a: nat, b: nat)
    requires IsRun(run, steps) && n < a < b < |steps| && steps[n].NewCall?
    requires var t := |run[n].threads|;
             steps[a] == ReadActive(t) && steps[b].Decide? && steps[b].t == t && forall i | n < i < a :: steps[i] != ReadActive(t)
    ensures var t, req := |run[n].threads|, steps[n].req;
            && t < |run[b + 1].threads|
            && run[b + 1].threads[t] ==
                 if !run[a].flag.active && Acceptable(req)
                 then PubEnter(Args(true, steps[b].now, req.message, req.kind.value, Unknown), StartWorker) else Done
  {
    CallKeepsRequest(run, steps, n, a);
    CallKeepsWhatItRead(run, steps, a, b);
    RunStep(run, steps, a);
    RunStep(run, steps, b);
    AcceptedIff(steps[n].req);
  }

  /* ----- exclusion: calls dispatched one at a time ----- */

  /** An issue_reboot call that has not returned. */
  predicate InFlight(pc: Pc) {
    match pc
    case PubEnter(_, next) => next.StartWorker?
    case PubWrite(_, _, next) => next.StartWorker?
    case _ => pc.CallEnter? || pc.CallRead? || pc.CallCount? || pc.CallRelease? || pc.CallDecide? || pc.CallStart?
  }

  /** An accepted request that is published as active and whose final status is not published yet. */
  predicate Owing(pc: Pc) {
    match pc
    case PubEnter(_, next) => next.Finish?
    case PubWrite(_, _, next) => next.Finish?
    case _ => pc.CallStart? || pc.StartFailed? || pc.Work? || pc.WorkerDied?
  }

  /** A call that found no reboot ongoing and has not published its request yet. */
  predicate Claiming(pc: Pc) {
    match pc
    case CallCount(_, ongoing) => !ongoing
    case CallRelease(_, ongoing) => !ongoing
    case CallDecide(_, ongoing) => !ongoing
    case PubEnter(_, next) => next.StartWorker?
    case PubWrite(_, _, next) => next.StartWorker?
    case _ => false
  }

  ghost predicate AtMostOne(threads: seq<Pc>, p: Pc -> bool) {
    forall i, j | 0 <= i < |threads| && 0 <= j < |threads| && p(threads[i]) && p(threads[j]) :: i == j
  }

  ghost predicate Any(threads: seq<Pc>, p: Pc -> bool) {
    exists i | 0 <= i < |threads| :: p(threads[i])
  }

  ghost predicate ExclusionInv(s: State) {
    && s.published != []
    && AtMostOne(s.threads, InFlight)
    && AtMostOne(s.threads, Owing)
    && (Last(s).active <==> Any(s.threads, Owing))
    && !(Any(s.threads, Claiming) && Any(s.threads, Owing))
  }

  /** A transition with issue_reboot calls dispatched one at a time. */
  ghost predicate Serially(s: State, step: Step, t: State) {
    Transition(s, step, t) && (step.NewCall? ==> !Any(s.threads, InFlight))
  }

  ghost predicate Serial(run: seq<State>, steps: seq<Step>) {
    IsPath(Serially, run, steps) && run[0] == INIT
  }

  lemma SerialPathIsPath(run: seq<State>, steps: seq<Step>)
    requires IsPath(Serially, run, steps)
    ensures IsPath(Transition, run, steps)
  {
    forall i | 0 <= i < |steps| ensures Transition(run[i], steps[i], run[i + 1]) {
      assert Serially(run[i], steps[i], run[i + 1]);
    }
  }

  /** The thread a step moves; what it was and what it becomes. */
  lemma ExclusionStep(s: State, step: Step)
    requires LockInv(s) && FlagInv(s) && HistoryInv(s) && ExclusionInv(s) && Enabled(s, step)
    requires step.NewCall? ==> !Any(s.threads, InFlight)
    ensures ExclusionInv(Apply(s, step))
  {
    match step
    case NewCall(req) => Appended(s, CallEnter(req));
    case NewAsk => Appended(s, AskEnter);
    case ThreadStarts(t) => WorkerTakesOver(s, t);
    case ReleasePub(t) => PublicationSettles(s, t);
    case ReadActive(t) => ActiveReadIsLatest(s, t);
    case _ => PlainExclusion(s, step);
  }

  lemma PlainExclusion(s: State, step: Step)
    requires ExclusionInv(s) && Enabled(s, step) && Plain(step)
    ensures ExclusionInv(Apply(s, step))
  {
    PlainMove(s, step);
    Moved(s, step.t, Apply(s, step));
  }

  predicate Plain(step: Step) {
    !step.NewCall? && !step.NewAsk? && !step.ThreadStarts? && !step.ReleasePub? && !step.ReadActive?
  }

  /** Every other step moves one thread, publishes nothing and changes neither what it owes nor, upwards, what it claims. */
  lemma PlainMove(s: State, step: Step)
    requires Enabled(s, step) && Plain(step)
    ensures var after := Apply(s, step);
            && after.published == s.published
            && after.threads == s.threads[step.t := after.threads[step.t]]
            && (Owing(after.threads[step.t]) <==> Owing(s.threads[step.t]))
            && (Claiming(after.threads[step.t]) ==> Claiming(s.threads[step.t]))
            && (InFlight(after.threads[step.t]) ==> InFlight(s.threads[step.t]))
  {
  }

  lemma Appended(s: State, pc: Pc)
    requires ExclusionInv(s) && !Owing(pc) && !Claiming(pc) && (InFlight(pc) ==> !Any(s.threads, InFlight))
    ensures forall after: State | after.threads == s.threads + [pc] && after.published == s.published :: ExclusionInv(after)
  {
    var threads := s.threads + [pc];
    forall i | 0 <= i < |s.threads| ensures threads[i] == s.threads[i] {}
    assert Any(s.threads, Owing) ==> Any(threads, Owing);
    assert AtMostOne(threads, InFlight);
  }

  /** A move that publishes nothing and keeps what the thread owes, claims at most what it claimed, and starts no call. */
  lemma Moved(s: State, t: nat, after: State)
    requires ExclusionInv(s) && t < |s.threads|
    requires |after.threads| == |s.threads| && after.threads == s.threads[t := after.threads[t]] && after.published == s.published
    requires Owing(after.threads[t]) <==> Owing(s.threads[t])
    requires Claiming(after.threads[t]) ==> Claiming(s.threads[t])
    requires InFlight(after.threads[t]) ==> InFlight(s.threads[t])
    ensures ExclusionInv(after)
  {
    forall i | 0 <= i < |s.threads|
      ensures Owing(after.threads[i]) <==> Owing(s.threads[i])
      ensures Claiming(after.threads[i]) ==> Claiming(s.threads[i])
      ensures InFlight(after.threads[i]) ==> InFlight(s.threads[i])
    {
    }
  }

  lemma ActiveReadIsLatest(s: State, t: nat)
    requires LockInv(s) && FlagInv(s) && ExclusionInv(s) && Enabled(s, ReadActive(t))
    ensures ExclusionInv(Apply(s, ReadActive(t)))
  {
    var after := Apply(s, ReadActive(t));
    assert s.holder == Some(t) && s.flag == Last(s);
    forall i | 0 <= i < |s.threads| && i != t ensures after.threads[i] == s.threads[i] {}
    assert InFlight(s.threads[t]);
    forall i | 0 <= i < |s.threads| && i != t ensures !Claiming(s.threads[i]) {
      assert Claiming(s.threads[i]) ==> InFlight(s.threads[i]);
    }
    assert Any(after.threads, Owing) <==> Any(s.threads, Owing);
  }

  lemma WorkerTakesOver(s: State, t: nat)
    requires ExclusionInv(s) && Enabled(s, ThreadStarts(t))
    ensures ExclusionInv(Apply(s, ThreadStarts(t)))
  {
    var after := Apply(s, ThreadStarts(t));
    var n := |s.threads|;
    assert Owing(s.threads[t]) && Owing(after.threads[n]);
    forall i | 0 <= i < n ensures i != t ==> after.threads[i] == s.threads[i] && !Owing(after.threads[i]) {}
    assert !Any(after.threads, Claiming) by {
      forall i | 0 <= i < |after.threads| ensures !Claiming(after.threads[i]) {
        if i < n && i != t {
          assert Claiming(s.threads[i]) ==> Any(s.threads, Claiming);
        }
      }
    }
  }

  lemma PublicationSettles(s: State, t: nat)
    requires LockInv(s) && FlagInv(s) && HistoryInv(s) && ExclusionInv(s) && Enabled(s, ReleasePub(t))
    ensures ExclusionInv(Apply(s, ReleasePub(t)))
  {
    var after := Apply(s, ReleasePub(t));
    var pc := s.threads[t];
    assert PcOk(pc);
    assert s.holder == Some(t) && s.flag == RecordOf(pc.args, s.count);
    assert Last(after) == s.flag;
    forall i | 0 <= i < |s.threads| && i != t ensures after.threads[i] == s.threads[i] {}
    if pc.next.StartWorker? {
      assert Claiming(pc) && InFlight(pc) && Owing(after.threads[t]);
      assert forall i | 0 <= i < |s.threads| && i != t :: !InFlight(s.threads[i]);
      assert forall i | 0 <= i < |s.threads| && i != t :: !Owing(s.threads[i]) && !Claiming(s.threads[i]);
    } else {
      assert Owing(pc);
      assert forall i | 0 <= i < |after.threads| :: !Owing(after.threads[i]);
    }
  }

  lemma {:induction false} SerialRunKeepsExclusion(run: seq<State>, steps: seq<Step>, k: nat)
    requires Serial(run, steps) && k < |run|
    ensures ExclusionInv(run[k])
  {
    if k == 0 {
      InitExclusive();
    } else {
      SerialRunKeepsExclusion(run, steps, k - 1);
      SerialStep(run, steps, k - 1);
    }
  }

  lemma InitExclusive()
    ensures ExclusionInv(INIT)
  {
  }

  lemma SerialStep(run: seq<State>, steps: seq<Step>, k: nat)
    requires Serial(run, steps) && k < |steps| && ExclusionInv(run[k])
    ensures ExclusionInv(run[k + 1])
  {
    assert Serially(run[k], steps[k], run[k + 1]);
    SerialPathIsPath(run, steps);
    RunKeepsInv(run, steps, k);
    ExclusionStep(run[k], steps[k]);
  }

  /**
    With issue_reboot calls dispatched one at a time, the published record is active exactly while
    some accepted request owes its final status; at most one does, and while one does no call gets
    past the check.  A thread whose start failed or which died owes it forever.
  */
  lemma ActiveWhileOneRequestOwes(run: seq<State>, steps: seq<Step>, k: nat)
    requires Serial(run, steps) && k < |run|
    ensures run[k].published != []
    ensures Last(run[k]).active <==> Any(run[k].threads, Owing)
    ensures AtMostOne(run[k].threads, Owing)
    ensures Any(run[k].threads, Owing) ==> !Any(run[k].threads, Claiming)
    ensures run[k].holder.None? ==> run[k].flag == Last(run[k])
  {
    SerialRunKeepsExclusion(run, steps, k);
    SerialPathIsPath(run, steps);
    RunKeepsInv(run, steps, k);
  }

  /** The step publishes the final status of a worker. */
  predicate PublishesEnding(s: State, step: Step) {
    step.ReleasePub? && Enabled(s, step) && s.threads[step.t].next.Finish?
  }

  /** A worker that runs to its end publishes `active` as false, whatever its ending. */
  lemma WorkersEndInactive(run: seq<State>, steps: seq<Step>, k: nat)
    requires IsRun(run, steps) && k < |steps| && PublishesEnding(run[k], steps[k])
    ensures run[k + 1].published != [] && !Last(run[k + 1]).active
  {
    RunStep(run, steps, k);
    RunKeepsInv(run, steps, k);
    var s, t := run[k], steps[k].t;
    assert PcOk(s.threads[t]);
    assert s.holder == Some(t) && s.flag == RecordOf(s.threads[t].args, s.count);
  }

  predicate Lost(pc: Pc) { pc.StartFailed? || pc.WorkerDied? }

  lemma {:induction false} LostStaysLost(run: seq<State>, steps: seq<Step>, a: nat, b: nat, t: nat)
    requires IsPath(Transition, run, steps) && a <= b < |run| && t < |run[a].threads| && Lost(run[a].threads[t])
    ensures t < |run[b].threads| && run[b].threads[t] == run[a].threads[t]
    decreases b
  {
    if a < b {
      assert Transition(run[b - 1], steps[b - 1], run[b]);
      LostStaysLost(run, steps, a, b - 1, t);
    }
  }

  /**
    There is no recovery: once the start of a worker has failed, or a worker has died, the record
    stays active for good and every call that reaches the check afterwards is turned away.
  */
  lemma NoRecoveryAfterLoss(run: seq<State>, steps: seq<Step>, a: nat, b: nat, t: nat)
    requires Serial(run, steps) && a <= b < |run| && t < |run[a].threads| && Lost(run[a].threads[t])
    ensures run[b].published != [] && Last(run[b]).active
    ensures forall c: nat | c < |run[b].threads| && run[b].threads[c].CallDecide? :: run[b].threads[c].ongoing
  {
    SerialPathIsPath(run, steps);
    LostStaysLost(run, steps, a, b, t);
    ActiveWhileOneRequestOwes(run, steps, b);
    assert Owing(run[b].threads[t]);
    forall c: nat | c < |run[b].threads| && run[b].threads[c].CallDecide? ensures run[b].threads[c].ongoing {
      assert !Claiming(run[b].threads[c]);
    }
  }
}
