/** The reboot RPC's pure parts and its worker thread (host_modules/reboot.py). */
module Reboot {
  import opened DeadlineLoop
  import opened Wrappers

  /**
    A decoded JSON value, as far as `==` and `in` tell them apart in Python: true and 1.0 are
    Number(1), false is Number(0); lists and objects cannot be looked up in a set.
  */
  datatype Json = Number(n: int) | Text(s: string) | Fraction | Null | Container

  datatype Status = Unknown | Success | RetriableFailure | Failure

  const COLD := {Number(1), Text("COLD")}
  const HALT := {Number(3), Text("HALT")}
  const WARM := {Number(4), Text("WARM")}
  const REBOOT_TIMEOUT: real := 260.0
  const HALT_TIMEOUT := 60

  predicate Supported(kind: Json) { kind in COLD + HALT + WARM }

  /** The decoded request: not JSON, JSON but not an object, or an object with the two keys that are looked at. */
  datatype Request =
    | Malformed
    | NotAnObject(raises: bool)
    | Object(kind: Option<Json>, delay: Option<Json>, message: string)

  datatype Verdict = Accepted | Rejected | Raises

  function Validate(r: Request): Verdict {
    match r
    case Malformed => Rejected
    case NotAnObject(raises) => if raises then Raises else Rejected
    case Object(kind, delay, _) =>
      if kind.None? then Rejected
      else if kind.value.Container? then Raises
      else if !Supported(kind.value) then Rejected
      else if delay.Some? && delay.value != Number(0) then Rejected
      else Accepted
  }

  /** A request as issue_reboot carries it out: one of the three methods, by number or by name, and no delay. */
  predicate Acceptable(r: Request) {
    && r.Object? && (r.delay.None? || r.delay == Some(Number(0)))
    && r.kind in {Some(Number(1)), Some(Text("COLD")), Some(Number(3)), Some(Text("HALT")), Some(Number(4)), Some(Text("WARM"))}
  }

  /** A request is accepted exactly when it is acceptable, and raises when its method cannot be looked up. */
  lemma AcceptedIff(r: Request)
    ensures Validate(r) == Accepted <==> Acceptable(r)
    ensures Validate(r) == Raises <==> (r.NotAnObject? && r.raises) || (r.Object? && r.kind == Some(Container))
  {
  }

  /** What reading `dpu_halt_services_timeout` from platform.json leads to. */
  datatype TimeoutFile = Unreadable | Absent | Integer(n: int) | NotAnInteger | OutOfRange

  /** The halt timeout in seconds; an integer conversion that overflows is the one error that gets out. */
  function HaltTimeout(f: TimeoutFile): Outcome<int> {
    match f
    case Integer(n) => Ok(if n > 0 then n else HALT_TIMEOUT)
    case OutOfRange => Raised
    case _ => Ok(HALT_TIMEOUT)
  }

  /** The arguments of one `populate_reboot_status_flag` call. */
  datatype Args = Args(active: bool, when: int, reason: string, kind: Json, status: Status)

  const DEFAULT_ARGS := Args(false, 0, "", Text(""), Unknown)

  /** How a worker that runs to its end got there. */
  datatype Ending =
    | CommandFailed(at: int)
    | HaltSeen           // inside the loop
    | HaltSeenLast       // by the observation after the loop
    | HaltStuck(at: int)
    | StillAlive(at: int)

  predicate CanEnd(kind: Json, e: Ending) {
    && Supported(kind)
    && (e.HaltSeen? || e.HaltSeenLast? || e.HaltStuck? ==> kind in HALT)
    && (e.StillAlive? ==> kind !in HALT)
  }

  function EndArgs(kind: Json, e: Ending): Args {
    match e
    case CommandFailed(t) => Args(false, t, "Failed to execute reboot command", kind, Failure)
    case HaltSeen => Args(false, 0, "Halt reboot completed", kind, Success)
    case HaltSeenLast => Args(false, 0, "Halt reboot completed", kind, Success)
    case HaltStuck(t) => Args(false, t, "Halt reboot did not complete", kind, Failure)
    case StillAlive(t) => Args(false, t, "Reboot command failed to execute", kind, Failure)
  }

  /** A record's arguments are in order: active only with status unknown, success only for a finished halt. */
  predicate InOrder(a: Args) {
    && (a.active ==> a.status == Unknown)
    && (a.status == Success ==> !a.active && a.kind in HALT && a.when == 0)
  }

  /** What the worker finds outside: observation `i` looks for the halt command and, if there is none, for pmon. */
  datatype World = World(
    commandWorks: bool,
    commandCost: real,
    timeoutFile: TimeoutFile,
    haltRunning: nat -> bool,
    pmonRunning: nat -> bool,
    lookCost: nat -> real,
    wallClock: real -> int
  )

  /** Observation `i` finds neither the halt command nor pmon; an error in looking counts as not found. */
  ghost predicate Quiet(w: World, i: nat) {
    !w.haltRunning(i) && !w.pmonRunning(i)
  }

  ghost function QuietAt(w: World): (f: nat -> bool)
    ensures forall i: nat :: f(i) <==> Quiet(w, i)
  {
    (i: nat) => Quiet(w, i)
  }

  ghost predicate Sane(w: World) {
    Timely(w.lookCost) && 0.0 <= w.commandCost
  }

  /** The halt loop, entered at `start`, makes `n` observations, answers `seen` and leaves the clock at `end`. */
  ghost predicate HaltLoop(w: World, start: real, n: nat, seen: bool, end: real)
    requires HaltTimeout(w.timeoutFile).Ok?
  {
    Ends(start, start + HaltTimeout(w.timeoutFile).value as real, w.lookCost, QuietAt(w), 5.0, n, seen, end)
  }

  /** A HALT worker whose command worked at `start` may end as `e` at `end`, after `n` observations in the loop. */
  ghost predicate HaltEnds(w: World, start: real, n: nat, e: Ending, end: real)
    requires HaltTimeout(w.timeoutFile).Ok?
  {
    || (e == HaltSeen && HaltLoop(w, start, n, true, end))
    || (exists left :: HaltLoop(w, start, n, false, left) && end == left + w.lookCost(n) &&
          e == if Quiet(w, n) then HaltSeenLast else HaltStuck(w.wallClock(end)))
  }

  ghost predicate HaltRuns(w: World, start: real, e: Ending, end: real) {
    HaltTimeout(w.timeoutFile).Ok? && exists n :: HaltEnds(w, start, n, e, end)
  }

  /** A worker for a method, begun at `start`, may end as `e` at `end`. */
  ghost predicate WorkerRuns(w: World, kind: Json, start: real, e: Ending, end: real) {
    && Supported(kind)
    && var commanded := start + w.commandCost;
       if !w.commandWorks then end == commanded && e == CommandFailed(w.wallClock(end))
       else if kind == Number(3) || kind == Text("HALT") then HaltRuns(w, commanded, e, end)
       else end == commanded + 260.0 && e == StillAlive(w.wallClock(end))
  }

  class RebootWorker {
    const world: World
    var now: real
    var published: seq<Args>

    constructor (world: World, now: real)
      ensures this.world == world && this.now == now && published == []
    {
      this.world, this.now, published := world, now, [];
    }

    /** True when the i-th observation still finds something running. */
    method StillRunning(i: nat) returns (running: bool)
      modifies this`now
      ensures running <==> world.haltRunning(i) || world.pmonRunning(i)
      ensures now == old(now) + world.lookCost(i)
    {
      running := world.haltRunning(i);
      if !running {
        running := world.pmonRunning(i);
      }
      now := now + world.lookCost(i);
    }

    method AwaitHalt(kind: Json) returns (e: Outcome<Ending>, ghost n: nat)
      requires Sane(world)
      modifies this
      ensures e.Raised? <==> world.timeoutFile.OutOfRange?
      ensures e.Raised? ==> published == old(published)
      ensures e.Ok? ==> HaltEnds(world, old(now), n, e.value, now)
      ensures e.Ok? ==> published == old(published) + [EndArgs(kind, e.value)]
    {
      n := 0;
      if HaltTimeout(world.timeoutFile).Raised? {
        return Raised, 0;
      }
      var timeout := HaltTimeout(world.timeoutFile).value as real;
      var start, i: nat := now, 0;
      while now - start < timeout
        invariant now == CheckTime(start, world.lookCost, 5.0, i)
        invariant forall j: nat | j < i :: CheckTime(start, world.lookCost, 5.0, j) < start + timeout
        invariant forall j: nat | j < i :: !QuietAt(world)(j)
        invariant published == old(published)
        decreases start + timeout - now
      {
        var running := StillRunning(i);
        if !running {
          published := published + [EndArgs(kind, HaltSeen)];
          assert HaltLoop(world, start, i + 1, true, now);
          return Ok(HaltSeen), i + 1;
        }
        now := now + 5.0;
        i := i + 1;
      }
      assert HaltLoop(world, start, i, false, now);
      var running := StillRunning(i);
      var ending := if running then HaltStuck(world.wallClock(now)) else HaltSeenLast;
      published := published + [EndArgs(kind, ending)];
      return Ok(ending), i;
    }

    /** None: the method is not supported and nothing happens; Raised: the thread dies without publishing. */
    method ExecuteReboot(kind: Json) returns (e: Option<Outcome<Ending>>)
      requires Sane(world)
      modifies this
      ensures e.None? <==> !Supported(kind)
      ensures e.None? ==> published == old(published) && now == old(now)
      ensures e.Some? && e.value.Ok? ==>
                CanEnd(kind, e.value.value) && published == old(published) + [EndArgs(kind, e.value.value)]
      ensures e.Some? && e.value.Raised? ==>
                published == old(published) && world.commandWorks && kind in HALT && world.timeoutFile.OutOfRange?
      ensures e.Some? && e.value.Ok? ==> WorkerRuns(world, kind, old(now), e.value.value, now)
    {
      if kind !in COLD && kind !in HALT && kind !in WARM {
        return None;
      }
      now := now + world.commandCost;
      var ending;
      if !world.commandWorks {
        ending := CommandFailed(world.wallClock(now));
      } else if kind in HALT {
        var r, n := AwaitHalt(kind);
        return Some(r);
      } else {
        now := now + REBOOT_TIMEOUT;
        ending := StillAlive(world.wallClock(now));
      }
      published := published + [EndArgs(kind, ending)];
      return Some(Ok(ending));
    }
  }

  /** The methods by what they ask for: these two by number or name are the halts. */
  lemma KindsOfReboot(kind: Json)
    ensures kind in HALT <==> kind == Number(3) || kind == Text("HALT")
    ensures Supported(kind) && kind !in HALT <==> kind in {Number(1), Text("COLD"), Number(4), Text("WARM")}
  {
  }

  /** An outside in which a worker ends so: a halt of five seconds, or one that is over at once, or in the end, or never. */
  function WorldFor(e: Ending): World {
    World(
      !e.CommandFailed?, 0.0, Integer(5),
      (i: nat) => e.HaltStuck? || (e.HaltSeenLast? && i == 0), (i: nat) => false, (i: nat) => 0.0,
      (r: real) => if e.CommandFailed? || e.HaltStuck? || e.StillAlive? then e.at else 0)
  }

  lemma HaltLoopFor(e: Ending, start: real)
    requires e.HaltSeen? || e.HaltSeenLast? || e.HaltStuck?
    ensures HaltRuns(WorldFor(e), start, e, if e.HaltSeen? then start else start + 5.0)
  {
    var w := WorldFor(e);
    assert CheckTime(start, w.lookCost, 5.0, 0) == start && CheckTime(start, w.lookCost, 5.0, 1) == start + 5.0;
    if e.HaltSeen? {
      assert HaltLoop(w, start, 1, true, start);
      assert HaltEnds(w, start, 1, e, start);
    } else {
      assert HaltLoop(w, start, 1, false, start + 5.0);
      assert HaltEnds(w, start, 1, e, start + 5.0);
    }
  }

  /** A worker for a method can have an ending exactly when some outside leads it there. */
  lemma EndingHappensIff(kind: Json, e: Ending, start: real)
    ensures CanEnd(kind, e) <==> exists w, end :: Sane(w) && WorkerRuns(w, kind, start, e, end)
  {
    if CanEnd(kind, e) {
      var w := WorldFor(e);
      assert Sane(w);
      if e.CommandFailed? {
        assert WorkerRuns(w, kind, start, e, start);
      } else if e.StillAlive? {
        assert WorkerRuns(w, kind, start, e, start + 260.0);
      } else {
        HaltLoopFor(e, start);
        assert WorkerRuns(w, kind, start, e, if e.HaltSeen? then start else start + 5.0);
      }
    }
  }

  /** The record of a worker that ran to its end: inactive, with its method, and stamped exactly when it failed. */
  lemma EndingPublished(kind: Json, e: Ending)
    ensures var a := EndArgs(kind, e);
            && !a.active && a.kind == kind
            && (e.HaltSeen? || e.HaltSeenLast? ==> a.status == Success && a.when == 0 && a.reason == "Halt reboot completed")
            && (!e.HaltSeen? && !e.HaltSeenLast? ==> a.status == Failure && a.when == e.at)
            && (e.CommandFailed? ==> a.reason == "Failed to execute reboot command")
            && (e.HaltStuck? ==> a.reason == "Halt reboot did not complete")
            && (e.StillAlive? ==> a.reason == "Reboot command failed to execute")
  {
  }

  /**
    A HALT worker reports success exactly when one of its observations found neither the halt command
    nor pmon, and failure exactly when all of them, the one after the loop included, found either.
  */
  lemma SuccessIffSomeObservationQuiet(w: World, start: real, n: nat, e: Ending, end: real)
    requires HaltTimeout(w.timeoutFile).Ok? && HaltEnds(w, start, n, e, end)
    ensures EndArgs(Text("HALT"), e).status == Success <==>
              exists i: nat :: (if e.HaltSeen? then i < n else i <= n) && !w.haltRunning(i) && !w.pmonRunning(i)
    ensures EndArgs(Text("HALT"), e).status == Failure <==>
              !e.HaltSeen? && forall i: nat | i <= n :: w.haltRunning(i) || w.pmonRunning(i)
  {
    if e.HaltSeen? {
      assert QuietAt(w)(n - 1);
    } else {
      forall i: nat | i < n ensures w.haltRunning(i) || w.pmonRunning(i) {
        assert !QuietAt(w)(i);
      }
      assert e.HaltSeenLast? <==> !w.haltRunning(n) && !w.pmonRunning(n);
    }
  }

  /**
    The reader yields the configured timeout T if it is positive and 60 otherwise, so the loop observes
    at least once; with observations of at most `bound` seconds the worker decides before
    T + 5 + 2 * bound seconds, after at most ceil(T/5) observations in the loop.
  */
  lemma HaltDecidesInTime(w: World, start: real, n: nat, e: Ending, end: real, bound: real)
    requires HaltTimeout(w.timeoutFile).Ok? && HaltEnds(w, start, n, e, end)
    requires Sane(w) && Within(w.lookCost, bound)
    ensures var t := HaltTimeout(w.timeoutFile).value;
            && 0 < t == (if w.timeoutFile.Integer? && w.timeoutFile.n > 0 then w.timeoutFile.n else 60)
            && 1 <= n <= (t + 4) / 5
            && end < start + t as real + 5.0 + 2.0 * bound
  {
    var t := HaltTimeout(w.timeoutFile).value;
    var quiet := QuietAt(w);
    assert 0.0 <= w.lookCost(n) <= bound;
    if e == HaltSeen && HaltLoop(w, start, n, true, end) {
      CountAndTimeBounds(start, start + t as real, w.lookCost, quiet, 5.0, n, true, end, bound);
    } else {
      var left :| HaltLoop(w, start, n, false, left) && end == left + w.lookCost(n);
      CountAndTimeBounds(start, start + t as real, w.lookCost, quiet, 5.0, n, false, left, bound);
    }
    CeilingBound(t, 5, n);
  }
}
