/**
  One run of `_handle_transition` for one DPU (scripts/gnoi_shutdown_daemon.py), with the two
  deadline loops inside it.  Everything the handler learns from outside is in a `World`; what it
  does to the outside is the sequence of `Effect`s it leaves behind.
*/
module GnoiHandler {
  import opened Counting
  import opened DeadlineLoop
  import opened Text
  import opened Wrappers

  const STATUS_POLL_INTERVAL_SEC: real := 1.0
  const HALT_IN_PROGRESS_POLL_INTERVAL_SEC: real := 5.0
  const STATUS_RPC_TIMEOUT_SEC: real := 10.0
  const DEFAULT_GNMI_PORT := "8080"

  /** What looking a module up in the chassis object leads to. */
  datatype Module = BadIndex | NoModule | LookupRaises | Found(status: Outcome<OperStatus>, clear: Outcome<()>)
  datatype OperStatus = Offline | PoweredDown | OtherStatus

  /** An `hget` reply: a string, nothing, an exception the helper catches, another exception. */
  datatype Reply = Value(text: string) | Nil | Caught | Uncaught

  /** The `gnoi_halt_in_progress` reads: true only for an entry holding "True"; an exception counts as no. */
  datatype World = World(
    atStart: Module,                 // for the skip check
    waitTimeout: Outcome<int>,       // _get_halt_timeout, read by the wait loop
    detached: nat -> bool,           // the i-th table read finds the flag "True"
    readCost: nat -> real,           // seconds the i-th table read takes
    ip: Reply,
    ports: string -> Reply,          // reply for the key "DPU|<k>"
    sendOk: bool,                    // the Reboot RPC exits with code 0
    sendCost: real,
    pollTimeout: Outcome<int>,       // _get_halt_timeout, read by the poll loop
    complete: nat -> bool,           // the i-th RebootStatus RPC exits 0 with "reboot complete"
    rpcCost: nat -> real,            // seconds the i-th RebootStatus RPC takes
    atEnd: Module                    // for the flag clearing
  )

  datatype Effect = CheckOper | ReadFlag | ReadConfig | SendHalt | PollStatus | ClearFlag

  ghost predicate Sane(w: World) {
    Timely(w.readCost) && Timely(w.rpcCost) && 0.0 <= w.sendCost
  }

  /** Whether clearing the flag works out: an exception anywhere in it counts as no. */
  predicate ClearWorks(m: Module) {
    m.Found? && m.clear.Ok?
  }

  /** The DPU is known to be off.  "Cannot tell" and an exception both mean: go on. */
  predicate KnownOff(m: Module) {
    m.Found? && m.status.Ok? && m.status.value != OtherStatus
  }

  predicate NotThere(r: Reply) { r in {Nil, Value("")} }

  /** The keys under which the gNMI port may be stored, in the order they are tried. */
  function PortKeys(name: string): seq<string> {
    [Lower(name), Upper(name), name]
  }

  /** A reply that ends the search for the port. */
  predicate Decisive(r: Reply) {
    match r
    case Value(text) => text != ""
    case Nil => false
    case Caught => true
    case Uncaught => true
  }

  /** `port` is what the first decisive key says, and the default if no key is decisive or it raises. */
  ghost predicate IsPort(ports: string -> Reply, name: string, port: Outcome<string>) {
    var keys := PortKeys(name);
    || (exists i | 0 <= i < |keys| ::
          && Decisive(ports(keys[i]))
          && (forall j | 0 <= j < i :: !Decisive(ports(keys[j])))
          && port == match ports(keys[i]) {
               case Value(text) => Ok(text)
               case Uncaught => Raised
               case _ => Ok(DEFAULT_GNMI_PORT)
             })
    || ((forall i | 0 <= i < |keys| :: !Decisive(ports(keys[i]))) && port == Ok(DEFAULT_GNMI_PORT))
  }

  /** The configuration read succeeds with an address. */
  ghost predicate HasAddress(w: World, name: string) {
    && w.ip.Value? && w.ip.text != ""
    && exists port: Outcome<string> :: port.Ok? && IsPort(w.ports, name, port)
  }

  /** How a transition went: which way it left, and how many rounds its two loops made. */
  datatype Course =
    | Skipped
    | WaitRaised
    | NoConfig(waits: nat)
    | SendFailed(waits: nat)
    | PollRaised(waits: nat)
    | Polled(waits: nat, polls: nat, completed: bool)

  /** The calls made after the wait loop, in order. */
  function TailOf(c: Course): seq<Effect>
    requires !c.Skipped? && !c.WaitRaised?
  {
    match c
    case NoConfig(_) => [ReadConfig, ClearFlag]
    case SendFailed(_) => [ReadConfig, SendHalt, ClearFlag]
    case PollRaised(_) => [ReadConfig, SendHalt]
    case Polled(_, n, _) => [ReadConfig, SendHalt] + Repeat(PollStatus, n) + [ClearFlag]
  }

  /** The calls a transition that took course `c` made, in order. */
  function EffectsOf(c: Course): seq<Effect> {
    match c
    case Skipped => [CheckOper, ClearFlag]
    case WaitRaised => [CheckOper]
    case _ => [CheckOper] + Repeat(ReadFlag, c.waits) + TailOf(c)
  }

  /** The wait loop, entered at `start`, made `n` reads, answered `found` and left the clock at `end`. */
  ghost predicate WaitEnds(w: World, start: real, n: nat, found: bool, end: real)
    requires w.waitTimeout.Ok?
  {
    Ends(start, start + w.waitTimeout.value as real, w.readCost, w.detached,
         HALT_IN_PROGRESS_POLL_INTERVAL_SEC, n, found, end)
  }

  /** The wait loop, entered at `start`, made `n` reads and left the clock at `end`. */
  ghost predicate Waits(w: World, start: real, n: nat, end: real)
  {
    && w.waitTimeout.Ok?
    && (WaitEnds(w, start, n, true, end) || WaitEnds(w, start, n, false, end))
  }

  /** The poll loop, entered at `sent`, made `n` RPCs, answered `found` and left the clock at `end`. */
  ghost predicate PollEnds(w: World, sent: real, n: nat, found: bool, end: real)
    requires w.pollTimeout.Ok?
  {
    Ends(sent, sent + w.pollTimeout.value as real, w.rpcCost, w.complete, STATUS_POLL_INTERVAL_SEC, n, found, end)
  }

  /** From the end of the wait loop on, a transition may take course `c` and end at `end`. */
  ghost predicate TakesTail(w: World, name: string, waited: real, c: Course, end: real) {
    if !HasAddress(w, name) then c.NoConfig? && end == waited
    else if !w.sendOk then c.SendFailed? && end == waited + w.sendCost
    else if w.pollTimeout.Raised? then c.PollRaised? && end == waited + w.sendCost
    else c.Polled? && PollEnds(w, waited + w.sendCost, c.polls, c.completed, end)
  }

  /** A transition of `name` started at `start` may take course `c` and end at `end`. */
  ghost predicate Takes(w: World, name: string, start: real, c: Course, end: real) {
    if KnownOff(w.atStart) then c == Skipped && end == start
    else if w.waitTimeout.Raised? then c == WaitRaised && end == start
    else
      && !c.Skipped? && !c.WaitRaised?
      && exists waited :: Waits(w, start, c.waits, waited) && TakesTail(w, name, waited, c, end)
  }

  function ResultOf(w: World, c: Course): Outcome<bool> {
    match c
    case Skipped => Ok(ClearWorks(w.atEnd))
    case WaitRaised => Raised
    case PollRaised(_) => Raised
    case NoConfig(_) => Ok(false)
    case SendFailed(_) => Ok(false)
    case Polled(_, _, completed) => Ok(completed)
  }

  class GnoiRebootHandler {
    const world: World
    var now: real
    var effects: seq<Effect>

    constructor (world: World, now: real)
      ensures this.world == world && this.now == now && effects == []
    {
      this.world, this.now, effects := world, now, [];
    }

    method ShouldSkip() returns (skip: bool)
      modifies this`effects
      ensures skip <==> world.atStart.Found? && world.atStart.status in {Ok(Offline), Ok(PoweredDown)}
      ensures effects == old(effects) + [CheckOper]
    {
      effects := effects + [CheckOper];
      skip := false;
      if world.atStart.Found? {
        match world.atStart.status
        case Ok(status) => skip := status == Offline || status == PoweredDown;
        case Raised => skip := false;
      }
    }

    method WaitForGnoiHaltInProgress() returns (r: Outcome<bool>, ghost n: nat)
      requires Sane(world)
      modifies this
      ensures r.Raised? <==> world.waitTimeout.Raised?
      ensures r.Raised? ==> now == old(now) && effects == old(effects)
      ensures r.Ok? ==> effects == old(effects) + Repeat(ReadFlag, n)
      ensures r.Ok? ==> WaitEnds(world, old(now), n, r.value, now)
    {
      n := 0;
      if world.waitTimeout.Raised? {
        return Raised, 0;
      }
      var deadline := now + world.waitTimeout.value as real;
      var i: nat := 0;
      while now < deadline
        invariant now == CheckTime(old(now), world.readCost, HALT_IN_PROGRESS_POLL_INTERVAL_SEC, i)
        invariant forall j: nat | j < i ::
            CheckTime(old(now), world.readCost, HALT_IN_PROGRESS_POLL_INTERVAL_SEC, j) < deadline
        invariant forall j: nat | j < i :: !world.detached(j)
        invariant effects == old(effects) + Repeat(ReadFlag, i)
        decreases deadline - now
      {
        now := now + world.readCost(i);
        effects := effects + [ReadFlag];
        assert effects == old(effects) + Repeat(ReadFlag, i + 1);
        if world.detached(i) {
          return Ok(true), i + 1;
        }
        now := now + HALT_IN_PROGRESS_POLL_INTERVAL_SEC;
        i := i + 1;
      }
      return Ok(false), i;
    }

    method PollRebootStatus() returns (r: Outcome<bool>, ghost n: nat)
      requires Sane(world)
      modifies this
      ensures r.Raised? <==> world.pollTimeout.Raised?
      ensures r.Raised? ==> now == old(now) && effects == old(effects)
      ensures r.Ok? ==> effects == old(effects) + Repeat(PollStatus, n)
      ensures r.Ok? ==> PollEnds(world, old(now), n, r.value, now)
    {
      n := 0;
      if world.pollTimeout.Raised? {
        return Raised, 0;
      }
      var deadline := now + world.pollTimeout.value as real;
      var i: nat := 0;
      while now < deadline
        invariant now == CheckTime(old(now), world.rpcCost, STATUS_POLL_INTERVAL_SEC, i)
        invariant forall j: nat | j < i ::
            CheckTime(old(now), world.rpcCost, STATUS_POLL_INTERVAL_SEC, j) < deadline
        invariant forall j: nat | j < i :: !world.complete(j)
        invariant effects == old(effects) + Repeat(PollStatus, i)
        decreases deadline - now
      {
        now := now + world.rpcCost(i);
        effects := effects + [PollStatus];
        assert effects == old(effects) + Repeat(PollStatus, i + 1);
        if world.complete(i) {
          return Ok(true), i + 1;
        }
        now := now + STATUS_POLL_INTERVAL_SEC;
        i := i + 1;
      }
      return Ok(false), i;
    }

    method GetDpuGnmiPort(name: string) returns (port: Outcome<string>)
      ensures IsPort(world.ports, name, port)
    {
      var keys := PortKeys(name);
      for i := 0 to |keys|
        invariant forall j | 0 <= j < i :: !Decisive(world.ports(keys[j]))
      {
        match world.ports(keys[i])
        case Value(text) =>
          if text != "" {
            return Ok(text);
          }
        case Nil =>
        case Caught =>
          return Ok(DEFAULT_GNMI_PORT);
        case Uncaught =>
          return Raised;
      }
      return Ok(DEFAULT_GNMI_PORT);
    }

    method ClearHaltFlag() returns (cleared: bool)
      modifies this`effects
      ensures cleared <==> ClearWorks(world.atEnd)
      ensures effects == old(effects) + [ClearFlag]
    {
      effects := effects + [ClearFlag];
      match world.atEnd
      case Found(_, clear) => cleared := clear.Ok?;
      case BadIndex => cleared := false;
      case NoModule => cleared := false;
      case LookupRaises => cleared := false;
    }

    /** What follows the wait loop. */
    method HaltAndPoll(name: string, ghost k: nat) returns (r: Outcome<bool>, ghost course: Course)
      requires Sane(world)
      modifies this
      ensures !course.Skipped? && !course.WaitRaised? && course.waits == k
      ensures TakesTail(world, name, old(now), course, now)
      ensures effects == old(effects) + TailOf(course)
      ensures r == ResultOf(world, course)
    {
      effects := effects + [ReadConfig];
      var port := GetDpuGnmiPort(name);
      PortUnique(world.ports, name, port);
      if !world.ip.Value? || port.Raised? || world.ip.text == "" {
        var _ := ClearHaltFlag();
        return Ok(false), NoConfig(k);
      }
      assert HasAddress(world, name);
      now := now + world.sendCost;
      effects := effects + [SendHalt];
      if !world.sendOk {
        var _ := ClearHaltFlag();
        return Ok(false), SendFailed(k);
      }
      var polled, n := PollRebootStatus();
      if polled.Raised? {
        return Raised, PollRaised(k);
      }
      var _ := ClearHaltFlag();
      return polled, Polled(k, n, polled.value);
    }

    method HandleTransition(name: string) returns (r: Outcome<bool>, ghost course: Course)
      requires Sane(world)
      modifies this
      ensures Takes(world, name, old(now), course, now)
      ensures effects == old(effects) + EffectsOf(course)
      ensures r == ResultOf(world, course)
    {
      var skip := ShouldSkip();
      if skip {
        var cleared := ClearHaltFlag();
        assert effects == old(effects) + [CheckOper, ClearFlag];
        return Ok(cleared), Skipped;
      }
      var waited, k := WaitForGnoiHaltInProgress();
      if waited.Raised? {
        return Raised, WaitRaised;
      }
      assert Waits(world, old(now), k, now);
      assert effects == old(effects) + ([CheckOper] + Repeat(ReadFlag, k));
      r, course := HaltAndPoll(name, k);
      assert effects == old(effects) + (([CheckOper] + Repeat(ReadFlag, k)) + TailOf(course));
    }
  }

  /** The port lookup has one answer. */
  lemma PortUnique(ports: string -> Reply, name: string, port: Outcome<string>)
    requires IsPort(ports, name, port)
    ensures forall p | IsPort(ports, name, p) :: p == port
  {
  }

  /** The port is the first that is there under the lower-case, the upper-case and the given name, and "8080" if none is. */
  lemma PortsInTurn(ports: string -> Reply, name: string, port: Outcome<string>)
    requires IsPort(ports, name, port)
    ensures var lower, upper, given := ports(Lower(name)), ports(Upper(name)), ports(name);
            && (lower.Value? && lower.text != "" ==> port == Ok(lower.text))
            && (NotThere(lower) && upper.Value? && upper.text != "" ==> port == Ok(upper.text))
            && (NotThere(lower) && NotThere(upper) && given.Value? && given.text != "" ==> port == Ok(given.text))
            && (NotThere(lower) && NotThere(upper) && NotThere(given) ==> port == Ok("8080"))
  {
    var keys := PortKeys(name);
    assert keys[0] == Lower(name) && keys[1] == Upper(name) && keys[2] == name;
  }

  /** A single kind of call, counted in the pieces a course is made of. */
  lemma CountPieces(c: Course, x: Effect)
    ensures Count(EffectsOf(c), x) ==
              if c.Skipped? then Count([CheckOper, ClearFlag], x)
              else if c.WaitRaised? then Count([CheckOper], x)
              else Count([CheckOper], x) + (if x == ReadFlag then c.waits else 0) + Count(TailOf(c), x)
    ensures c.Polled? ==>
              Count(TailOf(c), x) == Count([ReadConfig, SendHalt], x) + (if x == PollStatus then c.polls else 0) + Count([ClearFlag], x)
  {
    if !c.Skipped? && !c.WaitRaised? {
      CountConcat([CheckOper], Repeat(ReadFlag, c.waits), x);
      CountConcat([CheckOper] + Repeat(ReadFlag, c.waits), TailOf(c), x);
      CountRepeat(ReadFlag, c.waits, x);
    }
    if c.Polled? {
      CountConcat([ReadConfig, SendHalt], Repeat(PollStatus, c.polls), x);
      CountConcat([ReadConfig, SendHalt] + Repeat(PollStatus, c.polls), [ClearFlag], x);
      CountRepeat(PollStatus, c.polls, x);
    }
  }

  lemma CountOne(a: Effect, x: Effect)
    ensures Count([a], x) == if a == x then 1 else 0
  {
    assert [a] == [] + [a];
    CountAppend([], a, x);
  }

  lemma CountTwo(a: Effect, b: Effect, x: Effect)
    ensures Count([a, b], x) == (if a == x then 1 else 0) + if b == x then 1 else 0
  {
    assert [a, b] == [a] + [b];
    CountAppend([a], b, x);
    CountOne(a, x);
  }

  lemma CountThree(a: Effect, b: Effect, c: Effect, x: Effect)
    ensures Count([a, b, c], x) == (if a == x then 1 else 0) + (if b == x then 1 else 0) + if c == x then 1 else 0
  {
    assert [a, b, c] == [a, b] + [c];
    CountAppend([a, b], c, x);
    CountTwo(a, b, x);
  }

  /** How often the two calls that matter are made, read off the course. */
  lemma CountEffects(c: Course)
    ensures Count(EffectsOf(c), ClearFlag) == if c.WaitRaised? || c.PollRaised? then 0 else 1
    ensures Count(EffectsOf(c), SendHalt) == if c.SendFailed? || c.PollRaised? || c.Polled? then 1 else 0
  {
    CountOf(c, ClearFlag);
    CountOf(c, SendHalt);
  }

  lemma CountOf(c: Course, x: Effect)
    requires x == ClearFlag || x == SendHalt
    ensures Count(EffectsOf(c), x) ==
              if x == ClearFlag then if c.WaitRaised? || c.PollRaised? then 0 else 1
              else if c.SendFailed? || c.PollRaised? || c.Polled? then 1 else 0
  {
    CountPieces(c, x);
    CountOne(CheckOper, x);
    match c
    case Skipped => CountTwo(CheckOper, ClearFlag, x);
    case WaitRaised =>
    case NoConfig(_) => CountTwo(ReadConfig, ClearFlag, x);
    case SendFailed(_) => CountThree(ReadConfig, SendHalt, ClearFlag, x);
    case PollRaised(_) => CountTwo(ReadConfig, SendHalt, x);
    case Polled(_, _, _) => CountTwo(ReadConfig, SendHalt, x); CountOne(ClearFlag, x);
  }

  /**
    A transition that returns clears the flag exactly once, as its last call; one that raises never
    does; and it raises exactly when a timeout it got to read could not be read.  HALT is sent at
    most once, and exactly when the DPU is not known to be off, the wait did not raise and an
    address is configured.
  */
  lemma FlagClearedOnceAndLast(w: World, name: string, start: real, c: Course, end: real)
    requires Takes(w, name, start, c, end)
    ensures ResultOf(w, c).Ok? ==> Count(EffectsOf(c), ClearFlag) == 1 && EffectsOf(c)[|EffectsOf(c)| - 1] == ClearFlag
    ensures ResultOf(w, c).Raised? ==> Count(EffectsOf(c), ClearFlag) == 0
    ensures ResultOf(w, c).Raised? <==>
              && !KnownOff(w.atStart)
              && (w.waitTimeout.Raised? || (HasAddress(w, name) && w.sendOk && w.pollTimeout.Raised?))
    ensures Count(EffectsOf(c), SendHalt) <= 1
    ensures Count(EffectsOf(c), SendHalt) == 1 <==> !KnownOff(w.atStart) && w.waitTimeout.Ok? && HasAddress(w, name)
  {
    CountEffects(c);
  }

  lemma PolledAnswer(w: World, name: string, start: real, c: Course, end: real)
    requires Takes(w, name, start, c, end) && c.Polled?
    ensures w.sendOk
    ensures c.completed <==> exists i: nat :: i < c.polls && w.complete(i)
  {
    var waited :| Waits(w, start, c.waits, waited) && TakesTail(w, name, waited, c, end);
    if c.completed {
      assert c.polls - 1 < c.polls && w.complete(c.polls - 1);
    }
  }

  /**
    The result is true exactly when the transition was skipped and the flag cleared, or HALT was
    accepted and some status RPC started before the deadline saw completion.  Whether the wait loop
    found the flag does not enter.
  */
  lemma SuccessMeansSkippedOrSeenComplete(w: World, name: string, start: real, c: Course, end: real)
    requires Sane(w) && Takes(w, name, start, c, end)
    ensures ResultOf(w, c) == Ok(true) <==>
              || (c.Skipped? && ClearWorks(w.atEnd))
              || (c.Polled? && exists i: nat :: i < c.polls && w.complete(i))
    ensures ResultOf(w, c) == Ok(true) && !c.Skipped? ==> Count(EffectsOf(c), SendHalt) == 1 && w.sendOk
  {
    CountEffects(c);
    if c.Polled? {
      PolledAnswer(w, name, start, c, end);
    }
  }

  /**
    With every table read taking at most `bound` seconds, the wait loop reads at most
    ceil(max(T,0)/5) times and is over before max(T,0) + 5 + bound seconds.
  */
  lemma WaitLoopBounds(w: World, start: real, n: nat, end: real, bound: real)
    requires Sane(w) && Waits(w, start, n, end) && Within(w.readCost, bound)
    ensures var t := if w.waitTimeout.value > 0 then w.waitTimeout.value else 0;
            && n <= (t + 4) / 5
            && end < start + t as real + 5.0 + bound
  {
    var found := WaitEnds(w, start, n, true, end);
    CountAndTimeBounds(start, start + w.waitTimeout.value as real, w.readCost, w.detached, 5.0, n, found, end, bound);
    CeilingBound(w.waitTimeout.value, 5, n);
    assert 0.0 <= w.readCost(0) <= bound;
  }

  /**
    With every status RPC ending within its 10-second timeout, the poll loop makes at most max(T,0)
    RPCs and is over before max(T,0) + 11 seconds.  A timeout of zero or less means no RPC at all,
    so such a transition never succeeds.
  */
  lemma PollLoopBounds(w: World, sent: real, n: nat, found: bool, end: real)
    requires Sane(w) && w.pollTimeout.Ok? && Within(w.rpcCost, STATUS_RPC_TIMEOUT_SEC)
    requires PollEnds(w, sent, n, found, end)
    ensures var t := if w.pollTimeout.value > 0 then w.pollTimeout.value else 0;
            && n <= t
            && end < sent + t as real + 11.0
    ensures w.pollTimeout.value <= 0 ==> !found
  {
    CountAndTimeBounds(sent, sent + w.pollTimeout.value as real, w.rpcCost, w.complete, 1.0, n, found, end, 10.0);
    CeilingBound(w.pollTimeout.value, 1, n);
  }

  /* ----- which courses there are ----- */

  /** A status RPC that sees completion has been made. */
  predicate Attainable(c: Course) { c.Polled? && c.completed ==> c.polls > 0 }

  ghost predicate CanBeTaken(name: string, start: real, c: Course) {
    exists w, end :: Sane(w) && Takes(w, name, start, c, end)
  }

  /** An outside where every call takes no time and the timeouts are just long enough for the course. */
  function WorldFor(c: Course): World {
    var waits := if c.Skipped? || c.WaitRaised? then 0 else c.waits;
    var polls := if c.Polled? then c.polls else 0;
    World(
      if c.Skipped? then Found(Ok(Offline), Ok(())) else NoModule,
      if c.WaitRaised? then Raised else Ok(5 * waits),
      (i: nat) => false, (i: nat) => 0.0,
      if c.NoConfig? then Nil else Value("ip"), (k: string) => Nil,
      !c.SendFailed?, 0.0,
      if c.PollRaised? then Raised else Ok(polls),
      (i: nat) => c.Polled? && c.completed && i + 1 == c.polls, (i: nat) => 0.0,
      NoModule)
  }

  lemma {:induction false} FreeProbes(start: real, cost: nat -> real, pause: real, i: nat)
    requires forall k: nat :: cost(k) == 0.0
    ensures CheckTime(start, cost, pause, i) == start + pause * i as real
  {
    if i > 0 {
      FreeProbes(start, cost, pause, i - 1);
      assert pause * i as real == pause * (i - 1) as real + pause;
    }
  }

  lemma WaitsAsLong(c: Course, start: real)
    requires !c.Skipped? && !c.WaitRaised?
    ensures Waits(WorldFor(c), start, c.waits, start + 5.0 * c.waits as real)
  {
    var w := WorldFor(c);
    forall i: nat | i <= c.waits ensures CheckTime(start, w.readCost, 5.0, i) == start + 5.0 * i as real {
      FreeProbes(start, w.readCost, 5.0, i);
    }
    assert WaitEnds(w, start, c.waits, false, start + 5.0 * c.waits as real);
  }

  lemma PollsAsOften(c: Course, sent: real)
    requires c.Polled? && Attainable(c)
    ensures PollEnds(WorldFor(c), sent, c.polls, c.completed, sent + (if c.completed then c.polls - 1 else c.polls) as real)
  {
    var w := WorldFor(c);
    forall i: nat | i <= c.polls ensures CheckTime(sent, w.rpcCost, STATUS_POLL_INTERVAL_SEC, i) == sent + i as real {
      FreeProbes(sent, w.rpcCost, STATUS_POLL_INTERVAL_SEC, i);
    }
  }

  lemma AttainableIsTaken(name: string, start: real, c: Course)
    requires Attainable(c)
    ensures CanBeTaken(name, start, c)
  {
    var w := WorldFor(c);
    assert Sane(w);
    if c.Skipped? || c.WaitRaised? {
      assert Takes(w, name, start, c, start);
    } else {
      var waited := start + 5.0 * c.waits as real;
      WaitsAsLong(c, start);
      assert IsPort(w.ports, name, Ok(DEFAULT_GNMI_PORT));
      var end := if !c.Polled? then waited else waited + (if c.completed then c.polls - 1 else c.polls) as real;
      if c.Polled? {
        PollsAsOften(c, waited);
      }
      assert TakesTail(w, name, waited, c, end);
      assert Takes(w, name, start, c, end);
    }
  }

  /** Every course is taken in some outside, whatever its number of rounds, unless completion was seen by no RPC. */
  lemma CourseTakenIffAttainable(name: string, start: real, c: Course)
    ensures CanBeTaken(name, start, c) <==> Attainable(c)
  {
    if Attainable(c) {
      AttainableIsTaken(name, start, c);
    }
  }
}
