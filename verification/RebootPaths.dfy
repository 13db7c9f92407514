/**
  Where the threads of the reboot service can get to (host_modules/reboot.py): two reboots at once when
  calls overlap, and with calls dispatched one at a time, ready again or lost for good.
*/
module RebootPaths {
  import opened Reboot
  import opened RebootMachine
  import opened Runs
  import opened Wrappers

  /* ----- a thread left alone ----- */

  lemma SeriallyLeads(s: State, t: State)
    requires Leads(Serially, s, t)
    ensures Leads(Transition, s, t)
  {
    var run, steps :| IsPath(Serially, run, steps) && run[0] == s && run[|steps|] == t;
    SerialPathIsPath(run, steps);
  }

  /** Any step but a new call goes on serially. */
  lemma Forth(origin: State, s: State, step: Step) returns (t: State)
    requires Leads(Serially, origin, s) && Enabled(s, step) && !step.NewCall?
    ensures t == Apply(s, step) && Leads(Serially, origin, t)
  {
    t := Apply(s, step);
    LeadsOn(Serially, origin, s, step, t);
  }

  /** A thread left alone gets a call as far as the check. */
  lemma CallAlone(origin: State, s: State, t: nat) returns (after: State)
    requires Leads(Serially, origin, s) && s.holder.None? && t < |s.threads| && s.threads[t].CallEnter?
    ensures Leads(Serially, origin, after) && after.holder.None? && after.flag == s.flag
    ensures after.count == s.count + 1 && after.published == s.published
    ensures after.threads == s.threads[t := CallDecide(s.threads[t].req, s.flag.active)]
  {
    after := Forth(origin, s, Enter(t));
    after := Forth(origin, after, ReadActive(t));
    after := Forth(origin, after, CountCall(t));
    after := Forth(origin, after, ReleaseCall(t));
  }

  /** A thread left alone publishes its record, every field of it. */
  lemma PublishAlone(origin: State, s: State, i: nat) returns (t: State)
    requires Leads(Serially, origin, s) && s.holder.None? && i < |s.threads| && s.threads[i].PubEnter?
    ensures var pc := s.threads[i]; var r := RecordOf(pc.args, s.count);
            && Leads(Serially, origin, t) && t.holder.None? && t.count == s.count && t.flag == r
            && t.published == s.published + [r]
            && t.threads == s.threads[i := if pc.next.StartWorker? then CallStart(pc.args.kind) else Done]
  {
    t := Forth(origin, s, Enter(i));
    t := Forth(origin, t, WriteField(i));
    t := Forth(origin, t, WriteField(i));
    t := Forth(origin, t, WriteField(i));
    t := Forth(origin, t, WriteField(i));
    t := Forth(origin, t, WriteField(i));
    t := Forth(origin, t, WriteField(i));
    t := Forth(origin, t, ReleasePub(i));
  }

  /** A thread left alone gets from an accepted request to the start of its worker. */
  lemma AcceptAlone(origin: State, s: State, t: nat, now: int) returns (after: State)
    requires Leads(Serially, origin, s) && s.holder.None? && t < |s.threads|
    requires s.threads[t].CallDecide? && !s.threads[t].ongoing && Acceptable(s.threads[t].req)
    ensures Leads(Serially, origin, after) && after.holder.None? && after.count == s.count
    ensures var req := s.threads[t].req;
            && after.threads == s.threads[t := CallStart(req.kind.value)]
            && after.published == s.published + [Rec(true, now, req.message, s.count, req.kind.value, Unknown)]
  {
    AcceptedIff(s.threads[t].req);
    after := Forth(origin, s, Decide(t, now));
    after := PublishAlone(origin, after, t);
  }

  /* ----- calls that overlap ----- */

  /**
    The check and the publication are separate critical sections: from every state in which the lock
    is free and no reboot is published, any two calls in flight with acceptable requests can both be
    accepted, and then their two workers run at once.
  */
  lemma ConcurrentCallsCanBothReboot(s: State, i: nat, j: nat) returns (after: State)
    requires s.holder.None? && !s.flag.active && i < |s.threads| && j < |s.threads| && i != j
    requires s.threads[i].CallEnter? && Acceptable(s.threads[i].req)
    requires s.threads[j].CallEnter? && Acceptable(s.threads[j].req)
    ensures Leads(Transition, s, after) && !AtMostOne(after.threads, Owing)
    ensures after.threads == s.threads[i := Done][j := Done]
                             + [Work(s.threads[i].req.kind.value), Work(s.threads[j].req.kind.value)]
  {
    LeadsNowhere(Serially, s);
    after := CallAlone(s, s, i);
    after := CallAlone(s, after, j);
    after := AcceptAlone(s, after, i, 0);
    after := AcceptAlone(s, after, j, 0);
    after := Forth(s, after, ThreadStarts(i));
    after := Forth(s, after, ThreadStarts(j));
    SeriallyLeads(s, after);
    var n := |s.threads|;
    assert Owing(after.threads[n]) && Owing(after.threads[n + 1]);
  }

  /* ----- calls one at a time: ready again ----- */

  /** The next call to arrive will find no reboot ongoing. */
  predicate Ready(s: State) { s.holder.None? && !s.flag.active }

  ghost predicate CanBeReady(s: State) {
    exists t :: Leads(Serially, s, t) && Ready(t)
  }

  ghost predicate Sound(s: State) {
    LockInv(s) && FlagInv(s) && HistoryInv(s) && ExclusionInv(s)
  }

  lemma SerialSound(s: State)
    requires Leads(Serially, INIT, s)
    ensures Sound(s)
  {
    var run, steps :| IsPath(Serially, run, steps) && run[0] == INIT && run[|steps|] == s;
    SerialRunKeepsExclusion(run, steps, |steps|);
    SerialPathIsPath(run, steps);
    RunKeepsInv(run, steps, |steps|);
  }

  lemma SoundForth(origin: State, s: State, step: Step) returns (t: State)
    requires Leads(Serially, origin, s) && Sound(s) && Enabled(s, step) && !step.NewCall?
    ensures t == Apply(s, step) && Leads(Serially, origin, t) && Sound(t)
  {
    LockStep(s, step);
    FlagStep(s, step);
    HistoryStep(s, step);
    ExclusionStep(s, step);
    t := Forth(origin, s, step);
  }

  /** The next step of the lock's holder. */
  function HolderStep(pc: Pc, h: nat): Step
    requires Holds(pc)
  {
    match pc
    case CallRead(_) => ReadActive(h)
    case CallCount(_, _) => CountCall(h)
    case CallRelease(_, _) => ReleaseCall(h)
    case PubWrite(k, _, _) => if k < FIELDS then WriteField(h) else ReleasePub(h)
    case AskRead(k, _) => if k < FIELDS then ReadField(h) else ReleaseAsk(h)
  }

  /** How many steps it is from its release. */
  function ToRelease(pc: Pc): int
    requires Holds(pc)
  {
    match pc
    case CallRead(_) => 3
    case CallCount(_, _) => 2
    case CallRelease(_, _) => 1
    case PubWrite(k, _, _) => FIELDS - k + 1
    case AskRead(k, _) => FIELDS - k + 1
  }

  /** What the holder is after its release, when it publishes the final status of a worker. */
  ghost predicate HolderMoves(before: Pc, after: Pc) {
    && !Lost(after)
    && (before.PubWrite? && before.next.Finish? ==> after == Done || (after.PubWrite? && after.next.Finish?))
  }

  lemma HolderStepIsNearer(s: State, h: nat)
    requires LockInv(s) && FlagInv(s) && s.holder == Some(h)
    ensures h < |s.threads| && Holds(s.threads[h]) && 0 < ToRelease(s.threads[h])
    ensures Enabled(s, HolderStep(s.threads[h], h))
    ensures var t := Apply(s, HolderStep(s.threads[h], h));
            && t.threads == s.threads[h := t.threads[h]] && HolderMoves(s.threads[h], t.threads[h])
            && (if Holds(t.threads[h]) then t.holder == Some(h) && ToRelease(t.threads[h]) < ToRelease(s.threads[h])
                else t.holder.None? && (s.threads[h].PubWrite? && s.threads[h].next.Finish? ==> t.threads[h] == Done))
  {
  }

  /** The holder, left alone, releases the lock. */
  lemma {:induction false} FreeLock(origin: State, s: State, h: nat) returns (t: State)
    requires Leads(Serially, origin, s) && Sound(s) && s.holder == Some(h)
    ensures Leads(Serially, origin, t) && Sound(t) && t.holder.None? && |t.threads| == |s.threads|
    ensures h < |s.threads| && !Lost(t.threads[h]) && forall i | 0 <= i < |s.threads| && i != h :: t.threads[i] == s.threads[i]
    ensures s.threads[h].PubWrite? && s.threads[h].next.Finish? ==> t.threads[h] == Done
    decreases if h < |s.threads| && Holds(s.threads[h]) then ToRelease(s.threads[h]) else 0
  {
    HolderStepIsNearer(s, h);
    t := SoundForth(origin, s, HolderStep(s.threads[h], h));
    if t.holder.Some? {
      t := FreeLock(origin, t, h);
    }
  }

  /** A worker that has come to its end publishes it, and the record is inactive. */
  lemma PublishEnding(origin: State, s: State, o: nat) returns (t: State)
    requires Leads(Serially, origin, s) && Sound(s) && s.holder.None?
    requires o < |s.threads| && s.threads[o].PubEnter? && s.threads[o].next.Finish?
    ensures Leads(Serially, origin, t) && Ready(t)
  {
    var u := SoundForth(origin, s, Enter(o));
    t := FreeLock(origin, u, o);
    assert Owing(s.threads[o]);
    forall i | 0 <= i < |t.threads| ensures !Owing(t.threads[i]) {
      if i != o {
        assert t.threads[i] == u.threads[i] == s.threads[i];
      }
    }
    assert t.flag == Last(t);
  }

  lemma WorkerSettles(origin: State, s: State, o: nat) returns (t: State)
    requires Leads(Serially, origin, s) && Sound(s) && s.holder.None? && o < |s.threads| && s.threads[o].Work?
    ensures Leads(Serially, origin, t) && Ready(t)
  {
    assert PcOk(s.threads[o]);
    t := SoundForth(origin, s, WorkerEnds(o, CommandFailed(0)));
    t := PublishEnding(origin, t, o);
  }

  /** A request that is owed and not lost can be settled. */
  lemma OwedSettles(origin: State, s: State, o: nat) returns (t: State)
    requires Leads(Serially, origin, s) && Sound(s) && s.holder.None?
    requires o < |s.threads| && Owing(s.threads[o]) && !Lost(s.threads[o])
    ensures Leads(Serially, origin, t) && Ready(t)
  {
    assert !Holds(s.threads[o]);
    match s.threads[o]
    case CallStart(_) =>
      t := SoundForth(origin, s, ThreadStarts(o));
      t := WorkerSettles(origin, t, |s.threads|);
    case Work(_) =>
      t := WorkerSettles(origin, s, o);
    case _ =>
      t := PublishEnding(origin, s, o);
  }

  lemma NothingLostSettles(s: State) returns (t: State)
    requires Sound(s) && !Any(s.threads, Lost)
    ensures Leads(Serially, s, t) && Ready(t)
  {
    LeadsNowhere(Serially, s);
    t := s;
    if s.holder.Some? {
      t := FreeLock(s, s, s.holder.value);
    }
    assert t.flag == Last(t);
    if t.flag.active {
      var o: nat :| o < |t.threads| && Owing(t.threads[o]);
      if s.holder == Some(o) {
        assert !Lost(t.threads[o]);
      } else {
        assert t.threads[o] == s.threads[o] && !Lost(s.threads[o]);
      }
      t := OwedSettles(s, t, o);
    }
  }

  /** A lost thread keeps the record active. */
  lemma LostIsNeverReady(s: State, t: State, i: nat)
    requires Leads(Serially, INIT, s) && Leads(Serially, s, t) && i < |s.threads| && Lost(s.threads[i])
    ensures !Ready(t)
  {
    var run, steps :| IsPath(Serially, run, steps) && run[0] == s && run[|steps|] == t;
    SerialPathIsPath(run, steps);
    LostStaysLost(run, steps, 0, |steps|, i);
    LeadsThrough(Serially, INIT, s, t);
    SerialSound(t);
    assert Owing(t.threads[i]);
  }

  /**
    With issue_reboot calls dispatched one at a time, the service can get ready for another reboot if
    and only if no reboot thread has failed to start and none has died.
  */
  lemma ReadyAgainIffNothingLost(s: State)
    requires Leads(Serially, INIT, s)
    ensures CanBeReady(s) <==> !Any(s.threads, Lost)
  {
    SerialSound(s);
    if i: nat :| i < |s.threads| && Lost(s.threads[i]) {
      forall t | Leads(Serially, s, t) ensures !Ready(t) {
        LostIsNeverReady(s, t, i);
      }
    } else {
      var t := NothingLostSettles(s);
    }
  }

  /* ----- calls one at a time: losses ----- */

  lemma InitReady()
    ensures Leads(Serially, INIT, INIT) && Ready(INIT) && !Any(INIT.threads, InFlight)
  {
    LeadsNowhere(Serially, INIT);
  }

  /** From a ready service with no call in flight, an acceptable request gets to the start of its worker. */
  lemma CallGetsThrough(s: State, req: Request, now: int) returns (t: State)
    requires Ready(s) && !Any(s.threads, InFlight) && Acceptable(req)
    ensures Leads(Serially, s, t) && t.holder.None? && t.threads == s.threads + [CallStart(req.kind.value)]
    ensures t.count == s.count + 1
    ensures t.published == s.published + [Rec(true, now, req.message, s.count + 1, req.kind.value, Unknown)]
  {
    var n := |s.threads|;
    LeadsNowhere(Serially, s);
    t := Apply(s, NewCall(req));
    LeadsOn(Serially, s, s, NewCall(req), t);
    t := CallAlone(s, t, n);
    t := AcceptAlone(s, t, n, now);
  }

  /** Every such request can be the last one: its thread can fail to start, and if it is a HALT its worker can die. */
  lemma EveryCallCanBeLost(s: State, req: Request) returns (failed: State, died: State)
    requires Ready(s) && !Any(s.threads, InFlight) && Acceptable(req)
    ensures Leads(Serially, s, failed) && failed.threads == s.threads + [StartFailed(req.kind.value)]
    ensures req.kind.value in HALT ==>
              Leads(Serially, s, died) && died.threads == s.threads + [Done, WorkerDied(req.kind.value)]
  {
    var n := |s.threads|;
    var t := CallGetsThrough(s, req, 0);
    failed := Forth(s, t, ThreadStartFails(n));
    died := Forth(s, t, ThreadStarts(n));
    if req.kind.value in HALT {
      died := Forth(s, died, WorkerDies(n + 1));
    }
  }

  /* ----- what a service that is ready can do ----- */

  /** A query left alone reads the fields one after the other. */
  lemma {:induction false} ReadAlone(origin: State, s: State, i: nat) returns (t: State)
    requires Leads(Serially, origin, s) && i < |s.threads| && s.threads[i].AskRead? && s.threads[i].done <= FIELDS
    requires Agree(s.threads[i].seen, s.flag, s.threads[i].done)
    ensures Leads(Serially, origin, t) && t == s.(threads := s.threads[i := AskRead(FIELDS, s.flag)])
    decreases FIELDS - s.threads[i].done
  {
    if s.threads[i].done == FIELDS {
      assert s.threads[i].seen == s.flag;
      t := s;
    } else {
      t := Forth(origin, s, ReadField(i));
      t := ReadAlone(origin, t, i);
    }
  }

  /** With the lock free, a query can be answered, with the record. */
  lemma AskIsAnswered(s: State) returns (t: State)
    requires s.holder.None?
    ensures Leads(Serially, s, t) && t.holder.None? && t.flag == s.flag
    ensures t.replies == s.replies + [s.flag] && t.threads == s.threads + [Done]
  {
    var i := |s.threads|;
    LeadsNowhere(Serially, s);
    t := Forth(s, s, NewAsk);
    t := Forth(s, t, Enter(i));
    t := ReadAlone(s, t, i);
    t := Forth(s, t, ReleaseAsk(i));
  }

  /**
    From every ready service with no call in flight, every acceptable request can be carried out to
    every ending its method can have: its own record is published, then that of the ending, both
    with the number of the call, and the service is ready again.
  */
  lemma EveryRebootCanEnd(s: State, req: Request, now: int, e: Ending) returns (t: State)
    requires Ready(s) && !Any(s.threads, InFlight) && Acceptable(req) && CanEnd(req.kind.value, e)
    ensures Leads(Serially, s, t) && Ready(t) && t.threads == s.threads + [Done, Done]
    ensures var kind, ended := req.kind.value, EndArgs(req.kind.value, e);
            t.published == s.published + [Rec(true, now, req.message, s.count + 1, kind, Unknown),
                                          Rec(false, ended.when, ended.reason, s.count + 1, kind, ended.status)]
  {
    var n := |s.threads|;
    t := CallGetsThrough(s, req, now);
    t := Forth(s, t, ThreadStarts(n));
    t := Forth(s, t, WorkerEnds(n + 1, e));
    t := PublishAlone(s, t, n + 1);
  }
}
