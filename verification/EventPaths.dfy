/** What the shutdown daemon does with a notice (scripts/gnoi_shutdown_daemon.py, `main`). */
module EventPaths {
  import opened ChannelParser
  import opened EventLoop
  import opened GnoiHandler
  import opened Runs
  import opened Wrappers

  /* ----- which messages are taken in, and which notices are ignored ----- */

  /**
    While the loop waits it takes in every message, except one about a module whose admin status
    cannot be read because of an exception that is not caught.
  */
  lemma TakenInUnlessReadingRaises(s: State, m: Message)
    requires s.loop.Waiting?
    ensures Enabled(s, Receive(m)) <==>
              !(m.Keyspace? && m.admin == Uncaught && exists name :: name != "" && KeyOf(m.channel) == "CHASSIS_MODULE|" + name)
  {
    if m.Keyspace? {
      forall name ensures ModuleOf(m.channel) == Some(name) <==> name != "" && KeyOf(m.channel) == "CHASSIS_MODULE|" + name {
        ParsedIffKeyInTable(m.channel, name);
      }
    }
  }

  /**
    In every run, when the set is looked at for a DPU, the notice is ignored if and only if some thread
    started for that DPU has not removed its entry yet; otherwise the DPU is added.
  */
  lemma IgnoredIffBusy(run: seq<State>, steps: seq<Step>, k: nat)
    requires IsRun(run, steps) && k < |steps| && steps[k].MainLookup?
    ensures run[k].loop.Checking?
    ensures var d, after := run[k].loop.dpu, run[k + 1];
            if HasLive(run[k].workers, d) then after.loop == Leaving && after.log == run[k].log + [Ignored(d)]
            else after.loop == Adding(d) && after.log == run[k].log
  {
    RunStep(run, steps, k);
    RunKeepsInv(run, steps, k);
    assert !Pending(run[k].loop, run[k].loop.dpu);
  }

  /* ----- a notice that is not ignored ----- */

  lemma Go(origin: State, s: State, step: Step) returns (t: State)
    requires Leads(Transition, origin, s) && Enabled(s, step)
    ensures t == Apply(s, step) && Leads(Transition, origin, t)
  {
    t := Apply(s, step);
    LeadsOn(Transition, origin, s, step, t);
  }

  /** With the lock free, a notice for a DPU that is not in the set starts a thread that goes any attainable way. */
  lemma ThreadIsStarted(s: State, d: string, course: Course) returns (t: State)
    requires s.loop.Waiting? && s.lock.None? && d !in s.active && d != "" && Attainable(course)
    ensures Leads(Transition, s, t) && t.loop.Waiting? && t.lock.None? && t.active == s.active + {d}
    ensures t.workers == s.workers + [Worker(d, course, EffectsOf(course), Working(EffectsOf(course)))]
    ensures t.log == s.log + [Noticed(d), Started(d)]
  {
    var notice := Keyspace(ChannelOf(DbKey(d)), Value("down"));
    ParseUndoesTopic(d);
    LeadsNowhere(Transition, s);
    t := Go(s, s, Receive(notice));
    t := Go(s, t, MainAcquire);
    t := Go(s, t, MainLookup);
    t := Go(s, t, MainAdd);
    t := Go(s, t, MainRelease);
    t := Go(s, t, ThreadStart(course));
  }

  /** A thread left alone makes the calls that are left. */
  lemma {:induction false} CallsAreMade(origin: State, s: State, i: nat) returns (t: State)
    requires Leads(Transition, origin, s) && i < |s.workers| && s.workers[i].pc.Working?
    ensures Leads(Transition, origin, t) && t.loop == s.loop && t.lock == s.lock && t.active == s.active
    ensures t.workers == s.workers[i := s.workers[i].(pc := Working([]))]
    ensures t.log == s.log + Dids(s.workers[i].dpu, s.workers[i].pc.todo)
    decreases |s.workers[i].pc.todo|
  {
    var todo := s.workers[i].pc.todo;
    if todo == [] {
      t := s;
    } else {
      t := Go(origin, s, WorkerEffect(i));
      t := CallsAreMade(origin, t, i);
      assert Dids(s.workers[i].dpu, todo) == [Did(s.workers[i].dpu, todo[0])] + Dids(s.workers[i].dpu, todo[1..]);
    }
  }

  /** And then removes its entry. */
  lemma EntryIsRemoved(origin: State, s: State, i: nat) returns (t: State)
    requires Leads(Transition, origin, s) && i < |s.workers| && s.workers[i].pc == Working([]) && s.lock.None?
    ensures Leads(Transition, origin, t) && t.loop == s.loop && t.lock.None? && t.active == s.active - {s.workers[i].dpu}
    ensures t.workers == s.workers[i := s.workers[i].(pc := Finished)] && t.log == s.log + [Ended(s.workers[i].dpu)]
  {
    t := Go(origin, s, WorkerToFinally(i));
    t := Go(origin, t, WorkerAcquire(i));
    t := Go(origin, t, WorkerDiscard(i));
    t := Go(origin, t, WorkerRelease(i));
  }

  /**
    Every module can be shut down, in every attainable way: from every reachable state in which the
    loop waits, the lock is free and no thread of the module is live, a notice can be followed by all
    the calls of the transition and leave the daemon as ready as before.
  */
  lemma EveryShutdownCanBe(s: State, d: string, course: Course) returns (t: State)
    requires Leads(Transition, INIT, s) && s.loop.Waiting? && s.lock.None? && !HasLive(s.workers, d) && d != ""
    requires Attainable(course)
    ensures Leads(Transition, s, t) && t.loop.Waiting? && t.lock.None? && t.active == s.active
    ensures t.log == s.log + [Noticed(d), Started(d)] + Dids(d, EffectsOf(course)) + [Ended(d)]
  {
    var run, steps :| IsPath(Transition, run, steps) && run[0] == INIT && run[|steps|] == s;
    RunKeepsInv(run, steps, |steps|);
    assert d !in s.active;
    var i := |s.workers|;
    t := ThreadIsStarted(s, d, course);
    t := CallsAreMade(s, t, i);
    t := EntryIsRemoved(s, t, i);
  }
}
