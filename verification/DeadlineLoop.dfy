/**
  The shape shared by three loops of the repository: look at the clock, and while the
  deadline has not come, probe once and, if the probe did not settle the matter, sleep a
  fixed pause.  Probe `i` takes `cost(i)` seconds and succeeds when `done(i)`.

  `Ends` says what such a loop returns without saying how it runs.
*/
module DeadlineLoop {

  /** The clock when the loop looks at it for the `i`-th time, all earlier probes having failed. */
  ghost function CheckTime(start: real, cost: nat -> real, pause: real, i: nat): real {
    if i == 0 then start else CheckTime(start, cost, pause, i - 1) + cost(i - 1) + pause
  }

  /** No probe takes negative time. */
  ghost predicate Timely(cost: nat -> real) {
    forall i: nat :: 0.0 <= cost(i)
  }

  /** No probe takes longer than `bound`. */
  ghost predicate Within(cost: nat -> real, bound: real) {
    forall i: nat :: cost(i) <= bound
  }

  /** The loop makes `n` probes, returns `found` and leaves the clock at `end`. */
  ghost predicate Ends(start: real, deadline: real, cost: nat -> real, done: nat -> bool, pause: real,
                       n: nat, found: bool, end: real)
  {
    && (forall i: nat | i < n :: CheckTime(start, cost, pause, i) < deadline)
    && (forall i: nat | i + 1 < n :: !done(i))
    && if found then
         n > 0 && done(n - 1) && end == CheckTime(start, cost, pause, n - 1) + cost(n - 1)
       else
         && (n > 0 ==> !done(n - 1))
         && end == CheckTime(start, cost, pause, n)
         && deadline <= end
  }

  lemma {:induction false} CheckTimeGrows(start: real, cost: nat -> real, pause: real, i: nat)
    requires Timely(cost) && 0.0 <= pause
    ensures start + pause * i as real <= CheckTime(start, cost, pause, i)
  {
    if i > 0 {
      CheckTimeGrows(start, cost, pause, i - 1);
      assert pause * i as real == pause * (i - 1) as real + pause;
    }
  }

  lemma {:induction false} CheckTimeMonotone(start: real, cost: nat -> real, pause: real, i: nat, j: nat)
    requires Timely(cost) && 0.0 <= pause && i <= j
    ensures CheckTime(start, cost, pause, i) <= CheckTime(start, cost, pause, j)
    decreases j
  {
    if i < j {
      CheckTimeMonotone(start, cost, pause, i, j - 1);
    }
  }

  /** The loop succeeds exactly when some probe that starts before the deadline succeeds. */
  lemma FoundIffSomeProbeInTime(start: real, deadline: real, cost: nat -> real, done: nat -> bool, pause: real,
                                n: nat, found: bool, end: real)
    requires Timely(cost) && 0.0 <= pause
    requires Ends(start, deadline, cost, done, pause, n, found, end)
    ensures found <==> exists i: nat :: done(i) && CheckTime(start, cost, pause, i) < deadline
  {
    if found {
      assert done(n - 1) && CheckTime(start, cost, pause, n - 1) < deadline;
    } else if i: nat :| done(i) && CheckTime(start, cost, pause, i) < deadline {
      assert i >= n;
      CheckTimeMonotone(start, cost, pause, n, i);
    }
  }

  /** `Ends` fixes the number of probes, the answer and the clock: no two outcomes satisfy it. */
  lemma OutcomeUnique(start: real, deadline: real, cost: nat -> real, done: nat -> bool, pause: real,
                      n: nat, found: bool, end: real, n': nat, found': bool, end': real)
    requires Timely(cost) && 0.0 <= pause
    requires Ends(start, deadline, cost, done, pause, n, found, end)
    requires Ends(start, deadline, cost, done, pause, n', found', end')
    ensures n == n' && found == found' && end == end'
  {
    FoundIffSomeProbeInTime(start, deadline, cost, done, pause, n, found, end);
    FoundIffSomeProbeInTime(start, deadline, cost, done, pause, n', found', end');
  }

  /**
    With `deadline - start <= budget` the loop makes at most ceil(budget / pause) probes, and it is
    over less than one probe and one pause after the later of the deadline and the start.
  */
  lemma CountAndTimeBounds(start: real, deadline: real, cost: nat -> real, done: nat -> bool, pause: real,
                           n: nat, found: bool, end: real, bound: real)
    requires Timely(cost) && Within(cost, bound) && 0.0 < pause
    requires Ends(start, deadline, cost, done, pause, n, found, end)
    ensures n > 0 ==> pause * (n - 1) as real < deadline - start
    ensures n > 0 ==> end < deadline + bound + pause
    ensures n == 0 ==> end == start
  {
    if n > 0 {
      CheckTimeGrows(start, cost, pause, n - 1);
      assert cost(n - 1) <= bound;
    }
  }

  lemma MultiplicationCancels(p: int, x: int, y: int)
    requires 0 < p
    ensures p * x < p * y ==> x < y
  {
    if y <= x {
      assert 0 <= p * (x - y);
    }
  }

  /** In whole seconds: a budget of `t` seconds and a pause of `p` seconds allow at most ceil(max(t,0)/p) probes. */
  lemma CeilingBound(t: int, p: nat, n: nat)
    requires p > 0
    requires n > 0 ==> p as real * (n - 1) as real < t as real
    ensures n <= ((if t > 0 then t else 0) + p - 1) / p
  {
    if n > 0 {
      assert p as real * (n - 1) as real == (p * (n - 1)) as real;
      assert 0 <= p * (n - 1) <= t - 1;
      var a := t + p - 1;
      assert p * n <= a;
      assert a == p * (a / p) + a % p;
      assert p * (a / p + 1) == p * (a / p) + p;
      MultiplicationCancels(p, n, a / p + 1);
    }
  }
}
