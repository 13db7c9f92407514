/**
  The process records of the statistics daemon (crates/procdockerstatsd-rs/src/main.rs): which
  processes are recorded, and what their records say.
*/
module ProcessStats {
  import opened Text
  import opened Selection
  import opened StateDb
  import opened Wrappers

  const PROCESS_PREFIX := "PROCESS_STATS|"
  const LIMIT := 1024

  /** A process as the system library shows it; the texts are the fields that are passed on as they are. */
  datatype Process = Process(
    pid: nat,
    dead: bool,         // status unknown or zombie
    cpu: Option<int>,   // the total_cmp key of the usage, None for NaN
    cpuMillis: nat,
    uid: string, ppid: string, cpuText: string, memText: string, stime: string, tt: string, cmd: string
  )

  /* ----- the TIME field ----- */

  function TwoDigits(n: nat): string {
    if n < 10 then "0" + Decimal(n) else Decimal(n)
  }

  function TimeText(seconds: nat): string {
    var h, m, s := seconds / 3600, seconds % 3600 / 60, seconds % 60;
    if h > 0 then Decimal(h) + ":" + TwoDigits(m) + ":" + TwoDigits(s) else Decimal(m) + ":" + TwoDigits(s)
  }

  predicate AllDigits(s: string) {
    forall c | c in s :: IsDigit(c)
  }

  /** Reads H:MM:SS or M:SS. */
  function TimeOf(text: string): Option<nat> {
    var p := Split(text, ':');
    if !(forall i | 0 <= i < |p| :: AllDigits(p[i])) then None
    else if |p| == 2 then Some(60 * NumberOf(p[0]) + NumberOf(p[1]))
    else if |p| == 3 then Some(3600 * NumberOf(p[0]) + 60 * NumberOf(p[1]) + NumberOf(p[2]))
    else None
  }

  lemma TwoDigitsRead(n: nat)
    ensures AllDigits(TwoDigits(n)) && NumberOf(TwoDigits(n)) == n
  {
    NumberOfDecimal(n);
    if n < 10 {
      var s := TwoDigits(n);
      assert s[..1] == "0" && "0"[..0] == "";
      assert Decimal(n) == [DigitChar(n)] && s == ['0', DigitChar(n)];
    }
  }

  lemma TwoPieces(a: string, b: string)
    requires AllDigits(a) && AllDigits(b)
    ensures Split(a + ":" + b, ':') == [a, b]
  {
    SplitPrefix(a, ':', b);
    SplitFree(b, ':');
    assert [':'] == ":";
  }

  lemma ThreePieces(a: string, b: string, c: string)
    requires AllDigits(a) && AllDigits(b) && AllDigits(c)
    ensures Split(a + ":" + b + ":" + c, ':') == [a, b, c]
  {
    TwoPieces(b, c);
    SplitPrefix(a, ':', b + ":" + c);
    assert a + ":" + b + ":" + c == a + [':'] + (b + ":" + c);
  }

  lemma PartsOfTime(seconds: nat)
    ensures 3600 * (seconds / 3600) + 60 * (seconds % 3600 / 60) + seconds % 60 == seconds
  {
    var rest := seconds % 3600;
    assert rest == 60 * (rest / 60) + rest % 60;
    assert seconds == 60 * (60 * (seconds / 3600) + rest / 60) + rest % 60;
  }

  /** The TIME field determines the CPU seconds it was made from. */
  lemma TimeReadsBack(seconds: nat)
    ensures TimeOf(TimeText(seconds)) == Some(seconds)
  {
    var h, m, s := seconds / 3600, seconds % 3600 / 60, seconds % 60;
    PartsOfTime(seconds);
    TwoDigitsRead(m);
    TwoDigitsRead(s);
    NumberOfDecimal(h);
    NumberOfDecimal(m);
    ThreePieces(Decimal(h), TwoDigits(m), TwoDigits(s));
    TwoPieces(Decimal(m), TwoDigits(s));
  }

  /** A piece of at most 59, in two digits. */
  predicate TwoDigitPart(s: string) { |s| == 2 && AllDigits(s) && NumberOf(s) < 60 }

  lemma TwoDigitsFill(n: nat)
    requires n < 60
    ensures TwoDigitPart(TwoDigits(n))
  {
    TwoDigitsRead(n);
    assert n >= 10 ==> Decimal(n / 10) == [DigitChar(n / 10)];
  }

  /** It has an hour part from one hour on, and then minutes, as it always has seconds, below 60 and in two digits. */
  lemma TimeShape(seconds: nat)
    ensures var p := Split(TimeText(seconds), ':');
            && |p| == (if seconds >= 3600 then 3 else 2)
            && (forall i | 1 <= i < |p| :: TwoDigitPart(p[i]))
            && AllDigits(p[0]) && NumberOf(p[0]) < (if seconds >= 3600 then seconds else 60)
  {
    var h, m, s := seconds / 3600, seconds % 3600 / 60, seconds % 60;
    TwoDigitsFill(m);
    TwoDigitsFill(s);
    NumberOfDecimal(h);
    NumberOfDecimal(m);
    ThreePieces(Decimal(h), TwoDigits(m), TwoDigits(s));
    TwoPieces(Decimal(m), TwoDigits(s));
  }

  /* ----- process records ----- */

  function ProcessKey(p: Process): string {
    PROCESS_PREFIX + Decimal(p.pid)
  }

  function ProcessFields(p: Process): Fields {
    map["PID" := Decimal(p.pid), "UID" := p.uid, "PPID" := p.ppid, "%CPU" := p.cpuText, "%MEM" := p.memText,
        "STIME" := p.stime, "TT" := p.tt, "TIME" := TimeText(p.cpuMillis / 1000), "CMD" := p.cmd]
  }

  const PROCESS_FIELDS := {"PID", "UID", "PPID", "%CPU", "%MEM", "STIME", "TT", "TIME", "CMD"}

  /** The nine fields show the process: pid and CPU seconds as numbers that can be read back, the others as they are. */
  ghost predicate Shows(f: Fields, p: Process) {
    && f.Keys == PROCESS_FIELDS
    && AllDigits(f["PID"]) && NumberOf(f["PID"]) == p.pid
    && TimeOf(f["TIME"]) == Some(p.cpuMillis / 1000)
    && f["UID"] == p.uid && f["PPID"] == p.ppid && f["%CPU"] == p.cpuText && f["%MEM"] == p.memText
    && f["STIME"] == p.stime && f["TT"] == p.tt && f["CMD"] == p.cmd
  }

  /** The record of a process is under its pid and shows it. */
  lemma RecordShowsProcess(p: Process)
    ensures Record(p).0 == "PROCESS_STATS|" + Decimal(p.pid) && Shows(Record(p).1, p)
  {
    NumberOfDecimal(p.pid);
    TimeReadsBack(p.cpuMillis / 1000);
  }

  function CpuKey(p: Process): int {
    if p.cpu.None? then 0 else p.cpu.value
  }

  /** The first `n` processes that are neither unknown nor zombies, NaN usage taken as 0, by position. */
  function Eligible(ps: seq<Process>, n: nat): seq<Entry>
    requires n <= |ps|
  {
    if n == 0 then []
    else
      Eligible(ps, n - 1) + if ps[n - 1].dead then [] else [Entry(CpuKey(ps[n - 1]), n - 1)]
  }

  function Limit(n: nat): nat {
    if n < LIMIT then n else LIMIT
  }

  ghost predicate DistinctPids(ps: seq<Process>) {
    forall i, j | 0 <= i < j < |ps| :: ps[i].pid != ps[j].pid
  }

  ghost predicate InList(top: seq<Entry>, ps: seq<Process>) {
    forall e | e in top :: e.process < |ps|
  }

  /** The entries point at different processes of the list. */
  ghost predicate DistinctIn(top: seq<Entry>, ps: seq<Process>) {
    && InList(top, ps)
    && (forall i, j | 0 <= i < j < |top| :: top[i].process != top[j].process)
  }

  /** The record a process gets. */
  function Record(p: Process): (string, Fields) {
    (ProcessKey(p), ProcessFields(p))
  }

  lemma KeysDiffer(p: Process, q: Process)
    requires ProcessKey(p) == ProcessKey(q)
    ensures p.pid == q.pid
  {
    assert ProcessKey(p)[|PROCESS_PREFIX|..] == Decimal(p.pid);
    assert ProcessKey(q)[|PROCESS_PREFIX|..] == Decimal(q.pid);
    DecimalInjective(p.pid, q.pid);
  }

  lemma {:induction false} EligibleDistinct(ps: seq<Process>, n: nat)
    requires n <= |ps|
    ensures var es := Eligible(ps, n); (forall e | e in es :: e.process < n) && |es| <= n && DistinctIn(es, ps)
  {
    if n > 0 {
      EligibleDistinct(ps, n - 1);
    }
  }

  /** The eligible entries are those of the processes that are not dead, each with its CPU key. */
  lemma {:induction false} EligibleExactly(ps: seq<Process>, n: nat)
    requires n <= |ps|
    ensures forall e :: e in Eligible(ps, n) <==> e.process < n && !ps[e.process].dead && e.cpu == CpuKey(ps[e.process])
  {
    if n > 0 {
      EligibleExactly(ps, n - 1);
    }
  }

  lemma {:induction false} ChosenOnce(s: seq<Entry>, e: Entry)
    requires forall i, j | 0 <= i < j < |s| :: s[i].process != s[j].process
    ensures multiset(s)[e] <= 1
  {
    if s != [] {
      ChosenOnce(s[1..], e);
      assert s == [s[0]] + s[1..];
      if s[0] == e {
        HeadOnlyOnce(s);
      }
    }
  }

  lemma HeadOnlyOnce(s: seq<Entry>)
    requires s != [] && forall i, j | 0 <= i < j < |s| :: s[i].process != s[j].process
    ensures multiset(s[1..])[s[0]] == 0
  {
    assert forall j | 0 <= j < |s[1..]| :: s[1..][j] == s[1 + j];
    assert s[0] !in s[1..];
  }

  lemma TwiceThere(t: seq<Entry>, i: nat, j: nat)
    requires i < j < |t| && t[i] == t[j]
    ensures multiset(t)[t[i]] >= 2
  {
    assert t == t[..i] + [t[i]] + t[i + 1..j] + [t[j]] + t[j + 1..];
  }

  lemma DifferentProcesses(s: seq<Entry>, t: seq<Entry>, i: nat, j: nat)
    requires multiset(t) == multiset(s) && i < j < |t|
    requires forall i, j | 0 <= i < j < |s| :: s[i].process != s[j].process
    ensures t[i].process != t[j].process
  {
    SameMembers(t, s);
    assert t[i] in s && t[j] in s;
    if t[i] == t[j] {
      TwiceThere(t, i, j);
      ChosenOnce(s, t[i]);
    }
  }

  /** Rearranging entries keeps them pointing at different processes. */
  lemma StillDistinct(s: seq<Entry>, t: seq<Entry>, ps: seq<Process>)
    requires DistinctIn(s, ps) && multiset(t) == multiset(s)
    ensures DistinctIn(t, ps)
  {
    SameMembers(t, s);
    forall i, j | 0 <= i < j < |t| ensures t[i].process != t[j].process {
      DifferentProcesses(s, t, i, j);
    }
  }

  /* ----- the selection ----- */

  /** The entries kept: as many as the limit allows, none below one that is dropped. */
  ghost predicate Selected(top: seq<Entry>, all: seq<Entry>) {
    && |top| == Limit(|all|)
    && exists rest ::
         multiset(top + rest) == multiset(all) && forall x, y | x in top && y in rest :: AtLeast(x, y)
  }

  ghost predicate BusiestOf(top: seq<Entry>, ps: seq<Process>) {
    Selected(top, Eligible(ps, |ps|))
  }

  /** The kept CPU values are the first ones of the fully sorted list. */
  lemma TopAreTheBusiest(top: seq<Entry>, all: seq<Entry>)
    requires Selected(top, all)
    ensures |top| <= |Sort(Keys(all))| && Sort(Keys(top)) == Sort(Keys(all))[..|top|]
  {
    var rest :| multiset(top + rest) == multiset(all) && forall x, y | x in top && y in rest :: AtLeast(x, y);
    var after := top + rest;
    assert after[..|top|] == top;
    forall i, j | 0 <= i < |top| <= j < |after| ensures after[i].cpu >= after[j].cpu {
      assert after[i] in top && after[j] in rest && AtLeast(after[i], after[j]);
    }
    SelectionRefinesSort(all, after, |top|);
  }

  /** The selected entries point at different processes. */
  lemma {:induction false} SelectedDistinct(top: seq<Entry>, ps: seq<Process>)
    requires BusiestOf(top, ps)
    ensures DistinctIn(top, ps)
  {
    var all := Eligible(ps, |ps|);
    var rest :| multiset(top + rest) == multiset(all) && forall x, y | x in top && y in rest :: AtLeast(x, y);
    EligibleDistinct(ps, |ps|);
    StillDistinct(all, top + rest, ps);
    assert forall i | 0 <= i < |top| :: (top + rest)[i] == top[i];
    assert forall e | e in top :: e in top + rest;
  }

  /** The process is at least as busy, by its own usage; a usage that is not a number counts as 0. */
  predicate AsBusyAs(p: Process, q: Process) {
    match (p.cpu, q.cpu)
    case (Some(a), Some(b)) => a >= b
    case (Some(a), None) => a >= 0
    case (None, Some(b)) => 0 >= b
    case (None, None) => true
  }

  /** The selected processes are alive, and no live process left out is busier than one of them. */
  lemma {:induction false} DroppedAreNotBusier(top: seq<Entry>, ps: seq<Process>, e: Entry, i: nat)
    requires BusiestOf(top, ps) && e in top
    requires i < |ps| && !ps[i].dead && forall x | x in top :: x.process != i
    ensures e.process < |ps| && !ps[e.process].dead && AsBusyAs(ps[e.process], ps[i])
  {
    var all, dropped := Eligible(ps, |ps|), Entry(CpuKey(ps[i]), i);
    var rest :| multiset(top + rest) == multiset(all) && forall x, y | x in top && y in rest :: AtLeast(x, y);
    EligibleExactly(ps, |ps|);
    SameMembers(all, top + rest);
    SameMembers(top + rest, all);
    assert dropped in all && dropped in rest;
    assert e in top + rest && AtLeast(e, dropped);
  }

  /** The usages of the live processes, 0 for one that is not a number. */
  function LiveUsages(ps: seq<Process>): seq<int> {
    if ps == [] then []
    else
      var last := ps[|ps| - 1];
      LiveUsages(ps[..|ps| - 1]) + if last.dead then [] else match last.cpu case Some(a) => [a] case None => [0]
  }

  lemma {:induction false} KeysAreUsages(ps: seq<Process>, n: nat)
    requires n <= |ps|
    ensures Keys(Eligible(ps, n)) == LiveUsages(ps[..n])
  {
    if n > 0 {
      KeysAreUsages(ps, n - 1);
      assert ps[..n][..n - 1] == ps[..n - 1];
    }
  }

  /** The usages of the selected processes, in the order of the selection. */
  ghost predicate UsagesOf(usages: seq<int>, top: seq<Entry>, ps: seq<Process>) {
    && InList(top, ps) && |usages| == |top|
    && forall k | 0 <= k < |top| ::
         top[k] in top && var cpu := ps[top[k].process].cpu; usages[k] == if cpu.Some? then cpu.value else 0
  }

  /**
    At most 1024 processes are selected, all live ones if there are no more: put in order, their
    usages are the head of the usages of all live processes in descending order.
  */
  lemma {:induction false} SelectedUsagesAreTheHighest(top: seq<Entry>, ps: seq<Process>, usages: seq<int>)
    requires BusiestOf(top, ps) && UsagesOf(usages, top, ps)
    ensures var live := LiveUsages(ps); var n := |usages|;
            && n == (if |live| < 1024 then |live| else 1024) <= |Sort(live)|
            && Sort(usages) == Sort(live)[..n] && Descending(Sort(live)) && multiset(Sort(live)) == multiset(live)
  {
    var all := Eligible(ps, |ps|);
    KeysAreUsages(ps, |ps|);
    assert ps[..|ps|] == ps;
    TopAreTheBusiest(top, all);
    SortSorts(LiveUsages(ps));
    SelectedKeys(top, ps, usages);
  }

  lemma SelectedKeys(top: seq<Entry>, ps: seq<Process>, usages: seq<int>)
    requires BusiestOf(top, ps) && UsagesOf(usages, top, ps)
    ensures usages == Keys(top)
  {
    var all := Eligible(ps, |ps|);
    var rest :| multiset(top + rest) == multiset(all) && forall x, y | x in top && y in rest :: AtLeast(x, y);
    EligibleExactly(ps, |ps|);
    SameMembers(top + rest, all);
    forall k | 0 <= k < |top| ensures usages[k] == top[k].cpu {
      assert top[k] in top + rest;
    }
  }

  method ValidProcesses(ps: seq<Process>) returns (valid: seq<Entry>)
    ensures valid == Eligible(ps, |ps|)
  {
    valid := [];
    for n := 0 to |ps|
      invariant valid == Eligible(ps, n)
    {
      if !ps[n].dead {
        valid := valid + [Entry(CpuKey(ps[n]), n)];
      }
    }
  }

  lemma PartsAreSelected(s: seq<Entry>, all: seq<Entry>, limit: nat)
    requires multiset(s) == multiset(all) && limit == Limit(|all|) <= |s| && SplitAt(s, limit)
    ensures Selected(s[..limit], all)
  {
    var top, rest := s[..limit], s[limit..];
    assert s == top + rest;
    forall x, y | x in top && y in rest ensures AtLeast(x, y) {
      var i :| 0 <= i < |top| && top[i] == x;
      var j :| 0 <= j < |rest| && rest[j] == y;
      assert s[i] == x && s[limit + j] == y;
    }
  }

  method TopProcesses(ps: seq<Process>) returns (top: seq<Entry>)
    ensures BusiestOf(top, ps)
  {
    var valid := ValidProcesses(ps);
    var a := new Entry[|valid|](i requires 0 <= i < |valid| => valid[i]);
    assert a[..] == valid;
    var limit := if LIMIT < a.Length then LIMIT else a.Length;
    if limit > 0 {
      SelectNth(a, limit - 1);
    }
    PartsAreSelected(a[..], valid, limit);
    top := a[..limit];
    assert a[..][..limit] == top;
  }
}
