/** The statistics daemon's cycle over STATE_DB, every database call of which may fail (crates/procdockerstatsd-rs/src/main.rs). */
module StatsDaemon {
  import opened StateDb
  import opened LastWins
  import opened Text
  import opened Wrappers
  import Selection
  import PS = ProcessStats
  import DS = DockerStats

  datatype Refresh = Updated | NotUpdated | Failed

  /** The records of the selected processes, in the order of the selection. */
  ghost function ProcessItems(top: seq<Selection.Entry>, ps: seq<PS.Process>): (items: seq<(string, Fields)>)
    requires PS.InList(top, ps)
    ensures |items| == |top| && forall i | 0 <= i < |top| :: items[i] == PS.Record(ps[top[i].process])
  {
    seq(|top|, i requires 0 <= i < |top| => PS.Record(ps[top[i].process]))
  }

  /** The pids of the first `n` selected processes. */
  ghost function Pids(top: seq<Selection.Entry>, ps: seq<PS.Process>, n: nat): set<nat>
    requires PS.InList(top, ps) && n <= |top|
  {
    if n == 0 then {} else Pids(top, ps, n - 1) + {ps[top[n - 1].process].pid}
  }

  lemma {:induction false} PidsAre(top: seq<Selection.Entry>, ps: seq<PS.Process>, n: nat)
    requires PS.InList(top, ps) && n <= |top|
    ensures forall p :: p in Pids(top, ps, n) <==> exists i | 0 <= i < n :: ps[top[i].process].pid == p
  {
    if n > 0 {
      PidsAre(top, ps, n - 1);
    }
  }

  lemma ProcessItemsDistinct(top: seq<Selection.Entry>, ps: seq<PS.Process>)
    requires PS.DistinctIn(top, ps) && PS.DistinctPids(ps)
    ensures DistinctKeys(ProcessItems(top, ps)) && AllUnder(ProcessItems(top, ps), PS.PROCESS_PREFIX)
  {
    var items := ProcessItems(top, ps);
    forall i, j | 0 <= i < j < |items| ensures items[i].0 != items[j].0 {
      if items[i].0 == items[j].0 {
        PS.KeysDiffer(ps[top[i].process], ps[top[j].process]);
      }
    }
  }

  /** The pids and the records of the selected processes, whatever a record is made of. */
  method CollectRecords(top: seq<Selection.Entry>, ps: seq<PS.Process>, record: PS.Process -> (string, Fields))
    returns (pidSet: set<nat>, processData: seq<(string, Fields)>)
    requires PS.InList(top, ps)
    ensures pidSet == Pids(top, ps, |top|)
    ensures |processData| == |top| && forall i | 0 <= i < |top| :: processData[i] == record(ps[top[i].process])
  {
    pidSet := {};
    processData := [];
    for i := 0 to |top|
      invariant pidSet == Pids(top, ps, i)
      invariant |processData| == i && forall j | 0 <= j < i :: processData[j] == record(ps[top[j].process])
    {
      assert top[i] in top;
      var p := ps[top[i].process];
      pidSet := pidSet + {p.pid};
      processData := processData + [record(p)];
    }
  }

  method ProcessRecords(top: seq<Selection.Entry>, ps: seq<PS.Process>)
    returns (pidSet: set<nat>, processData: seq<(string, Fields)>)
    requires PS.DistinctIn(top, ps) && PS.DistinctPids(ps)
    ensures forall p :: p in pidSet <==> exists i | 0 <= i < |top| :: ps[top[i].process].pid == p
    ensures processData == ProcessItems(top, ps)
    ensures DistinctKeys(processData) && AllUnder(processData, PS.PROCESS_PREFIX)
  {
    pidSet, processData := CollectRecords(top, ps, PS.Record);
    PidsAre(top, ps, |top|);
    assert processData == ProcessItems(top, ps);
    ProcessItemsDistinct(top, ps);
  }

  /** The list is the table's entries in some order. */
  ghost predicate ListOf(items: seq<(string, Fields)>, table: Table) {
    DistinctKeys(items) && Holds(table, items)
  }

  method Listed(table: Table) returns (items: seq<(string, Fields)>)
    ensures ListOf(items, table)
  {
    items := [];
    var rest := table.Keys;
    while rest != {}
      invariant rest <= table.Keys && DistinctKeys(items)
      invariant forall i | 0 <= i < |items| :: items[i].0 in table && items[i].0 !in rest && table[items[i].0] == items[i].1
      invariant forall k | k in table && k !in rest :: exists i | 0 <= i < |items| :: items[i].0 == k
      decreases |rest|
    {
      var k :| k in rest;
      ghost var was := items;
      items := items + [(k, table[k])];
      rest := rest - {k};
      forall j | j in table && j !in rest ensures exists i | 0 <= i < |items| :: items[i].0 == j {
        if j == k {
          assert items[|was|].0 == j;
        } else {
          var i :| 0 <= i < |was| && was[i].0 == j;
          assert items[i].0 == j;
        }
      }
    }
  }

  lemma SomeOfIsWithin(records: Table, table: Table, items: seq<(string, Fields)>)
    requires Holds(table, items)
    ensures SomeOf(records, items) ==> Within(records, table)
  {
  }

  class ProcDockerStats {
    var db: Table
    var processCache: set<nat>

    /** Deletes key by key; after a failure any number of them may be gone.  Where calls work, none fails. */
    method DeleteAllByPattern(prefix: string, works: bool) returns (ok: bool)
      modifies this`db
      ensures Others(db, prefix) == Others(old(db), prefix)
      ensures Within(Records(db, prefix), Records(old(db), prefix))
      ensures ok ==> Records(db, prefix) == map[]
      ensures works ==> ok
    {
      var rest := Records(db, prefix).Keys;
      while rest != {}
        invariant rest == Records(db, prefix).Keys
        invariant Others(db, prefix) == Others(old(db), prefix)
        invariant Within(Records(db, prefix), Records(old(db), prefix))
        decreases |rest|
      {
        var fails := *;
        if fails && !works {
          return false;
        }
        var k :| k in rest;
        RemoveStep(db, prefix, k);
        db := db - {k};
        rest := rest - {k};
      }
      return true;
    }

    /** Adds the fields to the hash; a failed call may or may not have been carried out. */
    method Hmset(key: string, fields: Fields, works: bool) returns (ok: bool)
      modifies this`db
      ensures var written := old(db)[key := if key in old(db) then old(db)[key] + fields else fields];
              if ok then db == written else db == old(db) || db == written
      ensures works ==> ok
    {
      var fails, carriedOut := *, *;
      if fails && !works && !carriedOut {
        return false;
      }
      db := db[key := if key in db then db[key] + fields else fields];
      return !fails || works;
    }

    /** Wipes the records under the prefix and writes the items instead. */
    method Rewrite(prefix: string, items: seq<(string, Fields)>, works: bool) returns (ok: bool)
      requires DistinctKeys(items) && AllUnder(items, prefix)
      modifies this`db
      ensures ok ==> Rewritten(old(db), db, prefix, items)
      ensures PartlyRewritten(old(db), db, prefix, items)
      ensures works ==> ok
    {
      ok := DeleteAllByPattern(prefix, works);
      if !ok {
        return;
      }
      for n := 0 to |items|
        invariant Others(db, prefix) == Others(old(db), prefix) && Holds(Records(db, prefix), items[..n])
      {
        HoldsNext(Records(db, prefix), items, n);
        HoldsIsSome(Records(db, prefix), items, n);
        WriteStep(db, prefix, items[n].0, items[n].1);
        ok := Hmset(items[n].0, items[n].1, works);
        if !ok {
          return;
        }
      }
      assert items[..|items|] == items;
      HoldsIsSome(Records(db, prefix), items, |items|);
      ok := true;
    }

    /** One refresh of the process records. */
    method UpdateProcessStats(ps: seq<PS.Process>, works: bool) returns (ok: bool, top: seq<Selection.Entry>)
      requires PS.DistinctPids(ps)
      modifies this
      ensures PS.BusiestOf(top, ps) && PS.DistinctIn(top, ps)
      ensures works ==> ok
      ensures ok ==> Rewritten(old(db), db, PS.PROCESS_PREFIX, ProcessItems(top, ps))
      ensures PartlyRewritten(old(db), db, PS.PROCESS_PREFIX, ProcessItems(top, ps))
      ensures processCache == set p | p in old(processCache) && exists i | 0 <= i < |top| :: ps[top[i].process].pid == p
    {
      top := PS.TopProcesses(ps);
      PS.SelectedDistinct(top, ps);
      var pidSet, processData := ProcessRecords(top, ps);
      processCache := processCache * pidSet;
      ok := Rewrite(PS.PROCESS_PREFIX, processData, works);
    }

    /** One refresh of the container records; there is no output when the command fails. */
    method UpdateDockerStats(output: Option<seq<DS.Line>>, works: bool) returns (r: Refresh)
      modifies this`db
      ensures r == NotUpdated <==> NothingKept(output)
      ensures r == NotUpdated ==> db == old(db)
      ensures works ==> r != Failed
      ensures Others(db, DS.DOCKER_PREFIX) == Others(old(db), DS.DOCKER_PREFIX)
      ensures r == Updated ==> Filled(DS.Outcomes(output.value), Records(db, DS.DOCKER_PREFIX))
      ensures r == Failed ==>
                || Within(Records(db, DS.DOCKER_PREFIX), Records(old(db), DS.DOCKER_PREFIX))
                || exists dict :: Filled(DS.Outcomes(output.value), dict) && Within(Records(db, DS.DOCKER_PREFIX), dict)
    {
      if output.None? {
        return NotUpdated;
      }
      var lines := output.value;
      var statsDict := DS.ParseDockerJsonOutput(lines);
      if statsDict == map[] {
        return NotUpdated;
      }
      var items := Listed(statsDict);
      assert AllUnder(items, DS.DOCKER_PREFIX);
      var ok := Rewrite(DS.DOCKER_PREFIX, items, works);
      if !ok {
        SomeOfIsWithin(Records(db, DS.DOCKER_PREFIX), statsDict, items);
        return Failed;
      }
      HoldsUnique(Records(db, DS.DOCKER_PREFIX), statsDict, items);
      return Updated;
    }

    /** Sets the time stamp under the key. */
    method Stamp(key: string, now: string, works: bool) returns (ok: bool)
      modifies this`db
      ensures works ==> ok
      ensures OnlyAt(old(db), db, key) && (ok ==> StampedAt(db, key, now))
    {
      ok := Hmset(key, map[STAMP_FIELD := now], works);
    }

    /** The first two refreshes of a pass of the daemon's loop; whether they succeeded is ignored. */
    method RunCycle(output: Option<seq<DS.Line>>, ps: seq<PS.Process>, now: string, works: bool)
      returns (docker: Refresh, dockerStamped: bool, processes: bool, stamped: bool, top: seq<Selection.Entry>)
      requires PS.DistinctPids(ps)
      modifies this
      ensures PS.DistinctIn(top, ps) && PS.BusiestOf(top, ps)
      ensures docker == NotUpdated <==> NothingKept(output)
      ensures docker == NotUpdated ==> ContainersExceptStamp(db) == ContainersExceptStamp(old(db))
      ensures docker == Updated ==> ContainersParsed(output, ContainersExceptStamp(db))
      ensures processes ==> Holds(ProcessesExceptStamp(db), ProcessItems(top, ps))
      ensures dockerStamped ==> StampedAt(db, "DOCKER_STATS|" + "LastUpdateTime", now)
      ensures stamped ==> StampedAt(db, "PROCESS_STATS|" + "LastUpdateTime", now)
      ensures works ==> docker != Failed && dockerStamped && processes && stamped
      ensures ElsewhereKept(old(db), db)
    {
      docker := UpdateDockerStats(output, works);
      ghost var d1 := db;
      dockerStamped := Stamp(DOCKER_STAMP, now, works);
      ghost var d2 := db;
      processes, top := UpdateProcessStats(ps, works);
      ghost var d3 := db;
      stamped := Stamp(PROCESS_STAMP, now, works);
      ContainersStay(d1, d2, d3, db);
      ElsewhereStays(old(db), d1, d2, d3, db);
      StampStays(d2, d3, db, now);
      OnlyAtRecords(d3, db, PS.PROCESS_PREFIX, PROCESS_STAMP);
      if processes {
        NoProcessIsTheStamp(d3, top, ps);
      }
    }
  }

  /* ----- the time stamps, which are kept under the wiped prefixes ----- */

  const DOCKER_STAMP := DS.DOCKER_PREFIX + "LastUpdateTime"
  const PROCESS_STAMP := PS.PROCESS_PREFIX + "LastUpdateTime"
  const STAMP_FIELD := "lastupdate"

  predicate StampedAt(db: Table, key: string, now: string) {
    key in db && "lastupdate" in db[key] && db[key]["lastupdate"] == now
  }

  function ContainersExceptStamp(db: Table): Table {
    Records(db, DS.DOCKER_PREFIX) - {DOCKER_STAMP}
  }

  function ProcessesExceptStamp(db: Table): Table {
    Records(db, PS.PROCESS_PREFIX) - {PROCESS_STAMP}
  }

  /** The tables agree except under the key. */
  ghost predicate OnlyAt(before: Table, after: Table, key: string) {
    forall k | k != key :: (k in before <==> k in after) && (k in before ==> before[k] == after[k])
  }

  lemma PrefixesDiffer(k: string)
    requires DS.DOCKER_PREFIX <= k
    ensures !(PS.PROCESS_PREFIX <= k)
  {
    assert k[0] == 'D' && PS.PROCESS_PREFIX[0] == 'P';
  }

  lemma SameOthers(before: Table, after: Table, prefix: string, k: string)
    requires Others(before, prefix) == Others(after, prefix) && !(prefix <= k)
    ensures (k in before <==> k in after) && (k in before ==> before[k] == after[k])
  {
    assert k in before <==> k in Others(before, prefix);
    assert k in after <==> k in Others(after, prefix);
  }

  lemma OnlyAtRecords(before: Table, after: Table, prefix: string, key: string)
    requires OnlyAt(before, after, key)
    ensures Records(after, prefix) - {key} == Records(before, prefix) - {key}
  {
  }

  /** The process refresh and its stamp leave the containers alone. */
  lemma ContainersStay(d1: Table, d2: Table, d3: Table, d4: Table)
    requires OnlyAt(d1, d2, DOCKER_STAMP)
    requires Others(d3, PS.PROCESS_PREFIX) == Others(d2, PS.PROCESS_PREFIX) && OnlyAt(d3, d4, PROCESS_STAMP)
    ensures ContainersExceptStamp(d4) == ContainersExceptStamp(d1)
  {
    forall k | DS.DOCKER_PREFIX <= k && k != DOCKER_STAMP
      ensures (k in d4 <==> k in d1) && (k in d4 ==> d4[k] == d1[k])
    {
      PrefixesDiffer(k);
      SameOthers(d2, d3, PS.PROCESS_PREFIX, k);
    }
  }

  /** Keys under neither prefix are as before. */
  ghost predicate ElsewhereKept(before: Table, after: Table) {
    forall k | !(DS.DOCKER_PREFIX <= k) && !(PS.PROCESS_PREFIX <= k) ::
      (k in after <==> k in before) && (k in after ==> after[k] == before[k])
  }

  lemma ElsewhereStays(d0: Table, d1: Table, d2: Table, d3: Table, d4: Table)
    requires Others(d1, DS.DOCKER_PREFIX) == Others(d0, DS.DOCKER_PREFIX) && OnlyAt(d1, d2, DOCKER_STAMP)
    requires Others(d3, PS.PROCESS_PREFIX) == Others(d2, PS.PROCESS_PREFIX) && OnlyAt(d3, d4, PROCESS_STAMP)
    ensures ElsewhereKept(d0, d4)
  {
    forall k | !(DS.DOCKER_PREFIX <= k) && !(PS.PROCESS_PREFIX <= k)
      ensures (k in d4 <==> k in d0) && (k in d4 ==> d4[k] == d0[k])
    {
      SameOthers(d0, d1, DS.DOCKER_PREFIX, k);
      SameOthers(d2, d3, PS.PROCESS_PREFIX, k);
    }
  }

  /** The process refresh keeps the stamp of the containers. */
  lemma StampStays(d2: Table, d3: Table, d4: Table, now: string)
    requires Others(d3, PS.PROCESS_PREFIX) == Others(d2, PS.PROCESS_PREFIX) && OnlyAt(d3, d4, PROCESS_STAMP)
    ensures StampedAt(d2, DOCKER_STAMP, now) ==> StampedAt(d4, DOCKER_STAMP, now)
  {
    PrefixesDiffer(DOCKER_STAMP);
    SameOthers(d2, d3, PS.PROCESS_PREFIX, DOCKER_STAMP);
  }

  predicate NothingKept(output: Option<seq<DS.Line>>) {
    output.None? || forall i | 0 <= i < |output.value| :: !DS.Kept(output.value[i])
  }

  /** The containers are the parsed ones, the key of the time stamp aside. */
  ghost predicate ContainersParsed(output: Option<seq<DS.Line>>, containers: Table) {
    output.Some? && exists dict :: Filled(DS.Outcomes(output.value), dict) && containers == dict - {DOCKER_STAMP}
  }

  lemma StampIsNoKey(p: PS.Process)
    ensures PS.ProcessKey(p) != PROCESS_STAMP
  {
    assert PROCESS_STAMP[|PS.PROCESS_PREFIX|] == 'L';
    var digits := Decimal(p.pid);
    assert PS.ProcessKey(p)[|PS.PROCESS_PREFIX|] == digits[0];
    assert digits[0] in digits;
  }

  lemma ItemFields(items: seq<(string, Fields)>, top: seq<Selection.Entry>, ps: seq<PS.Process>, i: nat)
    requires PS.DistinctIn(top, ps) && items == ProcessItems(top, ps) && i < |items|
    ensures items[i].0 == PS.ProcessKey(ps[top[i].process]) && PS.Shows(items[i].1, ps[top[i].process])
  {
    PS.RecordShowsProcess(ps[top[i].process]);
  }

  /** A successful process refresh also wipes the time stamp of the process records. */
  lemma NoProcessIsTheStamp(db: Table, top: seq<Selection.Entry>, ps: seq<PS.Process>)
    requires PS.DistinctIn(top, ps) && Holds(Records(db, PS.PROCESS_PREFIX), ProcessItems(top, ps))
    ensures PROCESS_STAMP !in db && ProcessesExceptStamp(db) == Records(db, PS.PROCESS_PREFIX)
  {
    var items := ProcessItems(top, ps);
    forall i | 0 <= i < |items| ensures items[i].0 != PROCESS_STAMP {
      ItemFields(items, top, ps, i);
      StampIsNoKey(ps[top[i].process]);
    }
    assert PROCESS_STAMP !in Records(db, PS.PROCESS_PREFIX);
  }

  /* ----- the process table after a successful refresh ----- */

  lemma {:induction false} AsManyAsItems(records: Table, items: seq<(string, Fields)>)
    requires DistinctKeys(items) && Holds(records, items)
    ensures |records| == |items|
  {
    if items == [] {
      assert records.Keys == {};
    } else {
      var n := |items| - 1;
      var fewer := records - {items[n].0};
      forall k | k in fewer ensures exists i | 0 <= i < |items[..n]| :: items[..n][i].0 == k {
        var i :| 0 <= i < |items| && items[i].0 == k;
        assert items[..n][i].0 == k;
      }
      AsManyAsItems(fewer, items[..n]);
      assert records.Keys == fewer.Keys + {items[n].0};
    }
  }

  /** The record that is under the pid of the process, as its numeral, shows the process. */
  ghost predicate Recorded(after: Table, p: PS.Process) {
    var key := "PROCESS_STATS|" + Decimal(p.pid);
    key in after && PS.Shows(after[key], p)
  }

  ghost predicate OneRecordEach(after: Table, top: seq<Selection.Entry>, ps: seq<PS.Process>)
    requires PS.DistinctIn(top, ps)
  {
    && |Records(after, "PROCESS_STATS|")| == |top|
    && (forall i | 0 <= i < |top| :: Recorded(after, ps[top[i].process]))
    && (forall k | k in Records(after, "PROCESS_STATS|") ::
          exists i | 0 <= i < |top| :: k == "PROCESS_STATS|" + Decimal(ps[top[i].process].pid))
  }

  /**
    A successful refresh leaves exactly one record per selected process, with nine fields that show
    that process, and nothing stale: no other record has the prefix.
  */
  lemma OneRecordPerSelectedProcess(after: Table, top: seq<Selection.Entry>, ps: seq<PS.Process>)
    requires PS.DistinctPids(ps) && PS.DistinctIn(top, ps)
    requires Holds(Records(after, PS.PROCESS_PREFIX), ProcessItems(top, ps))
    ensures OneRecordEach(after, top, ps)
  {
    var items, records := ProcessItems(top, ps), Records(after, PS.PROCESS_PREFIX);
    ProcessItemsDistinct(top, ps);
    AsManyAsItems(records, items);
    forall i | 0 <= i < |top| ensures Recorded(after, ps[top[i].process]) {
      ItemFields(items, top, ps, i);
      assert items[i].0 in records;
    }
    forall k | k in records ensures exists i | 0 <= i < |top| :: k == "PROCESS_STATS|" + Decimal(ps[top[i].process].pid) {
      var i :| 0 <= i < |items| && items[i].0 == k;
      ItemFields(items, top, ps, i);
    }
  }
}
