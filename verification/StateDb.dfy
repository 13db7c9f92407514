/** STATE_DB as the statistics daemon uses it (crates/procdockerstatsd-rs/src/main.rs): hashes under keys. */
module StateDb {
  type Fields = map<string, string>
  type Table = map<string, Fields>

  /** The records whose key starts with the prefix, and the rest of the database. */
  function Records(db: Table, prefix: string): Table {
    map k | k in db && prefix <= k :: db[k]
  }

  function Others(db: Table, prefix: string): Table {
    map k | k in db && !(prefix <= k) :: db[k]
  }

  /** The records are exactly these: one per item, and no more. */
  ghost predicate Holds(records: Table, items: seq<(string, Fields)>) {
    && (forall i | 0 <= i < |items| :: items[i].0 in records && records[items[i].0] == items[i].1)
    && (forall k | k in records :: exists i | 0 <= i < |items| :: items[i].0 == k)
  }

  ghost predicate Within(a: Table, b: Table) {
    forall k | k in a :: k in b && a[k] == b[k]
  }

  /** The records are some of these items. */
  ghost predicate SomeOf(records: Table, items: seq<(string, Fields)>) {
    forall k | k in records :: exists i | 0 <= i < |items| :: items[i] == (k, records[k])
  }

  /** Wiped and rewritten: the records under the prefix are the items, everything else is as before. */
  ghost predicate Rewritten(before: Table, after: Table, prefix: string, items: seq<(string, Fields)>) {
    Others(after, prefix) == Others(before, prefix) && Holds(Records(after, prefix), items)
  }

  /** A rewrite that failed: only old records are left, or only new ones; everything else is as before. */
  ghost predicate PartlyRewritten(before: Table, after: Table, prefix: string, items: seq<(string, Fields)>) {
    && Others(after, prefix) == Others(before, prefix)
    && (Within(Records(after, prefix), Records(before, prefix)) || SomeOf(Records(after, prefix), items))
  }

  ghost predicate DistinctKeys(items: seq<(string, Fields)>) {
    forall i, j | 0 <= i < j < |items| :: items[i].0 != items[j].0
  }

  ghost predicate AllUnder(items: seq<(string, Fields)>, prefix: string) {
    forall i | 0 <= i < |items| :: prefix <= items[i].0
  }

  /** Writing a key changes only the records under its own prefix. */
  lemma WriteStep(db: Table, prefix: string, key: string, fields: Fields)
    requires prefix <= key
    ensures Others(db[key := fields], prefix) == Others(db, prefix)
    ensures Records(db[key := fields], prefix) == Records(db, prefix)[key := fields]
  {
  }

  lemma RemoveStep(db: Table, prefix: string, key: string)
    requires prefix <= key
    ensures Others(db - {key}, prefix) == Others(db, prefix)
    ensures Records(db - {key}, prefix) == Records(db, prefix) - {key}
  {
  }

  lemma HoldsIsSome(records: Table, items: seq<(string, Fields)>, n: nat)
    requires n <= |items| && Holds(records, items[..n])
    ensures SomeOf(records, items)
  {
    forall k | k in records ensures exists i | 0 <= i < |items| :: items[i] == (k, records[k]) {
      var i :| 0 <= i < |items[..n]| && items[..n][i].0 == k;
      assert items[i] == (k, records[k]);
    }
  }

  lemma HoldsNext(records: Table, items: seq<(string, Fields)>, n: nat)
    requires n < |items| && DistinctKeys(items) && Holds(records, items[..n])
    ensures items[n].0 !in records
    ensures Holds(records[items[n].0 := items[n].1], items[..n + 1])
    ensures SomeOf(records[items[n].0 := items[n].1], items)
  {
    var next := records[items[n].0 := items[n].1];
    forall k | k in records ensures exists i | 0 <= i < n :: items[i].0 == k {
      var i :| 0 <= i < |items[..n]| && items[..n][i].0 == k;
    }
    var part := items[..n + 1];
    forall k | k in next ensures exists i | 0 <= i < |part| :: part[i].0 == k {
      if k != items[n].0 {
        var i :| 0 <= i < n && items[i].0 == k;
        assert part[i].0 == k;
      } else {
        assert part[n].0 == k;
      }
    }
    assert forall i | 0 <= i < n :: items[..n][i] == items[i];
    HoldsIsSome(next, items, n + 1);
  }

  /** The items determine the records. */
  lemma HoldsUnique(a: Table, b: Table, items: seq<(string, Fields)>)
    requires Holds(a, items) && Holds(b, items)
    ensures a == b
  {
    assert a.Keys == b.Keys;
    assert forall k | k in a :: a[k] == b[k];
  }
}
