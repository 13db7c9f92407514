/** A table filled from items in order, where an item may be void and a later item for a key replaces an earlier one. */
module LastWins {
  datatype Item<+K, +V> = Void | Item(key: K, value: V)

  /** Item `i` is the last one for its key. */
  ghost predicate LastFor<K, V>(items: seq<Item<K, V>>, i: int, key: K) {
    && 0 <= i < |items| && items[i].Item? && items[i].key == key
    && forall j | i < j < |items| :: items[j].Item? ==> items[j].key != key
  }

  /** Exactly the keys of the items, each with the value of its last item. */
  ghost predicate Filled<K, V>(items: seq<Item<K, V>>, table: map<K, V>) {
    && (forall k | k in table :: exists i :: LastFor(items, i, k) && table[k] == items[i].value)
    && (forall i | 0 <= i < |items| :: items[i].Item? ==> items[i].key in table)
  }

  /** The items determine the table. */
  lemma FilledUnique<K, V>(items: seq<Item<K, V>>, a: map<K, V>, b: map<K, V>)
    requires Filled(items, a) && Filled(items, b)
    ensures a == b
  {
    forall k | k in a ensures k in b && a[k] == b[k] {
      var i :| LastFor(items, i, k) && a[k] == items[i].value;
      var j :| LastFor(items, j, k) && b[k] == items[j].value;
    }
    forall k | k in b ensures k in a {
      var j :| LastFor(items, j, k) && b[k] == items[j].value;
    }
  }

  lemma VoidSkipped<K, V>(items: seq<Item<K, V>>, table: map<K, V>)
    requires Filled(items, table)
    ensures Filled(items + [Void], table)
  {
    var next := items + [Void];
    forall k | k in table ensures exists i :: LastFor(next, i, k) && table[k] == next[i].value {
      var i :| LastFor(items, i, k) && table[k] == items[i].value;
      assert LastFor(next, i, k);
    }
  }

  lemma ItemReplaces<K, V>(items: seq<Item<K, V>>, table: map<K, V>, key: K, value: V)
    requires Filled(items, table)
    ensures Filled(items + [Item(key, value)], table[key := value])
  {
    var next, updated := items + [Item(key, value)], table[key := value];
    forall k | k in updated ensures exists i :: LastFor(next, i, k) && updated[k] == next[i].value {
      if k == key {
        assert LastFor(next, |items|, k);
      } else {
        var i :| LastFor(items, i, k) && table[k] == items[i].value;
        assert LastFor(next, i, k);
      }
    }
  }

  lemma EmptyIffAllVoid<K, V>(items: seq<Item<K, V>>, table: map<K, V>)
    requires Filled(items, table)
    ensures table == map[] <==> forall i | 0 <= i < |items| :: items[i].Void?
  {
    if table != map[] {
      var k :| k in table;
      var i :| LastFor(items, i, k) && table[k] == items[i].value;
    }
  }
}
