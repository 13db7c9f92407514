/**
  The partial selection of the busiest processes (crates/procdockerstatsd-rs/src/main.rs): the
  vector is reordered in place so that its first `limit` elements are the top ones, instead of
  being sorted.
*/
module Selection {
  /** A process with the key `total_cmp` orders its CPU usage by; the order of the keys is that of the floats. */
  datatype Entry = Entry(cpu: int, process: nat)

  predicate AtLeast(a: Entry, b: Entry) { a.cpu >= b.cpu }

  /** Everything before `k` is at least everything from `k` on. */
  ghost predicate SplitAt(s: seq<Entry>, k: int) {
    forall i, j | 0 <= i < k && k <= j < |s| && i < |s| :: s[i].cpu >= s[j].cpu
  }

  function Swapped(s: seq<Entry>, i: nat, j: nat): (t: seq<Entry>)
    requires i < |s| && j < |s|
    ensures |t| == |s|
  {
    s[i := s[j]][j := s[i]]
  }

  lemma SwappedPermutes(s: seq<Entry>, i: nat, j: nat)
    requires i < |s| && j < |s|
    ensures multiset(Swapped(s, i, j)) == multiset(s)
  {
  }

  /** Swapping within [lo, hi) keeps both bounds. */
  lemma SwappedKeepsBounds(s: seq<Entry>, i: nat, j: nat, lo: nat, hi: nat)
    requires lo <= i < hi <= |s| && lo <= j < hi && SplitAt(s, lo) && SplitAt(s, hi)
    ensures SplitAt(Swapped(s, i, j), lo) && SplitAt(Swapped(s, i, j), hi)
  {
  }

  method Swap(a: array<Entry>, i: nat, j: nat)
    requires i < a.Length && j < a.Length
    modifies a
    ensures a[..] == Swapped(old(a[..]), i, j)
  {
    a[i], a[j] := a[j], a[i];
  }

  /** The vector is `s` in some order, still bounded at `lo` and `hi`. */
  ghost predicate Rearranged(s: seq<Entry>, was: seq<Entry>, lo: nat, hi: nat) {
    multiset(s) == multiset(was) && SplitAt(s, lo) && SplitAt(s, hi)
  }

  lemma SwapRearranges(s: seq<Entry>, was: seq<Entry>, i: nat, j: nat, lo: nat, hi: nat)
    requires lo <= i < hi <= |s| && lo <= j < hi && Rearranged(s, was, lo, hi)
    ensures Rearranged(Swapped(s, i, j), was, lo, hi)
  {
    SwappedPermutes(s, i, j);
    SwappedKeepsBounds(s, i, j, lo, hi);
  }

  /** Up to `i`, the elements of [lo, p) are at least `pivot` and those of [p, i) less; the pivot waits at the end. */
  ghost predicate Parted(s: seq<Entry>, lo: nat, p: nat, i: nat, hi: nat, pivot: int) {
    && lo <= p <= i < hi <= |s| && s[hi - 1].cpu == pivot
    && (forall k | lo <= k < p :: s[k].cpu >= pivot)
    && (forall k | p <= k < i :: s[k].cpu < pivot)
  }

  lemma PartedStep(s: seq<Entry>, lo: nat, p: nat, i: nat, hi: nat, pivot: int)
    requires Parted(s, lo, p, i, hi, pivot) && i < hi - 1
    ensures s[i].cpu >= pivot ==> Parted(Swapped(s, p, i), lo, p + 1, i + 1, hi, pivot)
    ensures s[i].cpu < pivot ==> Parted(s, lo, p, i + 1, hi, pivot)
  {
  }

  /** Moving the pivot between the two parts splits the whole at it. */
  lemma PivotSplits(s: seq<Entry>, lo: nat, p: nat, hi: nat, pivot: int)
    requires 0 < hi && Parted(s, lo, p, hi - 1, hi, pivot) && SplitAt(s, lo) && SplitAt(s, hi)
    ensures var t := Swapped(s, p, hi - 1); SplitAt(t, p) && SplitAt(t, p + 1)
  {
    var t := Swapped(s, p, hi - 1);
    SwappedKeepsBounds(s, p, hi - 1, lo, hi);
    assert forall k | lo <= k < p :: t[k].cpu >= pivot;
    assert forall k | p < k < hi :: t[k].cpu < pivot;
    assert t[p].cpu == pivot;
    assert forall i, k | 0 <= i < p + 1 && p < k < |t| :: t[i].cpu >= t[k].cpu;
    assert forall i, k | 0 <= i < p && p <= k < |t| :: t[i].cpu >= t[k].cpu;
  }

  /** The scan of a partition: those at least the pivot, which waits at the end, come first, up to `p`. */
  method Scan(a: array<Entry>, lo: nat, hi: nat) returns (p: nat)
    requires lo < hi <= a.Length
    requires SplitAt(a[..], lo) && SplitAt(a[..], hi)
    modifies a
    ensures a[hi - 1] == old(a[hi - 1]) && Parted(a[..], lo, p, hi - 1, hi, a[hi - 1].cpu)
    ensures Rearranged(a[..], old(a[..]), lo, hi)
  {
    var pivot := a[hi - 1].cpu;
    p := lo;
    var i := lo;
    while i < hi - 1
      invariant a[hi - 1] == old(a[hi - 1]) && Parted(a[..], lo, p, i, hi, pivot)
      invariant Rearranged(a[..], old(a[..]), lo, hi)
    {
      ghost var s := a[..];
      PartedStep(s, lo, p, i, hi, pivot);
      if a[i].cpu >= pivot {
        SwapRearranges(s, old(a[..]), p, i, lo, hi);
        Swap(a, p, i);
        assert a[..] == Swapped(s, p, i);
        p := p + 1;
      }
      i := i + 1;
    }
  }

  /**
    Rearranges a[lo..hi] around one of its elements, which ends up at `p`; the rest of the array and
    the bounds at `lo` and `hi` are kept.
  */
  method Partition(a: array<Entry>, lo: nat, hi: nat) returns (p: nat)
    requires lo < hi <= a.Length
    requires SplitAt(a[..], lo) && SplitAt(a[..], hi)
    modifies a
    ensures lo <= p < hi
    ensures Rearranged(a[..], old(a[..]), lo, hi)
    ensures SplitAt(a[..], p) && SplitAt(a[..], p + 1)
  {
    p := Scan(a, lo, hi);
    ghost var s := a[..];
    SwapRearranges(s, old(a[..]), p, hi - 1, lo, hi);
    PivotSplits(s, lo, p, hi, a[hi - 1].cpu);
    Swap(a, p, hi - 1);
    assert a[..] == Swapped(s, p, hi - 1);
  }

  /** select_nth_unstable_by(k, descending): element `k` is where a full sort would put it. */
  method SelectNth(a: array<Entry>, k: nat)
    requires k < a.Length
    modifies a
    ensures multiset(a[..]) == multiset(old(a[..]))
    ensures SplitAt(a[..], k) && SplitAt(a[..], k + 1)
  {
    var lo: nat, hi: nat := 0, a.Length;
    while true
      invariant lo <= k < hi <= a.Length
      invariant Rearranged(a[..], old(a[..]), lo, hi)
      decreases hi - lo
    {
      var p := Partition(a, lo, hi);
      if p == k {
        return;
      } else if k < p {
        hi := p;
      } else {
        lo := p + 1;
      }
    }
  }

  /* ----- the full sort it stands for ----- */

  function Keys(s: seq<Entry>): (r: seq<int>)
    ensures |r| == |s| && forall i | 0 <= i < |s| :: r[i] == s[i].cpu
  {
    seq(|s|, i requires 0 <= i < |s| => s[i].cpu)
  }

  ghost predicate Descending(s: seq<int>) {
    forall i, j | 0 <= i < j < |s| :: s[i] >= s[j]
  }

  function Insert(x: int, s: seq<int>): seq<int> {
    if s == [] then [x] else if x >= s[0] then [x] + s else [s[0]] + Insert(x, s[1..])
  }

  /** The CPU keys in descending order. */
  function Sort(s: seq<int>): seq<int> {
    if s == [] then [] else Insert(s[0], Sort(s[1..]))
  }

  lemma {:induction false} InsertPermutes(x: int, s: seq<int>)
    ensures multiset(Insert(x, s)) == multiset([x] + s)
  {
    if s != [] && x < s[0] {
      InsertPermutes(x, s[1..]);
      assert s == [s[0]] + s[1..];
    }
  }

  /** In terms of bounds: what is at most `b` stays so with `x` inserted, if `x` is. */
  predicate AtMost(s: seq<int>, b: int) {
    forall i | 0 <= i < |s| :: s[i] <= b
  }

  lemma {:induction false} InsertSorts(x: int, s: seq<int>)
    requires Descending(s)
    ensures Descending(Insert(x, s))
    ensures forall b | x <= b && AtMost(s, b) :: AtMost(Insert(x, s), b)
  {
    if s != [] && x < s[0] {
      InsertSorts(x, s[1..]);
      assert AtMost(s[1..], s[0]);
      assert forall b | AtMost(s, b) :: AtMost(s[1..], b);
    }
  }

  lemma {:induction false} InsertLength(x: int, s: seq<int>)
    ensures |Insert(x, s)| == |s| + 1
  {
    if s != [] {
      InsertLength(x, s[1..]);
    }
  }

  lemma {:induction false} SortSorts(s: seq<int>)
    ensures Descending(Sort(s)) && multiset(Sort(s)) == multiset(s) && |Sort(s)| == |s|
  {
    if s != [] {
      SortSorts(s[1..]);
      OneMoreSorted(s[0], s[1..], Sort(s[1..]));
      assert s == [s[0]] + s[1..];
    }
  }

  lemma OneMoreSorted(x: int, rest: seq<int>, sorted: seq<int>)
    requires Descending(sorted) && multiset(sorted) == multiset(rest) && |sorted| == |rest|
    ensures var s := Insert(x, sorted); Descending(s) && multiset(s) == multiset([x] + rest) && |s| == |rest| + 1
  {
    InsertSorts(x, sorted);
    InsertPermutes(x, sorted);
    InsertLength(x, sorted);
  }

  lemma SameMembers<T>(a: seq<T>, b: seq<T>)
    requires multiset(a) == multiset(b)
    ensures forall x | x in a :: x in b
  {
    forall x | x in a ensures x in b {
      assert x in multiset(a);
    }
  }

  /** A sequence without one of its elements. */
  function Without<T>(s: seq<T>, i: nat): seq<T>
    requires i < |s|
  {
    s[..i] + s[i + 1..]
  }

  lemma WithoutMultiset<T>(s: seq<T>, i: nat)
    requires i < |s|
    ensures multiset(s) == multiset(Without(s, i)) + multiset{s[i]}
  {
    assert s == s[..i] + ([s[i]] + s[i + 1..]);
    assert multiset(s) == multiset(s[..i]) + (multiset{s[i]} + multiset(s[i + 1..]));
  }

  /** There is only one way to put a multiset in descending order. */
  lemma {:induction false} DescendingUnique(a: seq<int>, b: seq<int>)
    requires Descending(a) && Descending(b) && multiset(a) == multiset(b) && |a| == |b|
    ensures a == b
  {
    if a != [] {
      TailsAgree(a, b);
      DescendingUnique(a[1..], b[1..]);
      assert a == [a[0]] + a[1..] && b == [b[0]] + b[1..];
    }
  }

  lemma TailsAgree(a: seq<int>, b: seq<int>)
    requires a != [] && b != [] && Descending(a) && Descending(b) && multiset(a) == multiset(b)
    ensures a[0] == b[0] && multiset(a[1..]) == multiset(b[1..])
  {
    SameHead(a, b);
    WithoutMultiset(a, 0);
    WithoutMultiset(b, 0);
    assert Without(a, 0) == a[1..] && Without(b, 0) == b[1..];
    SumCancels(multiset(a[1..]), multiset(b[1..]), multiset{a[0]});
  }

  lemma SumCancels<T>(a: multiset<T>, b: multiset<T>, c: multiset<T>)
    requires a + c == b + c
    ensures a == b
  {
    forall x ensures a[x] == b[x] {
      assert (a + c)[x] == a[x] + c[x] && (b + c)[x] == b[x] + c[x];
    }
  }

  lemma SameHead(a: seq<int>, b: seq<int>)
    requires a != [] && b != [] && Descending(a) && Descending(b) && multiset(a) == multiset(b)
    ensures a[0] == b[0]
  {
    SameMembers(a, b);
    SameMembers(b, a);
    assert a[0] in b && b[0] in a;
  }

  lemma KeysWithout(s: seq<Entry>, i: nat)
    requires i < |s|
    ensures multiset(Keys(s)) == multiset(Keys(Without(s, i))) + multiset{s[i].cpu}
  {
    WithoutMultiset(Keys(s), i);
    assert Without(Keys(s), i) == Keys(Without(s, i));
  }

  lemma {:induction false} KeysMultiset(s: seq<Entry>, t: seq<Entry>)
    requires multiset(s) == multiset(t) && |s| == |t|
    ensures multiset(Keys(s)) == multiset(Keys(t))
  {
    if s != [] {
      SameMembers(s, t);
      assert s[0] in t;
      var i :| 0 <= i < |t| && t[i] == s[0];
      WithoutMultiset(s, 0);
      WithoutMultiset(t, i);
      SumCancels(multiset(Without(s, 0)), multiset(Without(t, i)), multiset{s[0]});
      KeysMultiset(Without(s, 0), Without(t, i));
      KeysWithout(s, 0);
      KeysWithout(t, i);
    }
  }

  lemma JoinDescends(a: seq<int>, b: seq<int>)
    requires Descending(a) && Descending(b) && forall i, j | 0 <= i < |a| && 0 <= j < |b| :: a[i] >= b[j]
    ensures Descending(a + b)
  {
  }

  /** A CPU key of the first part is at least any of the second. */
  lemma PartsApart(s: seq<Entry>, limit: nat, x: int, y: int)
    requires limit <= |s| && SplitAt(s, limit) && x in Keys(s[..limit]) && y in Keys(s[limit..])
    ensures x >= y
  {
    var i :| 0 <= i < |Keys(s[..limit])| && Keys(s[..limit])[i] == x;
    var j :| 0 <= j < |Keys(s[limit..])| && Keys(s[limit..])[j] == y;
    assert s[i].cpu == x && s[limit + j].cpu == y;
  }

  /** Of two parts of a split sequence, sorted separately, the first goes before the second. */
  lemma SortedPartsJoin(s: seq<Entry>, limit: nat)
    requires limit <= |s| && SplitAt(s, limit)
    ensures Descending(Sort(Keys(s[..limit])) + Sort(Keys(s[limit..])))
  {
    var top, rest := Keys(s[..limit]), Keys(s[limit..]);
    SortSorts(top);
    SortSorts(rest);
    SameMembers(Sort(top), top);
    SameMembers(Sort(rest), rest);
    forall i, j | 0 <= i < |Sort(top)| && 0 <= j < |Sort(rest)| ensures Sort(top)[i] >= Sort(rest)[j] {
      PartsApart(s, limit, Sort(top)[i], Sort(rest)[j]);
    }
    JoinDescends(Sort(top), Sort(rest));
  }

  lemma SameLength<T>(a: seq<T>, b: seq<T>)
    requires multiset(a) == multiset(b)
    ensures |a| == |b|
  {
    assert |multiset(a)| == |multiset(b)|;
  }

  lemma SortedPartsPermute(before: seq<Entry>, after: seq<Entry>, limit: nat)
    requires multiset(after) == multiset(before) && limit <= |after|
    ensures var joined := Sort(Keys(after[..limit])) + Sort(Keys(after[limit..]));
            multiset(joined) == multiset(Sort(Keys(before))) && |joined| == |Sort(Keys(before))|
  {
    var top, rest := Keys(after[..limit]), Keys(after[limit..]);
    SameLength(after, before);
    KeysMultiset(after, before);
    SortSorts(top);
    SortSorts(rest);
    SortSorts(Keys(before));
    assert Keys(after) == top + rest;
  }

  /**
    The selection refines a full descending sort: of any rearrangement of `before` split at `limit`,
    the first `limit` elements, put in order, have exactly the CPU keys of the first `limit` of the
    sorted list.
  */
  lemma SelectionRefinesSort(before: seq<Entry>, after: seq<Entry>, limit: nat)
    requires multiset(after) == multiset(before) && limit <= |after| && SplitAt(after, limit)
    ensures limit <= |Sort(Keys(before))|
    ensures Sort(Keys(after[..limit])) == Sort(Keys(before))[..limit]
    ensures multiset(Keys(after[..limit])) == multiset(Sort(Keys(before))[..limit])
  {
    var top, rest, all := Keys(after[..limit]), Keys(after[limit..]), Keys(before);
    SortSorts(top);
    SortSorts(rest);
    SortSorts(all);
    SortedPartsJoin(after, limit);
    SortedPartsPermute(before, after, limit);
    DescendingUnique(Sort(top) + Sort(rest), Sort(all));
    assert Sort(all)[..limit] == Sort(top);
  }
}
