/** Whole histories of ssh_mgmt calls, with any primitive failing at any time (host_modules/ssh_mgmt.py). */
module SshHistory {
  import opened FileFaults
  import opened SshFiles
  import opened SshRuns
  import opened Wrappers

  /** A call of the service, or something else on the switch editing files outside the checkpoint directory. */
  datatype Call = Create | Restore | Delete | SetKeys(request: Request) | Outside

  /** What may happen outside the service: files outside the checkpoint directory change. */
  ghost predicate Meanwhile(a: Disk, b: Disk) {
    b.checkpoint == a.checkpoint && b.treeFaults == a.treeFaults && forall f :: Same(a, Saved(f), b, Saved(f))
  }

  ghost predicate Does(a: Disk, b: Disk, call: Call, r: Reply) {
    match call
    case Create => Creates(a, b, r)
    case Restore => Restores(a, b, r)
    case Delete => Deletes(a, b, r)
    case SetKeys(request) => Sets(a, b, request, r)
    case Outside => Meanwhile(a, b)
  }

  ghost predicate IsHistory(disks: seq<Disk>, calls: seq<Call>, replies: seq<Reply>) {
    && |disks| == |calls| + 1 && |replies| == |calls|
    && forall i | 0 <= i < |calls| :: Does(disks[i], disks[i + 1], calls[i], replies[i])
  }

  /** Call `k` creates a checkpoint, and no call from there up to call `n` does. */
  ghost predicate LatestCreate(calls: seq<Call>, replies: seq<Reply>, k: nat, n: nat)
    requires |replies| == |calls|
  {
    && k < n <= |calls| && calls[k] == Create && replies[k] == Code(0)
    && forall i | k < i < n :: calls[i] != Create
  }

  /** No call alters a saved copy: up to the next create, a copy that is there is the file as it was at the create. */
  lemma {:induction false} SavedCopiesNeverAltered(disks: seq<Disk>, calls: seq<Call>, replies: seq<Reply>, k: nat, n: nat)
    requires IsHistory(disks, calls, replies) && LatestCreate(calls, replies, k, n)
    ensures forall f | Saved(f) in disks[n].files :: Same(disks[k], Live(f), disks[n], Saved(f))
    decreases n
  {
    assert Does(disks[n - 1], disks[n], calls[n - 1], replies[n - 1]);
    if k + 1 < n {
      SavedCopiesNeverAltered(disks, calls, replies, k, n - 1);
    }
  }

  /**
    For every history with any failures: when the latest create returned 0 and restore returns 0,
    each file whose saved copy is still there gets exactly the content it had at that create, and
    every other file keeps exactly what it has now.
  */
  lemma RestoreGivesBackSavedFiles(disks: seq<Disk>, calls: seq<Call>, replies: seq<Reply>, k: nat, n: nat)
    requires IsHistory(disks, calls, replies) && LatestCreate(calls, replies, k, n)
    requires n < |calls| && calls[n] == Restore && replies[n] == Code(0)
    ensures forall f :: if Saved(f) in disks[n].files then Live(f) in disks[k].files && Same(disks[k], Live(f), disks[n + 1], Live(f))
                        else Same(disks[n], Live(f), disks[n + 1], Live(f))
  {
    SavedCopiesNeverAltered(disks, calls, replies, k, n);
    assert Does(disks[n], disks[n + 1], calls[n], replies[n]);
  }

  /**
    So a restore that returns 0 brings every file back that there was at the latest create if and only
    if each one that has no saved copy left has its content from then anyway.
  */
  lemma RestoredIffCopiesOrContentsLeft(disks: seq<Disk>, calls: seq<Call>, replies: seq<Reply>, k: nat, n: nat)
    requires IsHistory(disks, calls, replies) && LatestCreate(calls, replies, k, n)
    requires n < |calls| && calls[n] == Restore && replies[n] == Code(0)
    ensures (forall f | Live(f) in disks[k].files :: Same(disks[k], Live(f), disks[n + 1], Live(f))) <==>
            (forall f | Live(f) in disks[k].files && Saved(f) !in disks[n].files :: Same(disks[k], Live(f), disks[n], Live(f)))
  {
    RestoreGivesBackSavedFiles(disks, calls, replies, k, n);
  }

  /** A removal of the checkpoint directory that fails leaves the copies in place. */
  ghost predicate RemovalAllOrNothing(a: Disk, b: Disk) {
    b.checkpoint && b.treeFaults != a.treeFaults ==> forall f :: Same(a, Saved(f), b, Saved(f))
  }

  lemma {:induction false} CheckpointStaysWhole(disks: seq<Disk>, calls: seq<Call>, replies: seq<Reply>, k: nat, n: nat)
    requires IsHistory(disks, calls, replies) && LatestCreate(calls, replies, k, n)
    requires forall i | k < i < n :: RemovalAllOrNothing(disks[i], disks[i + 1])
    requires disks[n].checkpoint
    ensures forall f :: Same(disks[k], Live(f), disks[n], Saved(f))
    decreases n
  {
    assert Does(disks[n - 1], disks[n], calls[n - 1], replies[n - 1]);
    if k + 1 < n {
      assert disks[n - 1].checkpoint;
      CheckpointStaysWhole(disks, calls, replies, k, n - 1);
      assert RemovalAllOrNothing(disks[n - 1], disks[n]);
    }
  }

  /**
    If moreover no failed removal took only a part of the checkpoint (none at all failed, for one),
    restore returning 0 means: every file that existed at the latest create has its content from
    then, and a file absent then keeps its current content.
  */
  lemma RestoreUndoesEverySet(disks: seq<Disk>, calls: seq<Call>, replies: seq<Reply>, k: nat, n: nat)
    requires IsHistory(disks, calls, replies) && LatestCreate(calls, replies, k, n)
    requires n < |calls| && calls[n] == Restore && replies[n] == Code(0)
    requires forall i | k < i < n :: RemovalAllOrNothing(disks[i], disks[i + 1])
    ensures forall f :: if Live(f) in disks[k].files then Same(disks[k], Live(f), disks[n + 1], Live(f))
                        else Same(disks[n], Live(f), disks[n + 1], Live(f))
    ensures !disks[n + 1].checkpoint
  {
    assert Does(disks[n], disks[n + 1], calls[n], replies[n]);
    CheckpointStaysWhole(disks, calls, replies, k, n);
    RestoreGivesBackSavedFiles(disks, calls, replies, k, n);
  }

  /** Where nothing fails, copying answers 0. */
  lemma {:induction false} FineCopies(files: Files, srcs: seq<Path>, dsts: seq<Path>, n: nat)
    requires |srcs| == |dsts| && n <= |srcs|
    ensures FilesCopied(files, srcs, dsts, [], n).1 == 0
  {
    if n > 0 {
      FineCopies(files, srcs, dsts, n - 1);
    }
  }

  lemma FineRestore(d: Disk)
    requires d.checkpoint
    ensures Restored(d, RestoreFaults([], Gone)).1 == Code(0)
  {
    FineCopies(d.files, SAVED_TWICE, LIVE_TWICE, 6);
  }

  /**
    A delete that stops half-way answers 1 and leaves a checkpoint that restore then accepts with
    code 0: of the saved copies exactly those that were not lost are brought back.
  */
  lemma HalfDeletedCheckpointRestoresLess(d: Disk, lost: set<Path>, later: Disk)
    requires Valid(d) && d.checkpoint && Meanwhile(Deleted(d, Stopped(lost)).0, later) && Valid(later)
    ensures Deleted(d, Stopped(lost)).1 == Code(1)
    ensures var (after, r) := Restored(later, RestoreFaults([], Gone));
            && r == Code(0)
            && forall f :: if Saved(f) in d.files && Saved(f) !in lost then Same(d, Saved(f), after, Live(f))
                           else Same(later, Live(f), after, Live(f))
  {
    FineRestore(later);
    RestoreFollows(later, RestoreFaults([], Gone));
  }

  /**
    So after a create that returned 0, a delete that loses `lost`, and any edits, the restore that
    returns 0 brings every file back that there was at the create if and only if each one whose copy
    was lost has its content from then anyway.
  */
  lemma RestoredIffNothingNeededWasLost(d: Disk, f: CreateFaults, lost: set<Path>, later: Disk)
    requires Valid(d) && Created(d, f).1 == Code(0)
    requires Meanwhile(Deleted(Created(d, f).0, Stopped(lost)).0, later) && Valid(later)
    ensures var (after, r) := Restored(later, RestoreFaults([], Gone));
            && r == Code(0)
            && ((forall g | Live(g) in d.files :: Same(d, Live(g), after, Live(g))) <==>
                (forall g | Live(g) in d.files && Saved(g) in lost :: Same(d, Live(g), later, Live(g))))
  {
    CreateFollows(d, f);
    HalfDeletedCheckpointRestoresLess(Created(d, f).0, lost, later);
  }

  /* ----- what a code of 0 from `set` says ----- */

  /** Entry `i` is the last one the service recognises. */
  ghost predicate LastRecognised(entries: seq<Entry>, i: nat) {
    i < |entries| && !entries[i].Unknown? && forall j | i < j < |entries| :: entries[j].Unknown?
  }

  /** `set` returns 0 exactly when the copies of the last recognised key, if any, succeeded; the others' codes are forgotten. */
  lemma {:induction false} SetCodeIsTheLastKeys(entries: seq<Entry>, codes: seq<int>)
    requires |codes| == |entries|
    ensures LastCode(entries, codes) == 0 <==> forall i: nat | LastRecognised(entries, i) :: codes[i] == 0
  {
    if entries != [] {
      var n := |entries| - 1;
      if entries[n].Unknown? {
        SetCodeIsTheLastKeys(entries[..n], codes[..n]);
        forall i: nat ensures LastRecognised(entries, i) <==> LastRecognised(entries[..n], i) {
          if i < n && !entries[i].Unknown? {
            assert (forall j | i < j < |entries| :: entries[j].Unknown?) <==> forall j | i < j < n :: entries[..n][j].Unknown?;
          }
        }
      } else {
        assert LastRecognised(entries, n);
        assert forall i: nat | LastRecognised(entries, i) :: i == n;
      }
    }
  }

  /** Every recognised entry has been written. */
  ghost predicate AllWritten(d: Disk, entries: seq<Entry>) {
    forall i | 0 <= i < |entries| && !entries[i].Unknown? :: Holds(d, entries[i])
  }

  /** Every run of `set` that answers 0, whatever fails in it, leaves all recognised entries written. */
  ghost predicate ZeroMeansWritten(d: Disk, entries: seq<Entry>) {
    forall faults | DoneSet(d, Entries(entries), faults).1 == Code(0) :: AllWritten(DoneSet(d, Entries(entries), faults).0, entries)
  }

  /** The entries before the last recognised one are written already. */
  ghost predicate EarlierWritten(d: Disk, entries: seq<Entry>) {
    forall i: nat | i < |entries| && !entries[i].Unknown? && !LastRecognised(entries, i) :: Holds(d, entries[i])
  }

  lemma ZeroWrites(d: Disk, entries: seq<Entry>, faults: seq<PublishFaults>, i: nat)
    requires OneEntryPerFile(entries) && d.checkpoint && EarlierWritten(d, entries)
    requires DoneSet(d, Entries(entries), faults).1 == Code(0) && i < |entries| && !entries[i].Unknown?
    ensures Holds(DoneSet(d, Entries(entries), faults).0, entries[i])
  {
    var n := |entries|;
    SetToFollows(d, entries, faults, n);
    assert entries[..n] == entries;
    var after, codes := DoneSet(d, Entries(entries), faults).0, CodesTo(d, entries, faults, n);
    SetCodeIsTheLastKeys(entries, codes);
    if LastRecognised(entries, i) {
      assert codes[i] == 0;
    } else {
      var f := TargetOf(entries[i]);
      assert Same(d, Live(f), after, Live(f)) || PublishedBy(entries, after, f);
    }
  }

  /** Nothing fails but the copies of entry `i`. */
  function Skipping(i: nat): seq<PublishFaults> {
    seq(i, k => PublishFaults(Works, [])) + [PublishFaults(Works, [BLOCKED, BLOCKED])]
  }

  /** A copy that gets no directory, and its repetition, leave the live file alone and answer 1. */
  lemma PublishBlocked(files: Files, target: File, text: string)
    ensures var (after, c) := Published(files, target, text, PublishFaults(Works, [BLOCKED, BLOCKED]));
            c == Some(1) && SameIn(files, Live(target), after, Live(target))
  {
    var staged := Put(files, Staged(target), text, Works);
    var s, l := Staged(target), Live(target);
    var one := FilesCopied(staged, [s, s], [l, l], [BLOCKED, BLOCKED], 1);
    assert FilesCopied(staged, [s, s], [l, l], [BLOCKED, BLOCKED], 0) == (staged, 0);
    assert one == FileCopied(staged, s, l, BLOCKED);
    PutFrame(files, s, text, Works);
  }

  lemma PublishFine(files: Files, target: File, text: string)
    ensures Published(files, target, text, PublishFaults(Works, [])).1 == Some(0)
  {
    FineCopies(Put(files, Staged(target), text, Works), [Staged(target), Staged(target)], [Live(target), Live(target)], 2);
  }

  lemma SkippingEntry(d: Disk, r: Reply, entries: seq<Entry>, i: nat, k: nat)
    requires OneEntryPerFile(entries) && i < |entries| && !entries[i].Unknown? && k < |entries|
    ensures var (after, q) := EntryDone(d, r, entries[k], PublishAt(Skipping(i), k));
            && Same(d, Live(TargetOf(entries[i])), after, Live(TargetOf(entries[i])))
            && q == if entries[k].Unknown? then r else if k == i then Code(1) else Code(0)
  {
    var e := entries[k];
    if !e.Unknown? {
      if k == i {
        PublishBlocked(d.files, TargetOf(e), ContentOf(e));
      } else {
        PublishFine(d.files, TargetOf(e), ContentOf(e));
        PublishFollows(d.files, TargetOf(e), ContentOf(e), PublishFaults(Works, []));
      }
    }
  }

  /** After `n` entries the file of entry `i` is as it was, and the code is 0 once another entry has come after it. */
  ghost predicate Skipped(d: Disk, done: (Disk, Reply), entries: seq<Entry>, i: nat, n: nat)
    requires i < |entries| && !entries[i].Unknown? && n <= |entries|
  {
    && (done.1 == Code(0) || done.1 == Code(1))
    && Same(d, Live(TargetOf(entries[i])), done.0, Live(TargetOf(entries[i])))
    && (done.1 == Code(1) ==> i < n && forall j | i < j < n :: entries[j].Unknown?)
  }

  lemma {:induction false} SkippingRun(d: Disk, entries: seq<Entry>, i: nat, n: nat)
    requires OneEntryPerFile(entries) && i < |entries| && !entries[i].Unknown? && n <= |entries|
    ensures Skipped(d, SetTo(d, entries, Skipping(i), n), entries, i, n)
  {
    if n > 0 {
      SkippingRun(d, entries, i, n - 1);
      SkippingStep(d, entries, i, n);
    }
  }

  lemma SkippingStep(d: Disk, entries: seq<Entry>, i: nat, n: nat)
    requires OneEntryPerFile(entries) && i < |entries| && !entries[i].Unknown? && 0 < n <= |entries|
    requires Skipped(d, SetTo(d, entries, Skipping(i), n - 1), entries, i, n - 1)
    ensures Skipped(d, SetTo(d, entries, Skipping(i), n), entries, i, n)
  {
    var before := SetTo(d, entries, Skipping(i), n - 1);
    SkippingEntry(before.0, before.1, entries, i, n - 1);
    NextSkipped(d, before, SetTo(d, entries, Skipping(i), n), entries, i, n);
  }

  lemma NextSkipped(d: Disk, before: (Disk, Reply), after: (Disk, Reply), entries: seq<Entry>, i: nat, n: nat)
    requires i < |entries| && !entries[i].Unknown? && 0 < n <= |entries| && Skipped(d, before, entries, i, n - 1)
    requires Same(before.0, Live(TargetOf(entries[i])), after.0, Live(TargetOf(entries[i])))
    requires after.1 == if entries[n - 1].Unknown? then before.1 else if n - 1 == i then Code(1) else Code(0)
    ensures Skipped(d, after, entries, i, n)
  {
  }

  /** `set` can return 0 without having written any given entry but the last recognised one. */
  lemma SetCanReturnZeroUnwritten(d: Disk, entries: seq<Entry>, i: nat)
    requires OneEntryPerFile(entries) && d.checkpoint
    requires i < |entries| && !entries[i].Unknown? && !LastRecognised(entries, i) && !Holds(d, entries[i])
    ensures DoneSet(d, Entries(entries), Skipping(i)).1 == Code(0)
    ensures !Holds(DoneSet(d, Entries(entries), Skipping(i)).0, entries[i])
  {
    SkippingRun(d, entries, i, |entries|);
  }

  /**
    A code of 0 means that every key was written, exactly in this case: for every disk with a
    checkpoint and every request, all runs of `set` that answer 0 leave every recognised entry
    written if and only if those before the last recognised one were written before the call.
  */
  lemma ZeroMeansWrittenIff(d: Disk, entries: seq<Entry>)
    requires OneEntryPerFile(entries) && d.checkpoint
    ensures ZeroMeansWritten(d, entries) <==> EarlierWritten(d, entries)
  {
    if EarlierWritten(d, entries) {
      forall faults | DoneSet(d, Entries(entries), faults).1 == Code(0)
        ensures AllWritten(DoneSet(d, Entries(entries), faults).0, entries)
      {
        forall i | 0 <= i < |entries| && !entries[i].Unknown?
          ensures Holds(DoneSet(d, Entries(entries), faults).0, entries[i])
        {
          ZeroWrites(d, entries, faults, i);
        }
      }
    } else {
      var i: nat :| i < |entries| && !entries[i].Unknown? && !LastRecognised(entries, i) && !Holds(d, entries[i]);
      SetCanReturnZeroUnwritten(d, entries, i);
    }
  }

  /** So on every disk it does for requests with at most one recognised entry, and on an empty disk for no others. */
  lemma ZeroMeansWrittenForOneKey(entries: seq<Entry>)
    requires OneEntryPerFile(entries)
    ensures (forall d: Disk | d.checkpoint :: ZeroMeansWritten(d, entries)) <==>
            forall i, j | 0 <= i < j < |entries| :: entries[i].Unknown? || entries[j].Unknown?
  {
    forall d: Disk | d.checkpoint ensures ZeroMeansWritten(d, entries) <==> EarlierWritten(d, entries) {
      ZeroMeansWrittenIff(d, entries);
    }
    var empty := Disk(map[], true, 0);
    if i, j :| 0 <= i < j < |entries| && !entries[i].Unknown? && !entries[j].Unknown? {
      assert !LastRecognised(entries, i) && !Holds(empty, entries[i]);
      assert !EarlierWritten(empty, entries);
    } else {
      assert forall i: nat | i < |entries| && !entries[i].Unknown? :: LastRecognised(entries, i);
    }
  }
}
