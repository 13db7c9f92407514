/**
  The calls of the ssh_mgmt service as functions of the disk and of which of their operations fail
  (host_modules/ssh_mgmt.py).  A failed write leaves the file as it was or with the beginning of the
  text, a failed `rmtree` may have removed any part of the tree, and moving a file within its
  directory either happens or does not.
*/
module SshRuns {
  import opened FileFaults
  import opened SshFiles
  import opened SshOptions
  import opened Wrappers

  type Files = map<Path, string>

  /* ----- copying ----- */

  /** How the operations of one `_copy_file` go: makedirs, copyfile, move, remove. */
  datatype CopyFaults = CopyFaults(makes: bool, copy: Write, moves: bool, tidies: bool)

  const FINE := CopyFaults(true, Works, true, true)
  const BLOCKED := CopyFaults(false, Works, true, true)

  /** Copies beyond the end of the list work. */
  function CopyAt(copies: seq<CopyFaults>, i: nat): CopyFaults {
    if i < |copies| then copies[i] else FINE
  }

  function Put(files: Files, p: Path, text: string, w: Write): Files {
    match Written(if p in files then Some(files[p]) else None, text, w)
    case Some(content) => files[p := content]
    case None => files - {p}
  }

  function Tidied(files: Files, p: Path, f: CopyFaults): Files {
    if f.tidies then files - {p} else files
  }

  function FileCopied(files: Files, src: Path, dst: Path, f: CopyFaults): (Files, int) {
    var scratch := Scratch(dst.dir);
    if src !in files then (files, 0)
    else if !f.makes then (Tidied(files, scratch, f), 1)
    else
      var copied := Put(files, scratch, files[src], f.copy);
      if f.copy.Fails? || !f.moves then (Tidied(copied, scratch, f), 1)
      else ((copied - {scratch})[dst := files[src]], 0)
  }

  /** The first `n` pairs, one after the other; a destination may come twice. */
  function FilesCopied(files: Files, srcs: seq<Path>, dsts: seq<Path>, copies: seq<CopyFaults>, n: nat): (Files, int)
    requires |srcs| == |dsts| && n <= |srcs|
  {
    if n == 0 then (files, 0)
    else
      var (before, code) := FilesCopied(files, srcs, dsts, copies, n - 1);
      var (after, c) := FileCopied(before, srcs[n - 1], dsts[n - 1], CopyAt(copies, n - 1));
      (after, if c == 1 then 1 else code)
  }

  /* ----- the checkpoint ----- */

  /** How rmtree goes: `lost` is what of the tree is gone when it stops. */
  datatype TreeFault = Gone | Stopped(lost: set<Path>)

  function TreeRemoved(d: Disk, t: TreeFault): (Disk, bool) {
    match t
    case Gone => (Disk(map p | p in d.files && p.dir != CheckpointDir :: d.files[p], false, d.treeFaults), true)
    case Stopped(lost) =>
      (Disk(map p | p in d.files && (p.dir != CheckpointDir || p !in lost) :: d.files[p], d.checkpoint, d.treeFaults + 1), false)
  }

  datatype CreateFaults = CreateFaults(clear: TreeFault, makes: bool, copies: seq<CopyFaults>, undo: TreeFault)
  datatype RestoreFaults = RestoreFaults(copies: seq<CopyFaults>, tree: TreeFault)

  const LIVE := [Live(Ca), Live(Keys), Live(Users)]
  const SAVED := [Saved(Ca), Saved(Keys), Saved(Users)]
  const LIVE_TWICE := [Live(Ca), Live(Ca), Live(Keys), Live(Keys), Live(Users), Live(Users)]
  const SAVED_TWICE := [Saved(Ca), Saved(Ca), Saved(Keys), Saved(Keys), Saved(Users), Saved(Users)]

  function Cleared(d: Disk, f: CreateFaults): (Disk, bool) {
    if d.checkpoint then TreeRemoved(d, f.clear) else (d, true)
  }

  function Created(d: Disk, f: CreateFaults): (Disk, Reply) {
    var (cleared, ok) := Cleared(d, f);
    if !ok then (cleared, Code(1))
    else if !f.makes then (cleared, Uncaught)
    else
      var (files, code) := FilesCopied(cleared.files, LIVE, SAVED, f.copies, 3);
      var copied := cleared.(files := files, checkpoint := true);
      (if code == 0 then copied else TreeRemoved(copied, f.undo).0, Code(code))
  }

  function Restored(d: Disk, f: RestoreFaults): (Disk, Reply) {
    if !d.checkpoint then (d, Code(1))
    else
      var (files, code) := FilesCopied(d.files, SAVED_TWICE, LIVE_TWICE, f.copies, 6);
      var (after, ok) := TreeRemoved(d.(files := files), f.tree);
      (after, Code(if ok then code else 1))
  }

  function Deleted(d: Disk, t: TreeFault): (Disk, Reply) {
    if !d.checkpoint then (d, Code(1)) else var (after, ok) := TreeRemoved(d, t); (after, Code(if ok then 0 else 1))
  }

  /* ----- set ----- */

  datatype PublishFaults = PublishFaults(stage: Write, copies: seq<CopyFaults>)

  function PublishAt(faults: seq<PublishFaults>, i: nat): PublishFaults {
    if i < |faults| then faults[i] else PublishFaults(Works, [])
  }

  /** Stage the text in the checkpoint directory and copy it over the live file, twice; None when staging raised. */
  function Published(files: Files, target: File, text: string, f: PublishFaults): (Files, Option<int>) {
    var staged := Put(files, Staged(target), text, f.stage);
    if f.stage.Fails? then (staged, None)
    else
      var (after, c) := FilesCopied(staged, [Staged(target), Staged(target)], [Live(target), Live(target)], f.copies, 2);
      (after, Some(c))
  }

  /** One turn of the loop over the entries. */
  function EntryDone(d: Disk, r: Reply, e: Entry, f: PublishFaults): (Disk, Reply) {
    if e.Unknown? then (d, r)
    else
      var (files, c) := Published(d.files, TargetOf(e), ContentOf(e), f);
      (d.(files := files), if c.None? then Uncaught else Code(c.value))
  }

  /** The first `n` entries; an exception ends the loop. */
  function SetTo(d: Disk, entries: seq<Entry>, faults: seq<PublishFaults>, n: nat): (Disk, Reply)
    requires n <= |entries|
  {
    if n == 0 then (d, Code(0))
    else
      var before := SetTo(d, entries, faults, n - 1);
      if before.1.Uncaught? then before else EntryDone(before.0, before.1, entries[n - 1], PublishAt(faults, n - 1))
  }

  function DoneSet(d: Disk, request: Request, faults: seq<PublishFaults>): (Disk, Reply) {
    if !d.checkpoint || request.InvalidJson? then (d, Code(1))
    else SetTo(d, request.entries, faults, |request.entries|)
  }

  /* ----- what holds of a call whatever fails ----- */

  lemma PutFrame(files: Files, p: Path, text: string, w: Write)
    ensures Frame(files, Put(files, p, text, w), {p})
    ensures w.Works? ==> p in Put(files, p, text, w) && Put(files, p, text, w)[p] == text
  {
  }

  /** What copying one file may come to, whatever fails: `c` is its code. */
  ghost predicate OneCopied(before: Files, after: Files, src: Path, dst: Path, c: int) {
    && (c == 0 || c == 1)
    && (src !in before ==> c == 0 && after == before)
    && (src in before && c == 0 ==> dst in after && after[dst] == before[src])
    && (c == 1 ==> SameIn(before, dst, after, dst))
    && Frame(before, after, {dst, Scratch(dst.dir)})
  }

  lemma FileCopiedFollows(files: Files, src: Path, dst: Path, f: CopyFaults)
    requires src != dst && src != Scratch(dst.dir) && dst != Scratch(dst.dir)
    ensures OneCopied(files, FileCopied(files, src, dst, f).0, src, dst, FileCopied(files, src, dst, f).1)
  {
    if src in files {
      PutFrame(files, Scratch(dst.dir), files[src], f.copy);
    }
  }

  /** No destination is a source, none is a scratch file, and one that comes twice comes from one source. */
  ghost predicate Copyable(srcs: seq<Path>, dsts: seq<Path>) {
    && |srcs| == |dsts|
    && (forall i | 0 <= i < |srcs| :: !srcs[i].name.CopyTemp?)
    && (forall j | 0 <= j < |dsts| :: !dsts[j].name.CopyTemp? && dsts[j] !in srcs)
    && (forall i, j | 0 <= i < j < |dsts| && dsts[i] == dsts[j] :: srcs[i] == srcs[j])
  }

  /** Only the listed paths and the scratch files of copying may differ. */
  ghost predicate OnlyAmong(a: Files, b: Files, changed: seq<Path>) {
    forall p: Path | p !in changed && !p.name.CopyTemp? :: (p in a <==> p in b) && (p in a ==> a[p] == b[p])
  }

  ghost predicate AllCopied(files: Files, after: Files, srcs: seq<Path>, dsts: seq<Path>, n: nat, success: bool)
    requires n <= |srcs| && n <= |dsts|
  {
    && OnlyAmong(files, after, dsts[..n])
    && forall i | 0 <= i < n :: Copied(files, srcs[i], after, dsts[i], success)
  }

  lemma {:induction false} FilesCopiedFollows(files: Files, srcs: seq<Path>, dsts: seq<Path>, copies: seq<CopyFaults>, n: nat)
    requires Copyable(srcs, dsts) && n <= |srcs|
    ensures var (after, code) := FilesCopied(files, srcs, dsts, copies, n);
            (code == 0 || code == 1) && AllCopied(files, after, srcs, dsts, n, code == 0)
  {
    if n > 0 {
      FilesCopiedFollows(files, srcs, dsts, copies, n - 1);
      NextFollows(files, srcs, dsts, copies, n);
    }
  }

  lemma NextFollows(files: Files, srcs: seq<Path>, dsts: seq<Path>, copies: seq<CopyFaults>, n: nat)
    requires Copyable(srcs, dsts) && 0 < n <= |srcs|
    requires var (before, code) := FilesCopied(files, srcs, dsts, copies, n - 1);
             (code == 0 || code == 1) && AllCopied(files, before, srcs, dsts, n - 1, code == 0)
    ensures var (after, code) := FilesCopied(files, srcs, dsts, copies, n);
            (code == 0 || code == 1) && AllCopied(files, after, srcs, dsts, n, code == 0)
  {
    var (before, code) := FilesCopied(files, srcs, dsts, copies, n - 1);
    assert srcs[n - 1] in srcs && dsts[n - 1] !in srcs;
    FileCopiedFollows(before, srcs[n - 1], dsts[n - 1], CopyAt(copies, n - 1));
    var (after, c) := FileCopied(before, srcs[n - 1], dsts[n - 1], CopyAt(copies, n - 1));
    NextCopied(files, before, after, srcs, dsts, n - 1, code == 0, c);
  }

  lemma NextCopied(files: Files, before: Files, after: Files, srcs: seq<Path>, dsts: seq<Path>, m: nat, earlier: bool, c: int)
    requires Copyable(srcs, dsts) && m < |srcs| && AllCopied(files, before, srcs, dsts, m, earlier)
    requires OneCopied(before, after, srcs[m], dsts[m], c)
    ensures AllCopied(files, after, srcs, dsts, m + 1, earlier && c == 0)
  {
    assert srcs[m] in srcs && srcs[m] !in dsts[..m];
    assert dsts[..m + 1] == dsts[..m] + [dsts[m]];
    assert SameIn(files, srcs[m], before, srcs[m]);
    forall k | 0 <= k < m + 1 ensures Copied(files, srcs[k], after, dsts[k], earlier && c == 0) {
      OneMoreCopied(files, before, after, srcs, dsts, m, k, earlier, c);
    }
  }

  lemma OneMoreCopied(files: Files, before: Files, after: Files, srcs: seq<Path>, dsts: seq<Path>, m: nat, k: nat,
                      earlier: bool, c: int)
    requires Copyable(srcs, dsts) && k <= m < |srcs| && AllCopied(files, before, srcs, dsts, m, earlier)
    requires OneCopied(before, after, srcs[m], dsts[m], c) && SameIn(files, srcs[m], before, srcs[m])
    ensures Copied(files, srcs[k], after, dsts[k], earlier && c == 0)
  {
    if k < m {
      assert Copied(files, srcs[k], before, dsts[k], earlier);
      if dsts[k] == dsts[m] {
        assert srcs[k] == srcs[m];
      }
    } else if dsts[m] in dsts[..m] {
      var j :| 0 <= j < m && dsts[j] == dsts[m];
      assert srcs[j] == srcs[m] && Copied(files, srcs[j], before, dsts[j], earlier);
    }
  }

  lemma UnknownApplied(start: Disk, a: Disk, entries: seq<Entry>, codes: seq<int>, i: nat)
    requires i < |entries| && entries[i].Unknown? && Applied(start, a, entries[..i], codes)
    ensures Applied(start, a, entries[..i + 1], codes + [0])
    ensures LastCode(entries[..i + 1], codes + [0]) == LastCode(entries[..i], codes)
  {
    var done := entries[..i + 1];
    assert done[..i] == entries[..i] && (codes + [0])[..i] == codes;
    forall g ensures Same(start, Live(g), a, Live(g)) || PublishedBy(done, a, g) {
      if PublishedBy(entries[..i], a, g) {
        PublishedByMore(entries[..i], done, a, g);
      }
    }
    forall k | 0 <= k < |done| && !done[k].Unknown? && (codes + [0])[k] == 0 ensures Holds(a, done[k]) {
      assert done[k] == entries[..i][k] && codes[k] == 0;
    }
  }

  lemma PublishedByMore(entries: seq<Entry>, more: seq<Entry>, d: Disk, f: File)
    requires entries <= more && PublishedBy(entries, d, f)
    ensures PublishedBy(more, d, f)
  {
    var k :| 0 <= k < |entries| && !entries[k].Unknown? && TargetOf(entries[k]) == f && Holds(d, entries[k]);
    assert more[k] == entries[k];
  }

  lemma AppliedInRequest(start: Disk, b: Disk, entries: seq<Entry>, codes: seq<int>, i: nat)
    requires i <= |entries| && Applied(start, b, entries[..i], codes)
    ensures forall f :: Same(start, Live(f), b, Live(f)) || PublishedBy(entries, b, f)
    ensures i == |entries| ==> entries[..i] == entries
  {
    forall f ensures Same(start, Live(f), b, Live(f)) || PublishedBy(entries, b, f) {
      if PublishedBy(entries[..i], b, f) {
        PublishedByMore(entries[..i], entries, b, f);
      }
    }
  }

  /** What was published for another file stays so. */
  lemma HoldsKept(a: Disk, b: Disk, e: Entry, f: File)
    requires !e.Unknown? && TargetOf(e) != f && FrameButScratch(a.files, b.files, {Live(f), Staged(f)})
    ensures Holds(a, e) <==> Holds(b, e)
  {
  }

  lemma OthersKept(a: Disk, b: Disk, f: File)
    requires FrameButScratch(a.files, b.files, {Live(f), Staged(f)})
    ensures forall g :: Same(a, Saved(g), b, Saved(g))
    ensures forall g | g != f :: Same(a, Live(g), b, Live(g))
  {
  }

  /** Applying one more entry, to another file than the entries before it. */
  lemma EntryApplied(start: Disk, a: Disk, b: Disk, entries: seq<Entry>, codes: seq<int>, i: nat, c: int)
    requires OneEntryPerFile(entries) && i < |entries| && !entries[i].Unknown?
    requires Applied(start, a, entries[..i], codes)
    requires b.checkpoint == a.checkpoint && b.treeFaults == a.treeFaults
    requires var f := TargetOf(entries[i]);
             && FrameButScratch(a.files, b.files, {Live(f), Staged(f)})
             && (Same(a, Live(f), b, Live(f)) || Holds(b, entries[i]))
             && (c == 0 ==> Holds(b, entries[i]))
    ensures Applied(start, b, entries[..i + 1], codes + [c])
    ensures LastCode(entries[..i + 1], codes + [c]) == c
  {
    var f := TargetOf(entries[i]);
    var done := entries[..i + 1];
    OthersKept(a, b, f);
    forall g ensures Same(start, Live(g), b, Live(g)) || PublishedBy(done, b, g) {
      EntryAppliedFor(start, a, b, entries, i, g);
    }
    forall k | 0 <= k < |done| && !done[k].Unknown? && (codes + [c])[k] == 0 ensures Holds(b, done[k]) {
      if k < i {
        assert done[k] == entries[..i][k] == entries[k];
        HoldsKept(a, b, entries[k], f);
      }
    }
  }

  lemma EntryAppliedFor(start: Disk, a: Disk, b: Disk, entries: seq<Entry>, i: nat, g: File)
    requires OneEntryPerFile(entries) && i < |entries| && !entries[i].Unknown?
    requires Same(start, Live(g), a, Live(g)) || PublishedBy(entries[..i], a, g)
    requires var f := TargetOf(entries[i]);
             && FrameButScratch(a.files, b.files, {Live(f), Staged(f)})
             && (Same(a, Live(f), b, Live(f)) || Holds(b, entries[i]))
    ensures Same(start, Live(g), b, Live(g)) || PublishedBy(entries[..i + 1], b, g)
  {
    var f := TargetOf(entries[i]);
    var done := entries[..i + 1];
    OthersKept(a, b, f);
    if g == f && Holds(b, entries[i]) {
      assert done[i] == entries[i];
    } else if PublishedBy(entries[..i], a, g) {
      var k :| 0 <= k < i && !entries[..i][k].Unknown? && TargetOf(entries[..i][k]) == g && Holds(a, entries[..i][k]);
      assert done[k] == entries[..i][k] == entries[k] && g != f;
      HoldsKept(a, b, entries[k], f);
    }
  }

  lemma TreeRemovedFollows(d: Disk, t: TreeFault)
    requires d.checkpoint
    ensures var (after, ok) := TreeRemoved(d, t);
            && LiveUntouched(d, after) && SavedOnlyLost(d, after) && Valid(after)
            && (ok <==> !after.checkpoint) && (ok <==> after.treeFaults == d.treeFaults)
  {
  }

  lemma SavesCopied(files: Files, copies: seq<CopyFaults>)
    ensures var (after, code) := FilesCopied(files, LIVE, SAVED, copies, 3);
            && (code == 0 || code == 1)
            && (forall f :: SameIn(files, Live(f), after, Live(f)))
            && (forall f :: Copied(files, Live(f), after, Saved(f), code == 0))
  {
    FilesCopiedFollows(files, LIVE, SAVED, copies, 3);
    var (after, code) := FilesCopied(files, LIVE, SAVED, copies, 3);
    assert Copied(files, LIVE[0], after, SAVED[0], code == 0);
    assert Copied(files, LIVE[1], after, SAVED[1], code == 0);
    assert Copied(files, LIVE[2], after, SAVED[2], code == 0);
    assert forall f :: Live(f) !in SAVED;
  }

  lemma LivesCopied(files: Files, copies: seq<CopyFaults>)
    ensures var (after, code) := FilesCopied(files, SAVED_TWICE, LIVE_TWICE, copies, 6);
            && (code == 0 || code == 1)
            && (forall f :: SameIn(files, Saved(f), after, Saved(f)))
            && (forall f :: Copied(files, Saved(f), after, Live(f), code == 0))
  {
    FilesCopiedFollows(files, SAVED_TWICE, LIVE_TWICE, copies, 6);
    var (after, code) := FilesCopied(files, SAVED_TWICE, LIVE_TWICE, copies, 6);
    assert Copied(files, SAVED_TWICE[0], after, LIVE_TWICE[0], code == 0);
    assert Copied(files, SAVED_TWICE[2], after, LIVE_TWICE[2], code == 0);
    assert Copied(files, SAVED_TWICE[4], after, LIVE_TWICE[4], code == 0);
    assert forall f :: Saved(f) !in LIVE_TWICE;
  }

  lemma ClearedFollows(d: Disk, f: CreateFaults)
    requires Valid(d)
    ensures var (cleared, ok) := Cleared(d, f);
            && LiveUntouched(d, cleared) && Valid(cleared)
            && (ok ==> cleared.treeFaults == d.treeFaults && !cleared.checkpoint && forall g :: Saved(g) !in cleared.files)
            && (!ok ==> cleared.treeFaults == d.treeFaults + 1)
  {
    if d.checkpoint {
      TreeRemovedFollows(d, f.clear);
    }
  }

  lemma CreateFollows(d: Disk, f: CreateFaults)
    requires Valid(d)
    ensures Creates(d, Created(d, f).0, Created(d, f).1) && Valid(Created(d, f).0)
  {
    ClearedFollows(d, f);
    var (cleared, ok) := Cleared(d, f);
    if ok && f.makes {
      SavesCopied(cleared.files, f.copies);
      var (files, code) := FilesCopied(cleared.files, LIVE, SAVED, f.copies, 3);
      var copied := cleared.(files := files, checkpoint := true);
      assert LiveUntouched(d, copied);
      if code != 0 {
        TreeRemovedFollows(copied, f.undo);
      }
    }
  }

  lemma RestoreFollows(d: Disk, f: RestoreFaults)
    requires Valid(d)
    ensures Restores(d, Restored(d, f).0, Restored(d, f).1) && Valid(Restored(d, f).0)
  {
    if d.checkpoint {
      LivesCopied(d.files, f.copies);
      var (files, code) := FilesCopied(d.files, SAVED_TWICE, LIVE_TWICE, f.copies, 6);
      TreeRemovedFollows(d.(files := files), f.tree);
    }
  }

  lemma DeleteFollows(d: Disk, t: TreeFault)
    requires Valid(d)
    ensures Deletes(d, Deleted(d, t).0, Deleted(d, t).1) && Valid(Deleted(d, t).0)
  {
    if d.checkpoint {
      TreeRemovedFollows(d, t);
    }
  }

  lemma PublishFollows(files: Files, target: File, text: string, f: PublishFaults)
    ensures var (after, code) := Published(files, target, text, f);
            && FrameButScratch(files, after, {Live(target), Staged(target)})
            && (SameIn(files, Live(target), after, Live(target)) || (Live(target) in after && after[Live(target)] == text))
            && (code.Some? ==> code.value == 0 || code.value == 1)
            && (code.Some? ==> Staged(target) in after && after[Staged(target)] == text)
            && (code == Some(0) ==> Live(target) in after && after[Live(target)] == text)
  {
    var staged, srcs, dsts := Put(files, Staged(target), text, f.stage), [Staged(target), Staged(target)], [Live(target), Live(target)];
    PutFrame(files, Staged(target), text, f.stage);
    if f.stage.Works? {
      FilesCopiedFollows(staged, srcs, dsts, f.copies, 2);
      var (after, c) := FilesCopied(staged, srcs, dsts, f.copies, 2);
      assert Copied(staged, srcs[0], after, dsts[0], c == 0);
      assert Staged(target) !in dsts;
    }
  }

  /** The codes of the first `n` entries, 0 for those that are not recognised. */
  function CodesTo(d: Disk, entries: seq<Entry>, faults: seq<PublishFaults>, n: nat): (codes: seq<int>)
    requires n <= |entries|
    ensures |codes| == n
  {
    if n == 0 then []
    else CodesTo(d, entries, faults, n - 1) +
         [if entries[n - 1].Unknown? then 0
          else var c := Published(SetTo(d, entries, faults, n - 1).0.files, TargetOf(entries[n - 1]), ContentOf(entries[n - 1]),
                                  PublishAt(faults, n - 1)).1;
               if c.Some? then c.value else 1]
  }

  lemma {:induction false} SetToFollows(d: Disk, entries: seq<Entry>, faults: seq<PublishFaults>, n: nat)
    requires OneEntryPerFile(entries) && n <= |entries|
    ensures var (after, r) := SetTo(d, entries, faults, n);
            if r.Code? then Applied(d, after, entries[..n], CodesTo(d, entries, faults, n))
                            && r.n == LastCode(entries[..n], CodesTo(d, entries, faults, n))
            else StoppedWell(d, after, entries)
  {
    if n > 0 {
      SetToFollows(d, entries, faults, n - 1);
      var (before, r) := SetTo(d, entries, faults, n - 1);
      if r.Code? {
        SetStepFollows(d, before, entries, faults, CodesTo(d, entries, faults, n - 1), n - 1);
      }
    }
  }

  /** An exception ends the loop. */
  lemma {:induction false} StopsThere(d: Disk, entries: seq<Entry>, faults: seq<PublishFaults>, m: nat, n: nat)
    requires m <= n <= |entries| && SetTo(d, entries, faults, m).1.Uncaught?
    ensures SetTo(d, entries, faults, n) == SetTo(d, entries, faults, m)
  {
    if m < n {
      StopsThere(d, entries, faults, m, n - 1);
    }
  }

  /** What is left by a request whose staging raised. */
  ghost predicate StoppedWell(a: Disk, b: Disk, entries: seq<Entry>) {
    && b.checkpoint == a.checkpoint && b.treeFaults == a.treeFaults
    && (forall f :: Same(a, Saved(f), b, Saved(f)))
    && (forall f :: Same(a, Live(f), b, Live(f)) || PublishedBy(entries, b, f))
  }

  lemma SetStepFollows(d: Disk, before: Disk, entries: seq<Entry>, faults: seq<PublishFaults>, codes: seq<int>, m: nat)
    requires OneEntryPerFile(entries) && m < |entries| && Applied(d, before, entries[..m], codes)
    ensures var e := entries[m];
            if e.Unknown? then Applied(d, before, entries[..m + 1], codes + [0])
                               && LastCode(entries[..m + 1], codes + [0]) == LastCode(entries[..m], codes)
            else
              var (files, c) := Published(before.files, TargetOf(e), ContentOf(e), PublishAt(faults, m));
              var after, code := before.(files := files), if c.Some? then c.value else 1;
              && Applied(d, after, entries[..m + 1], codes + [code]) && LastCode(entries[..m + 1], codes + [code]) == code
              && StoppedWell(d, after, entries)
  {
    var e := entries[m];
    if e.Unknown? {
      UnknownApplied(d, before, entries, codes, m);
    } else {
      PublishFollows(before.files, TargetOf(e), ContentOf(e), PublishAt(faults, m));
      var (files, c) := Published(before.files, TargetOf(e), ContentOf(e), PublishAt(faults, m));
      var code := if c.Some? then c.value else 1;
      EntryApplied(d, before, before.(files := files), entries, codes, m, code);
      AppliedInRequest(d, before.(files := files), entries, codes + [code], m + 1);
    }
  }

  lemma SetFollows(d: Disk, request: Request, faults: seq<PublishFaults>)
    requires Valid(d) && (request.Entries? ==> OneEntryPerFile(request.entries))
    ensures Sets(d, DoneSet(d, request, faults).0, request, DoneSet(d, request, faults).1)
    ensures Valid(DoneSet(d, request, faults).0)
  {
    if d.checkpoint && request.Entries? {
      var n := |request.entries|;
      SetToFollows(d, request.entries, faults, n);
      assert request.entries[..n] == request.entries;
      var (after, r) := SetTo(d, request.entries, faults, n);
      assert after.checkpoint;
    }
  }
}
