/** The ssh_mgmt service itself: its methods carry out what the functions of `SshRuns` say (host_modules/ssh_mgmt.py). */
module SshService {
  import opened FileFaults
  import opened SshFiles
  import opened SshOptions
  import opened SshRuns
  import opened Wrappers

  class SshMgmt {
    var files: Files
    var checkpoint: bool
    ghost var treeFaults: nat

    ghost function Snapshot(): Disk
      reads this
    {
      Disk(files, checkpoint, treeFaults)
    }

    /** Writing a file, or the copying into one: how it goes is `w`. */
    method Write(p: Path, text: string, w: Write)
      modifies this`files
      ensures files == Put(old(files), p, text, w)
    {
      var written := Written(if p in files then Some(files[p]) else None, text, w);
      files := if written.Some? then files[p := written.value] else files - {p};
    }

    /** shutil.rmtree(CHECKPOINT_DIR). */
    method RemoveTree(t: TreeFault) returns (ok: bool)
      modifies this
      ensures (Snapshot(), ok) == TreeRemoved(old(Snapshot()), t)
    {
      match t
      case Gone =>
        checkpoint := false;
        files := map p | p in files && p.dir != CheckpointDir :: files[p];
        ok := true;
      case Stopped(lost) =>
        treeFaults := treeFaults + 1;
        files := map p | p in files && (p.dir != CheckpointDir || p !in lost) :: files[p];
        ok := false;
    }

    method CopyFile(src: Path, dst: Path, f: CopyFaults) returns (code: int)
      requires src != dst && src != Scratch(dst.dir) && dst != Scratch(dst.dir)
      modifies this`files
      ensures (files, code) == FileCopied(old(files), src, dst, f)
      ensures OneCopied(old(files), files, src, dst, code)
    {
      FileCopiedFollows(files, src, dst, f);
      code := 0;
      if src !in files {
        return;
      }
      var scratch, content := Scratch(dst.dir), files[src];
      if f.makes {
        Write(scratch, content, f.copy);
      }
      if f.makes && f.copy.Works? && f.moves {
        files := (files - {scratch})[dst := content];
      } else {
        code := 1;
        if f.tidies {
          files := files - {scratch};
        }
      }
    }

    /** Copies pair by pair; a destination may come twice, then with the same source. */
    method CopyFiles(srcs: seq<Path>, dsts: seq<Path>, copies: seq<CopyFaults>) returns (code: int)
      requires |srcs| == |dsts| ==> Copyable(srcs, dsts)
      modifies this`files
      ensures |srcs| != |dsts| ==> code == 1 && files == old(files)
      ensures |srcs| == |dsts| ==> (files, code) == FilesCopied(old(files), srcs, dsts, copies, |srcs|)
      ensures |srcs| == |dsts| ==> AllCopied(old(files), files, srcs, dsts, |srcs|, code == 0)
    {
      if |srcs| != |dsts| {
        return 1;
      }
      FilesCopiedFollows(files, srcs, dsts, copies, |srcs|);
      code := 0;
      for i := 0 to |srcs|
        invariant (files, code) == FilesCopied(old(files), srcs, dsts, copies, i)
      {
        assert srcs[i] in srcs && dsts[i] !in srcs;
        var c := CopyFile(srcs[i], dsts[i], CopyAt(copies, i));
        code := if c == 1 then 1 else code;
      }
    }

    method CreateCheckpoint(f: CreateFaults) returns (r: Reply)
      requires Valid(Snapshot())
      modifies this
      ensures (Snapshot(), r) == Created(old(Snapshot()), f)
      ensures Valid(Snapshot())
      ensures Creates(old(Snapshot()), Snapshot(), r)
    {
      CreateFollows(Snapshot(), f);
      if checkpoint {
        var removed := RemoveTree(f.clear);
        if !removed {
          return Code(1);
        }
      }
      if !f.makes {
        return Uncaught;
      }
      checkpoint := true;
      var code := CopyFiles(LIVE, SAVED, f.copies);
      if code != 0 {
        var _ := RemoveTree(f.undo);
      }
      return Code(code);
    }

    method RestoreCheckpoint(f: RestoreFaults) returns (r: Reply)
      requires Valid(Snapshot())
      modifies this
      ensures (Snapshot(), r) == Restored(old(Snapshot()), f)
      ensures Valid(Snapshot())
      ensures Restores(old(Snapshot()), Snapshot(), r)
    {
      RestoreFollows(Snapshot(), f);
      if !checkpoint {
        return Code(1);
      }
      var code := CopyFiles(SAVED_TWICE, LIVE_TWICE, f.copies);
      var removed := RemoveTree(f.tree);
      if !removed {
        code := 1;
      }
      return Code(code);
    }

    method DeleteCheckpoint(t: TreeFault) returns (r: Reply)
      requires Valid(Snapshot())
      modifies this
      ensures (Snapshot(), r) == Deleted(old(Snapshot()), t)
      ensures Valid(Snapshot())
      ensures Deletes(old(Snapshot()), Snapshot(), r)
    {
      DeleteFollows(Snapshot(), t);
      if !checkpoint {
        return Code(1);
      }
      var removed := RemoveTree(t);
      return Code(if removed then 0 else 1);
    }

    method RenderEntry(e: Entry) returns (text: string)
      requires !e.Unknown?
      ensures text == ContentOf(e)
    {
      var f := new OutFile();
      match e {
        case CaKeys(keys) => WriteLines(f, keys);
        case AccountKeys(accounts) => WriteAccounts(f, accounts);
        case AccountUsers(accounts) => WriteAccounts(f, accounts);
        case Unknown =>
      }
      text := f.content;
    }

    /** Stage the text in the checkpoint directory and copy it over the live file; None when staging raised. */
    method Publish(target: File, text: string, f: PublishFaults) returns (code: Option<int>)
      modifies this`files
      ensures (files, code) == Published(old(files), target, text, f)
      ensures FrameButScratch(old(files), files, {Live(target), Staged(target)})
      ensures SameIn(old(files), Live(target), files, Live(target)) || (Live(target) in files && files[Live(target)] == text)
      ensures code.Some? ==> code.value == 0 || code.value == 1
      ensures code.Some? ==> Staged(target) in files && files[Staged(target)] == text
      ensures code == Some(0) ==> Live(target) in files && files[Live(target)] == text
    {
      PublishFollows(files, target, text, f);
      var staged, live := Staged(target), Live(target);
      Write(staged, text, f.stage);
      if f.stage.Fails? {
        return None;
      }
      var c := CopyFiles([staged, staged], [live, live], f.copies);
      return Some(c);
    }

    /** One turn of the loop over the entries, `code` being the code so far. */
    method SetEntry(e: Entry, code: int, f: PublishFaults) returns (r: Reply)
      modifies this`files
      ensures (Snapshot(), r) == EntryDone(old(Snapshot()), Code(code), e, f)
    {
      if e.Unknown? {
        return Code(code);
      }
      var text := RenderEntry(e);
      var c := Publish(TargetOf(e), text, f);
      return if c.None? then Uncaught else Code(c.value);
    }

    method Set(request: Request, faults: seq<PublishFaults>) returns (r: Reply)
      requires Valid(Snapshot())
      requires request.Entries? ==> OneEntryPerFile(request.entries)
      modifies this`files
      ensures (Snapshot(), r) == DoneSet(old(Snapshot()), request, faults)
      ensures Valid(Snapshot())
      ensures Sets(old(Snapshot()), Snapshot(), request, r)
    {
      SetFollows(Snapshot(), request, faults);
      if !checkpoint || request.InvalidJson? {
        return Code(1);
      }
      r := SetAll(request.entries, faults);
    }

    method SetAll(entries: seq<Entry>, faults: seq<PublishFaults>) returns (r: Reply)
      modifies this`files
      ensures (Snapshot(), r) == SetTo(old(Snapshot()), entries, faults, |entries|)
    {
      r := Code(0);
      for i := 0 to |entries|
        invariant r.Code? && (Snapshot(), r) == SetTo(old(Snapshot()), entries, faults, i)
      {
        r := SetEntry(entries[i], r.n, PublishAt(faults, i));
        if r.Uncaught? {
          StopsThere(old(Snapshot()), entries, faults, i + 1, |entries|);
          return;
        }
      }
    }
  }
}
