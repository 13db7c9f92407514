/**
  Pushing and restoring the GLOME configuration, with any file operation failing
  (host_modules/glome.py).  Which operations fail, and how, is a parameter of each call.
*/
module Glome {
  import opened FileFaults
  import opened Text
  import opened Wrappers

  /** The decoded request: not JSON; a value `payload['enabled']` cannot be taken from; or an object. */
  datatype Request =
    | InvalidJson
    | WrongShape
    | Payload(enabled: Option<bool>, key: Option<string>, keyVersion: Option<string>, urlPrefix: Option<string>)

  /** The configuration file and its backup; None where there is no file. */
  datatype Disk = Disk(config: Option<string>, backup: Option<string>)

  /** How the operations of one push go. */
  datatype PushFaults = PushFaults(backup: Write, mkdir: Option<Fault>, write: Write, chmod: Option<Fault>, remove: Option<Fault>)

  /** How those of one restore go. */
  datatype RestoreFaults = RestoreFaults(copy: Write, remove: Option<Fault>)

  const FAULTLESS := PushFaults(Works, None, Works, None, None)

  function FaultCode(f: Fault): int {
    if f.Permission? then 1 else 2
  }

  /** The reply to a request whose last operation ended like this. */
  function CodeOf(fault: Option<Fault>): Reply {
    Code(if fault.Some? then FaultCode(fault.value) else 0)
  }

  function Why(w: Write): Option<Fault> {
    if w.Works? then None else Some(w.why)
  }

  /** The file ConfigParser writes for one-line values. */
  function ConfigText(key: string, keyVersion: string, urlPrefix: string): string {
    "[service]\n" + (Setting("key", key) + (Setting("key-version", keyVersion) + (Setting("url-prefix", urlPrefix) + "\n")))
  }

  function Setting(name: string, value: string): string {
    name + " = " + value + "\n"
  }

  /** The configuration an accepted request asks for: a file, or none. */
  function Wanted(r: Request): Option<string>
    requires Acceptable(r)
  {
    if r.enabled.value then Some(ConfigText(r.key.value, r.keyVersion.value, r.urlPrefix.value)) else None
  }

  /** The request has every key that is looked up. */
  predicate Acceptable(r: Request) {
    r.Payload? && r.enabled.Some? && (r.enabled.value ==> r.key.Some? && r.keyVersion.Some? && r.urlPrefix.Some?)
  }

  /* ----- what a call does, its faults given ----- */

  /** The checkpoint taken first; removing a file that is not there passes. */
  function BackedUp(d: Disk, w: Write): (Disk, Option<Fault>) {
    if d.config.Some? then (d.(backup := Written(d.backup, d.config.value, w)), Why(w))
    else if d.backup.None? then (d, None)
    else (if w.Works? then d.(backup := None) else d, Why(w))
  }

  function Removed(d: Disk, remove: Option<Fault>): (Disk, Option<Fault>) {
    if d.config.None? then (d, None) else (if remove.None? then d.(config := None) else d, remove)
  }

  /** mkdir, the three settings, open, write, chmod, as far as they get. */
  function Configured(d: Disk, r: Request, f: PushFaults): (Disk, Reply)
    requires r.Payload? && r.enabled == Some(true)
  {
    if f.mkdir.Some? then (d, CodeOf(f.mkdir))
    else if !Acceptable(r) then (d, Code(4))
    else
      var after := d.(config := Written(d.config, Wanted(r).value, f.write));
      (after, CodeOf(if f.write.Works? then f.chmod else Why(f.write)))
  }

  function Pushed(d: Disk, r: Request, f: PushFaults): (Disk, Reply) {
    var (saved, fault) := BackedUp(d, f.backup);
    if fault.Some? then (saved, CodeOf(fault))
    else
      match r
      case InvalidJson => (saved, Code(3))
      case WrongShape => (saved, Uncaught)
      case Payload(enabled, _, _, _) =>
        if enabled.None? then (saved, Code(4))
        else if enabled.value then Configured(saved, r, f)
        else var (after, why) := Removed(saved, f.remove); (after, CodeOf(why))
  }

  function Restored(d: Disk, f: RestoreFaults): (Disk, Reply) {
    if d.backup.None? then var (after, why) := Removed(d, f.remove); (after, CodeOf(why))
    else (d.(config := Written(d.config, d.backup.value, f.copy)), CodeOf(Why(f.copy)))
  }

  /* ----- what holds of a call whatever fails ----- */

  ghost predicate Pushes(a: Disk, b: Disk, request: Request, r: Reply) {
    && (r.Uncaught? ==> request.WrongShape?)
    && (r.Code? ==> 0 <= r.n <= 4)
    && (r != Code(1) && r != Code(2) ==> b.backup == a.config)
    && (r == Code(0) ==> Acceptable(request) && b.config == Wanted(request))
    && (r == Code(3) ==> request.InvalidJson?)
    && (r == Code(4) ==> request.Payload? && !Acceptable(request))
    && (!Acceptable(request) ==> b.config == a.config)
    && (b.backup == a.config || b.backup == a.backup || (a.config.Some? && b.backup.Some? && b.backup.value <= a.config.value))
  }

  ghost predicate Restores(a: Disk, b: Disk, r: Reply) {
    && b.backup == a.backup
    && (r == Code(0) || r == Code(1) || r == Code(2))
    && (r == Code(0) ==> b.config == a.backup)
    && (r != Code(0) ==> b.config == a.config || (a.backup.Some? && b.config.Some? && b.config.value <= a.backup.value))
  }

  lemma PushPushes(d: Disk, request: Request, f: PushFaults)
    ensures Pushes(d, Pushed(d, request, f).0, request, Pushed(d, request, f).1)
  {
  }

  lemma RestoreRestores(d: Disk, f: RestoreFaults)
    ensures Restores(d, Restored(d, f).0, Restored(d, f).1)
  {
  }

  lemma LineSplits(line: string, rest: string)
    requires '\n' !in line
    ensures Split(line + "\n" + rest, '\n') == [line] + Split(rest, '\n')
  {
    SplitPrefix(line, '\n', rest);
    assert ['\n'] == "\n";
  }

  /** The configuration file by its lines, for values of one line. */
  lemma ConfigLines(key: string, keyVersion: string, urlPrefix: string)
    requires '\n' !in key && '\n' !in keyVersion && '\n' !in urlPrefix
    ensures Split(ConfigText(key, keyVersion, urlPrefix), '\n') ==
              ["[service]", "key = " + key, "key-version = " + keyVersion, "url-prefix = " + urlPrefix, "", ""]
  {
    var last := Setting("url-prefix", urlPrefix) + "\n";
    var two := Setting("key-version", keyVersion) + last;
    var three := Setting("key", key) + two;
    LineSplits("", "");
    assert "" + "\n" + "" == "\n";
    LineSplits("url-prefix" + " = " + urlPrefix, "\n");
    LineSplits("key-version" + " = " + keyVersion, last);
    LineSplits("key" + " = " + key, two);
    LineSplits("[service]", three);
    assert "[service]" + "\n" == "[service]\n";
    assert "key" + " = " == "key = " && "key-version" + " = " == "key-version = " && "url-prefix" + " = " == "url-prefix = ";
  }

  /**
    A push answered 0 leaves what its payload says: no configuration if it is disabled, and otherwise
    the section with the payload's key, key version and URL prefix, each on its own line.
  */
  lemma PushedConfigIsPayloads(d: Disk, request: Request, f: PushFaults)
    requires Pushed(d, request, f).1 == Code(0)
    ensures request.Payload? && request.enabled.Some?
    ensures var config := Pushed(d, request, f).0.config;
            if !request.enabled.value then config.None?
            else
              && config.Some? && request.key.Some? && request.keyVersion.Some? && request.urlPrefix.Some?
              && ('\n' !in request.key.value && '\n' !in request.keyVersion.value && '\n' !in request.urlPrefix.value ==>
                    Split(config.value, '\n') == ["[service]", "key = " + request.key.value,
                                                  "key-version = " + request.keyVersion.value,
                                                  "url-prefix = " + request.urlPrefix.value, "", ""])
  {
    PushPushes(d, request, f);
    if request.enabled.value {
      var k, v, u := request.key.value, request.keyVersion.value, request.urlPrefix.value;
      if '\n' !in k && '\n' !in v && '\n' !in u {
        ConfigLines(k, v, u);
      }
    }
  }

  class Glome {
    var config: Option<string>
    var backup: Option<string>

    ghost function Snapshot(): Disk
      reads this
    {
      Disk(config, backup)
    }

    /** The checkpoint taken first. */
    method BackUp(w: Write) returns (fault: Option<Fault>)
      modifies this`backup
      ensures (Snapshot(), fault) == BackedUp(old(Snapshot()), w)
      ensures fault.None? ==> backup == config
    {
      fault := None;
      if config.Some? {
        backup := Written(backup, config.value, w);
        fault := Why(w);
      } else if backup.Some? {
        fault := Why(w);
        if fault.None? {
          backup := None;
        }
      }
    }

    method RemoveConfig(remove: Option<Fault>) returns (fault: Option<Fault>)
      modifies this`config
      ensures (Snapshot(), fault) == Removed(old(Snapshot()), remove)
      ensures fault.None? ==> config == None
      ensures fault.Some? ==> config == old(config)
    {
      fault := None;
      if config.Some? {
        fault := remove;
        if fault.None? {
          config := None;
        }
      }
    }

    method WriteConfig(r: Request, f: PushFaults) returns (reply: Reply)
      requires r.Payload? && r.enabled == Some(true)
      modifies this`config
      ensures (Snapshot(), reply) == Configured(old(Snapshot()), r, f)
      ensures reply == Code(0) ==> Acceptable(r) && config == Wanted(r)
      ensures !Acceptable(r) ==> config == old(config)
    {
      if f.mkdir.Some? {
        return CodeOf(f.mkdir);
      }
      if r.key.None? || r.keyVersion.None? || r.urlPrefix.None? {
        return Code(4);
      }
      config := Written(config, ConfigText(r.key.value, r.keyVersion.value, r.urlPrefix.value), f.write);
      if f.write.Fails? {
        return CodeOf(Some(f.write.why));
      }
      return CodeOf(f.chmod);
    }

    method PushConfig(request: Request, f: PushFaults) returns (r: Reply)
      modifies this
      ensures (Snapshot(), r) == Pushed(old(Snapshot()), request, f)
      ensures Pushes(old(Snapshot()), Snapshot(), request, r)
    {
      PushPushes(Snapshot(), request, f);
      var fault := BackUp(f.backup);
      if fault.Some? {
        return CodeOf(fault);
      }
      match request
      case InvalidJson => return Code(3);
      case WrongShape => return Uncaught;
      case Payload(enabled, _, _, _) =>
        if enabled.None? {
          return Code(4);
        }
        if enabled.value {
          r := WriteConfig(request, f);
        } else {
          fault := RemoveConfig(f.remove);
          return CodeOf(fault);
        }
    }

    method RestoreCheckpoint(f: RestoreFaults) returns (r: Reply)
      modifies this`config
      ensures (Snapshot(), r) == Restored(old(Snapshot()), f)
      ensures Restores(old(Snapshot()), Snapshot(), r)
    {
      RestoreRestores(Snapshot(), f);
      if backup.None? {
        var fault := RemoveConfig(f.remove);
        return CodeOf(fault);
      }
      config := Written(config, backup.value, f.copy);
      return CodeOf(Why(f.copy));
    }
  }

  /* ----- whole histories ----- */

  datatype Call = Push(request: Request) | Restore | Outside

  /** `Outside` is anything else on the switch editing the configuration, but not the backup. */
  ghost predicate Does(a: Disk, b: Disk, call: Call, r: Reply) {
    match call
    case Push(request) => Pushes(a, b, request, r)
    case Restore => Restores(a, b, r)
    case Outside => b.backup == a.backup
  }

  ghost predicate IsHistory(disks: seq<Disk>, calls: seq<Call>, replies: seq<Reply>) {
    && |disks| == |calls| + 1 && |replies| == |calls|
    && forall i | 0 <= i < |calls| :: Does(disks[i], disks[i + 1], calls[i], replies[i])
  }

  ghost predicate LatestPush(calls: seq<Call>, k: nat, n: nat) {
    k < n <= |calls| && calls[k].Push? && forall i | k < i < n :: !calls[i].Push?
  }

  lemma {:induction false} BackupKept(disks: seq<Disk>, calls: seq<Call>, replies: seq<Reply>, k: nat, n: nat)
    requires IsHistory(disks, calls, replies) && LatestPush(calls, k, n)
    ensures disks[n].backup == disks[k + 1].backup
    decreases n
  {
    if k + 1 < n {
      BackupKept(disks, calls, replies, k, n - 1);
      assert Does(disks[n - 1], disks[n], calls[n - 1], replies[n - 1]);
    }
  }

  /**
    For every history: unless the latest push reported a file error (1 or 2), a restore that returns
    0 yields the configuration, content or absence, that held just before that push, whether its
    payload was accepted or not, and however many restores, failed ones included, came in between.
    Without file errors these are all pushes and all restores.
  */
  lemma RestoreUndoesLatestPush(disks: seq<Disk>, calls: seq<Call>, replies: seq<Reply>, k: nat, n: nat)
    requires IsHistory(disks, calls, replies) && LatestPush(calls, k, n)
    requires replies[k] != Code(1) && replies[k] != Code(2)
    requires n < |calls| && calls[n].Restore? && replies[n] == Code(0)
    ensures disks[n + 1].config == disks[k].config
  {
    BackupKept(disks, calls, replies, k, n);
    assert Does(disks[k], disks[k + 1], calls[k], replies[k]);
    assert Does(disks[n], disks[n + 1], calls[n], replies[n]);
  }

  /** Taking the backup can go wrong in a way that matters: an older backup, or less of the configuration, may be left. */
  predicate BackupAtRisk(d: Disk) {
    d.backup != d.config || (d.config.Some? && d.config != Some(""))
  }

  /** A push answered `r`, with a restore after it that works, brings the configuration back whatever failed in the push. */
  ghost predicate RestorableAfter(d: Disk, request: Request, r: Reply) {
    forall f | Pushed(d, request, f).1 == r :: Restored(Pushed(d, request, f).0, RestoreFaults(Works, None)).0.config == d.config
  }

  lemma BackupFaultShows(d: Disk, request: Request, why: Fault, kept: Option<nat>)
    requires d.config.Some? || d.backup.Some?
    ensures var f := FAULTLESS.(backup := Fails(why, kept));
            && Pushed(d, request, f).1 == Code(FaultCode(why))
            && Pushed(d, request, f).0 == BackedUp(d, f.backup).0
  {
  }

  /**
    The reply tells exactly: for every configuration, backup and request, a push answered `r` can be
    restored from whatever failed in it if and only if `r` is not a file error (1 or 2), or the file
    and its backup are such that taking the backup cannot go wrong.
  */
  lemma RestorableIffNoFileError(d: Disk, request: Request, r: Reply)
    ensures RestorableAfter(d, request, r) <==> !((r == Code(1) || r == Code(2)) && BackupAtRisk(d))
  {
    if (r == Code(1) || r == Code(2)) && BackupAtRisk(d) {
      TornBackupCanBeInstalled(d, request, if r == Code(1) then Permission else OtherOs);
    } else {
      forall f | Pushed(d, request, f).1 == r
        ensures Restored(Pushed(d, request, f).0, RestoreFaults(Works, None)).0.config == d.config
      {
        BackupIsWhole(d, request, f);
      }
    }
  }

  lemma BackupIsWhole(d: Disk, request: Request, f: PushFaults)
    requires BackedUp(d, f.backup).1.None? || !BackupAtRisk(d)
    ensures Pushed(d, request, f).0.backup == d.config
  {
  }

  /** A push that reports a file error can leave a backup that is torn or old, and a restore then installs it, with code 0. */
  lemma TornBackupCanBeInstalled(d: Disk, request: Request, why: Fault)
    requires BackupAtRisk(d)
    ensures exists f :: && Pushed(d, request, f).1 == Code(FaultCode(why))
              && var (after, r) := Restored(Pushed(d, request, f).0, RestoreFaults(Works, None));
                 r == Code(0) && after.config != d.config
  {
    var kept := if d.backup != d.config then None else Some(0);
    var f := FAULTLESS.(backup := Fails(why, kept));
    BackupFaultShows(d, request, why, kept);
    assert BackedUp(d, f.backup).0.backup != d.config;
  }

  /** Restore is idempotent: a second one that succeeds changes nothing. */
  lemma RestoreIdempotent(a: Disk, b: Disk, c: Disk)
    requires Restores(a, b, Code(0)) && Restores(b, c, Code(0))
    ensures c == b
  {
  }

  /** A push answered 3 or 4, or raising, leaves the live configuration alone. */
  lemma RefusedPushKeepsConfig(a: Disk, b: Disk, request: Request, r: Reply)
    requires Pushes(a, b, request, r) && (r == Code(3) || r == Code(4) || r.Uncaught?)
    ensures b.config == a.config && b.backup == a.config
  {
  }
}
