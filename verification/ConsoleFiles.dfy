/**
  The console password service on its three files, with any operation on them failing
  (host_modules/gnsi_console.py).  Which operations fail, and how, is a parameter of each call; a move
  within /etc either happens or does not.
*/
module ConsoleFiles {
  import opened ConsoleRewrite
  import opened FileFaults
  import opened Wrappers

  /** The decoded request of `set`; one of the wrong shape raises, at once or only when it is gone through. */
  datatype Request = InvalidJson | NoPasswords | WrongShape(atOnce: bool) | Passwords(items: seq<Item>)

  /** /etc/shadow, its checkpoint and its temporary sibling; None where there is no file. */
  datatype Disk = Disk(passwd: Option<string>, checkpoint: Option<string>, temp: Option<string>)

  /* ----- lines ----- */

  /** What text mode makes of a file: a carriage return, with the newline behind it if there is one, is a newline. */
  function Universal(s: string): string
    decreases |s|
  {
    if s == "" then ""
    else if s[0] != '\r' then [s[0]] + Universal(s[1..])
    else "\n" + Universal(if |s| > 1 && s[1] == '\n' then s[2..] else s[1..])
  }

  /** The length of the first line of `s`, its newline included. */
  function LineLength(s: string): (n: nat)
    requires s != ""
    ensures 0 < n <= |s|
  {
    if s[0] == '\n' || |s| == 1 then 1 else 1 + LineLength(s[1..])
  }

  function LinesOf(s: string): seq<string> {
    if s == "" then [] else [s[..LineLength(s)]] + LinesOf(s[LineLength(s)..])
  }

  /** readlines: the lines of the file, each with its newline. */
  function ReadLines(s: string): seq<string> {
    LinesOf(Universal(s))
  }

  /** writelines. */
  function WriteLines(lines: seq<string>): string {
    if lines == [] then "" else lines[0] + WriteLines(lines[1..])
  }

  lemma {:induction false} LinesMakeTheText(s: string)
    ensures WriteLines(LinesOf(s)) == s
  {
    if s != "" {
      var first, rest := s[..LineLength(s)], s[LineLength(s)..];
      LinesMakeTheText(rest);
      assert LinesOf(s) == [first] + LinesOf(rest);
      assert ([first] + LinesOf(rest))[1..] == LinesOf(rest);
      assert s == first + rest;
    }
  }

  lemma {:induction false} UniversalIffNoReturn(s: string)
    ensures '\r' !in Universal(s)
    ensures Universal(s) == s <==> '\r' !in s
    decreases |s|
  {
    if s != "" {
      if s[0] != '\r' {
        UniversalIffNoReturn(s[1..]);
        assert s == [s[0]] + s[1..];
        assert Universal(s)[1..] == Universal(s[1..]);
      } else {
        UniversalIffNoReturn(if |s| > 1 && s[1] == '\n' then s[2..] else s[1..]);
        assert s[0] in s;
      }
    }
  }

  /** How many characters at the start of `s` make the first one that is read. */
  function FirstRead(s: string): (n: nat)
    requires s != ""
    ensures 0 < n <= |s|
  {
    if s[0] == '\r' && |s| > 1 && s[1] == '\n' then 2 else 1
  }

  /** Reading goes on behind the first character read, if what follows does not belong to it. */
  lemma UniversalOn(a: string, b: string)
    requires a != "" && (|a| == 1 && a[0] == '\r' && b != "" ==> b[0] != '\n')
    ensures Universal(a + b) == (if a[0] == '\r' then "\n" else [a[0]]) + Universal(a[FirstRead(a)..] + b)
    ensures Universal(a) == (if a[0] == '\r' then "\n" else [a[0]]) + Universal(a[FirstRead(a)..])
  {
    var n := FirstRead(a);
    assert (a + b)[n..] == a[n..] + b;
    assert |a| > 1 ==> (a + b)[1] == a[1];
  }

  /** What is read of a text followed by one that does not start with a newline is what is read of both. */
  lemma {:induction false} UniversalParts(a: string, b: string)
    requires b != "" ==> b[0] != '\n'
    ensures Universal(a + b) == Universal(a) + Universal(b)
    decreases |a|
  {
    if a == "" {
      assert a + b == b;
    } else {
      UniversalOn(a, b);
      UniversalParts(a[FirstRead(a)..], b);
    }
  }

  /** Wherever it stands, a carriage return becomes a newline, together with the newline behind it if there is one. */
  lemma ReturnsBecomeNewlines(a: string, b: string)
    ensures Universal(a + ("\r\n" + b)) == Universal(a) + ("\n" + Universal(b))
    ensures b == "" || b[0] != '\n' ==> Universal(a + ("\r" + b)) == Universal(a) + ("\n" + Universal(b))
  {
    UniversalParts(a, "\r\n" + b);
    UniversalParts(a, "\r" + b);
    assert ("\r\n" + b)[2..] == b && ("\r" + b)[1..] == b;
  }

  /** Reading a file's lines and writing them back gives the file if and only if it has no carriage return. */
  lemma WriteUndoesReadIff(s: string)
    ensures WriteLines(ReadLines(s)) == s <==> '\r' !in s
  {
    LinesMakeTheText(Universal(s));
    UniversalIffNoReturn(s);
  }

  /** The file `set` asks for: every line after all the hashed requests. */
  function Requested(content: string, items: seq<Item>, hashes: nat -> HashReply): string {
    var lines := ReadLines(content);
    var updates := Updates(items, hashes, |items|);
    WriteLines(seq(|lines|, i requires 0 <= i < |lines| => Final(lines[i], updates)))
  }

  /* ----- the file it asks for, line by line ----- */

  /** One line with its newline. */
  predicate OneLine(s: string) {
    s != "" && s[|s| - 1] == '\n' && forall i | 0 <= i < |s| - 1 :: s[i] != '\n'
  }

  lemma {:induction false} FirstLine(line: string, rest: string)
    requires OneLine(line)
    ensures LineLength(line + rest) == |line|
  {
    if |line| > 1 {
      FirstLine(line[1..], rest);
      assert (line + rest)[1..] == line[1..] + rest;
    }
  }

  lemma {:induction false} LinesBack(lines: seq<string>)
    requires forall line | line in lines :: OneLine(line)
    ensures LinesOf(WriteLines(lines)) == lines
  {
    if lines != [] {
      var line, rest := lines[0], WriteLines(lines[1..]);
      assert line in lines && forall l | l in lines[1..] :: l in lines;
      FirstLine(line, rest);
      LinesBack(lines[1..]);
      assert (line + rest)[..|line|] == line && (line + rest)[|line|..] == rest;
    }
  }

  lemma {:induction false} NoReturnInLines(lines: seq<string>)
    requires forall line | line in lines :: '\r' !in line
    ensures '\r' !in WriteLines(lines)
  {
    if lines != [] {
      assert lines[0] in lines && forall l | l in lines[1..] :: l in lines;
      NoReturnInLines(lines[1..]);
    }
  }

  lemma {:induction false} LineEndsOnce(s: string)
    requires s != ""
    ensures forall i | 0 <= i < LineLength(s) - 1 :: s[i] != '\n'
  {
    if s[0] != '\n' && |s| > 1 {
      LineEndsOnce(s[1..]);
      assert forall i | 1 <= i < |s| :: s[i] == s[1..][i - 1];
    }
  }

  /** Of a line that is read, only the end can be a newline, and it holds no character that is not in the text. */
  lemma {:induction false} LinesRead(s: string)
    ensures forall line | line in LinesOf(s) ::
              line != "" && (forall i | 0 <= i < |line| - 1 :: line[i] != '\n') && forall c | c in line :: c in s
  {
    if s != "" {
      var n := LineLength(s);
      LineEndsOnce(s);
      LinesRead(s[n..]);
      assert forall c | c in s[n..] :: c in s;
      assert forall c | c in s[..n] :: c in s;
    }
  }

  /** Neither a newline nor a carriage return. */
  predicate Plain(s: string) { '\n' !in s && '\r' !in s }

  /** The names and hashes of the request are plain. */
  ghost predicate PlainRequest(items: seq<Item>, hashes: nat -> HashReply) {
    forall n | 0 <= n < |items| && Effective(items, hashes, n) :: Plain(items[n].name.value) && Plain(hashes(n).text)
  }

  /** What element `n` of the request makes of a line. */
  function Entered(items: seq<Item>, hashes: nat -> HashReply, n: nat): string
    requires n < |items| && Effective(items, hashes, n)
  {
    items[n].name.value + ":" + hashes(n).text + ":12215:0:99999:7:::\n"
  }

  /** Element `n` has a prefix of the line as its name. */
  predicate Hits(items: seq<Item>, hashes: nat -> HashReply, n: nat, line: string)
    requires n < |items|
  {
    Effective(items, hashes, n) && items[n].name.value <= line
  }

  /** None of the first `n` elements has a prefix of the line as its name. */
  ghost predicate NoneHits(items: seq<Item>, hashes: nat -> HashReply, n: nat, line: string)
    requires n <= |items|
  {
    forall m | 0 <= m < n :: !Hits(items, hashes, m, line)
  }

  /** The line is what element `l` entered, and no later one of the first `n` hits it. */
  ghost predicate LastEntered(line: string, items: seq<Item>, hashes: nat -> HashReply, l: nat, n: nat)
    requires l < n <= |items|
  {
    Effective(items, hashes, l) && line == Entered(items, hashes, l) && forall m | l < m < n :: !Hits(items, hashes, m, line)
  }

  /**
    The first `n` elements have turned the one line into the other: it is as before if none of their
    names is a prefix of it, and else what the last of them to hit it entered.
  */
  ghost predicate Becomes(before: string, after: string, items: seq<Item>, hashes: nat -> HashReply, n: nat)
    requires n <= |items|
  {
    if NoneHits(items, hashes, n, before) then after == before
    else exists l | 0 <= l < n :: LastEntered(after, items, hashes, l, n)
  }

  lemma OneMoreElement(line: string, items: seq<Item>, hashes: nat -> HashReply, n: nat)
    requires n < |items|
    ensures var now := Final(line, Updates(items, hashes, n));
            Final(line, Updates(items, hashes, n + 1)) == if Hits(items, hashes, n, now) then Entered(items, hashes, n) else now
  {
    UpdatesNext(items, hashes, n, line);
  }

  lemma NoneHitsNext(items: seq<Item>, hashes: nat -> HashReply, n: nat, line: string)
    requires 0 < n <= |items|
    ensures NoneHits(items, hashes, n, line) <==> NoneHits(items, hashes, n - 1, line) && !Hits(items, hashes, n - 1, line)
  {
  }

  lemma NextMisses(line: string, now: string, items: seq<Item>, hashes: nat -> HashReply, n: nat)
    requires 0 < n <= |items| && Becomes(line, now, items, hashes, n - 1) && !Hits(items, hashes, n - 1, now)
    ensures Becomes(line, now, items, hashes, n)
  {
    NoneHitsNext(items, hashes, n, line);
    if !NoneHits(items, hashes, n - 1, line) {
      var l :| 0 <= l < n - 1 && LastEntered(now, items, hashes, l, n - 1);
      assert LastEntered(now, items, hashes, l, n);
    }
  }

  lemma NextBecomes(line: string, was: string, now: string, items: seq<Item>, hashes: nat -> HashReply, n: nat)
    requires 0 < n <= |items| && Becomes(line, was, items, hashes, n - 1)
    requires now == if Hits(items, hashes, n - 1, was) then Entered(items, hashes, n - 1) else was
    ensures Becomes(line, now, items, hashes, n)
  {
    if Hits(items, hashes, n - 1, was) {
      NoneHitsNext(items, hashes, n, line);
      assert LastEntered(now, items, hashes, n - 1, n);
    } else {
      NextMisses(line, now, items, hashes, n);
    }
  }

  lemma FinalBecomesNext(line: string, items: seq<Item>, hashes: nat -> HashReply, n: nat)
    requires 0 < n <= |items| && Becomes(line, Final(line, Updates(items, hashes, n - 1)), items, hashes, n - 1)
    ensures Becomes(line, Final(line, Updates(items, hashes, n)), items, hashes, n)
  {
    OneMoreElement(line, items, hashes, n - 1);
    NextBecomes(line, Final(line, Updates(items, hashes, n - 1)), Final(line, Updates(items, hashes, n)), items, hashes, n);
  }

  lemma {:induction false} FinalBecomes(line: string, items: seq<Item>, hashes: nat -> HashReply, n: nat)
    requires n <= |items|
    ensures Becomes(line, Final(line, Updates(items, hashes, n)), items, hashes, n)
  {
    if n > 0 {
      FinalBecomes(line, items, hashes, n - 1);
      FinalBecomesNext(line, items, hashes, n);
    }
  }

  lemma EnteredIsOneLine(items: seq<Item>, hashes: nat -> HashReply, n: nat)
    requires n < |items| && Effective(items, hashes, n) && PlainRequest(items, hashes)
    ensures OneLine(Entered(items, hashes, n)) && '\r' !in Entered(items, hashes, n)
  {
    var name, hash, tail := items[n].name.value, hashes(n).text, ":12215:0:99999:7:::\n";
    assert Plain(name) && Plain(hash);
    assert OneLine(tail) && '\r' !in tail;
    PlainBefore(hash, tail);
    PlainBefore(":", hash + tail);
    PlainBefore(name, ":" + (hash + tail));
    assert Entered(items, hashes, n) == name + (":" + (hash + tail));
  }

  lemma PlainBefore(a: string, b: string)
    requires Plain(a) && OneLine(b) && '\r' !in b
    ensures OneLine(a + b) && '\r' !in a + b
  {
    forall i | 0 <= i < |a + b| - 1 ensures (a + b)[i] != '\n' {
      if i < |a| {
        assert (a + b)[i] in a;
      }
    }
  }

  lemma BecomesOneLine(before: string, after: string, items: seq<Item>, hashes: nat -> HashReply)
    requires OneLine(before) && '\r' !in before && PlainRequest(items, hashes) && Becomes(before, after, items, hashes, |items|)
    ensures OneLine(after) && '\r' !in after
  {
    if after != before {
      var l :| 0 <= l < |items| && LastEntered(after, items, hashes, l, |items|);
      EnteredIsOneLine(items, hashes, l);
    }
  }

  /** The lines of the file are whole: the last one, too, ends in a newline. */
  predicate WholeLines(content: string) {
    forall line | line in ReadLines(content) :: line != "" && line[|line| - 1] == '\n'
  }

  /** The requested file, read back, has the lines of the file in their order, each as the request makes it. */
  lemma RequestedLineByLine(content: string, items: seq<Item>, hashes: nat -> HashReply)
    requires WholeLines(content) && PlainRequest(items, hashes)
    ensures var before, after := ReadLines(content), ReadLines(Requested(content, items, hashes));
            |after| == |before| && forall i | 0 <= i < |before| :: Becomes(before[i], after[i], items, hashes, |items|)
  {
    var before, updates := ReadLines(content), Updates(items, hashes, |items|);
    var after := seq(|before|, i requires 0 <= i < |before| => Final(before[i], updates));
    UniversalIffNoReturn(content);
    LinesRead(Universal(content));
    forall i | 0 <= i < |before|
      ensures Becomes(before[i], after[i], items, hashes, |items|) && OneLine(after[i]) && '\r' !in after[i]
    {
      assert before[i] in before;
      FinalBecomes(before[i], items, hashes, |items|);
      BecomesOneLine(before[i], after[i], items, hashes);
    }
    NoReturnInLines(after);
    UniversalIffNoReturn(WriteLines(after));
    LinesBack(after);
  }

  /* ----- what a call does, its faults given ----- */

  /** How reading the password file goes; bytes that are no text raise something that is not caught. */
  datatype Reading = Reads | Unreadable | Undecodable

  datatype SetFaults = SetFaults(reading: Reading, write: Write, clears: bool, moves: bool, removes: bool)

  /** shutil.copy; it opens the source first. */
  function Created(d: Disk, copy: Write): (Disk, Reply) {
    if d.passwd.None? then (d, Code(1))
    else (d.(checkpoint := Written(d.checkpoint, d.passwd.value, copy)), Code(if copy.Works? then 0 else 1))
  }

  /** shutil.move, and os.remove if the move failed. */
  function Restored(d: Disk, moves: bool, removes: bool): (Disk, Reply) {
    if d.checkpoint.None? then (d, Code(1))
    else if moves then (d.(passwd := d.checkpoint, checkpoint := None), Code(0))
    else (if removes then d.(checkpoint := None) else d, Code(1))
  }

  function Deleted(d: Disk, removes: bool): (Disk, Reply) {
    if removes && d.checkpoint.Some? then (d.(checkpoint := None), Code(0)) else (d, Code(1))
  }

  /** create_temp_passwd_file: after a failure what was written is removed, if that works. */
  function TempWritten(temp: Option<string>, text: string, f: SetFaults): Option<string> {
    if f.write.Fails? && f.clears then None else Written(temp, text, f.write)
  }

  /** The last two operations of `set`. */
  function Replaced(d: Disk, text: string, f: SetFaults): (Disk, Reply) {
    var written := d.(temp := TempWritten(d.temp, text, f));
    if f.write.Fails? then (written, Code(1))
    else if f.moves then (d.(passwd := Some(text), temp := None), Code(0))
    else (if f.removes then written.(temp := None) else written, Code(1))
  }

  function ContentRead(d: Disk, f: SetFaults): seq<string> {
    if f.reading.Reads? && d.passwd.Some? then ReadLines(d.passwd.value) else []
  }

  function DoneSet(d: Disk, request: Request, hashes: nat -> HashReply, f: SetFaults): (Disk, Reply) {
    if d.checkpoint.None? || request.InvalidJson? then (d, Code(1))
    else if request.WrongShape? && request.atOnce then (d, Uncaught)
    else if request.NoPasswords? then (d, Code(1))
    else if f.reading.Undecodable? && d.passwd.Some? then (d, Uncaught)
    else if ContentRead(d, f) == [] then (d, Code(1))
    else if request.WrongShape? || SomeRaises(request.items, hashes) then (d, Uncaught)
    else Replaced(d, Requested(d.passwd.value, request.items, hashes), f)
  }

  /* ----- what holds of a call whatever fails ----- */

  ghost predicate Creates(a: Disk, b: Disk, r: Reply) {
    && (r == Code(0) || r == Code(1))
    && b.passwd == a.passwd && b.temp == a.temp
    && (r == Code(0) ==> a.passwd.Some? && b.checkpoint == a.passwd)
  }

  /** A restore that fails at the move leaves the password file alone but may remove the checkpoint. */
  ghost predicate Restores(a: Disk, b: Disk, r: Reply) {
    && (r == Code(0) || r == Code(1))
    && b.temp == a.temp
    && (a.checkpoint.None? ==> r == Code(1) && b == a)
    && (r == Code(0) ==> b.passwd == a.checkpoint && b.checkpoint.None?)
    && (r == Code(1) ==> b.passwd == a.passwd && (b.checkpoint == a.checkpoint || b.checkpoint.None?))
  }

  ghost predicate Deletes(a: Disk, b: Disk, r: Reply) {
    && b.passwd == a.passwd && b.temp == a.temp
    && if r == Code(0) then a.checkpoint.Some? && b.checkpoint.None? else r == Code(1) && b.checkpoint == a.checkpoint
  }

  /** `garbled`: the password file's bytes were no text when it was read. */
  ghost predicate Sets(a: Disk, b: Disk, request: Request, hashes: nat -> HashReply, garbled: bool, r: Reply) {
    && b.checkpoint == a.checkpoint
    && (a.checkpoint.None? || request.InvalidJson? || request.NoPasswords? ==> r == Code(1) && b == a)
    && (r != Code(0) ==> b.passwd == a.passwd)
    && (r == Code(0) ==>
          && request.Passwords? && a.passwd.Some? && ReadLines(a.passwd.value) != []
          && b.passwd == Some(Requested(a.passwd.value, request.items, hashes)) && b.temp.None?)
    && (r == Uncaught ==> garbled || request.WrongShape? || (request.Passwords? && SomeRaises(request.items, hashes)))
    && (r.Code? ==> r.n == 0 || r.n == 1)
  }

  lemma CallsFollow(d: Disk, copy: Write, moves: bool, removes: bool)
    ensures Creates(d, Created(d, copy).0, Created(d, copy).1)
    ensures Restores(d, Restored(d, moves, removes).0, Restored(d, moves, removes).1)
    ensures Deletes(d, Deleted(d, removes).0, Deleted(d, removes).1)
  {
  }

  lemma SetFollows(d: Disk, request: Request, hashes: nat -> HashReply, f: SetFaults)
    ensures Sets(d, DoneSet(d, request, hashes, f).0, request, hashes, f.reading.Undecodable?, DoneSet(d, request, hashes, f).1)
  {
  }

  /**
    A set answered 0 rewrites the password file line by line: read back, it has as many lines as before,
    each as it was or as the last element of the request that hit it entered it.
  */
  lemma SetRewritesLineByLine(d: Disk, items: seq<Item>, hashes: nat -> HashReply, f: SetFaults)
    requires DoneSet(d, Passwords(items), hashes, f).1 == Code(0)
    requires d.passwd.Some? ==> WholeLines(d.passwd.value)
    requires PlainRequest(items, hashes)
    ensures var after := DoneSet(d, Passwords(items), hashes, f).0;
            && d.passwd.Some? && after.passwd.Some?
            && var was, now := ReadLines(d.passwd.value), ReadLines(after.passwd.value);
               |now| == |was| && forall i | 0 <= i < |was| :: Becomes(was[i], now[i], items, hashes, |items|)
  {
    SetFollows(d, Passwords(items), hashes, f);
    RequestedLineByLine(d.passwd.value, items, hashes);
  }

  class GnsiConsole {
    var passwd: Option<string>
    var checkpoint: Option<string>
    var temp: Option<string>

    ghost function Snapshot(): Disk
      reads this
    {
      Disk(passwd, checkpoint, temp)
    }

    method CreateCheckpoint(copy: Write) returns (r: Reply)
      modifies this
      ensures (Snapshot(), r) == Created(old(Snapshot()), copy)
      ensures Creates(old(Snapshot()), Snapshot(), r)
    {
      if passwd.Some? {
        checkpoint := Written(checkpoint, passwd.value, copy);
        if copy.Works? {
          return Code(0);
        }
      }
      return Code(1);
    }

    method RestoreCheckpoint(moves: bool, removes: bool) returns (r: Reply)
      modifies this
      ensures (Snapshot(), r) == Restored(old(Snapshot()), moves, removes)
      ensures Restores(old(Snapshot()), Snapshot(), r)
    {
      if checkpoint.None? {
        return Code(1);
      }
      if moves {
        passwd, checkpoint := checkpoint, None;
        return Code(0);
      }
      if removes {
        checkpoint := None;
      }
      return Code(1);
    }

    method DeleteCheckpoint(removes: bool) returns (r: Reply)
      modifies this
      ensures (Snapshot(), r) == Deleted(old(Snapshot()), removes)
      ensures Deletes(old(Snapshot()), Snapshot(), r)
    {
      if removes && checkpoint.Some? {
        checkpoint := None;
        return Code(0);
      }
      return Code(1);
    }

    method CreateTempPasswdFile(content: string, f: SetFaults) returns (rc: int)
      modifies this`temp
      ensures temp == TempWritten(old(temp), content, f)
      ensures rc == if f.write.Works? then 0 else 1
      ensures rc == 0 ==> temp == Some(content)
    {
      temp := Written(temp, content, f.write);
      if f.write.Works? {
        return 0;
      }
      if temp.Some? && f.clears {
        temp := None;
      }
      return 1;
    }

    /** update_password_file(PASSWD_FILE_TEMP). */
    method MoveTempToPasswd(f: SetFaults) returns (rc: int)
      requires temp.Some?
      modifies this`passwd, this`temp
      ensures rc == if f.moves then 0 else 1
      ensures rc == 0 ==> passwd == old(temp) && temp.None?
      ensures rc != 0 ==> passwd == old(passwd) && temp == if f.removes then None else old(temp)
    {
      if f.moves {
        passwd, temp := temp, None;
        return 0;
      }
      if f.removes {
        temp := None;
      }
      return 1;
    }

    method Set(request: Request, hashes: nat -> HashReply, f: SetFaults) returns (r: Reply)
      modifies this
      ensures (Snapshot(), r) == DoneSet(old(Snapshot()), request, hashes, f)
      ensures Sets(old(Snapshot()), Snapshot(), request, hashes, f.reading.Undecodable?, r)
    {
      SetFollows(Snapshot(), request, hashes, f);
      if checkpoint.None? || request.InvalidJson? {
        return Code(1);
      }
      if request.WrongShape? && request.atOnce {
        return Uncaught;
      }
      if request.NoPasswords? {
        return Code(1);
      }
      if f.reading.Undecodable? && passwd.Some? {
        return Uncaught;
      }
      var content := if f.reading.Reads? && passwd.Some? then ReadLines(passwd.value) else [];
      if content == [] {
        return Code(1);
      }
      if request.WrongShape? {
        return Uncaught;
      }
      var lines := new string[|content|](i requires 0 <= i < |content| => content[i]);
      assert forall i | 0 <= i < lines.Length :: lines[i] == content[i];
      var raised := ApplyRequests(request.items, hashes, lines);
      if raised {
        return Uncaught;
      }
      ghost var updates := Updates(request.items, hashes, |request.items|);
      assert lines[..] == seq(|content|, i requires 0 <= i < |content| => Final(content[i], updates));
      var rc := CreateTempPasswdFile(WriteLines(lines[..]), f);
      if rc != 0 {
        return Code(rc);
      }
      rc := MoveTempToPasswd(f);
      return Code(rc);
    }
  }

  /* ----- whole histories ----- */

  /** A call of the service, or something else on the switch editing the password file. */
  datatype Call = Create | Restore | Delete | SetPasswords(request: Request, hashes: nat -> HashReply, garbled: bool) | Outside

  ghost predicate Does(a: Disk, b: Disk, call: Call, r: Reply) {
    match call
    case Create => Creates(a, b, r)
    case Restore => Restores(a, b, r)
    case Delete => Deletes(a, b, r)
    case SetPasswords(request, hashes, garbled) => Sets(a, b, request, hashes, garbled, r)
    case Outside => b.checkpoint == a.checkpoint
  }

  ghost predicate IsHistory(disks: seq<Disk>, calls: seq<Call>, replies: seq<Reply>) {
    && |disks| == |calls| + 1 && |replies| == |calls|
    && forall i | 0 <= i < |calls| :: Does(disks[i], disks[i + 1], calls[i], replies[i])
  }

  ghost predicate LatestCreate(calls: seq<Call>, k: nat, n: nat) {
    k < n <= |calls| && calls[k].Create? && forall i | k < i < n :: !calls[i].Create?
  }

  /** Until the next create the checkpoint is what the create left, or gone: no set, failed or not, alters it. */
  lemma {:induction false} CheckpointKeptOrGone(disks: seq<Disk>, calls: seq<Call>, replies: seq<Reply>, k: nat, n: nat)
    requires IsHistory(disks, calls, replies) && LatestCreate(calls, k, n)
    ensures disks[n].checkpoint == disks[k + 1].checkpoint || disks[n].checkpoint.None?
    decreases n
  {
    if k + 1 < n {
      CheckpointKeptOrGone(disks, calls, replies, k, n - 1);
      assert Does(disks[n - 1], disks[n], calls[n - 1], replies[n - 1]);
    }
  }

  /**
    For every history with any failures: when the latest create returned 0 and restore returns 0, the
    password file is as it was at that create, whatever was set or edited in between, and the
    checkpoint is used up.
  */
  lemma RestoreUndoesEverySet(disks: seq<Disk>, calls: seq<Call>, replies: seq<Reply>, k: nat, n: nat)
    requires IsHistory(disks, calls, replies) && LatestCreate(calls, k, n) && replies[k] == Code(0)
    requires n < |calls| && calls[n].Restore? && replies[n] == Code(0)
    ensures disks[k].passwd.Some? && disks[n + 1].passwd == disks[k].passwd && disks[n + 1].checkpoint.None?
  {
    assert Does(disks[k], disks[k + 1], calls[k], replies[k]);
    assert Does(disks[n], disks[n + 1], calls[n], replies[n]);
    CheckpointKeptOrGone(disks, calls, replies, k, n);
  }

  /**
    A checkpoint that is gone stays gone until the next create, and every restore and set until then
    is refused: so a restore whose move failed and which removed its file cannot be tried again.
  */
  lemma {:induction false} GoneCheckpointRefusesAll(disks: seq<Disk>, calls: seq<Call>, replies: seq<Reply>, m: nat, n: nat)
    requires IsHistory(disks, calls, replies) && m <= n <= |calls| && disks[m].checkpoint.None?
    requires forall i | m <= i < n :: !calls[i].Create?
    ensures disks[n].checkpoint.None?
    ensures forall i | m <= i < n && (calls[i].Restore? || calls[i].SetPasswords?) :: replies[i] == Code(1) && disks[i + 1] == disks[i]
    decreases n
  {
    if m < n {
      GoneCheckpointRefusesAll(disks, calls, replies, m, n - 1);
      assert Does(disks[n - 1], disks[n], calls[n - 1], replies[n - 1]);
    }
  }

  /** Taking the checkpoint can go wrong in a way that matters: an older file, or less of the password file, may be left. */
  predicate CheckpointAtRisk(d: Disk) {
    || (d.checkpoint.Some? && d.checkpoint != d.passwd)
    || (d.passwd.Some? && d.passwd != Some(""))
  }

  /** A create answered `r` whatever failed in it: a restore after it that returns 0 gives the password file back. */
  ghost predicate RestorableAfter(d: Disk, r: Reply) {
    forall copy | Created(d, copy).1 == r ::
      var (after, code) := Restored(Created(d, copy).0, true, true); code == Code(0) ==> after.passwd == d.passwd
  }

  /**
    A failed create is no protection, exactly: restoring is safe after every create answered `r` if
    and only if `r` is not 1, or the files are such that the copy cannot go wrong.
  */
  lemma RestorableIffCreated(d: Disk, r: Reply)
    ensures RestorableAfter(d, r) <==> !(r == Code(1) && CheckpointAtRisk(d))
  {
    if r == Code(1) && CheckpointAtRisk(d) {
      TornCheckpointCanBeInstalled(d);
    }
  }

  /** The torn or old checkpoint that a failed create leaves is installed by restore, with code 0. */
  lemma TornCheckpointCanBeInstalled(d: Disk)
    requires CheckpointAtRisk(d)
    ensures exists copy :: && Created(d, copy).1 == Code(1)
              && var (after, code) := Restored(Created(d, copy).0, true, true); code == Code(0) && after.passwd != d.passwd
  {
    var kept := if d.checkpoint.Some? && d.checkpoint != d.passwd then None else Some(0);
    var copy := Fails(OtherOs, kept);
    assert Created(d, copy).0.checkpoint.Some? && Created(d, copy).0.checkpoint != d.passwd;
  }

  /**
    After a restore answered 1 the password file is as it was, and another restore can succeed if and
    only if the checkpoint is still there.
  */
  lemma RetryIffCheckpointLeft(d: Disk, moves: bool, removes: bool)
    requires Restored(d, moves, removes).1 == Code(1)
    ensures var after := Restored(d, moves, removes).0;
            && after.passwd == d.passwd
            && ((exists again, clears :: Restored(after, again, clears).1 == Code(0)) <==> after.checkpoint.Some?)
  {
    var after := Restored(d, moves, removes).0;
    if after.checkpoint.Some? {
      assert Restored(after, true, true).1 == Code(0);
    }
  }

  /** In every history that goes on from such a restore without a create, the checkpoint is lost for good. */
  lemma FailedRestoreEndsTheCheckpoint(d: Disk, disks: seq<Disk>, calls: seq<Call>, replies: seq<Reply>, i: nat)
    requires d.checkpoint.Some? && IsHistory(disks, calls, replies) && disks[0] == Restored(d, false, true).0
    requires i < |calls| && forall k | 0 <= k <= i :: !calls[k].Create?
    ensures calls[i].Restore? || calls[i].SetPasswords? ==> replies[i] == Code(1) && disks[i + 1] == disks[i]
  {
    GoneCheckpointRefusesAll(disks, calls, replies, 0, i + 1);
  }
}
