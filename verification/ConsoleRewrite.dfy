/** How a console password request rewrites the lines of the password file (host_modules/gnsi_console.py). */
module ConsoleRewrite {
  import opened Wrappers

  const TRAILING_PASSWORD_INFO := ":12215:0:99999:7:::\n"

  /** One element of "ConsolePasswords"; either key may be missing. */
  datatype Item = Item(name: Option<string>, password: Option<string>)

  /** What hashing the password of one element leads to. */
  datatype HashReply = Hash(text: string) | HashFails | HashRaises

  /** A name and the hash its line is to get. */
  datatype Update = Update(name: string, hash: string)

  /** The updates the first `n` elements amount to: those with both keys whose hash is not empty. */
  function Updates(items: seq<Item>, hashes: nat -> HashReply, n: nat): seq<Update>
    requires n <= |items|
  {
    if n == 0 then []
    else
      var item := items[n - 1];
      Updates(items, hashes, n - 1) +
      if item.name.Some? && item.password.Some? && hashes(n - 1).Hash? && hashes(n - 1).text != ""
      then [Update(item.name.value, hashes(n - 1).text)] else []
  }

  /** Some element with both keys makes hashing raise. */
  predicate SomeRaises(items: seq<Item>, hashes: nat -> HashReply) {
    exists i | 0 <= i < |items| :: items[i].name.Some? && items[i].password.Some? && hashes(i).HashRaises?
  }

  function NewLine(u: Update): string {
    u.name + ":" + u.hash + TRAILING_PASSWORD_INFO
  }

  function Rewrite(line: string, u: Update): string {
    if u.name <= line then NewLine(u) else line
  }

  /** A line after all the updates, one after the other. */
  function Final(line: string, us: seq<Update>): string {
    if us == [] then line else Rewrite(Final(line, us[..|us| - 1]), us[|us| - 1])
  }

  method UpdatePasswordIfUserFound(name: string, hash: string, lines: array<string>) returns (found: bool)
    modifies lines
    ensures forall i | 0 <= i < lines.Length :: lines[i] == Rewrite(old(lines[i]), Update(name, hash))
    ensures found <==> exists i | 0 <= i < lines.Length :: name <= old(lines[i])
  {
    found := false;
    for i := 0 to lines.Length
      invariant forall k | 0 <= k < i :: lines[k] == Rewrite(old(lines[k]), Update(name, hash))
      invariant forall k | i <= k < lines.Length :: lines[k] == old(lines[k])
      invariant found <==> exists k | 0 <= k < i :: name <= old(lines[k])
    {
      if name <= lines[i] {
        found := true;
        lines[i] := name + ":" + hash + TRAILING_PASSWORD_INFO;
      }
    }
  }

  lemma FinalAppend(line: string, us: seq<Update>, u: Update)
    ensures Final(line, us + [u]) == Rewrite(Final(line, us), u)
  {
    assert (us + [u])[..|us|] == us;
  }

  /** Whether element `n` comes to an update. */
  predicate Effective(items: seq<Item>, hashes: nat -> HashReply, n: nat)
    requires n < |items|
  {
    items[n].name.Some? && items[n].password.Some? && hashes(n).Hash? && hashes(n).text != ""
  }

  lemma UpdatesNext(items: seq<Item>, hashes: nat -> HashReply, n: nat, line: string)
    requires n < |items|
    ensures Final(line, Updates(items, hashes, n + 1)) ==
              if Effective(items, hashes, n)
              then Rewrite(Final(line, Updates(items, hashes, n)), Update(items[n].name.value, hashes(n).text))
              else Final(line, Updates(items, hashes, n))
  {
    if Effective(items, hashes, n) {
      FinalAppend(line, Updates(items, hashes, n), Update(items[n].name.value, hashes(n).text));
    } else {
      assert Updates(items, hashes, n + 1) == Updates(items, hashes, n);
    }
  }

  /** One turn of the loop over the requests. */
  method ApplyRequest(item: Item, reply: HashReply, lines: array<string>) returns (raised: bool)
    modifies lines
    ensures raised <==> item.name.Some? && item.password.Some? && reply.HashRaises?
    ensures forall i | 0 <= i < lines.Length ::
              lines[i] == if item.name.Some? && item.password.Some? && reply.Hash? && reply.text != ""
                          then Rewrite(old(lines[i]), Update(item.name.value, reply.text)) else old(lines[i])
  {
    if item.name.None? || item.password.None? {
      return false;
    }
    match reply
    case HashRaises => return true;
    case HashFails => return false;
    case Hash(text) =>
      if text != "" {
        var _ := UpdatePasswordIfUserFound(item.name.value, text, lines);
      }
      return false;
  }

  /** The loop over the requests: each line, on its own, goes through all the updates in order. */
  method ApplyRequests(items: seq<Item>, hashes: nat -> HashReply, lines: array<string>) returns (raised: bool)
    modifies lines
    ensures raised <==> SomeRaises(items, hashes)
    ensures !raised ==> forall i | 0 <= i < lines.Length :: lines[i] == Final(old(lines[i]), Updates(items, hashes, |items|))
  {
    for n := 0 to |items|
      invariant forall i | 0 <= i < n :: !(items[i].name.Some? && items[i].password.Some? && hashes(i).HashRaises?)
      invariant forall i | 0 <= i < lines.Length :: lines[i] == Final(old(lines[i]), Updates(items, hashes, n))
    {
      forall i | 0 <= i < lines.Length
        ensures Final(old(lines[i]), Updates(items, hashes, n + 1)) ==
                  if Effective(items, hashes, n) then Rewrite(lines[i], Update(items[n].name.value, hashes(n).text)) else lines[i]
      {
        UpdatesNext(items, hashes, n, old(lines[i]));
      }
      raised := ApplyRequest(items[n], hashes(n), lines);
      if raised {
        return;
      }
    }
    raised := false;
  }

  /* ----- whose line gets rewritten ----- */

  /** The line is that of user `name`. */
  predicate Own(name: string, line: string) {
    name + ":" <= line
  }

  lemma LongerOwnerHasColon(a: string, b: string, line: string)
    requires Own(a, line) && Own(b, line) && |a| < |b|
    ensures ':' in b
  {
    assert (a + ":")[|a|] == line[|a|] == (b + ":")[|a|];
    assert b[|a|] in b;
  }

  lemma OwnersAgree(a: string, b: string, line: string)
    requires ':' !in a && ':' !in b && Own(a, line) && Own(b, line)
    ensures a == b
  {
    assert a == line[..|a|] && b == line[..|b|];
    if |a| < |b| {
      LongerOwnerHasColon(a, b, line);
    } else if |b| < |a| {
      LongerOwnerHasColon(b, a, line);
    }
  }

  /** A colon-free name that is a prefix of a rewritten line is a prefix of the name it was rewritten for. */
  lemma PrefixOfNewLine(a: string, u: Update)
    requires ':' !in a
    ensures a <= NewLine(u) <==> a <= u.name
  {
    var line := NewLine(u);
    assert u.name <= line && line[..|u.name|] == u.name;
    if a <= line {
      assert a == line[..|a|];
      if |u.name| < |a| {
        LongerPrefixHasColon(a, u);
      }
    }
  }

  lemma LongerPrefixHasColon(a: string, u: Update)
    requires a <= NewLine(u) && |u.name| < |a|
    ensures ':' in a
  {
    assert NewLine(u)[|u.name|] == ':';
    assert a[|u.name|] in a;
  }

  /** The last of the updates that are for the user of `line`. */
  function LastFor(line: string, us: seq<Update>): Option<Update> {
    if us == [] then None
    else
      var last := us[|us| - 1];
      if Own(last.name, line) then Some(last) else LastFor(line, us[..|us| - 1])
  }

  lemma {:induction false} LastForOwns(line: string, us: seq<Update>)
    ensures LastFor(line, us).Some? ==> Own(LastFor(line, us).value.name, line) && LastFor(line, us).value in us
  {
    if us != [] {
      LastForOwns(line, us[..|us| - 1]);
    }
  }

  /** The line as its user's last request wants it, and unchanged if there is none. */
  function Expected(line: string, last: Option<Update>): string {
    if last.Some? then NewLine(last.value) else line
  }

  /** A request that rewrites the line although it is not for its user. */
  predicate Foreign(u: Update, line: string) {
    u.name <= line && !Own(u.name, line)
  }

  predicate ColonFree(us: seq<Update>) {
    forall u | u in us :: ':' !in u.name
  }

  lemma LongerThanOwnerHasColon(a: string, owner: string, line: string)
    requires a <= line && Own(owner, line) && |owner| < |a|
    ensures ':' in a
  {
    assert (owner + ":")[|owner|] == line[|owner|] == a[|owner|];
  }

  /** A colon-free prefix of a line is a prefix of its owner. */
  lemma OwnerIsLongest(a: string, owner: string, line: string)
    requires ':' !in a && a <= line && Own(owner, line)
    ensures a <= owner
  {
    assert owner == line[..|owner|] && a == line[..|a|];
    if |owner| < |a| {
      LongerThanOwnerHasColon(a, owner, line);
    }
  }

  lemma OwnerBelowIsSame(a: string, b: string, line: string)
    requires ':' !in b && b <= line && a <= b && Own(a, line)
    ensures a == b
  {
    OwnerIsLongest(b, a, line);
  }

  lemma ExpectedStep(line: string, last: Option<Update>, u: Update)
    requires ':' !in u.name && !Foreign(u, line)
    requires last.Some? ==> ':' !in last.value.name && Own(last.value.name, line)
    ensures Rewrite(Expected(line, last), u) == Expected(line, if Own(u.name, line) then Some(u) else last)
  {
    assert Own(u.name, line) ==> u.name <= line;
    if last.Some? {
      var v := last.value;
      PrefixOfNewLine(u.name, v);
      if Own(u.name, line) {
        OwnersAgree(u.name, v.name, line);
      } else if u.name <= v.name {
        PrefixThrough(u.name, v.name, line);
      }
    }
  }

  lemma PrefixThrough(a: string, b: string, line: string)
    requires a <= b && b <= line
    ensures a <= line
  {
  }

  /**
    If every requested name is free of colons, and a prefix only of its own user's line, then each
    line ends up as the last hashed request for its user, or byte for byte as it was.
  */
  lemma {:induction false} EachLineItsUsersLastRequest(line: string, us: seq<Update>)
    requires ColonFree(us) && forall u | u in us :: !Foreign(u, line)
    ensures Final(line, us) == Expected(line, LastFor(line, us))
  {
    if us != [] {
      var n := |us| - 1;
      assert us[n] in us && forall v | v in us[..n] :: v in us;
      EachLineItsUsersLastRequest(line, us[..n]);
      LastForOwns(line, us[..n]);
      ExpectedStep(line, LastFor(line, us[..n]), us[n]);
    }
  }

  /** A foreign request hits whatever its line has become by then. */
  lemma ForeignHits(line: string, last: Option<Update>, u: Update)
    requires ':' !in u.name && Foreign(u, line) && (last.Some? ==> Own(last.value.name, line))
    ensures Rewrite(Expected(line, last), u) == NewLine(u)
  {
    if last.Some? {
      OwnerIsLongest(u.name, last.value.name, line);
      PrefixOfNewLine(u.name, last.value);
    }
  }

  /** A colon-free request that hits what a foreign one has left is foreign itself. */
  lemma ForeignStaysForeign(line: string, w: Update, u: Update)
    requires ':' !in w.name && ':' !in u.name && Foreign(w, line) && u.name <= NewLine(w)
    ensures Foreign(u, line)
  {
    PrefixOfNewLine(u.name, w);
    PrefixThrough(u.name, w.name, line);
    if Own(u.name, line) {
      OwnerBelowIsSame(u.name, w.name, line);
    }
  }

  /** Once a foreign request has hit a line, the line stays what some foreign request made of it. */
  lemma {:induction false} ForeignForGood(line: string, us: seq<Update>) returns (w: Update)
    requires ColonFree(us) && exists u | u in us :: Foreign(u, line)
    ensures w in us && Foreign(w, line) && Final(line, us) == NewLine(w)
  {
    var n := |us| - 1;
    assert us == us[..n] + [us[n]] && us[n] in us && forall v | v in us[..n] :: v in us;
    if exists u | u in us[..n] :: Foreign(u, line) {
      w := ForeignForGood(line, us[..n]);
      if us[n].name <= NewLine(w) {
        ForeignStaysForeign(line, w, us[n]);
        w := us[n];
      }
    } else {
      EachLineItsUsersLastRequest(line, us[..n]);
      LastForOwns(line, us[..n]);
      w := us[n];
      ForeignHits(line, LastFor(line, us[..n]), w);
    }
  }

  lemma NewLineIsOwn(u: Update)
    ensures Own(u.name, NewLine(u))
  {
    assert NewLine(u) == u.name + ":" + (u.hash + TRAILING_PASSWORD_INFO);
  }

  /**
    The condition is exact, for whole requests: with colon-free names a line ends up as the last
    hashed request for its user, or as it was, if and only if every requested name that is a prefix
    of the line is its user's.
  */
  lemma LastRequestIffNoForeignPrefix(line: string, us: seq<Update>)
    requires ColonFree(us)
    ensures Final(line, us) == Expected(line, LastFor(line, us)) <==> forall u | u in us && u.name <= line :: Own(u.name, line)
  {
    if exists u | u in us :: Foreign(u, line) {
      var w := ForeignForGood(line, us);
      NewLineIsOwn(w);
      LastForOwns(line, us);
      var last := LastFor(line, us);
      if last.Some? && NewLine(w) == NewLine(last.value) {
        NewLineIsOwn(last.value);
        OwnersAgree(w.name, last.value.name, NewLine(w));
      }
    } else {
      EachLineItsUsersLastRequest(line, us);
    }
  }

  /* ----- the empty name ----- */

  lemma {:induction false} EmptyNameMeets(a: string, b: string, us: seq<Update>)
    requires exists u | u in us :: u.name == ""
    ensures Final(a, us) == Final(b, us)
  {
    var n := |us| - 1;
    assert us == us[..n] + [us[n]];
    if us[n].name != "" {
      EmptyNameMeets(a, b, us[..n]);
    }
  }

  lemma {:induction false} EmptyLineStays(us: seq<Update>)
    requires forall u | u in us :: u.name != ""
    ensures Final("", us) == ""
  {
    if us != [] {
      var n := |us| - 1;
      assert us[n] in us && forall v | v in us[..n] :: v in us;
      EmptyLineStays(us[..n]);
    }
  }

  lemma {:induction false} SomethingStays(line: string, us: seq<Update>)
    requires line != ""
    ensures Final(line, us) != ""
  {
    if us != [] {
      SomethingStays(line, us[..|us| - 1]);
    }
  }

  /** A request makes all lines of every file one and the same exactly when one of its names is empty. */
  lemma AllLinesMeetIffEmptyName(us: seq<Update>)
    ensures (forall a, b :: Final(a, us) == Final(b, us)) <==> exists u | u in us :: u.name == ""
  {
    if exists u | u in us :: u.name == "" {
      forall a, b ensures Final(a, us) == Final(b, us) {
        EmptyNameMeets(a, b, us);
      }
    } else {
      EmptyLineStays(us);
      SomethingStays("\n", us);
    }
  }

  /* ----- names with colons ----- */

  /** No name with a colon is a prefix of the line or of what an earlier request makes of a line. */
  predicate ColonsMiss(line: string, us: seq<Update>) {
    forall j | 0 <= j < |us| && ':' in us[j].name ::
      !(us[j].name <= line) && forall i | 0 <= i < j :: !(us[j].name <= NewLine(us[i]))
  }

  function ColonFreeOnly(us: seq<Update>): seq<Update> {
    if us == [] then []
    else
      var before := ColonFreeOnly(us[..|us| - 1]);
      if ':' in us[|us| - 1].name then before else before + [us[|us| - 1]]
  }

  lemma {:induction false} ColonFreeMembers(us: seq<Update>)
    ensures forall u :: u in ColonFreeOnly(us) <==> u in us && ':' !in u.name
  {
    if us != [] {
      ColonFreeMembers(us[..|us| - 1]);
      assert us == us[..|us| - 1] + [us[|us| - 1]];
    }
  }

  lemma ColonsMissBefore(line: string, us: seq<Update>)
    requires ColonsMiss(line, us) && us != []
    ensures ColonsMiss(line, us[..|us| - 1])
  {
  }

  lemma {:induction false} FinalComesFrom(line: string, us: seq<Update>)
    ensures Final(line, us) == line || exists i | 0 <= i < |us| :: Final(line, us) == NewLine(us[i])
  {
    if us != [] {
      var n := |us| - 1;
      FinalComesFrom(line, us[..n]);
      if Final(line, us[..n]) != line {
        var i :| 0 <= i < n && Final(line, us[..n]) == NewLine(us[..n][i]);
        assert us[..n][i] == us[i];
      }
    }
  }

  lemma LastForAppend(line: string, us: seq<Update>, u: Update)
    ensures LastFor(line, us + [u]) == if Own(u.name, line) then Some(u) else LastFor(line, us)
  {
    assert (us + [u])[..|us|] == us;
  }

  /** A name with a colon that misses leaves what the line has become. */
  lemma ColonMisses(line: string, us: seq<Update>, u: Update)
    requires !(u.name <= line) && forall i | 0 <= i < |us| :: !(u.name <= NewLine(us[i]))
    ensures Final(line, us + [u]) == Final(line, us) && LastFor(line, us + [u]) == LastFor(line, us)
  {
    FinalAppend(line, us, u);
    FinalComesFrom(line, us);
    LastForAppend(line, us, u);
    assert Own(u.name, line) ==> u.name <= line;
  }

  lemma {:induction false} ColonsDoNothing(line: string, us: seq<Update>)
    requires ColonsMiss(line, us)
    ensures Final(line, us) == Final(line, ColonFreeOnly(us)) && LastFor(line, us) == LastFor(line, ColonFreeOnly(us))
  {
    if us != [] {
      var before, u := us[..|us| - 1], us[|us| - 1];
      assert us == before + [u];
      ColonsMissBefore(line, us);
      ColonsDoNothing(line, before);
      if ':' in u.name {
        ColonMisses(line, before, u);
      } else {
        FinalAppend(line, before, u);
        FinalAppend(line, ColonFreeOnly(before), u);
        LastForAppend(line, before, u);
        LastForAppend(line, ColonFreeOnly(before), u);
      }
    }
  }

  /** The same exact condition for all requests whose names with colons miss. */
  lemma LastRequestIffWhereColonsMiss(line: string, us: seq<Update>)
    requires ColonsMiss(line, us)
    ensures Final(line, us) == Expected(line, LastFor(line, us)) <==> forall u | u in us && u.name <= line :: Own(u.name, line)
  {
    ColonsDoNothing(line, us);
    ColonFreeMembers(us);
    LastRequestIffNoForeignPrefix(line, ColonFreeOnly(us));
    forall u | u in us && u.name <= line ensures ':' !in u.name {
      var j :| 0 <= j < |us| && us[j] == u;
    }
  }

  /** A name with a colon can be a prefix of no line of the file and still hit a line an earlier request has rewritten. */
  lemma ColonNameHitsRewrittenLine()
    ensures var line, us := "bob:!:1::::::\n", [Update("bob", "$6$x"), Update("bob:$6", "$6$y")];
            && (forall u | u in us :: u.name <= line ==> Own(u.name, line))
            && LastFor(line, us) == Some(us[0])
            && Final(line, us) != NewLine(us[0])
  {
    var line, us := "bob:!:1::::::\n", [Update("bob", "$6$x"), Update("bob:$6", "$6$y")];
    assert us[..1] == [us[0]] && us[..1][..0] == [];
    assert line[4] == '!' && us[1].name[4] == '$';
    assert Final(line, us[..1]) == NewLine(us[0]);
    assert NewLine(us[0])[..6] == "bob:$6";
    assert Final(line, us) == NewLine(us[1]);
    assert NewLine(us[0])[6] == '$' && NewLine(us[1])[6] == ':';
  }
}
