/** What ssh_mgmt writes into the key files, and how sshd reads it back (host_modules/ssh_mgmt.py). */
module SshOptions {
  import opened Text
  import opened Wrappers

  /** One element of an "options" list: either key may be missing. */
  datatype Opt = Opt(name: Option<string>, value: Option<string>)

  /** A key of an account, or a user of one; `text` is the "key" or the "name". */
  datatype Item = Item(text: Option<string>, options: Option<seq<Opt>>)
  datatype Account = Account(account: Option<string>, items: Option<seq<Item>>)

  /** A named option as sshd understands it; an empty value stands for none. */
  datatype Bound = Bound(name: string, value: string)

  /** The options that have a name, with a missing value made empty. */
  function Named(options: seq<Opt>): seq<Bound> {
    if options == [] then []
    else
      var last := options[|options| - 1];
      Named(options[..|options| - 1]) +
      if last.name.None? then []
      else [Bound(last.name.value, if last.value.Some? then last.value.value else "")]
  }

  function TextOf(b: Bound): string {
    if b.value == "" then b.name else b.name + "=\"" + b.value + "\""
  }

  function Texts(bounds: seq<Bound>): (r: seq<string>)
    ensures |r| == |bounds|
  {
    seq(|bounds|, i requires 0 <= i < |bounds| => TextOf(bounds[i]))
  }

  function Render(bounds: seq<Bound>): string {
    if bounds == [] then "" else Join(Texts(bounds), ',') + " "
  }

  lemma {:induction false} JoinAppend(pieces: seq<string>, x: string, c: char)
    ensures Join(pieces + [x], c) == if pieces == [] then x else Join(pieces, c) + [c] + x
  {
    if |pieces| > 0 {
      assert (pieces + [x])[1..] == pieces[1..] + [x];
      JoinAppend(pieces[1..], x, c);
    }
  }

  /** An open text file. */
  class OutFile {
    var content: string

    constructor ()
      ensures content == ""
    {
      content := "";
    }

    method Write(s: string)
      modifies this
      ensures content == old(content) + s
    {
      content := content + s;
    }
  }

  /** The options written so far: `bounds`, separated by commas. */
  function Listed(bounds: seq<Bound>): string {
    Join(Texts(bounds), ',')
  }

  lemma ListedAppend(bounds: seq<Bound>, b: Bound)
    ensures Listed(bounds + [b]) == Listed(bounds) + ((if bounds == [] then "" else ",") + TextOf(b))
  {
    assert Texts(bounds + [b]) == Texts(bounds) + [TextOf(b)];
    JoinAppend(Texts(bounds), TextOf(b), ',');
  }

  lemma Reassociate(a: string, b: string, c: string)
    ensures (a + b) + c == a + (b + c)
  {
  }

  method WriteOption(f: OutFile, b: Bound, first: bool)
    modifies f
    ensures f.content == old(f.content) + ((if first then "" else ",") + TextOf(b))
  {
    if !first {
      f.Write(",");
    }
    if b.value != "" {
      f.Write(b.name + "=\"" + b.value + "\"");
    } else {
      f.Write(b.name);
    }
  }

  lemma NamedAppend(options: seq<Opt>, i: nat)
    requires i < |options|
    ensures Named(options[..i + 1]) ==
              if options[i].name.None? then Named(options[..i])
              else Named(options[..i]) + [Bound(options[i].name.value, if options[i].value.Some? then options[i].value.value else "")]
  {
    assert options[..i + 1][..i] == options[..i];
  }

  method WriteOptions(f: OutFile, options: seq<Opt>)
    modifies f
    ensures f.content == old(f.content) + Render(Named(options))
  {
    var first := true;
    for i := 0 to |options|
      invariant first <==> Named(options[..i]) == []
      invariant f.content == old(f.content) + Listed(Named(options[..i]))
    {
      var option := options[i];
      NamedAppend(options, i);
      if option.name.None? {
        continue;
      }
      var b := Bound(option.name.value, if option.value.Some? then option.value.value else "");
      ghost var prior, piece := Named(options[..i]), (if first then "" else ",") + TextOf(b);
      ListedAppend(prior, b);
      assert Named(options[..i + 1]) == prior + [b];
      WriteOption(f, b, first);
      Reassociate(old(f.content), Listed(prior), piece);
      first := false;
    }
    assert options[..|options|] == options;
    if !first {
      f.Write(" ");
    }
  }

  /* ----- the files' lines ----- */

  function LineOf(item: Item): string
    requires item.text.Some?
  {
    (if item.options.Some? then Render(Named(item.options.value)) else "") + item.text.value
  }

  /** The lines of the items that have a non-empty text. */
  function ItemLines(items: seq<Item>): seq<string> {
    if items == [] then []
    else
      var last := items[|items| - 1];
      ItemLines(items[..|items| - 1]) + if last.text.Some? && last.text.value != "" then [LineOf(last)] else []
  }

  /** The lines of root's accounts. */
  function AccountLines(accounts: seq<Account>): seq<string> {
    if accounts == [] then []
    else
      var last := accounts[|accounts| - 1];
      AccountLines(accounts[..|accounts| - 1]) +
      if last.account == Some("root") && last.items.Some? then ItemLines(last.items.value) else []
  }

  /** The file that has these lines. */
  function FileOf(lines: seq<string>): string {
    if lines == [] then "" else FileOf(lines[..|lines| - 1]) + lines[|lines| - 1] + "\n"
  }

  lemma FileAppend(lines: seq<string>, line: string)
    ensures FileOf(lines + [line]) == FileOf(lines) + line + "\n"
  {
    assert (lines + [line])[..|lines|] == lines;
  }

  method WriteLines(f: OutFile, keys: seq<string>)
    modifies f
    ensures f.content == old(f.content) + FileOf(keys)
  {
    for i := 0 to |keys|
      invariant f.content == old(f.content) + FileOf(keys[..i])
    {
      assert keys[..i + 1] == keys[..i] + [keys[i]];
      FileAppend(keys[..i], keys[i]);
      f.Write(keys[i] + "\n");
    }
    assert keys[..|keys|] == keys;
  }

  method WriteItem(f: OutFile, item: Item)
    requires item.text.Some?
    modifies f
    ensures f.content == old(f.content) + (LineOf(item) + "\n")
  {
    if item.options.Some? {
      WriteOptions(f, item.options.value);
    }
    f.Write(item.text.value + "\n");
  }

  lemma ItemsAppend(items: seq<Item>, k: nat)
    requires k < |items|
    ensures FileOf(ItemLines(items[..k + 1])) == FileOf(ItemLines(items[..k])) +
              if items[k].text.Some? && items[k].text.value != "" then LineOf(items[k]) + "\n" else ""
  {
    assert items[..k + 1][..k] == items[..k];
    var lines := ItemLines(items[..k]);
    if items[k].text.Some? && items[k].text.value != "" {
      FileAppend(lines, LineOf(items[k]));
      Reassociate(FileOf(lines), LineOf(items[k]), "\n");
    } else {
      assert ItemLines(items[..k + 1]) == lines;
    }
  }

  method WriteItems(f: OutFile, items: seq<Item>)
    modifies f
    ensures f.content == old(f.content) + FileOf(ItemLines(items))
  {
    for k := 0 to |items|
      invariant f.content == old(f.content) + FileOf(ItemLines(items[..k]))
    {
      var item := items[k];
      ItemsAppend(items, k);
      if item.text.None? || item.text.value == "" {
        continue;
      }
      WriteItem(f, item);
      Reassociate(old(f.content), FileOf(ItemLines(items[..k])), LineOf(item) + "\n");
    }
    assert items[..|items|] == items;
  }

  lemma {:induction false} FileConcat(a: seq<string>, b: seq<string>)
    ensures FileOf(a + b) == FileOf(a) + FileOf(b)
  {
    if b == [] {
      assert a + b == a;
    } else {
      var n := |b| - 1;
      FileConcat(a, b[..n]);
      assert (a + b)[..|a + b| - 1] == a + b[..n];
    }
  }

  method WriteAccounts(f: OutFile, accounts: seq<Account>)
    modifies f
    ensures f.content == old(f.content) + FileOf(AccountLines(accounts))
  {
    for i := 0 to |accounts|
      invariant f.content == old(f.content) + FileOf(AccountLines(accounts[..i]))
    {
      var account := accounts[i];
      assert accounts[..i + 1][..i] == accounts[..i];
      if account.account != Some("root") || account.items.None? {
        assert AccountLines(accounts[..i + 1]) == AccountLines(accounts[..i]);
        continue;
      }
      assert AccountLines(accounts[..i + 1]) == AccountLines(accounts[..i]) + ItemLines(account.items.value);
      FileConcat(AccountLines(accounts[..i]), ItemLines(account.items.value));
      WriteItems(f, account.items.value);
      Reassociate(old(f.content), FileOf(AccountLines(accounts[..i])), FileOf(ItemLines(account.items.value)));
    }
    assert accounts[..|accounts|] == accounts;
  }

  /** One line per kept key: reading the file by lines gives the kept keys' lines back, in order. */
  lemma {:induction false} FileHasOneLinePerKey(lines: seq<string>)
    requires forall line | line in lines :: '\n' !in line
    ensures Split(FileOf(lines), '\n') == lines + [""]
  {
    LinesGlued(lines);
    forall piece | piece in lines + [""] ensures '\n' !in piece {}
    SplitJoin(lines + [""], '\n');
  }

  lemma {:induction false} LinesGlued(lines: seq<string>)
    ensures FileOf(lines) == Join(lines + [""], '\n')
  {
    if lines != [] {
      var n := |lines| - 1;
      LinesGlued(lines[..n]);
      JoinAppend(lines, "", '\n');
      assert lines == lines[..n] + [lines[n]];
      JoinAppend(lines[..n], lines[n], '\n');
      JoinAppend(lines[..n], "", '\n');
    }
  }

  /* ----- sshd's reading: AUTHORIZED_KEYS FILE FORMAT in sshd(8) ----- */

  predicate EndsName(c: char) { c == ',' || c == '=' || c == '"' || c == ' ' }

  /** The length of the option name `s` starts with. */
  function NameLength(s: string): (n: nat)
    ensures n <= |s|
  {
    if s == "" || EndsName(s[0]) then 0 else 1 + NameLength(s[1..])
  }

  /** What follows an opening quote, read up to the closing one; a backslash before a quote makes it part of the value. */
  function Unquote(s: string): (r: Option<(string, string)>)
    ensures r.Some? ==> |r.value.1| < |s|
  {
    if s == "" then None
    else if s[0] == '"' then Some(("", s[1..]))
    else if s[0] == '\\' && |s| > 1 && s[1] == '"' then
      var r := Unquote(s[2..]);
      if r.None? then None else Some((['"'] + r.value.0, r.value.1))
    else
      var r := Unquote(s[1..]);
      if r.None? then None else Some(([s[0]] + r.value.0, r.value.1))
  }

  function ScanOption(s: string): (r: Option<(Bound, string)>)
    ensures r.Some? ==> |r.value.1| <= |s|
  {
    var n := NameLength(s);
    var rest := s[n..];
    if rest != "" && rest[0] == '=' then
      if |rest| > 1 && rest[1] == '"' then
        var r := Unquote(rest[2..]);
        if r.None? then None else Some((Bound(s[..n], r.value.0), r.value.1))
      else None
    else Some((Bound(s[..n], ""), rest))
  }

  /** The comma-separated options at the head of a line, and what follows the blank after them. */
  function ScanOptions(s: string): (r: Option<(seq<Bound>, string)>)
    ensures r.Some? ==> |r.value.0| > 0
    decreases |s|
  {
    match ScanOption(s)
    case None => None
    case Some((b, rest)) =>
      if rest != "" && rest[0] == ' ' then Some(([b], rest[1..]))
      else if rest != "" && rest[0] == ',' then
        var more := ScanOptions(rest[1..]);
        if more.None? then None else Some(([b] + more.value.0, more.value.1))
      else None
  }

  predicate CleanName(name: string) {
    forall c | c in name :: !EndsName(c)
  }

  /** A value that survives the quotes the renderer puts around it without escaping anything. */
  predicate QuoteSafe(value: string) {
    '"' !in value && (value != "" ==> value[|value| - 1] != '\\')
  }

  lemma {:induction false} NameScanned(name: string, rest: string)
    requires CleanName(name) && (rest == "" || EndsName(rest[0]))
    ensures NameLength(name + rest) == |name|
    ensures (name + rest)[..|name|] == name && (name + rest)[|name|..] == rest
  {
    if name == "" {
      assert name + rest == rest;
    } else {
      assert name[0] in name;
      assert forall c | c in name[1..] :: c in name;
      NameScanned(name[1..], rest);
      assert (name + rest)[1..] == name[1..] + rest;
    }
  }

  /** Reading back a value between quotes gives it, and stops right after it, if it is safe; otherwise it never gives it. */
  lemma {:induction false} UnquoteGivesSafeValues(value: string, rest: string)
    ensures QuoteSafe(value) ==> Unquote(value + "\"" + rest) == Some((value, rest))
    ensures !QuoteSafe(value) ==> var r := Unquote(value + "\"" + rest); r.None? || r.value.0 != value
  {
    var s := value + "\"" + rest;
    if value == "" {
      assert s[1..] == rest;
    } else {
      assert s[0] == value[0];
      assert s[1..] == value[1..] + "\"" + rest;
      SafeTail(value);
      UnquoteGivesSafeValues(value[1..], rest);
      if value[0] != '"' && !(value[0] == '\\' && s[1] == '"') {
        assert [value[0]] + value[1..] == value;
      }
    }
  }

  lemma SafeTail(value: string)
    requires value != ""
    ensures QuoteSafe(value) <==> value[0] != '"' && (|value| == 1 ==> value[0] != '\\') && QuoteSafe(value[1..])
  {
    assert value == [value[0]] + value[1..];
  }

  lemma OptionScanned(b: Bound, rest: string)
    requires CleanName(b.name) && rest != "" && (rest[0] == ' ' || rest[0] == ',')
    ensures QuoteSafe(b.value) ==> ScanOption(TextOf(b) + rest) == Some((b, rest))
    ensures !QuoteSafe(b.value) ==> var r := ScanOption(TextOf(b) + rest); r.None? || r.value.0 != b
  {
    if b.value == "" {
      NameScanned(b.name, rest);
    } else {
      var tail := "=\"" + b.value + "\"" + rest;
      assert TextOf(b) + rest == b.name + tail;
      NameScanned(b.name, tail);
      assert tail[2..] == b.value + "\"" + rest;
      UnquoteGivesSafeValues(b.value, rest);
    }
  }

  /** Scanning goes on behind a safe first option, and goes wrong at an unsafe one. */
  lemma FirstOfSeveralScanned(first: Bound, tail: string)
    requires CleanName(first.name)
    ensures var r, more := ScanOptions(TextOf(first) + "," + tail), ScanOptions(tail);
            if QuoteSafe(first.value) then r == if more.None? then None else Some(([first] + more.value.0, more.value.1))
            else r.None? || r.value.0[0] != first
  {
    var rest := "," + tail;
    assert TextOf(first) + "," + tail == TextOf(first) + rest;
    OptionScanned(first, rest);
    assert rest[1..] == tail;
  }

  lemma OnlyOptionScanned(b: Bound, key: string)
    requires CleanName(b.name)
    ensures var r := ScanOptions(TextOf(b) + " " + key);
            if QuoteSafe(b.value) then r == Some(([b], key)) else r.None? || r.value.0[0] != b
  {
    var rest := " " + key;
    assert TextOf(b) + " " + key == TextOf(b) + rest;
    OptionScanned(b, rest);
    assert rest[1..] == key;
  }

  lemma RenderSplits(bounds: seq<Bound>, key: string)
    requires bounds != []
    ensures Render(bounds) + key ==
              if |bounds| == 1 then TextOf(bounds[0]) + " " + key
              else TextOf(bounds[0]) + "," + (Render(bounds[1..]) + key)
  {
    if |bounds| > 1 {
      assert Texts(bounds)[1..] == Texts(bounds[1..]);
    }
  }

  /**
    The renderer can be undone, exactly when no value needs escaping: for clean names, scanning the
    rendered options followed by any key gives the named options and the key back if and only if
    every value is free of quotes and does not end in a backslash.
  */
  lemma {:induction false} ScanUndoesRender(bounds: seq<Bound>, key: string)
    requires bounds != [] && forall b | b in bounds :: CleanName(b.name)
    ensures ScanOptions(Render(bounds) + key) == Some((bounds, key)) <==> forall b | b in bounds :: QuoteSafe(b.value)
  {
    var first, others := bounds[0], bounds[1..];
    assert first in bounds && bounds == [first] + others;
    RenderSplits(bounds, key);
    if |bounds| == 1 {
      OnlyOptionScanned(first, key);
      assert bounds == [first] && forall b | b in bounds :: b == first;
    } else {
      FirstOfSeveralScanned(first, Render(others) + key);
      assert forall b | b in others :: b in bounds;
      ScanUndoesRender(others, key);
      ScanTail(first, others, key);
    }
  }

  lemma ScanTail(first: Bound, others: seq<Bound>, key: string)
    ensures forall r: (seq<Bound>, string) :: ([first] + r.0, r.1) == ([first] + others, key) <==> r == (others, key)
    ensures (forall b | b in [first] + others :: QuoteSafe(b.value)) <==>
              QuoteSafe(first.value) && forall b | b in others :: QuoteSafe(b.value)
  {
    forall r: (seq<Bound>, string) ensures ([first] + r.0, r.1) == ([first] + others, key) <==> r == (others, key) {
      assert ([first] + r.0)[1..] == r.0 && ([first] + others)[1..] == others;
    }
    assert forall b | b in [first] + others :: b == first || b in others;
    assert first in [first] + others && forall b | b in others :: b in [first] + others;
  }

  /** A kept key with named options reads back as those options and that key, exactly when no value needs escaping. */
  lemma LineReadsBack(item: Item)
    requires item.text.Some? && item.options.Some? && Named(item.options.value) != []
    requires forall b | b in Named(item.options.value) :: CleanName(b.name)
    ensures ScanOptions(LineOf(item)) == Some((Named(item.options.value), item.text.value)) <==>
              forall b | b in Named(item.options.value) :: QuoteSafe(b.value)
  {
    ScanUndoesRender(Named(item.options.value), item.text.value);
  }
}
