/** The listing of installed images (host_modules/image_service.py). */
module ImageList {
  import opened Text

  /** What a line is taken for; the tests are made in this order, ignoring case. */
  datatype Kind = Current | Next | Available | Image

  function KindOf(line: string): Kind {
    if Occurs("current:", Lower(line)) then Current
    else if Occurs("next:", Lower(line)) then Next
    else if Occurs("available:", Lower(line)) then Available
    else Image
  }

  datatype Listing = Listing(current: string, next: string, available: seq<string>)

  /** The text between the first two colons of a line, trimmed. */
  function Named(line: string): string {
    var parts := Split(line, ':');
    if |parts| > 1 then Trim(parts[1]) else ""
  }

  /** The last line of the kind decides; an image listed on no such line is empty. */
  ghost predicate LastNamed(lines: seq<string>, kind: Kind, name: string) {
    || (name == "" && forall i | 0 <= i < |lines| :: KindOf(lines[i]) != kind)
    || (exists i | 0 <= i < |lines| :: KindOf(lines[i]) == kind && name == Named(lines[i])
          && forall j | i < j < |lines| :: KindOf(lines[j]) != kind)
  }

  /** The lines of the kind, in order. */
  function OfKind(lines: seq<string>, kind: Kind): seq<string> {
    if lines == [] then []
    else OfKind(lines[..|lines| - 1], kind) + if KindOf(lines[|lines| - 1]) == kind then [lines[|lines| - 1]] else []
  }

  function AllTrimmed(lines: seq<string>): (r: seq<string>)
    ensures |r| == |lines| && forall i | 0 <= i < |lines| :: r[i] == Trim(lines[i])
  {
    seq(|lines|, i requires 0 <= i < |lines| => Trim(lines[i]))
  }

  ghost predicate Parses(lines: seq<string>, listing: Listing) {
    && LastNamed(lines, Current, listing.current)
    && LastNamed(lines, Next, listing.next)
    && listing.available == AllTrimmed(OfKind(lines, Image))
  }

  method ParseSonicInstallerList(output: string) returns (listing: Listing)
    ensures Parses(Split(output, '\n'), listing)
  {
    var currentImage, nextImage, availableImages: seq<string> := "", "", [];
    var lines := Split(output, '\n');
    for n := 0 to |lines|
      invariant Parses(lines[..n], Listing(currentImage, nextImage, availableImages))
    {
      ghost var was := Listing(currentImage, nextImage, availableImages);
      var line := lines[n];
      if Occurs("current:", Lower(line)) {
        var parts := Split(line, ':');
        if |parts| > 1 {
          currentImage := Trim(parts[1]);
        }
      } else if Occurs("next:", Lower(line)) {
        var parts := Split(line, ':');
        if |parts| > 1 {
          nextImage := Trim(parts[1]);
        }
      } else if Occurs("available:", Lower(line)) {
      } else {
        availableImages := availableImages + [Trim(line)];
      }
      assert lines[..n + 1] == lines[..n] + [line];
      KeptNames(lines[..n], line, was, Listing(currentImage, nextImage, availableImages));
    }
    assert lines[..|lines|] == lines;
    listing := Listing(currentImage, nextImage, availableImages);
  }

  /** A line with a keyword has a colon, so a name is always found on it. */
  lemma KeywordHasColon(line: string)
    requires KindOf(line) != Image
    ensures ':' in line && |Split(line, ':')| > 1
  {
    var low := Lower(line);
    assert "current:"[7] == ':' && "next:"[4] == ':' && "available:"[9] == ':';
    if ':' !in low {
      OccursOnlyIfCharacterDoes("current:", low, ':');
      OccursOnlyIfCharacterDoes("next:", low, ':');
      OccursOnlyIfCharacterDoes("available:", low, ':');
    }
    var i :| 0 <= i < |low| && low[i] == ':';
    assert line[i] == ':';
    SplitFinds(line, ':');
  }

  lemma {:induction false} SplitFinds(s: string, c: char)
    requires c in s
    ensures |Split(s, c)| > 1
  {
    if s[0] != c {
      assert c in s[1..];
      SplitFinds(s[1..], c);
    }
  }

  lemma NextLine(lines: seq<string>, line: string, kind: Kind, was: string, name: string)
    requires LastNamed(lines, kind, was) && name == if KindOf(line) == kind then Named(line) else was
    ensures LastNamed(lines + [line], kind, name)
  {
    var more := lines + [line];
    if KindOf(line) == kind {
      assert more[|lines|] == line;
    } else if exists i | 0 <= i < |lines| :: KindOf(lines[i]) == kind {
      var i :| 0 <= i < |lines| && KindOf(lines[i]) == kind && was == Named(lines[i])
               && forall j | i < j < |lines| :: KindOf(lines[j]) != kind;
      assert more[i] == lines[i];
    }
  }

  lemma KeptNames(lines: seq<string>, line: string, was: Listing, now: Listing)
    requires Parses(lines, was)
    requires var named := if |Split(line, ':')| > 1 then Trim(Split(line, ':')[1]) else "";
             now == match KindOf(line)
               case Current => was.(current := if |Split(line, ':')| > 1 then named else was.current)
               case Next => was.(next := if |Split(line, ':')| > 1 then named else was.next)
               case Available => was
               case Image => was.(available := was.available + [Trim(line)])
    ensures Parses(lines + [line], now)
  {
    var more := lines + [line];
    if KindOf(line) != Image {
      KeywordHasColon(line);
    }
    NextLine(lines, line, Current, was.current, now.current);
    NextLine(lines, line, Next, was.next, now.next);
    assert more[..|more| - 1] == lines && more[|more| - 1] == line;
  }

  /** Every line is of exactly one kind: the four kinds together have all lines. */
  lemma {:induction false} EveryLineOnce(lines: seq<string>)
    ensures |OfKind(lines, Current)| + |OfKind(lines, Next)| + |OfKind(lines, Available)| + |OfKind(lines, Image)| == |lines|
  {
    if lines != [] {
      EveryLineOnce(lines[..|lines| - 1]);
    }
  }

  /** The lines determine the listing. */
  lemma ParseUnique(lines: seq<string>, a: Listing, b: Listing)
    requires Parses(lines, a) && Parses(lines, b)
    ensures a == b
  {
  }

  /* ----- printing and parsing back ----- */

  /** The lines of the listing as the installer prints it. */
  function Lines(l: Listing): seq<string> {
    ["Current: " + l.current, "Next: " + l.next, "Available:"] + l.available
  }

  predicate OnOneLineEach(l: Listing) {
    '\n' !in l.current && '\n' !in l.next && forall a | a in l.available :: '\n' !in a
  }

  /** The names survive trimming and splitting at colons, and no available one contains a keyword. */
  predicate Readable(l: Listing) {
    && Trimmed(l.current) && ':' !in l.current
    && Trimmed(l.next) && ':' !in l.next
    && forall a | a in l.available :: Trimmed(a) && KindOf(a) == Image
  }

  lemma {:induction false} OccursBehind(needle: string, before: string, s: string)
    requires Occurs(needle, s)
    ensures Occurs(needle, before + s)
  {
    if before == "" {
      assert before + s == s;
    } else {
      OccursBehind(needle, before[1..], s);
      assert (before + s)[1..] == before[1..] + s;
    }
  }

  lemma PrefixOccurs(needle: string, s: string)
    requires needle <= s
    ensures Occurs(needle, s)
  {
  }

  lemma LowerAppend(a: string, b: string)
    ensures Lower(a + b) == Lower(a) + Lower(b)
  {
  }

  /** The kinds of the three heading lines, whatever names follow. */
  lemma HeadingKinds(c: string, n: string)
    ensures KindOf("Current: " + c) == Current
    ensures KindOf("Next: " + n) == Next || (KindOf("Next: " + n) == Current && ':' in n)
    ensures KindOf("Available:") == Available
  {
    LowerAppend("Current: ", c);
    assert Lower("Current: ") == "current: ";
    PrefixOccurs("current:", Lower("Current: " + c));
    LowerAppend("Next: ", n);
    assert Lower("Next: ") == "next: ";
    PrefixOccurs("next:", Lower("Next: " + n));
    if ':' !in n {
      NoCurrentInNext(n);
    }
    assert Lower("Available:") == "available:";
    FirstCharacterDecides("available:");
  }

  /** Neither of the other keywords is in the heading of the available images. */
  lemma FirstCharacterDecides(low: string)
    requires low == "available:"
    ensures !Occurs("current:", low) && !Occurs("next:", low)
  {
    assert "current:"[0] == 'c' && 'c' !in low;
    OccursOnlyIfCharacterDoes("current:", low, 'c');
    assert "next:"[0] == 'n' && 'n' !in low;
    OccursOnlyIfCharacterDoes("next:", low, 'n');
  }

  /** What does not have `c` anywhere from `o` on has no occurrence of a text with `c` at `o`. */
  lemma {:induction false} OccursNeeds(needle: string, s: string, o: nat, c: char)
    requires o < |needle| && needle[o] == c && forall k | o <= k < |s| :: s[k] != c
    ensures !Occurs(needle, s)
  {
    if s != "" {
      OccursNeeds(needle, s[1..], o, c);
    }
  }

  lemma NoCurrentInNext(n: string)
    requires ':' !in n
    ensures !Occurs("current:", Lower("Next: " + n))
  {
    var line := "Next: " + n;
    forall k | 7 <= k < |line| ensures Lower(line)[k] != ':' {
      ColonAt(line, n, k);
    }
    assert "current:"[7] == ':';
    OccursNeeds("current:", Lower(line), 7, ':');
  }

  lemma ColonAt(line: string, n: string, k: nat)
    requires line == "Next: " + n && ':' !in n && k < |line| && k != 4
    ensures Lower(line)[k] != ':'
  {
    if k >= 6 {
      assert line[k] == n[k - 6];
    }
  }

  lemma {:induction false} TrimmedByTrim(s: string)
    ensures Trimmed(Trim(s)) && forall c | c in Trim(s) :: c in s
  {
    TrimLeftTrims(s);
    TrimRightTrims(TrimLeft(s));
  }

  lemma {:induction false} TrimLeftTrims(s: string)
    ensures var t := TrimLeft(s); (t != "" ==> !IsBlank(t[0])) && forall c | c in t :: c in s
  {
    if s != "" && IsBlank(s[0]) {
      TrimLeftTrims(s[1..]);
      assert forall c | c in s[1..] :: c in s;
    }
  }

  lemma {:induction false} TrimRightTrims(s: string)
    ensures var t := TrimRight(s); (t != "" ==> !IsBlank(t[|t| - 1])) && t <= s
  {
    if s != "" && IsBlank(s[|s| - 1]) {
      TrimRightTrims(s[..|s| - 1]);
    }
  }

  lemma {:induction false} FirstPieceFree(s: string, c: char)
    ensures c !in Split(s, c)[0] && forall x | x in Split(s, c)[0] :: x in s
  {
    if s != "" && s[0] != c {
      FirstPieceFree(s[1..], c);
      assert forall x | x in s[1..] :: x in s;
    }
  }

  /** A heading names `name` exactly when `name` is trimmed and has no colon. */
  lemma NamedBack(heading: string, name: string)
    requires ':' !in heading
    ensures Named(heading + ": " + name) == name <==> Trimmed(name) && ':' !in name
  {
    var rest := " " + name;
    assert heading + ": " + name == heading + [':'] + rest;
    SplitPrefix(heading, ':', rest);
    var piece := Split(rest, ':')[0];
    assert Named(heading + ": " + name) == Trim(piece);
    FirstPieceFree(rest, ':');
    TrimmedByTrim(piece);
    if Trimmed(name) && ':' !in name {
      SplitFree(rest, ':');
      assert rest[1..] == name;
      assert TrimLeft(rest) == TrimLeft(name);
      TrimmedStays(name);
    }
  }

  lemma {:induction false} OfKindAll(lines: seq<string>, kind: Kind)
    ensures |OfKind(lines, kind)| <= |lines|
    ensures |OfKind(lines, kind)| == |lines| <==> forall a | a in lines :: KindOf(a) == kind
    ensures |OfKind(lines, kind)| == |lines| ==> OfKind(lines, kind) == lines
  {
    if lines != [] {
      var n := |lines| - 1;
      OfKindAll(lines[..n], kind);
      assert lines == lines[..n] + [lines[n]];
    }
  }

  lemma {:induction false} OfKindAppend(a: seq<string>, b: seq<string>, kind: Kind)
    ensures OfKind(a + b, kind) == OfKind(a, kind) + OfKind(b, kind)
  {
    if b == [] {
      assert a + b == a;
    } else {
      var n := |b| - 1;
      OfKindAppend(a, b[..n], kind);
      assert (a + b)[..|a + b| - 1] == a + b[..n];
    }
  }

  lemma ImagesOfLines(l: Listing)
    ensures OfKind(Lines(l), Image) == OfKind(l.available, Image)
  {
    var heads := ["Current: " + l.current, "Next: " + l.next, "Available:"];
    HeadingKinds(l.current, l.next);
    assert forall h | h in heads :: KindOf(h) != Image;
    NoneOfKind(heads, Image);
    OfKindAppend(heads, l.available, Image);
  }

  lemma {:induction false} NoneOfKind(lines: seq<string>, kind: Kind)
    requires forall h | h in lines :: KindOf(h) != kind
    ensures OfKind(lines, kind) == []
  {
    if lines != [] {
      NoneOfKind(lines[..|lines| - 1], kind);
    }
  }

  lemma AllTrimmedBack(s: seq<string>)
    ensures AllTrimmed(s) == s <==> forall a | a in s :: Trimmed(a)
  {
    forall i | 0 <= i < |s| ensures Trim(s[i]) == s[i] <==> Trimmed(s[i]) {
      TrimmedByTrim(s[i]);
      if Trimmed(s[i]) {
        TrimmedStays(s[i]);
      }
    }
  }

  lemma AvailableBack(l: Listing)
    ensures l.available == AllTrimmed(OfKind(Lines(l), Image))
            <==> forall a | a in l.available :: Trimmed(a) && KindOf(a) == Image
  {
    ImagesOfLines(l);
    OfKindAll(l.available, Image);
    AllTrimmedBack(l.available);
  }

  lemma OnlyNamedAt(lines: seq<string>, kind: Kind, name: string, i: nat)
    requires i < |lines| && KindOf(lines[i]) == kind
    requires forall j | 0 <= j < |lines| && j != i :: KindOf(lines[j]) != kind
    ensures LastNamed(lines, kind, name) <==> name == Named(lines[i])
  {
  }

  lemma KindsBelow(lines: seq<string>, available: seq<string>)
    requires |lines| >= 3 && lines[3..] == available && KindOf(lines[2]) == Available
    requires forall a | a in available :: KindOf(a) == Image
    ensures forall j | 2 <= j < |lines| :: KindOf(lines[j]) == Image || KindOf(lines[j]) == Available
  {
    assert forall i | 3 <= i < |lines| :: lines[i] == available[i - 3];
  }

  lemma HeadingLines(l: Listing)
    ensures |Lines(l)| >= 3 && Lines(l)[3..] == l.available
    ensures Lines(l)[0] == "Current: " + l.current && Lines(l)[1] == "Next: " + l.next && Lines(l)[2] == "Available:"
  {
  }

  lemma HeadedKinds(l: Listing)
    requires forall a | a in l.available :: KindOf(a) == Image
    ensures Headed(Lines(l), l.next)
  {
    HeadingLines(l);
    HeadingKinds(l.current, l.next);
    KindsBelow(Lines(l), l.available);
  }

  /** The first line is the current image's, the second the next one's unless its name has a colon, the others neither's. */
  ghost predicate Headed(lines: seq<string>, next: string) {
    && |lines| >= 2 && KindOf(lines[0]) == Current
    && (KindOf(lines[1]) == Next || (KindOf(lines[1]) == Current && ':' in next))
    && forall j | 2 <= j < |lines| :: KindOf(lines[j]) == Image || KindOf(lines[j]) == Available
  }

  lemma NamesOfHeaded(lines: seq<string>, current: string, next: string)
    requires Headed(lines, next)
    ensures LastNamed(lines, Current, current) && LastNamed(lines, Next, next)
            <==> KindOf(lines[1]) == Next && current == Named(lines[0]) && next == Named(lines[1])
  {
    if KindOf(lines[1]) == Next {
      OnlyNamedAt(lines, Current, current, 0);
      OnlyNamedAt(lines, Next, next, 1);
    }
  }

  lemma NamedHeadings(l: Listing)
    ensures Named(Lines(l)[0]) == l.current <==> Trimmed(l.current) && ':' !in l.current
    ensures Named(Lines(l)[1]) == l.next <==> Trimmed(l.next) && ':' !in l.next
  {
    NamedBack("Current", l.current);
    NamedBack("Next", l.next);
    assert Lines(l)[0] == "Current" + ": " + l.current && Lines(l)[1] == "Next" + ": " + l.next;
  }

  /** With only image lines below the headings, the names are those of the headings. */
  lemma HeadingsBack(l: Listing)
    requires forall a | a in l.available :: KindOf(a) == Image
    ensures LastNamed(Lines(l), Current, l.current) && LastNamed(Lines(l), Next, l.next)
            <==> Trimmed(l.current) && ':' !in l.current && Trimmed(l.next) && ':' !in l.next
  {
    HeadedKinds(l);
    NamesOfHeaded(Lines(l), l.current, l.next);
    NamedHeadings(l);
  }

  /**
    Parsing recovers a printed listing exactly when the names survive trimming and colons and no
    available image is taken for a heading.
  */
  lemma ListingReadsBackIff(l: Listing)
    requires OnOneLineEach(l)
    ensures Parses(Split(Join(Lines(l), '\n'), '\n'), l) <==> Readable(l)
  {
    var lines := Lines(l);
    assert '\n' !in "Current: " && '\n' !in "Next: " && '\n' !in "Available:";
    assert forall p | p in lines :: '\n' !in p;
    SplitJoin(lines, '\n');
    AvailableBack(l);
    if forall a | a in l.available :: KindOf(a) == Image {
      HeadingsBack(l);
    }
  }
}
