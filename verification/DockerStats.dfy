/** Container records from the output of `docker stats` (crates/procdockerstatsd-rs/src/main.rs). */
module DockerStats {
  import opened Text
  import opened ByteCount
  import opened Counting
  import opened LastWins
  import opened StateDb

  const DOCKER_PREFIX := "DOCKER_STATS|"
  const INVALID_CONTAINER_NAME := "--"

  /** An output line: blank, not decodable, or the decoded statistics of a container. */
  datatype Line =
    | Blank
    | Malformed
    | Container(id: string, name: string, cpuPerc: string, memPerc: string, memUsage: string, netIo: string,
                blockIo: string, pids: string)

  /** A container that stops during the command is listed under an invalid name. */
  predicate Kept(line: Line) {
    line.Container? && line.name != "" && line.name != INVALID_CONTAINER_NAME
  }

  function DockerKey(line: Line): string
    requires line.Container?
  {
    DOCKER_PREFIX + line.id
  }

  function TrimPercent(s: string): string {
    if s != "" && s[|s| - 1] == '%' then TrimPercent(s[..|s| - 1]) else s
  }

  /** The pieces of `s` between consecutive occurrences of `sep`. */
  function SplitOn(s: string, sep: string): (r: seq<string>)
    requires sep != ""
    ensures |r| > 0
  {
    if s == "" then [""]
    else if sep <= s then [""] + SplitOn(s[|sep|..], sep)
    else
      var rest := SplitOn(s[1..], sep);
      [[s[0]] + rest[0]] + rest[1..]
  }

  const SLASH := " / "

  /** Two byte counts, if the text has at least two pieces. */
  function PairFields(text: string, first: string, second: string): Fields {
    var pieces := SplitOn(text, SLASH);
    if |pieces| < 2 then map[]
    else map[first := Decimal(ConvertToBytes(pieces[0])), second := Decimal(ConvertToBytes(pieces[1]))]
  }

  const MEMORY := ("MEM_BYTES", "MEM_LIMIT_BYTES")
  const NETWORK := ("NET_IN_BYTES", "NET_OUT_BYTES")
  const BLOCKS := ("BLOCK_IN_BYTES", "BLOCK_OUT_BYTES")

  function PlainFields(line: Line): Fields
    requires line.Container?
  {
    map["NAME" := line.name, "CPU%" := TrimPercent(line.cpuPerc), "MEM%" := TrimPercent(line.memPerc)]
  }

  function ContainerFields(line: Line): Fields
    requires line.Container?
  {
    PlainFields(line)
    + PairFields(line.memUsage, MEMORY.0, MEMORY.1)
    + PairFields(line.netIo, NETWORK.0, NETWORK.1)
    + PairFields(line.blockIo, BLOCKS.0, BLOCKS.1)
    + map["PIDS" := line.pids]
  }

  /** The record a line asks for. */
  function Outcome(line: Line): LastWins.Item<string, Fields> {
    if Kept(line) then LastWins.Item(DockerKey(line), ContainerFields(line)) else Void
  }

  function Outcomes(lines: seq<Line>): (r: seq<LastWins.Item<string, Fields>>)
    ensures |r| == |lines| && forall i | 0 <= i < |lines| :: r[i] == Outcome(lines[i])
  {
    seq(|lines|, i requires 0 <= i < |lines| => Outcome(lines[i]))
  }

  /** One record per container: what the last kept line for its id says. */
  method ParseDockerJsonOutput(lines: seq<Line>) returns (dict: Table)
    ensures Filled(Outcomes(lines), dict)
    ensures dict == map[] <==> forall i | 0 <= i < |lines| :: !Kept(lines[i])
  {
    dict := map[];
    for n := 0 to |lines|
      invariant Filled(Outcomes(lines)[..n], dict)
    {
      assert Outcomes(lines)[..n + 1] == Outcomes(lines)[..n] + [Outcome(lines[n])];
      if Kept(lines[n]) {
        var key, data := DockerKey(lines[n]), ContainerFields(lines[n]);
        ItemReplaces(Outcomes(lines)[..n], dict, key, data);
        dict := dict[key := data];
      } else {
        VoidSkipped(Outcomes(lines)[..n], dict);
      }
    }
    assert Outcomes(lines)[..|lines|] == Outcomes(lines);
    EmptyIffAllVoid(Outcomes(lines), dict);
    assert forall i | 0 <= i < |lines| :: Outcomes(lines)[i].Void? <==> !Kept(lines[i]);
  }

  /* ----- what the fields of a record say ----- */

  /** The separator occurs at `k`. */
  predicate OccursAt(s: string, sep: string, k: nat) { k <= |s| && sep <= s[k..] }

  /** `piece` is what `s` holds before its first separator, or all of it if it has none. */
  ghost predicate FirstPiece(piece: string, s: string, sep: string) {
    && piece <= s && (forall k: nat | k < |piece| :: !OccursAt(s, sep, k))
    && (piece == s || OccursAt(s, sep, |piece|))
  }

  lemma OccursNext(s: string, sep: string, k: nat)
    requires s != "" && 0 < k <= |s|
    ensures OccursAt(s, sep, k) <==> OccursAt(s[1..], sep, k - 1)
  {
    assert s[1..][k - 1..] == s[k..];
  }

  lemma FirstPieceTail(piece: string, s: string, sep: string)
    requires FirstPiece(piece, s, sep) && piece != ""
    ensures s != "" && s[0] == piece[0] && !(sep <= s)
    ensures FirstPiece(piece[1..], s[1..], sep)
    ensures OccursAt(s, sep, |piece|) <==> OccursAt(s[1..], sep, |piece| - 1)
  {
    assert s[0..] == s && !OccursAt(s, sep, 0);
    forall k: nat | k < |piece[1..]| ensures !OccursAt(s[1..], sep, k) {
      OccursNext(s, sep, k + 1);
    }
    OccursNext(s, sep, |piece|);
  }

  lemma StepOver(s: string, sep: string, head: string, others: seq<string>)
    requires s != "" && sep != "" && !(sep <= s) && SplitOn(s[1..], sep) == [head] + others
    ensures SplitOn(s, sep) == [[s[0]] + head] + others
  {
    assert ([head] + others)[0] == head && ([head] + others)[1..] == others;
  }

  /** The pieces behind the first one. */
  function OtherPieces(piece: string, s: string, sep: string): seq<string>
    requires sep != ""
  {
    if OccursAt(s, sep, |piece|) && |piece| + |sep| <= |s| then SplitOn(s[|piece| + |sep|..], sep) else []
  }

  lemma OtherPiecesTail(piece: string, s: string, sep: string)
    requires FirstPiece(piece, s, sep) && piece != "" && sep != ""
    ensures s != "" && OtherPieces(piece, s, sep) == OtherPieces(piece[1..], s[1..], sep)
  {
    FirstPieceTail(piece, s, sep);
    if OccursAt(s, sep, |piece|) {
      assert s[1..][|piece| - 1 + |sep|..] == s[|piece| + |sep|..];
    }
  }

  lemma EmptyFirstPiece(s: string, sep: string)
    requires sep != "" && FirstPiece("", s, sep)
    ensures SplitOn(s, sep) == [""] + OtherPieces("", s, sep)
  {
    assert s[0..] == s;
  }

  lemma OnePieceMore(piece: string, s: string, sep: string)
    requires sep != "" && FirstPiece(piece, s, sep) && piece != ""
    requires s != "" ==> SplitOn(s[1..], sep) == [piece[1..]] + OtherPieces(piece[1..], s[1..], sep)
    ensures SplitOn(s, sep) == [piece] + OtherPieces(piece, s, sep)
  {
    FirstPieceTail(piece, s, sep);
    OtherPiecesTail(piece, s, sep);
    StepOver(s, sep, piece[1..], OtherPieces(piece, s, sep));
    assert [s[0]] + piece[1..] == piece;
  }

  /** Splitting takes off the first piece and its separator and goes on behind them. */
  lemma {:induction false} SplitOnFirst(piece: string, s: string, sep: string)
    requires sep != "" && FirstPiece(piece, s, sep)
    ensures SplitOn(s, sep) == [piece] + OtherPieces(piece, s, sep)
    decreases |piece|
  {
    if piece == "" {
      EmptyFirstPiece(s, sep);
    } else {
      FirstPieceTail(piece, s, sep);
      SplitOnFirst(piece[1..], s[1..], sep);
      OnePieceMore(piece, s, sep);
    }
  }

  /** The two fields of a pair hold the byte counts of the first two pieces of the text. */
  lemma PairReads(text: string, a: string, b: string, first: string, second: string)
    requires FirstPiece(a, text, SLASH) && OccursAt(text, SLASH, |a|) && first != second
    requires FirstPiece(b, text[|a| + |SLASH|..], SLASH)
    ensures var f := PairFields(text, first, second);
            f.Keys == {first, second}
            && Digits(f[first]) && NumberOf(f[first]) == ConvertToBytes(a)
            && Digits(f[second]) && NumberOf(f[second]) == ConvertToBytes(b)
  {
    SplitOnFirst(a, text, SLASH);
    SplitOnFirst(b, text[|a| + |SLASH|..], SLASH);
    NumberOfDecimal(ConvertToBytes(a));
    NumberOfDecimal(ConvertToBytes(b));
  }

  /** All percent signs at the end go, and nothing else. */
  lemma {:induction false} PercentTrimmed(p: string, n: nat)
    requires p != "" ==> p[|p| - 1] != '%'
    ensures TrimPercent(p + Repeat('%', n)) == p
  {
    var s := p + Repeat('%', n);
    if n == 0 {
      assert s == p;
    } else {
      assert s[..|s| - 1] == p + Repeat('%', n - 1);
      PercentTrimmed(p, n - 1);
    }
  }

  lemma PairKeys(text: string, first: string, second: string)
    ensures PairFields(text, first, second).Keys <= {first, second}
  {
  }

  /** In a sum of maps the last one that has a key decides. */
  lemma LastOneDecides(a: Fields, b: Fields, c: Fields, d: Fields, e: Fields, k: string)
    ensures var sum := a + b + c + d + e;
            && (k in sum <==> k in a || k in b || k in c || k in d || k in e)
            && (k in a && k !in b && k !in c && k !in d && k !in e ==> sum[k] == a[k])
            && (k in b && k !in c && k !in d && k !in e ==> sum[k] == b[k])
            && (k in c && k !in d && k !in e ==> sum[k] == c[k])
            && (k in d && k !in e ==> sum[k] == d[k])
  {
  }

  /** The parts of a record do not share a name. */
  lemma NamesApart(k: string)
    ensures k == MEMORY.0 || k == MEMORY.1 ==> k !in {NETWORK.0, NETWORK.1} && k !in {BLOCKS.0, BLOCKS.1} && k != "PIDS"
    ensures k == NETWORK.0 || k == NETWORK.1 ==> k !in {BLOCKS.0, BLOCKS.1} && k != "PIDS"
    ensures k == BLOCKS.0 || k == BLOCKS.1 ==> k != "PIDS"
    ensures k == "NAME" || k == "CPU%" || k == "MEM%" ==>
              k !in {MEMORY.0, MEMORY.1} && k !in {NETWORK.0, NETWORK.1} && k !in {BLOCKS.0, BLOCKS.1} && k != "PIDS"
  {
    assert |MEMORY.0| == 9 && |MEMORY.1| == 15 && |NETWORK.0| == 12 && |NETWORK.1| == 13 && |BLOCKS.0| == 14 && |BLOCKS.1| == 15;
    assert MEMORY.1[0] == 'M' && BLOCKS.1[0] == 'B' && "PIDS"[0] == 'P' && "NAME"[0] == 'N';
  }

  lemma PartsApart(a: Fields, b: Fields, c: Fields, d: Fields, e: Fields, k: string)
    requires a.Keys <= {"NAME", "CPU%", "MEM%"} && e.Keys == {"PIDS"}
    requires b.Keys <= {MEMORY.0, MEMORY.1} && c.Keys <= {NETWORK.0, NETWORK.1} && d.Keys <= {BLOCKS.0, BLOCKS.1}
    ensures var f := a + b + c + d + e;
            && (k in a ==> k in f && f[k] == a[k]) && (k in b ==> k in f && f[k] == b[k])
            && (k in c ==> k in f && f[k] == c[k]) && (k in d ==> k in f && f[k] == d[k])
            && (k in e ==> k in f && f[k] == e[k])
  {
    NamesApart(k);
    LastOneDecides(a, b, c, d, e, k);
  }

  ghost predicate Shows(f: Fields, part: Fields) {
    forall k | k in part :: k in f && f[k] == part[k]
  }

  /** Every field of a record is what its own part of the line says: no part hides another. */
  lemma NoPartHidesAnother(line: Line)
    requires line.Container?
    ensures var f := ContainerFields(line);
            && Shows(f, PlainFields(line)) && Shows(f, map["PIDS" := line.pids])
            && Shows(f, PairFields(line.memUsage, MEMORY.0, MEMORY.1))
            && Shows(f, PairFields(line.netIo, NETWORK.0, NETWORK.1))
            && Shows(f, PairFields(line.blockIo, BLOCKS.0, BLOCKS.1))
  {
    PairKeys(line.memUsage, MEMORY.0, MEMORY.1);
    PairKeys(line.netIo, NETWORK.0, NETWORK.1);
    PairKeys(line.blockIo, BLOCKS.0, BLOCKS.1);
    AllShown(PlainFields(line), PairFields(line.memUsage, MEMORY.0, MEMORY.1), PairFields(line.netIo, NETWORK.0, NETWORK.1),
             PairFields(line.blockIo, BLOCKS.0, BLOCKS.1), map["PIDS" := line.pids]);
  }

  lemma AllShown(a: Fields, b: Fields, c: Fields, d: Fields, e: Fields)
    requires a.Keys <= {"NAME", "CPU%", "MEM%"} && e.Keys == {"PIDS"}
    requires b.Keys <= {MEMORY.0, MEMORY.1} && c.Keys <= {NETWORK.0, NETWORK.1} && d.Keys <= {BLOCKS.0, BLOCKS.1}
    ensures var f := a + b + c + d + e; Shows(f, a) && Shows(f, b) && Shows(f, c) && Shows(f, d) && Shows(f, e)
  {
    forall k {
      PartsApart(a, b, c, d, e, k);
    }
  }

  /** The field is the text without the percent signs at its end. */
  ghost predicate WithoutPercents(field: string, text: string) {
    (field != "" ==> field[|field| - 1] != '%') && exists n: nat :: text == field + Repeat('%', n)
  }

  lemma {:induction false} TrimmedPercents(s: string)
    ensures WithoutPercents(TrimPercent(s), s)
  {
    if s != "" && s[|s| - 1] == '%' {
      var n := |s| - 1;
      TrimmedPercents(s[..n]);
      var k: nat :| s[..n] == TrimPercent(s[..n]) + Repeat('%', k);
      assert s == s[..n] + ['%'] && Repeat('%', k + 1) == Repeat('%', k) + ['%'];
      assert s == TrimPercent(s) + Repeat('%', k + 1);
    } else {
      assert s == s + Repeat('%', 0);
    }
  }

  /** `a` is what stands in the usage before its first slash between blanks, `b` what stands from there to the next one. */
  ghost predicate TwoPieces(usage: string, a: string, b: string) {
    FirstPiece(a, usage, " / ") && OccursAt(usage, " / ", |a|) && FirstPiece(b, usage[|a| + 3..], " / ")
  }

  predicate ShowsBytes(f: Fields, field: string, size: string) {
    field in f && Digits(f[field]) && NumberOf(f[field]) == ConvertToBytes(size)
  }

  /** The usage shows in two fields, the byte counts of its first two pieces; without a slash between blanks there are none. */
  ghost predicate ShowsUsage(f: Fields, usage: string, first: string, second: string) {
    && ((forall k: nat | k <= |usage| :: !OccursAt(usage, " / ", k)) ==> first !in f && second !in f)
    && forall a, b | TwoPieces(usage, a, b) :: ShowsBytes(f, first, a) && ShowsBytes(f, second, b)
  }

  /** The record shows the container. */
  ghost predicate ShowsContainer(f: Fields, line: Line)
    requires line.Container?
  {
    && "NAME" in f && f["NAME"] == line.name && "PIDS" in f && f["PIDS"] == line.pids
    && "CPU%" in f && WithoutPercents(f["CPU%"], line.cpuPerc)
    && "MEM%" in f && WithoutPercents(f["MEM%"], line.memPerc)
    && ShowsUsage(f, line.memUsage, "MEM_BYTES", "MEM_LIMIT_BYTES")
    && ShowsUsage(f, line.netIo, "NET_IN_BYTES", "NET_OUT_BYTES")
    && ShowsUsage(f, line.blockIo, "BLOCK_IN_BYTES", "BLOCK_OUT_BYTES")
  }

  /** A pair shows its usage, and so does a record that has the pair's fields and no other ones of these names. */
  lemma UsageShows(f: Fields, usage: string, first: string, second: string)
    requires first != second && Shows(f, PairFields(usage, first, second))
    requires forall k | k == first || k == second :: k in f ==> k in PairFields(usage, first, second)
    ensures ShowsUsage(f, usage, first, second)
  {
    if forall k: nat | k <= |usage| :: !OccursAt(usage, " / ", k) {
      SplitOnFirst(usage, usage, SLASH);
    }
    assert SLASH == " / " && |SLASH| == 3;
    forall a, b | TwoPieces(usage, a, b) ensures ShowsBytes(f, first, a) && ShowsBytes(f, second, b) {
      PairReads(usage, a, b, first, second);
    }
  }

  /** A field of a record comes from the part that has its name. */
  lemma FieldComesFrom(line: Line, k: string)
    requires line.Container? && k in ContainerFields(line)
    ensures k in {MEMORY.0, MEMORY.1} ==> k in PairFields(line.memUsage, MEMORY.0, MEMORY.1)
    ensures k in {NETWORK.0, NETWORK.1} ==> k in PairFields(line.netIo, NETWORK.0, NETWORK.1)
    ensures k in {BLOCKS.0, BLOCKS.1} ==> k in PairFields(line.blockIo, BLOCKS.0, BLOCKS.1)
  {
    NamesApart(k);
    PairKeys(line.memUsage, MEMORY.0, MEMORY.1);
    PairKeys(line.netIo, NETWORK.0, NETWORK.1);
    PairKeys(line.blockIo, BLOCKS.0, BLOCKS.1);
    LastOneDecides(PlainFields(line), PairFields(line.memUsage, MEMORY.0, MEMORY.1), PairFields(line.netIo, NETWORK.0, NETWORK.1),
                   PairFields(line.blockIo, BLOCKS.0, BLOCKS.1), map["PIDS" := line.pids], k);
  }

  lemma UsagesShow(line: Line)
    requires line.Container?
    ensures var f := ContainerFields(line);
            && ShowsUsage(f, line.memUsage, MEMORY.0, MEMORY.1)
            && ShowsUsage(f, line.netIo, NETWORK.0, NETWORK.1)
            && ShowsUsage(f, line.blockIo, BLOCKS.0, BLOCKS.1)
  {
    var f := ContainerFields(line);
    NoPartHidesAnother(line);
    forall k | k in f ensures k in {MEMORY.0, MEMORY.1} ==> k in PairFields(line.memUsage, MEMORY.0, MEMORY.1)
      ensures k in {NETWORK.0, NETWORK.1} ==> k in PairFields(line.netIo, NETWORK.0, NETWORK.1)
      ensures k in {BLOCKS.0, BLOCKS.1} ==> k in PairFields(line.blockIo, BLOCKS.0, BLOCKS.1)
    {
      FieldComesFrom(line, k);
    }
    assert |MEMORY.0| == 9 && |MEMORY.1| == 15 && |NETWORK.0| == 12 && |NETWORK.1| == 13 && |BLOCKS.0| == 14 && |BLOCKS.1| == 15;
    UsageShows(f, line.memUsage, MEMORY.0, MEMORY.1);
    UsageShows(f, line.netIo, NETWORK.0, NETWORK.1);
    UsageShows(f, line.blockIo, BLOCKS.0, BLOCKS.1);
  }

  lemma PlainFieldsShow(line: Line)
    requires line.Container?
    ensures var f := ContainerFields(line);
            && "NAME" in f && f["NAME"] == line.name && "PIDS" in f && f["PIDS"] == line.pids
            && "CPU%" in f && WithoutPercents(f["CPU%"], line.cpuPerc)
            && "MEM%" in f && WithoutPercents(f["MEM%"], line.memPerc)
  {
    NoPartHidesAnother(line);
    TrimmedPercents(line.cpuPerc);
    TrimmedPercents(line.memPerc);
    var plain := PlainFields(line);
    assert "NAME" in plain && "CPU%" in plain && "MEM%" in plain && "PIDS" in map["PIDS" := line.pids];
  }

  /**
    A line is kept exactly when it lists a container under a name other than "--"; its record is under
    its id and shows it.
  */
  lemma RecordShowsContainer(line: Line)
    ensures Outcome(line).Item? <==> line.Container? && line.name != "" && line.name != "--"
    ensures Outcome(line).Item? ==> Outcome(line).key == "DOCKER_STATS|" + line.id && ShowsContainer(Outcome(line).value, line)
  {
    if Kept(line) {
      PlainFieldsShow(line);
      UsagesShow(line);
    }
  }
}
