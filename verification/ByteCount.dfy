/** The sizes in the output of `docker stats`, as numbers of bytes (crates/procdockerstatsd-rs/src/main.rs). */
module ByteCount {
  import opened Text

  const MAX_U64 := 0xFFFF_FFFF_FFFF_FFFF
  const EXACT_F64 := 0x20_0000_0000_0000

  predicate IsLetter(c: char) { 'a' <= c <= 'z' || 'A' <= c <= 'Z' }

  /** A unit is written in the ASCII letters, of either case. */
  lemma LettersAreAscii(c: char)
    ensures IsLetter(c) <==> 65 <= c as int <= 90 || 97 <= c as int <= 122
  {
  }

  /** The number of digits `s` starts with. */
  function DigitRun(s: string): (n: nat)
    ensures n <= |s| && forall i | 0 <= i < n :: IsDigit(s[i])
  {
    if s == "" || !IsDigit(s[0]) then 0 else 1 + DigitRun(s[1..])
  }

  function LetterRun(s: string): (n: nat)
    ensures n <= |s|
  {
    if s == "" || !IsLetter(s[0]) then 0 else 1 + LetterRun(s[1..])
  }

  /** The length of the fraction after `n` digits: the dot and the digits behind it, if there is a dot. */
  function FractionRun(s: string): (n: nat)
    ensures n <= |s|
    ensures n > 0 ==> forall i | 1 <= i < n :: IsDigit(s[i])
  {
    if s != "" && s[0] == '.' then 1 + DigitRun(s[1..]) else 0
  }

  function Power10(n: nat): (p: nat)
    ensures p > 0
  {
    if n == 0 then 1 else 10 * Power10(n - 1)
  }

  /** What the code multiplies by: only these units are told apart, any other counts as one. */
  function Factor(unit: string): nat {
    var u := Lower(unit);
    if u == "kb" then 1000
    else if u == "mb" then 1000 * 1000
    else if u == "mib" then 1024 * 1024
    else if u == "gib" then 1024 * 1024 * 1024
    else 1
  }

  function Saturated(n: nat): nat {
    if n > MAX_U64 then MAX_U64 else n
  }

  predicate Digits(s: string) { forall c | c in s :: IsDigit(c) }
  predicate Letters(s: string) { forall c | c in s :: IsLetter(c) }

  function Times(n: nat, factor: nat): nat { n * factor }

  function Floor(n: nat, divisor: nat): nat
    requires divisor > 0
  {
    n / divisor
  }

  /** The value of digits, fraction digits and unit, rounded down, as the conversion to u64 does. */
  function Bytes(whole: string, fraction: string, unit: string): nat
    requires Digits(whole) && Digits(fraction)
  {
    Saturated(Floor(Times(NumberOf(whole + fraction), Factor(unit)), Power10(|fraction|)))
  }

  /** The digits of a fraction of length `f`, its dot left out. */
  function FractionDigits(s: string, f: nat): string
    requires f <= |s|
  {
    if f == 0 then "" else s[1..f]
  }

  /** What matches at the start of a string: so many digits, fraction characters and letters. */
  datatype Capture = Capture(whole: nat, fraction: nat, letters: nat)

  function CaptureAt(s: string): (c: Capture)
    ensures c.whole + c.fraction + c.letters <= |s|
    ensures Digits(s[..c.whole]) && Digits(FractionDigits(s[c.whole..], c.fraction))
  {
    var n := DigitRun(s);
    var f := FractionRun(s[n..]);
    Capture(n, f, LetterRun(s[n + f..]))
  }

  datatype Size = NoSize | Size(whole: string, fraction: string, unit: string)

  /** The captures of the pattern: the leftmost digits, with or without a fraction, that letters follow. */
  function Captures(s: string): (r: Size)
    ensures r.Size? ==> Digits(r.whole) && Digits(r.fraction)
  {
    var c := CaptureAt(s);
    var end := c.whole + c.fraction;
    if s == "" then NoSize
    else if c.whole > 0 && c.letters > 0 then
      Size(s[..c.whole], FractionDigits(s[c.whole..], c.fraction), s[end..end + c.letters])
    else Captures(s[1..])
  }

  function ConvertToBytes(s: string): nat {
    match Captures(s)
    case NoSize => 0
    case Size(whole, fraction, unit) => Bytes(whole, fraction, unit)
  }

  lemma {:induction false} DigitRunStops(a: string, b: string)
    requires Digits(a) && (b == "" || !IsDigit(b[0]))
    ensures DigitRun(a + b) == |a| && (a + b)[..|a|] == a && (a + b)[|a|..] == b
  {
    if a == "" {
      assert a + b == b;
    } else {
      assert a[0] in a && forall c | c in a[1..] :: c in a;
      DigitRunStops(a[1..], b);
      assert (a + b)[1..] == a[1..] + b;
    }
  }

  lemma {:induction false} LetterRunWhole(s: string)
    requires Letters(s)
    ensures LetterRun(s) == |s|
  {
    if s != "" {
      assert s[0] in s && forall c | c in s[1..] :: c in s;
      LetterRunWhole(s[1..]);
    }
  }

  lemma FractionRunStops(fraction: string, unit: string)
    requires Digits(fraction) && Letters(unit) && unit != ""
    ensures var rest := "." + fraction + unit; var f := 1 + |fraction|;
            FractionRun(rest) == f && FractionDigits(rest, f) == fraction && rest[f..] == unit
  {
    assert unit[0] in unit;
    DigitRunStops(fraction, unit);
    assert ("." + fraction + unit)[1..] == fraction + unit;
  }

  lemma CaptureHead(whole: string, rest: string, f: nat)
    requires Digits(whole) && rest != "" && !IsDigit(rest[0])
    requires f == FractionRun(rest) && Letters(rest[f..])
    ensures CaptureAt(whole + rest) == Capture(|whole|, f, |rest| - f)
  {
    DigitRunStops(whole, rest);
    LetterRunWhole(rest[f..]);
    assert (whole + rest)[|whole| + f..] == rest[f..];
  }

  /** Digits followed by a fraction of length `f`, or by none, and then only letters. */
  lemma CapturesHead(whole: string, rest: string, f: nat)
    requires Digits(whole) && whole != "" && rest != "" && !IsDigit(rest[0])
    requires f == FractionRun(rest) < |rest| && Letters(rest[f..])
    ensures Captures(whole + rest) == Size(whole, FractionDigits(rest, f), rest[f..])
  {
    var s, end := whole + rest, |whole| + f;
    CaptureHead(whole, rest, f);
    assert s[..|whole|] == whole && s[|whole|..] == rest;
    assert s[end..end + (|rest| - f)] == rest[f..];
  }

  lemma TimesGrows(n: nat, a: nat, b: nat)
    requires a <= b
    ensures n * a <= n * b
    ensures 0 < n && a < b ==> n * a < n * b
  {
  }

  lemma ProductOfSum(a: nat, b: nat, c: nat)
    ensures (a + b) * c == a * c + b * c
  {
  }

  /** One digit more behind the dot. */
  lemma OneDigitMore(a: nat, p: nat, b: nat, d: nat)
    ensures 10 * (a * p + b) + d == a * (10 * p) + (10 * b + d)
  {
    assert a * (10 * p) == 10 * (a * p);
  }

  lemma DigitsTogether(a: string, b: string)
    requires Digits(a) && Digits(b)
    ensures Digits(a + b)
  {
  }

  /** Digits put behind others count for less by a power of ten. */
  lemma {:induction false} DigitsBehind(whole: string, fraction: string)
    requires Digits(whole) && Digits(fraction)
    ensures Digits(whole + fraction)
    ensures NumberOf(whole + fraction) == NumberOf(whole) * Power10(|fraction|) + NumberOf(fraction)
  {
    DigitsTogether(whole, fraction);
    if fraction == "" {
      assert whole + fraction == whole;
    } else {
      var n := |fraction| - 1;
      var before, all := fraction[..n], whole + fraction;
      assert forall c | c in before :: c in fraction;
      DigitsBehind(whole, before);
      assert all[..|all| - 1] == whole + before && all[|all| - 1] == fraction[n];
      OneDigitMore(NumberOf(whole), Power10(n), NumberOf(before), DigitValue(fraction[n]));
    }
  }

  /**
    `bytes` is the number with these digits before and behind its dot times the factor, rounded down,
    as far as a u64 goes.
  */
  predicate IsProduct(bytes: nat, whole: string, fraction: string, factor: nat)
    requires Digits(whole) && Digits(fraction)
  {
    var unit := Power10(|fraction|);
    var exact := Times(NumberOf(whole) * unit + NumberOf(fraction), factor);
    && Times(bytes, unit) <= exact && bytes <= 0xFFFF_FFFF_FFFF_FFFF
    && (bytes < 0xFFFF_FFFF_FFFF_FFFF ==> exact < Times(bytes + 1, unit))
  }

  lemma FloorBounds(n: nat, unit: nat)
    requires 0 < unit
    ensures Times(Floor(n, unit), unit) <= n < Times(Floor(n, unit) + 1, unit)
  {
    assert n == unit * (n / unit) + n % unit;
    ProductOfSum(n / unit, 1, unit);
  }

  lemma BytesAreProduct(whole: string, fraction: string, unit: string)
    requires Digits(whole) && Digits(fraction)
    ensures IsProduct(Bytes(whole, fraction, unit), whole, fraction, Factor(unit))
  {
    var p := Power10(|fraction|);
    var n := Times(NumberOf(whole + fraction), Factor(unit));
    DigitsBehind(whole, fraction);
    FloorBounds(n, p);
    if Floor(n, p) > MAX_U64 {
      TimesGrows(p, MAX_U64, Floor(n, p));
    }
  }

  /** A size is read as its number times the factor of its unit, with or without a fraction. */
  lemma SizeIsRead(whole: string, fraction: string, unit: string)
    requires Digits(whole) && whole != "" && Digits(fraction) && Letters(unit) && unit != ""
    ensures ConvertToBytes(whole + unit) == Bytes(whole, "", unit)
    ensures IsProduct(ConvertToBytes(whole + unit), whole, "", Factor(unit))
    ensures IsProduct(ConvertToBytes(whole + ("." + fraction + unit)), whole, fraction, Factor(unit))
  {
    assert unit[0] in unit;
    CapturesHead(whole, unit, 0);
    assert unit[0..] == unit;
    FractionRunStops(fraction, unit);
    CapturesHead(whole, "." + fraction + unit, 1 + |fraction|);
    BytesAreProduct(whole, "", unit);
    BytesAreProduct(whole, fraction, unit);
  }

  /** From `i` on the string starts with digits, with or without a fraction, and letters. */
  predicate MatchesAt(s: string, i: nat)
    requires i <= |s|
  {
    var c := CaptureAt(s[i..]);
    c.whole > 0 && c.letters > 0
  }

  lemma SkipsOne(s: string)
    requires s != "" && !MatchesAt(s, 0)
    ensures Captures(s) == Captures(s[1..])
  {
    assert s[0..] == s;
  }

  lemma SameMatch(s: string, k: nat)
    requires k < |s|
    ensures MatchesAt(s[1..], k) <==> MatchesAt(s, k + 1)
  {
    assert s[1..][k..] == s[k + 1..];
  }

  /** The leftmost size in a string is read; a string with none is 0 bytes. */
  lemma {:induction false} LeftmostSizeIsRead(s: string, i: nat)
    requires i <= |s| && forall k | 0 <= k < i :: !MatchesAt(s, k)
    ensures ConvertToBytes(s) == ConvertToBytes(s[i..])
    ensures i == |s| ==> ConvertToBytes(s) == 0
  {
    if i > 0 {
      SkipsOne(s);
      forall k | 0 <= k < i - 1 ensures !MatchesAt(s[1..], k) {
        SameMatch(s, k);
      }
      LeftmostSizeIsRead(s[1..], i - 1);
      assert s[1..][i - 1..] == s[i..];
    } else {
      assert s[0..] == s;
    }
  }

  /** The sizes docker means by its units. */
  function Meant(unit: string): nat {
    var u := Lower(unit);
    if u == "kb" then 1000
    else if u == "mb" then 1000_000
    else if u == "gb" then 1000_000_000
    else if u == "tb" then 1000_000_000_000
    else if u == "kib" then 1024
    else if u == "mib" then 1024 * 1024
    else if u == "gib" then 1024 * 1024 * 1024
    else if u == "tib" then 1024 * 1024 * 1024 * 1024
    else 1
  }

  const UNITS := {"b", "kb", "mb", "gb", "tb", "kib", "mib", "gib", "tib"}

  lemma WholeBytes(n: nat, unit: string)
    requires n * Factor(unit) <= MAX_U64
    ensures Bytes(Decimal(n), "", unit) == n * Factor(unit)
  {
    NumberOfDecimal(n);
    assert Decimal(n) + "" == Decimal(n);
    assert Power10(0) == 1;
  }

  /** The units that are not told apart. */
  const MISREAD := {"kib", "tib", "gb", "tb"}

  lemma FactorMeant(unit: string)
    requires Lower(unit) in UNITS
    ensures Lower(unit) in MISREAD ==> Factor(unit) == 1 < Meant(unit)
    ensures Lower(unit) !in MISREAD ==> Factor(unit) == Meant(unit)
    ensures Factor(unit) <= Meant(unit)
  {
  }

  /**
    A positive whole size of at most 2^53 bytes, up to where the conversion through f64 is exact, is
    read as what docker means by it if and only if its unit is not one of kib, tib, gb and tb, which
    are read as single bytes.
  */
  lemma UnitsReadRight(n: nat, unit: string)
    requires 0 < n && Letters(unit) && Lower(unit) in UNITS && n * Meant(unit) <= EXACT_F64
    ensures ConvertToBytes(Decimal(n) + unit) == n * Meant(unit) <==> Lower(unit) !in MISREAD
  {
    assert |Lower(unit)| > 0;
    FactorMeant(unit);
    TimesGrows(n, Factor(unit), Meant(unit));
    SizeIsRead(Decimal(n), "", unit);
    WholeBytes(n, unit);
  }
}
