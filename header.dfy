/** The header pattern `(?m)^(\d{4})\.(\d{2})\.(\d{2}) \d{2}:\d{2}:\d{2} ` over the
    first bytes of a log file, with ASCII digits. */
module Header {
  import opened Types
  import opened Decimal

  /** How many bytes of a log file are read. */
  const HEADER_LEN: nat := 30
  /** How many bytes the pattern spans: `YYYY.MM.DD hh:mm:ss `. */
  const PATTERN_LEN: nat := 20

  const NEW_LINE: Byte := 10
  const SPACE: Byte := 32
  const DOT: Byte := 46
  const COLON: Byte := 58

  predicate IsDigitByte(b: Byte) {
    48 <= b <= 57
  }

  function DigitOf(b: Byte): nat
    requires IsDigitByte(b)
  {
    b as int - 48
  }

  /** Where `^` matches in multi-line mode: the start of the text, or just after a `\n`. */
  predicate LineStart(h: seq<Byte>, i: nat) {
    i == 0 || (i <= |h| && h[i - 1] == NEW_LINE)
  }

  predicate DigitsAt(h: seq<Byte>, i: nat, count: nat)
    requires i + count <= |h|
  {
    forall j :: i <= j < i + count ==> IsDigitByte(h[j])
  }

  /** `h[i..i+20]` reads `DDDD.DD.DD DD:DD:DD `. */
  predicate PatternAt(h: seq<Byte>, i: nat)
    requires i + PATTERN_LEN <= |h|
  {
    DigitsAt(h, i, 4) && h[i + 4] == DOT && DigitsAt(h, i + 5, 2) && h[i + 7] == DOT
    && DigitsAt(h, i + 8, 2) && h[i + 10] == SPACE
    && DigitsAt(h, i + 11, 2) && h[i + 13] == COLON && DigitsAt(h, i + 14, 2)
    && h[i + 16] == COLON && DigitsAt(h, i + 17, 2) && h[i + 19] == SPACE
  }

  /** The regex matches at offset `i`. Its length is fixed, so a match at `i` is
      exactly a line start followed by the twenty-byte pattern. */
  predicate MatchesAt(h: seq<Byte>, i: nat) {
    i + PATTERN_LEN <= |h| && LineStart(h, i) && PatternAt(h, i)
  }

  function FindFrom(h: seq<Byte>, i: nat): (r: Option<nat>)
    ensures r.Some? ==> i <= r.value && MatchesAt(h, r.value)
    ensures r.Some? ==> forall j: nat :: i <= j < r.value ==> !MatchesAt(h, j)
    ensures r.None? ==> forall j: nat :: i <= j ==> !MatchesAt(h, j)
    decreases |h| - i
  {
    if |h| < i + PATTERN_LEN then None
    else if LineStart(h, i) && PatternAt(h, i) then Some(i)
    else FindFrom(h, i + 1)
  }

  /** The leftmost match, as the regex engine reports it. In a thirty-byte header
      it starts at offset 10 at the latest. */
  function FindMatch(h: seq<Byte>): (r: Option<nat>)
    ensures r.Some? <==> exists j: nat :: MatchesAt(h, j)
    ensures r.Some? ==> MatchesAt(h, r.value) && forall j: nat :: j < r.value ==> !MatchesAt(h, j)
    ensures r.Some? && |h| == HEADER_LEN ==> r.value <= HEADER_LEN - PATTERN_LEN
  {
    FindFrom(h, 0)
  }

  /** The bytes of the named groups `yyyy`, `MM` and `dd`. */
  datatype Captures = Captures(year: seq<Byte>, month: seq<Byte>, day: seq<Byte>)

  /** `RE.captures(&head_buf)`. */
  function CapturesOf(h: seq<Byte>): Option<Captures> {
    match FindMatch(h)
    case None => None
    case Some(k) => Some(Captures(h[k..k + 4], h[k + 5..k + 7], h[k + 8..k + 10]))
  }

  /** `std::str::from_utf8` on bytes that are all ASCII. */
  function Ascii(bs: seq<Byte>): string
    requires forall i :: 0 <= i < |bs| ==> bs[i] < 128
  {
    seq(|bs|, i requires 0 <= i < |bs| => bs[i] as int as char)
  }

  /** The inverse of `Ascii`, for ASCII text. */
  function Bytes(s: string): seq<Byte>
    requires forall i :: 0 <= i < |s| ==> s[i] as int < 128
  {
    seq(|s|, i requires 0 <= i < |s| => s[i] as int as Byte)
  }

  /** Parsing captured digits. */
  function ParseGroup(bs: seq<Byte>): Option<nat> {
    if forall i :: 0 <= i < |bs| ==> bs[i] < 128 then ParseDecimal(Ascii(bs)) else None
  }

  lemma ValueOfDigitBytes(bs: seq<Byte>)
    requires forall i :: 0 <= i < |bs| ==> IsDigitByte(bs[i])
    ensures forall i :: 0 <= i < |bs| ==> bs[i] < 128
    ensures AllDigits(Ascii(bs))
    ensures |bs| == 2 ==> Value(Ascii(bs)) == 10 * DigitOf(bs[0]) + DigitOf(bs[1])
    ensures |bs| == 4 ==>
      Value(Ascii(bs)) == 1000 * DigitOf(bs[0]) + 100 * DigitOf(bs[1]) + 10 * DigitOf(bs[2]) + DigitOf(bs[3])
  {
    assert forall i :: 0 <= i < |bs| ==> bs[i] < 128 by {
      forall i | 0 <= i < |bs| ensures bs[i] < 128 {
        assert IsDigitByte(bs[i]);
      }
    }
    var s := Ascii(bs);
    forall i | 0 <= i < |bs| ensures IsDigit(s[i]) && s[i] as int - '0' as int == DigitOf(bs[i]) {
      assert IsDigitByte(bs[i]);
    }
    if |bs| == 2 {
      assert s[..1][..0] == [];
      assert Value(s[..1]) == DigitOf(bs[0]);
    } else if |bs| == 4 {
      assert s[..3][..2][..1][..0] == [];
      assert Value(s[..1]) == DigitOf(bs[0]);
      assert s[..2][..1] == s[..1];
      assert Value(s[..2]) == 10 * DigitOf(bs[0]) + DigitOf(bs[1]);
      assert s[..3][..2] == s[..2];
      assert Value(s[..3]) == 100 * DigitOf(bs[0]) + 10 * DigitOf(bs[1]) + DigitOf(bs[2]);
    }
  }

  /** A match yields the decimal values of the captured digits (most significant
      first): a four-digit year below 10000, two-digit month and day below 100. */
  lemma CapturedValues(h: seq<Byte>)
    requires CapturesOf(h).Some?
    ensures var c := CapturesOf(h).value; var k := FindMatch(h).value;
      ParseGroup(c.year) == Some(1000 * DigitOf(h[k]) + 100 * DigitOf(h[k + 1]) + 10 * DigitOf(h[k + 2]) + DigitOf(h[k + 3]))
      && ParseGroup(c.month) == Some(10 * DigitOf(h[k + 5]) + DigitOf(h[k + 6]))
      && ParseGroup(c.day) == Some(10 * DigitOf(h[k + 8]) + DigitOf(h[k + 9]))
  {
    var c := CapturesOf(h).value;
    var k := FindMatch(h).value;
    assert DigitsAt(h, k, 4) && DigitsAt(h, k + 5, 2) && DigitsAt(h, k + 8, 2);
    ValueOfDigitBytes(c.year);
    ValueOfDigitBytes(c.month);
    ValueOfDigitBytes(c.day);
  }

  lemma AsciiBytes(s: string)
    requires AllDigits(s)
    ensures forall i :: 0 <= i < |s| ==> s[i] as int < 128
    ensures forall i :: 0 <= i < |Bytes(s)| ==> IsDigitByte(Bytes(s)[i])
    ensures Ascii(Bytes(s)) == s
  {
  }

  /** The bytes of the decimal digits of `n`, zero-padded to `width`. */
  function PadBytes(n: nat, width: nat): seq<Byte> {
    PadRoundTrip(n, width);
    AsciiBytes(Pad(n, width));
    Bytes(Pad(n, width))
  }

  /** Where the fields of a header line lie. */
  lemma LineLayout(a: seq<Byte>, b: seq<Byte>, c: seq<Byte>, d: seq<Byte>, e: seq<Byte>, f: seq<Byte>, rest: seq<Byte>)
    requires |a| == 4 && |b| == 2 && |c| == 2 && |d| == 2 && |e| == 2 && |f| == 2
    ensures var h := a + [DOT] + b + [DOT] + c + [SPACE] + d + [COLON] + e + [COLON] + f + [SPACE] + rest;
      |h| >= PATTERN_LEN
      && h[0..4] == a && h[4] == DOT && h[5..7] == b && h[7] == DOT && h[8..10] == c && h[10] == SPACE
      && h[11..13] == d && h[13] == COLON && h[14..16] == e && h[16] == COLON && h[17..19] == f && h[19] == SPACE
  {
    var h := a + [DOT] + b + [DOT] + c + [SPACE] + d + [COLON] + e + [COLON] + f + [SPACE] + rest;
    assert h[0..4] == a && h[5..7] == b && h[8..10] == c;
    assert h[11..13] == d && h[14..16] == e && h[17..19] == f;
  }

  /** The bytes a log line starts with when the game writes that date and time:
      `YYYY.MM.DD hh:mm:ss `. */
  function HeaderLine(year: nat, month: nat, day: nat, hh: nat, mm: nat, ss: nat): seq<Byte> {
    PadBytes(year, 4) + [DOT] + PadBytes(month, 2) + [DOT] + PadBytes(day, 2) + [SPACE]
    + PadBytes(hh, 2) + [COLON] + PadBytes(mm, 2) + [COLON] + PadBytes(ss, 2) + [SPACE]
  }

  lemma PadBytesDigits(n: nat, width: nat)
    requires 1 <= width && n < Pow10(width)
    ensures |PadBytes(n, width)| == width
    ensures forall i :: 0 <= i < width ==> IsDigitByte(PadBytes(n, width)[i])
    ensures ParseGroup(PadBytes(n, width)) == Some(n)
  {
    PadRoundTrip(n, width);
    PadWidth(n, width);
    AsciiBytes(Pad(n, width));
  }

  lemma DigitsFromSlice(h: seq<Byte>, i: nat, digits: seq<Byte>)
    requires i + |digits| <= |h| && h[i..i + |digits|] == digits
    requires forall j :: 0 <= j < |digits| ==> IsDigitByte(digits[j])
    ensures DigitsAt(h, i, |digits|)
  {
    forall j | i <= j < i + |digits| ensures IsDigitByte(h[j]) {
      assert h[j] == digits[j - i];
    }
  }

  /** A line laid out as the pattern expects, with digits in every field, is
      matched at offset 0 and its groups capture the date fields. */
  lemma LineDecodes(a: seq<Byte>, b: seq<Byte>, c: seq<Byte>, d: seq<Byte>, e: seq<Byte>, f: seq<Byte>, rest: seq<Byte>)
    requires |a| == 4 && |b| == 2 && |c| == 2 && |d| == 2 && |e| == 2 && |f| == 2
    requires forall j :: 0 <= j < 4 ==> IsDigitByte(a[j])
    requires forall j :: 0 <= j < 2 ==> IsDigitByte(b[j]) && IsDigitByte(c[j])
    requires forall j :: 0 <= j < 2 ==> IsDigitByte(d[j]) && IsDigitByte(e[j]) && IsDigitByte(f[j])
    ensures var h := a + [DOT] + b + [DOT] + c + [SPACE] + d + [COLON] + e + [COLON] + f + [SPACE] + rest;
      FindMatch(h) == Some(0) && CapturesOf(h) == Some(Captures(a, b, c))
  {
    var h := a + [DOT] + b + [DOT] + c + [SPACE] + d + [COLON] + e + [COLON] + f + [SPACE] + rest;
    LineLayout(a, b, c, d, e, f, rest);
    DigitsFromSlice(h, 0, a); DigitsFromSlice(h, 5, b); DigitsFromSlice(h, 8, c);
    DigitsFromSlice(h, 11, d); DigitsFromSlice(h, 14, e); DigitsFromSlice(h, 17, f);
    assert MatchesAt(h, 0);
  }

  /** A header whose first line the game wrote for a date is matched at offset 0,
      and its groups decode to that date, whatever follows. */
  lemma HeaderLineRoundTrip(year: nat, month: nat, day: nat, hh: nat, mm: nat, ss: nat, rest: seq<Byte>)
    requires year < 10000 && month < 100 && day < 100 && hh < 100 && mm < 100 && ss < 100
    ensures var h := HeaderLine(year, month, day, hh, mm, ss) + rest;
      FindMatch(h) == Some(0)
      && CapturesOf(h).Some?
      && ParseGroup(CapturesOf(h).value.year) == Some(year)
      && ParseGroup(CapturesOf(h).value.month) == Some(month)
      && ParseGroup(CapturesOf(h).value.day) == Some(day)
  {
    assert Pow10(2) == 100 && Pow10(4) == 10000;
    PadBytesDigits(year, 4); PadBytesDigits(month, 2); PadBytesDigits(day, 2);
    PadBytesDigits(hh, 2); PadBytesDigits(mm, 2); PadBytesDigits(ss, 2);
    LineDecodes(PadBytes(year, 4), PadBytes(month, 2), PadBytes(day, 2),
      PadBytes(hh, 2), PadBytes(mm, 2), PadBytes(ss, 2), rest);
  }
}
