/** The header pattern as the regex engine reads it: with Unicode enabled, which
    is the default of `regex::bytes::Regex`, `\d` matches the UTF-8 encoding of
    any Unicode decimal digit, not only `0`-`9`. This module models that reading
    for the ASCII digits and the Arabic-Indic digits U+0660..U+0669 (UTF-8
    `D9 A0`..`D9 A9`), which is enough to show that a header can match and
    still make the `expect("digits")` in the classifier panic. */
module UnicodeHeader {
  import opened Types
  import opened Calendar
  import opened FileSystem
  import opened Header
  import opened Logfile

  /** How many bytes the digit at `h[i]` spans: 1 for an ASCII digit, 2 for an
      Arabic-Indic digit, 0 when no digit starts there. */
  function DigitWidth(h: seq<Byte>, i: nat): (w: nat)
    ensures w <= 2 && (w > 0 ==> i + w <= |h|)
    ensures w == 1 <==> i < |h| && IsDigitByte(h[i])
  {
    if i < |h| && IsDigitByte(h[i]) then 1
    else if i + 1 < |h| && h[i] == 0xD9 && 0xA0 <= h[i + 1] <= 0xA9 then 2
    else 0
  }

  /** Where `count` consecutive digits from `i` end, if there are that many. */
  function DigitsEnd(h: seq<Byte>, i: nat, count: nat): (r: Option<nat>)
    ensures r.Some? ==> i + count <= r.value <= |h| || (count == 0 && r.value == i)
    decreases count
  {
    if count == 0 then Some(i)
    else
      var w := DigitWidth(h, i);
      if w == 0 then None else DigitsEnd(h, i + w, count - 1)
  }

  /** `\d{count}` after a match that ended at `at`. */
  function Dig(h: seq<Byte>, at: Option<nat>, count: nat): Option<nat> {
    if at.None? then None else DigitsEnd(h, at.value, count)
  }

  /** The literal byte `b` after a match that ended at `at`. */
  function Lit(h: seq<Byte>, at: Option<nat>, b: Byte): Option<nat> {
    if at.Some? && at.value < |h| && h[at.value] == b then Some(at.value + 1) else None
  }

  /** How many bytes the `k`-th element spans when every digit is one byte. */
  function Width(k: nat): nat {
    if k == 0 then 4 else if k % 2 == 0 then 2 else 1
  }

  /** Where the first `k` elements end, from where the match started, when
      every digit is one byte. */
  function Offset(k: nat): nat {
    if k == 0 then 0 else Offset(k - 1) + Width(k - 1)
  }

  /** The offsets of the twelve elements. */
  lemma OffsetValues()
    ensures Offset(1) == 4 && Offset(2) == 5 && Offset(3) == 7 && Offset(4) == 8
    ensures Offset(5) == 10 && Offset(6) == 11 && Offset(7) == 13 && Offset(8) == 14
    ensures Offset(9) == 16 && Offset(10) == 17 && Offset(11) == 19 && Offset(12) == 20
  {
  }

  /** The `k`-th element of the pattern after a match that ended at `at`. */
  function Element(h: seq<Byte>, at: Option<nat>, k: nat): Option<nat>
    requires k < 12
  {
    if k == 0 then Dig(h, at, 4)
    else if k % 2 == 0 then Dig(h, at, 2)
    else Lit(h, at, Literal(k))
  }

  /** The literal byte that is the odd-numbered `k`-th element. */
  function Literal(k: nat): Byte {
    if k <= 3 then DOT else if k == 5 || k == 11 then SPACE else COLON
  }

  /** Where the first `k` elements of the pattern, read from `i` with Unicode
      digits, end. */
  function After(h: seq<Byte>, i: nat, k: nat): (r: Option<nat>)
    requires k <= 12
    ensures r.Some? ==> k == 0 || r.value <= |h|
  {
    if k == 0 then Some(i) else Element(h, After(h, i, k - 1), k - 1)
  }

  /** A match of the first `k` elements extends a match of the first `j`. */
  lemma {:induction false} AfterPrefix(h: seq<Byte>, i: nat, j: nat, k: nat)
    requires j <= k <= 12 && After(h, i, k).Some?
    ensures After(h, i, j).Some? && After(h, i, j).value <= After(h, i, k).value
    ensures j < k ==> After(h, i, j).value < After(h, i, k).value
    decreases k
  {
    if j < k {
      AfterPrefix(h, i, j, k - 1);
    }
  }

  /** The bytes of the groups `yyyy`, `MM` and `dd` when the pattern matches at `i`. */
  function CapturesAt(h: seq<Byte>, i: nat): Captures
    requires After(h, i, 12).Some?
  {
    AfterPrefix(h, i, 5, 12);
    AfterPrefix(h, i, 4, 5);
    AfterPrefix(h, i, 3, 4);
    AfterPrefix(h, i, 2, 3);
    AfterPrefix(h, i, 1, 2);
    var a5 := After(h, i, 5);
    var a4 := After(h, i, 4);
    var a3 := After(h, i, 3);
    var a2 := After(h, i, 2);
    var a1 := After(h, i, 1);
    Captures(h[i..a1.value], h[a2.value..a3.value], h[a4.value..a5.value])
  }

  predicate MatchesAtU(h: seq<Byte>, i: nat) {
    LineStart(h, i) && After(h, i, 12).Some?
  }

  function FindFromU(h: seq<Byte>, i: nat): (r: Option<nat>)
    ensures r.Some? ==> i <= r.value && MatchesAtU(h, r.value)
    ensures r.Some? ==> forall j: nat :: i <= j < r.value ==> !MatchesAtU(h, j)
    ensures r.None? ==> forall j: nat :: i <= j <= |h| ==> !MatchesAtU(h, j)
    decreases |h| - i
  {
    if |h| < i then None
    else if MatchesAtU(h, i) then Some(i)
    else FindFromU(h, i + 1)
  }

  /** `RE.captures(&head_buf)` with Unicode digits: the bytes of `yyyy`, `MM`
      and `dd` of the leftmost match. */
  function CapturesOfU(h: seq<Byte>): Option<Captures> {
    match FindFromU(h, 0)
    case None => None
    case Some(k) =>
      Some(CapturesAt(h, k))
  }

  /** `VRCLogfile::new` as written: the classifier of `Logfile` with the
      Unicode reading of the pattern. A captured group with a non-ASCII digit
      is valid UTF-8 but not an `i32`/`u32`, so its `expect("digits")` panics. */
  function ClassifyAsWritten(n: Nodes, f: Faults, path: Path): Outcome<Option<LogRecord>> {
    match ReadHead(n, f, path)
    case Err(e) => Returned(Err(e))
    case Ok(head) => FromCaptures(path, CapturesOfU(head))
  }

  /** On ASCII text the Unicode reading of `\d{count}` is the ASCII one. */
  lemma {:induction false} DigitsEndAscii(h: seq<Byte>, i: nat, count: nat)
    requires forall j :: 0 <= j < |h| ==> h[j] < 128
    requires i <= |h|
    ensures DigitsEnd(h, i, count) == if i + count <= |h| && DigitsAt(h, i, count) then Some(i + count) else None
    decreases count
  {
    if count > 0 {
      if i < |h| && IsDigitByte(h[i]) {
        assert DigitWidth(h, i) == 1;
        DigitsEndAscii(h, i + 1, count - 1);
        if i + count <= |h| {
          assert DigitsAt(h, i, count) <==> DigitsAt(h, i + 1, count - 1);
        }
      } else {
        assert i < |h| ==> h[i] < 128;
        assert DigitWidth(h, i) == 0;
        if i + count <= |h| {
          assert !IsDigitByte(h[i]);
        }
      }
    }
  }

  /** The `k`-th element read as ASCII at `h[j..]`. */
  predicate ElementAt(h: seq<Byte>, j: nat, k: nat)
    requires k < 12
  {
    j + Width(k) <= |h| &&
    if k == 0 then DigitsAt(h, j, 4)
    else if k % 2 == 0 then DigitsAt(h, j, 2)
    else h[j] == Literal(k)
  }

  /** The first `k` elements all read as ASCII at their fixed offsets from `i`. */
  predicate PrefixAt(h: seq<Byte>, i: nat, k: nat)
    requires k <= 12
  {
    k == 0 || (PrefixAt(h, i, k - 1) && ElementAt(h, i + Offset(k - 1), k - 1))
  }

  /** On ASCII text one element matches exactly where it reads as ASCII. */
  lemma ElementAscii(h: seq<Byte>, j: nat, k: nat)
    requires forall j :: 0 <= j < |h| ==> h[j] < 128
    requires j <= |h| && k < 12
    ensures Element(h, Some(j), k) == if ElementAt(h, j, k) then Some(j + Width(k)) else None
  {
    if k == 0 {
      DigitsEndAscii(h, j, 4);
    } else if k % 2 == 0 {
      DigitsEndAscii(h, j, 2);
    }
  }

  /** One more element: if the first `k - 1` elements end at `j` exactly when
      they read as ASCII, the first `k` end one element width further. */
  lemma AfterAsciiStep(h: seq<Byte>, i: nat, k: nat, j: nat)
    requires forall j :: 0 <= j < |h| ==> h[j] < 128
    requires i <= |h| && 0 < k <= 12 && j == i + Offset(k - 1)
    requires After(h, i, k - 1) == if PrefixAt(h, i, k - 1) then Some(j) else None
    ensures After(h, i, k) == if PrefixAt(h, i, k) then Some(j + Width(k - 1)) else None
  {
    if PrefixAt(h, i, k - 1) {
      assert j <= |h|;
      ElementAscii(h, j, k - 1);
    }
  }

  /** On ASCII text the first `k` elements match exactly where they read as
      ASCII, ending at their fixed offset. */
  lemma {:induction false} AfterAscii(h: seq<Byte>, i: nat, k: nat)
    requires forall j :: 0 <= j < |h| ==> h[j] < 128
    requires i <= |h| && k <= 12
    ensures After(h, i, k) == if PrefixAt(h, i, k) then Some(i + Offset(k)) else None
    decreases k
  {
    if k > 0 {
      AfterAscii(h, i, k - 1);
      AfterAsciiStep(h, i, k, i + Offset(k - 1));
    }
  }

  /** All twelve elements read as ASCII at their offsets is the twenty-byte pattern. */
  lemma ElementsArePattern(h: seq<Byte>, i: nat)
    ensures PrefixAt(h, i, 12) <==> i + PATTERN_LEN <= |h| && PatternAt(h, i)
  {
    OffsetValues();
    assert PrefixAt(h, i, 12) <==> PrefixAt(h, i, 10) && ElementAt(h, i + 17, 10) && ElementAt(h, i + 19, 11);
    assert PrefixAt(h, i, 10) <==> PrefixAt(h, i, 8) && ElementAt(h, i + 14, 8) && ElementAt(h, i + 16, 9);
    assert PrefixAt(h, i, 8) <==> PrefixAt(h, i, 6) && ElementAt(h, i + 11, 6) && ElementAt(h, i + 13, 7);
    assert PrefixAt(h, i, 6) <==> PrefixAt(h, i, 4) && ElementAt(h, i + 8, 4) && ElementAt(h, i + 10, 5);
    assert PrefixAt(h, i, 4) <==> PrefixAt(h, i, 2) && ElementAt(h, i + 5, 2) && ElementAt(h, i + 7, 3);
    assert PrefixAt(h, i, 2) <==> PrefixAt(h, i, 1) && ElementAt(h, i + 4, 1);
    assert PrefixAt(h, i, 1) <==> ElementAt(h, i, 0);
  }

  /** On ASCII text the Unicode reading of the pattern matches at the same
      offsets as the ASCII one. */
  lemma AgreesOnAscii(h: seq<Byte>, i: nat)
    requires forall j :: 0 <= j < |h| ==> h[j] < 128
    ensures MatchesAtU(h, i) <==> MatchesAt(h, i)
  {
    if i <= |h| {
      AfterAscii(h, i, 12);
      ElementsArePattern(h, i);
    }
  }

  /** On ASCII text the Unicode reading finds the same leftmost match. */
  lemma FindAgreesOnAscii(h: seq<Byte>)
    requires forall j :: 0 <= j < |h| ==> h[j] < 128
    ensures FindFromU(h, 0) == FindMatch(h)
  {
    var u := FindFromU(h, 0);
    var a := FindMatch(h);
    if a.Some? {
      AgreesOnAscii(h, a.value);
      assert a.value <= |h|;
      AgreesOnAscii(h, u.value);
    } else if u.Some? {
      AgreesOnAscii(h, u.value);
    }
  }

  /** On ASCII text the Unicode reading captures the same groups. */
  lemma CapturesAgreeOnAscii(h: seq<Byte>)
    requires forall j :: 0 <= j < |h| ==> h[j] < 128
    ensures CapturesOfU(h) == CapturesOf(h)
  {
    FindAgreesOnAscii(h);
    var r := FindMatch(h);
    if r.Some? {
      var k := r.value;
      assert k <= |h|;
      AfterPrefix(h, k, 5, 12);
      AfterAscii(h, k, 5);
      AfterAscii(h, k, 4);
      AfterAscii(h, k, 3);
      AfterAscii(h, k, 2);
      AfterAscii(h, k, 1);
      AfterPrefix(h, k, 4, 5);
      AfterPrefix(h, k, 3, 4);
      AfterPrefix(h, k, 2, 3);
      AfterPrefix(h, k, 1, 2);
    }
  }

  /** The classifier as written and the model's classifier agree on every file
      whose first thirty bytes are ASCII: the two readings of `\d` differ only
      on non-ASCII headers. */
  lemma ClassifyAgreesOnAscii(n: Nodes, f: Faults, path: Path)
    requires ReadHead(n, f, path).Ok? ==> forall j :: 0 <= j < HEADER_LEN ==> ReadHead(n, f, path).value[j] < 128
    ensures ClassifyAsWritten(n, f, path) == Classify(n, f, path)
  {
    var head := ReadHead(n, f, path);
    if head.Ok? {
      CapturesAgreeOnAscii(head.value);
    }
  }

  /** ASCII digits are digits of the Unicode reading too. */
  lemma {:induction false} DigitsEndOnDigits(h: seq<Byte>, i: nat, count: nat)
    requires i + count <= |h| && DigitsAt(h, i, count)
    ensures DigitsEnd(h, i, count) == Some(i + count)
    decreases count
  {
    if count > 0 {
      assert IsDigitByte(h[i]);
      DigitsEndOnDigits(h, i + 1, count - 1);
    }
  }

  /** A year group that opens with an Arabic-Indic digit (two bytes) and goes on
      with three ASCII digits, followed by the rest of the pattern in ASCII. */
  predicate ArabicIndicLead(h: seq<Byte>) {
    21 <= |h| && h[0] == 0xD9 && 0xA0 <= h[1] <= 0xA9 && DigitsAt(h, 2, 3)
    && h[5] == DOT && DigitsAt(h, 6, 2) && h[8] == DOT && DigitsAt(h, 9, 2) && h[11] == SPACE
    && DigitsAt(h, 12, 2) && h[14] == COLON && DigitsAt(h, 15, 2) && h[17] == COLON
    && DigitsAt(h, 18, 2) && h[20] == SPACE
  }

  /** The Unicode reading matches such a header at offset 0, the year group
      being its first five bytes, which are not ASCII and so do not parse. */
  lemma ArabicIndicMatches(h: seq<Byte>)
    requires ArabicIndicLead(h)
    ensures CapturesOfU(h).Some? && CapturesOfU(h).value.year == h[..5]
    ensures ParseGroup(CapturesOfU(h).value.year) == None
  {
    assert DigitWidth(h, 0) == 2;
    DigitsEndOnDigits(h, 2, 3);
    assert After(h, 0, 1) == Some(5);
    assert After(h, 0, 2) == Some(6);
    DigitsEndOnDigits(h, 6, 2);
    assert After(h, 0, 3) == Some(8);
    assert After(h, 0, 4) == Some(9);
    DigitsEndOnDigits(h, 9, 2);
    assert After(h, 0, 5) == Some(11);
    assert After(h, 0, 6) == Some(12);
    DigitsEndOnDigits(h, 12, 2);
    assert After(h, 0, 7) == Some(14);
    assert After(h, 0, 8) == Some(15);
    DigitsEndOnDigits(h, 15, 2);
    assert After(h, 0, 9) == Some(17);
    assert After(h, 0, 10) == Some(18);
    DigitsEndOnDigits(h, 18, 2);
    assert After(h, 0, 11) == Some(20);
    assert After(h, 0, 12) == Some(21);
    assert FindFromU(h, 0) == Some(0);
    assert h[..5][0] >= 128;
  }

  /** The ASCII reading finds no match in such a header when it holds no line
      break: its first byte is not an ASCII digit and no line starts after it. */
  lemma ArabicIndicNoAsciiMatch(h: seq<Byte>)
    requires ArabicIndicLead(h) && forall j :: 0 <= j < |h| ==> h[j] != NEW_LINE
    ensures FindMatch(h) == None
  {
    forall j: nat ensures !MatchesAt(h, j) {
      if 0 < j <= |h| {
        assert h[j - 1] != NEW_LINE;
      }
    }
  }

  /** Such a file makes the classifier as written panic in `expect("digits")`:
      the Unicode `\d` lets the match through with the two-byte digit in the
      year group, and `parse::<i32>` refuses it. The model's classifier reports
      the file as no log at all. */
  lemma ArabicIndicYearPanics(n: Nodes, f: Faults, path: Path)
    requires path in n && path !in f && n[path].File? && |n[path].content| >= HEADER_LEN
    requires var h := n[path].content[..HEADER_LEN];
      ArabicIndicLead(h) && forall j :: 0 <= j < HEADER_LEN ==> h[j] != NEW_LINE
    ensures ClassifyAsWritten(n, f, path) == Panicked(DigitsExpected)
    ensures Classify(n, f, path) == Returned(Ok(None))
  {
    var h := n[path].content[..HEADER_LEN];
    assert ReadHead(n, f, path) == Ok(h);
    ArabicIndicMatches(h);
    ArabicIndicNoAsciiMatch(h);
  }

  /** `٢024.03.07 12:34:56 Starting ` (U+0662 ARABIC-INDIC DIGIT TWO, then ASCII). */
  const ARABIC_INDIC_HEADER: seq<Byte> :=
    [0xD9, 0xA2, 48, 50, 52, DOT, 48, 51, DOT, 48, 55, SPACE, 49, 50, COLON, 51, 52, COLON, 53, 54, SPACE,
     83, 116, 97, 114, 116, 105, 110, 103, SPACE]

  lemma ArabicIndicExampleLead()
    ensures ArabicIndicLead(ARABIC_INDIC_HEADER)
  {
    var h := ARABIC_INDIC_HEADER;
    assert |h| == 30 && h[0] == 0xD9 && h[1] == 0xA2;
    ArabicIndicExampleDate();
    ArabicIndicExampleTime();
  }

  lemma ArabicIndicExampleDate()
    ensures var h := ARABIC_INDIC_HEADER;
      DigitsAt(h, 2, 3) && h[5] == DOT && DigitsAt(h, 6, 2) && h[8] == DOT && DigitsAt(h, 9, 2) && h[11] == SPACE
  {
    var h := ARABIC_INDIC_HEADER;
    assert IsDigitByte(h[2]) && IsDigitByte(h[3]) && IsDigitByte(h[4]);
    assert IsDigitByte(h[6]) && IsDigitByte(h[7]) && IsDigitByte(h[9]) && IsDigitByte(h[10]);
  }

  lemma ArabicIndicExampleTime()
    ensures var h := ARABIC_INDIC_HEADER;
      DigitsAt(h, 12, 2) && h[14] == COLON && DigitsAt(h, 15, 2) && h[17] == COLON && DigitsAt(h, 18, 2) && h[20] == SPACE
  {
    var h := ARABIC_INDIC_HEADER;
    assert IsDigitByte(h[12]) && IsDigitByte(h[13]) && IsDigitByte(h[15]) && IsDigitByte(h[16]);
    assert IsDigitByte(h[18]) && IsDigitByte(h[19]);
  }

  /** The header above is one: a file that begins with it crashes the worker. */
  lemma ArabicIndicExample()
    ensures |ARABIC_INDIC_HEADER| == HEADER_LEN && ArabicIndicLead(ARABIC_INDIC_HEADER)
    ensures forall j :: 0 <= j < HEADER_LEN ==> ARABIC_INDIC_HEADER[j] != NEW_LINE
  {
    ArabicIndicExampleLead();
  }
}
