/** `VRCLogfile::new`: a log file's date, read from its first header line. */
module Logfile {
  import opened Types
  import opened FileSystem
  import opened Header
  import opened Calendar

  /** `VRCLogfile`: a source file whose date was confirmed from its content. */
  datatype LogRecord = LogRecord(path: Path, date: Date)

  /** Opening `path` read-only and `read_exact` of its first thirty bytes: a
      missing entry, a refused open, a directory, or a file shorter than thirty
      bytes is an I/O error. */
  function ReadHead(n: Nodes, f: Faults, path: Path): Result<seq<Byte>> {
    if path !in n then Err(NotFound)
    else if path in f then Err(f[path])
    else
      match n[path]
      case Dir => Err(PermissionDenied)
      case File(_, content) =>
        if |content| < HEADER_LEN then Err(UnexpectedEof) else Ok(content[..HEADER_LEN])
  }

  /** `VRCLogfile::new(path)`: an I/O error, "no record" when no line of the
      header matches, or the record dated by the leftmost match. A match naming
      a date that does not exist makes `NaiveDate::from_ymd` panic. */
  function Classify(n: Nodes, f: Faults, path: Path): Outcome<Option<LogRecord>> {
    match ReadHead(n, f, path)
    case Err(e) => Returned(Err(e))
    case Ok(head) => FromCaptures(path, CapturesOf(head))
  }

  /** What the classifier makes of the groups the pattern captured, if it
      matched: each group is parsed (`expect("digits")` panics when one does
      not parse), then dated (`from_ymd` panics on a date that does not exist). */
  function FromCaptures(path: Path, caps: Option<Captures>): Outcome<Option<LogRecord>> {
    match caps
    case None => Returned(Ok(None))
    case Some(c) =>
      match (ParseGroup(c.year), ParseGroup(c.month), ParseGroup(c.day))
      case (Some(y), Some(m), Some(d)) =>
        if IsValid(y, m, d) then Returned(Ok(Some(LogRecord(path, Date(y, m, d)))))
        else Panicked(InvalidDate(y, m, d))
      case _ => Panicked(DigitsExpected)
  }

  /** A file shorter than thirty bytes is an I/O error, not "no record". */
  lemma ShortFileFails(n: Nodes, f: Faults, path: Path)
    requires path in n && path !in f && n[path].File? && |n[path].content| < HEADER_LEN
    ensures Classify(n, f, path) == Returned(Err(UnexpectedEof))
  {
  }

  /** The classifier fails with an I/O error exactly when the header cannot be
      read, answers "no record" exactly when a readable header has no matching
      line, and otherwise yields a record or panics. */
  lemma ClassifyOutcomes(n: Nodes, f: Faults, path: Path)
    ensures Classify(n, f, path).Returned? && Classify(n, f, path).result.Err?
      <==> ReadHead(n, f, path).Err?
    ensures Classify(n, f, path) == Returned(Ok(None))
      <==> ReadHead(n, f, path).Ok? && FindMatch(ReadHead(n, f, path).value).None?
    ensures (Classify(n, f, path).Returned? && Classify(n, f, path).result.Ok?
      && Classify(n, f, path).result.value.Some?) ==> Classify(n, f, path).result.value.value.path == path
  {
  }

  /** A record is dated by the leftmost line of the header that matches: that
      line starts at offset 10 at the latest, and the year, month and day are
      the decimal values of its 4, 2 and 2 leading digits, which name a real date. */
  lemma RecordDate(n: Nodes, f: Faults, path: Path)
    requires Classify(n, f, path).Returned? && Classify(n, f, path).result.Ok?
    requires Classify(n, f, path).result.value.Some?
    ensures var h := ReadHead(n, f, path).value; var k := FindMatch(h).value;
      var date := Classify(n, f, path).result.value.value.date;
      |h| == HEADER_LEN && k <= HEADER_LEN - PATTERN_LEN && MatchesAt(h, k)
      && (forall j: nat :: j < k ==> !MatchesAt(h, j))
      && date.year == 1000 * DigitOf(h[k]) + 100 * DigitOf(h[k + 1]) + 10 * DigitOf(h[k + 2]) + DigitOf(h[k + 3])
      && date.month == 10 * DigitOf(h[k + 5]) + DigitOf(h[k + 6])
      && date.day == 10 * DigitOf(h[k + 8]) + DigitOf(h[k + 9])
      && IsValid(date.year, date.month, date.day)
  {
    CapturedValues(ReadHead(n, f, path).value);
  }

  /** The captured groups always parse, so the classifier never reaches its
      `expect("digits")` panic; the only panic left is an impossible date. */
  lemma NeverDigitsPanic(n: Nodes, f: Faults, path: Path)
    ensures Classify(n, f, path) != Panicked(DigitsExpected)
    ensures Classify(n, f, path).Panicked? ==> Classify(n, f, path).reason.InvalidDate?
  {
    var head := ReadHead(n, f, path);
    if head.Ok? && CapturesOf(head.value).Some? {
      CapturedValues(head.value);
    }
  }

  /** A file whose first line the game wrote for a real date is a record of
      that date, whatever the rest of the file holds. */
  lemma ClassifyGameHeader(n: Nodes, f: Faults, path: Path, date: Date, hh: nat, mm: nat, ss: nat, rest: seq<Byte>)
    requires date.year < 10000 && hh < 100 && mm < 100 && ss < 100
    requires IsValid(date.year, date.month, date.day)
    requires |rest| >= HEADER_LEN - PATTERN_LEN
    requires path in n && path !in f && n[path].File?
    requires n[path].content == HeaderLine(date.year, date.month, date.day, hh, mm, ss) + rest
    ensures Classify(n, f, path) == Returned(Ok(Some(LogRecord(path, date))))
  {
    var line := HeaderLine(date.year, date.month, date.day, hh, mm, ss);
    var tail := rest[..HEADER_LEN - PATTERN_LEN];
    HeaderLineRoundTrip(date.year, date.month, date.day, hh, mm, ss, tail);
    var head := line + tail;
    assert ReadHead(n, f, path) == Ok(head) by {
      assert |line| == PATTERN_LEN by {
        PadBytesDigits(date.year, 4);
        PadBytesDigits(date.month, 2);
        PadBytesDigits(date.day, 2);
        PadBytesDigits(hh, 2); PadBytesDigits(mm, 2); PadBytesDigits(ss, 2);
      }
      assert (line + rest)[..HEADER_LEN] == head;
    }
    var c := CapturesOf(head).value;
    assert ParseGroup(c.year) == Some(date.year);
    assert ParseGroup(c.month) == Some(date.month);
    assert ParseGroup(c.day) == Some(date.day);
  }

  /** Classification reads nothing but the entry at its path. */
  lemma ClassifyReadsOnlyItsEntry(n: Nodes, m: Nodes, f: Faults, path: Path)
    requires path in n && path in m && m[path] == n[path]
    ensures Classify(m, f, path) == Classify(n, f, path)
  {
  }
}
