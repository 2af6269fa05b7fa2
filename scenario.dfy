/** One step over a watched directory holding a dated log file and an unrelated
    text file, and a second step over the same directory. */
module Scenario {
  import opened Types
  import opened Calendar
  import opened FileSystem
  import opened Scanner
  import opened Header
  import opened Logfile
  import opened Collection
  import opened Engine

  const LOG_NAME: string := "output_log_24-03-07.txt"
  const OTHER_NAME: string := "notalog.txt"

  /** The listing: both entries are regular files with Unicode names. */
  function ScenarioListing(): Listing {
    Ok([Ok(DirEntry(LOG_NAME, true, Ok(RegularFile))), Ok(DirEntry(OTHER_NAME, true, Ok(RegularFile)))])
  }

  lemma ScenarioCandidates(watched: Path)
    ensures ListLogfilePaths(watched, ScenarioListing()) == Ok([watched + [LOG_NAME]])
  {
    assert LOG_NAME == LogfileName("24", "03", "07");
    LogfileNameAccepted("24", "03", "07");
    assert |OTHER_NAME| == 11;
    var first := Ok(DirEntry(LOG_NAME, true, Ok(RegularFile)));
    var second := Ok(DirEntry(OTHER_NAME, true, Ok(RegularFile)));
    assert EntryCandidate(watched, first) == Ok(Some(watched + [LOG_NAME]));
    assert EntryCandidate(watched, second) == Ok(None);
    var entries := [first, second];
    assert entries[1..] == [second] && [second][1..] == [];
    var none: seq<Path> := [];
    assert CollectCandidates(watched, []) == Ok(none);
    assert [second][0] == second;
    assert CollectCandidates(watched, [second]) == Ok(none + none);
    assert none + none == none;
    assert [watched + [LOG_NAME]] + none == [watched + [LOG_NAME]];
    assert CollectCandidates(watched, entries) == Ok([watched + [LOG_NAME]]);
  }

  /** Creating `<root>/2024-03/07` over an existing `root` adds exactly the two
      partition directories. */
  lemma ScenarioDirs(n: Nodes, f: Faults, root: Path)
    requires forall j :: 0 < j <= |root| ==> root[..j] in n && n[root[..j]] == Dir
    requires var month := root + ["2024-03"];
      month !in n && month + ["07"] !in n && month !in f && month + ["07"] !in f
    ensures var month := root + ["2024-03"];
      CreateDirAllEffect(n, f, month + ["07"]) == FsEffect(Ok(()), n[month := Dir][month + ["07"] := Dir])
  {
    var month := root + ["2024-03"];
    var day := month + ["07"];
    assert forall j :: 0 < j <= |root| ==> day[..j] == root[..j];
    CreateDirAllSkipsDirs(n, f, day, 0, |root|);
    assert day[..|root| + 1] == month && day[..|root| + 2] == day;
    var n1 := n[month := Dir];
    assert CreateDirAllFrom(n, f, day, |root|) == CreateDirAllFrom(n1, f, day, |root| + 1);
    var n2 := n1[day := Dir];
    assert CreateDirAllFrom(n1, f, day, |root| + 1) == CreateDirAllFrom(n2, f, day, |root| + 2);
  }

  lemma ScenarioLink(n: Nodes, f: Faults, root: Path, log: LogRecord)
    requires log.date == Date(2024, 3, 7) && FileName(log.path) == Some(LOG_NAME)
    requires forall j :: 0 < j <= |root| ==> root[..j] in n && n[root[..j]] == Dir
    requires log.path in n && n[log.path].File?
    requires var month := root + ["2024-03"]; var dest := root + ["2024-03", "07", LOG_NAME];
      month !in n && month + ["07"] !in n && dest !in n && month !in f && month + ["07"] !in f && dest !in f
    ensures var month := root + ["2024-03"];
      CreateLinkEffect(n, f, root, log)
        == Effect(Returned(Ok(())), n[month := Dir][month + ["07"] := Dir][month + ["07", LOG_NAME] := n[log.path]])
  {
    var month := root + ["2024-03"];
    var day := month + ["07"];
    var dest := day + [LOG_NAME];
    assert root + ["2024-03", "07", LOG_NAME] == dest && month + ["07", LOG_NAME] == dest;
    PartitionExample(root);
    var dir := PartitionFolderPath(root, log.date);
    assert dir == day;
    ScenarioDirs(n, f, root);
    var n2 := n[month := Dir][day := Dir];
    assert CreateDirAllEffect(n, f, dir) == FsEffect(Ok(()), n2);
    assert dir + [LOG_NAME] == dest;
    assert dest[..|dest| - 1] == day;
    assert log.path != month && log.path != day;
    assert log.path in n2 && n2[log.path] == n[log.path];
    assert |dest| > |day| > |month|;
    assert dest != month && dest != day;
    assert dest !in n2;
    assert ParentIsDir(n2, dest);
    assert HardLinkEffect(n2, f, log.path, dest) == FsEffect(Ok(()), n2[dest := n[log.path]]);
  }

  /** The step over the scenario's listing is the link of its one dated log file. */
  lemma ScenarioFirstStep(n: Nodes, f: Faults, u: Unrotate, inode: nat, rest: seq<Byte>)
    requires var src := u.watched + [LOG_NAME];
      src in n && src !in f && |rest| >= HEADER_LEN - PATTERN_LEN
      && n[src] == File(inode, HeaderLine(2024, 3, 7, 0, 0, 1) + rest)
    ensures var src := u.watched + [LOG_NAME];
      StepEffect(n, f, u, ScenarioListing()) == CreateLinkEffect(n, f, u.collection, LogRecord(src, Date(2024, 3, 7)))
  {
    var src := u.watched + [LOG_NAME];
    ScenarioCandidates(u.watched);
    var date := Date(2024, 3, 7);
    assert IsValid(2024, 3, 7);
    ClassifyGameHeader(n, f, src, date, 0, 0, 1, rest);
    var e := CreateLinkEffect(n, f, u.collection, LogRecord(src, date));
    assert ProcessOne(n, f, u.collection, src) == e;
    assert [src][0] == src && [src][1..] == [];
    assert ProcessAll(n, f, u.collection, [src]) == e;
  }

  /** One step links the dated log file, and only it, into `<root>/2024-03/07/`,
      creating the two partition directories; `notalog.txt` is ignored. A second
      step over the same directory reports no error and changes nothing. */
  lemma EndToEnd(locallow: Path, n: Nodes, f: Faults, inode: nat, rest: seq<Byte>)
    requires var u := New(Some(locallow)).value;
      forall j :: 0 < j <= |u.collection| ==> u.collection[..j] in n && n[u.collection[..j]] == Dir
    requires var u := New(Some(locallow)).value; var src := u.watched + [LOG_NAME];
      src in n && src !in f && |rest| >= HEADER_LEN - PATTERN_LEN
      && n[src] == File(inode, HeaderLine(2024, 3, 7, 0, 0, 1) + rest)
    requires var root := New(Some(locallow)).value.collection; var month := root + ["2024-03"];
      var dest := root + ["2024-03", "07", LOG_NAME];
      month !in n && month + ["07"] !in n && dest !in n && month !in f && month + ["07"] !in f && dest !in f
    ensures var u := New(Some(locallow)).value; var month := u.collection + ["2024-03"];
      var src := u.watched + [LOG_NAME];
      var linked := n[month := Dir][month + ["07"] := Dir][month + ["07", LOG_NAME] := n[src]];
      StepEffect(n, f, u, ScenarioListing()) == Effect(Returned(Ok(())), linked)
      && StepEffect(linked, f, u, ScenarioListing()) == Effect(Returned(Ok(())), linked)
  {
    var u := New(Some(locallow)).value;
    var src := u.watched + [LOG_NAME];
    var log := LogRecord(src, Date(2024, 3, 7));
    ScenarioFirstStep(n, f, u, inode, rest);
    ScenarioLink(n, f, u.collection, log);
    StepIdempotent(n, f, u, ScenarioListing());
  }
}
