/** `UnrotateCollection`: the date-partitioned tree of hard links. */
module Collection {
  import opened Types
  import opened Decimal
  import opened Calendar
  import opened FileSystem
  import opened Logfile

  const VENDOR_NAME: string := "KOBA789"
  const APP_NAME: string := "VRCLogUnrotate"

  /** `UnrotateCollection::with_locallow_path`: the root of the collection. */
  function CollectionPath(locallow: Path): Path {
    locallow + [VENDOR_NAME, APP_NAME, "Logs"]
  }

  /** `partition_folder_path`: `root / "{:04}-{:02}" / "{:02}"` of the date. */
  function PartitionFolderPath(root: Path, date: Date): Path {
    root + [Pad(date.year, 4) + "-" + Pad(date.month, 2), Pad(date.day, 2)]
  }

  /** Reads a partition directory's date back from its two components under `root`. */
  function PartitionDate(root: Path, dir: Path): Option<Date> {
    if |dir| != |root| + 2 || dir[..|root|] != root then None
    else
      var month := dir[|root|];
      if |month| != 7 || month[4] != '-' then None
      else
        match (ParseDecimal(month[..4]), ParseDecimal(month[5..]), ParseDecimal(dir[|root| + 1]))
        case (Some(y), Some(m), Some(d)) => Some(Date(y, m, d))
        case _ => None
  }

  /** The partition directory is a function of the date alone, and the date can
      be read back from it: `root/YYYY-MM/DD`, four and two and two digits. */
  lemma PartitionRoundTrip(root: Path, date: Date)
    requires date.year < 10000 && date.month < 100 && date.day < 100
    ensures |PartitionFolderPath(root, date)| == |root| + 2
    ensures |PartitionFolderPath(root, date)[|root|]| == 7 && |PartitionFolderPath(root, date)[|root| + 1]| == 2
    ensures PartitionDate(root, PartitionFolderPath(root, date)) == Some(date)
  {
    assert Pow10(2) == 100 && Pow10(4) == 10000;
    PadRoundTrip(date.year, 4); PadWidth(date.year, 4);
    PadRoundTrip(date.month, 2); PadWidth(date.month, 2);
    PadRoundTrip(date.day, 2); PadWidth(date.day, 2);
    var dir := PartitionFolderPath(root, date);
    var month := dir[|root|];
    assert month[..4] == Pad(date.year, 4);
    assert month[5..] == Pad(date.month, 2);
    assert dir[..|root|] == root;
  }

  /** Different dates go to different partition directories. */
  lemma PartitionInjective(root: Path, d1: Date, d2: Date)
    requires d1.year < 10000 && d1.month < 100 && d1.day < 100
    requires d2.year < 10000 && d2.month < 100 && d2.day < 100
    requires d1 != d2
    ensures PartitionFolderPath(root, d1) != PartitionFolderPath(root, d2)
  {
    PartitionRoundTrip(root, d1);
    PartitionRoundTrip(root, d2);
  }

  /** 2024-03-07 is filed under `root/2024-03/07`. */
  lemma PartitionExample(root: Path)
    ensures PartitionFolderPath(root, Date(2024, 3, 7)) == root + ["2024-03", "07"]
  {
    assert Pad(2024, 4) == "2024" by {
      assert Pad(2, 1) == "2";
      assert Pad(20, 2) == "20";
      assert Pad(202, 3) == "202";
    }
    assert Pad(3, 2) == "03" by {
      assert Pad(0, 1) == "0";
    }
    assert Pad(7, 2) == "07" by {
      assert Pad(0, 1) == "0";
    }
    assert Pad(2024, 4) + "-" + Pad(3, 2) == "2024-03";
  }

  /** `Path::file_name`: the last component, unless the path is empty or ends in `..`. */
  function FileName(p: Path): Option<string> {
    if p == [] || p[|p| - 1] == ".." then None else Some(p[|p| - 1])
  }

  /** Where a record's link goes: its partition directory and its own file name. */
  function LinkPath(root: Path, log: LogRecord): Path
    requires FileName(log.path).Some?
  {
    PartitionFolderPath(root, log.date) + [FileName(log.path).value]
  }

  /** What an operation of the program returns, with the entries afterwards. */
  datatype Effect = Effect(outcome: Outcome<()>, nodes: Nodes)

  /** `create_link`: make the partition directory and its ancestors, then link
      the source under its own name there; a destination that already exists
      counts as success, every other failure is passed on. */
  function CreateLinkEffect(n: Nodes, f: Faults, root: Path, log: LogRecord): Effect {
    var dir := PartitionFolderPath(root, log.date);
    var made := CreateDirAllEffect(n, f, dir);
    if made.result.Err? then Effect(Returned(made.result), made.nodes)
    else
      match FileName(log.path)
      case None => Effect(Panicked(NoFileName), made.nodes)
      case Some(name) =>
        var linked := HardLinkEffect(made.nodes, f, log.path, dir + [name]);
        if linked.result == Err(AlreadyExists) then Effect(Returned(Ok(())), linked.nodes)
        else Effect(Returned(linked.result), linked.nodes)
  }

  /** The store only grows: nothing is removed or overwritten (the source entry
      included), and what is added is the partition directory, its missing
      ancestors, and the one link to the source file. */
  lemma CreateLinkAdditive(n: Nodes, f: Faults, root: Path, log: LogRecord)
    ensures var e := CreateLinkEffect(n, f, root, log);
      Extends(n, e.nodes)
      && forall q :: q in e.nodes && q !in n ==>
        (0 < |q| && q <= PartitionFolderPath(root, log.date) && e.nodes[q] == Dir)
        || (FileName(log.path).Some? && q == LinkPath(root, log) && log.path in n && e.nodes[q] == n[log.path])
  {
    var dir := PartitionFolderPath(root, log.date);
    var made := CreateDirAllEffect(n, f, dir);
    CreateDirAllAddsPrefixes(n, f, dir, 0);
    if made.result.Ok? && FileName(log.path).Some? {
      var dst := LinkPath(root, log);
      var linked := HardLinkEffect(made.nodes, f, log.path, dst);
      if log.path in made.nodes && log.path !in n {
        assert made.nodes[log.path] == Dir;
      }
    }
  }

  /** After success the destination exists and the whole partition directory
      does; a destination the call created is the source file itself. */
  lemma CreateLinkEstablishes(n: Nodes, f: Faults, root: Path, log: LogRecord)
    requires CreateLinkEffect(n, f, root, log).outcome == Returned(Ok(()))
    ensures var e := CreateLinkEffect(n, f, root, log); var dir := PartitionFolderPath(root, log.date);
      FileName(log.path).Some? && LinkPath(root, log) in e.nodes
      && (forall j :: 0 < j <= |dir| ==> dir[..j] in e.nodes && e.nodes[dir[..j]] == Dir)
      && (LinkPath(root, log) !in n ==> log.path in n && e.nodes[LinkPath(root, log)] == n[log.path])
  {
    var dir := PartitionFolderPath(root, log.date);
    var made := CreateDirAllEffect(n, f, dir);
    CreateDirAllAddsPrefixes(n, f, dir, 0);
    CreateDirAllMakesPrefixes(n, f, dir, 0);
    var dst := LinkPath(root, log);
    if dst !in n {
      assert |dst| > |dir|;
      assert dst !in made.nodes;
    }
  }

  /** Once the partition directory exists and holds the destination, linking
      is a no-op that succeeds. */
  lemma CreateLinkNoopWhenLinked(n: Nodes, f: Faults, root: Path, log: LogRecord)
    requires FileName(log.path).Some? && LinkPath(root, log) in n
    requires var dir := PartitionFolderPath(root, log.date);
      forall j :: 0 < j <= |dir| ==> dir[..j] in n && n[dir[..j]] == Dir
    requires log.path in n && n[log.path].File?
    ensures CreateLinkEffect(n, f, root, log) == Effect(Returned(Ok(())), n)
  {
    CreateDirAllExisting(n, f, PartitionFolderPath(root, log.date));
  }

  /** Linking the same record twice: the second call succeeds and changes nothing. */
  lemma CreateLinkIdempotent(n: Nodes, f: Faults, root: Path, log: LogRecord)
    requires CreateLinkEffect(n, f, root, log).outcome == Returned(Ok(()))
    ensures var m := CreateLinkEffect(n, f, root, log).nodes;
      CreateLinkEffect(m, f, root, log) == Effect(Returned(Ok(())), m)
  {
    CreateLinkEstablishes(n, f, root, log);
    CreateLinkAdditive(n, f, root, log);
    var m := CreateLinkEffect(n, f, root, log).nodes;
    var made := CreateDirAllEffect(n, f, PartitionFolderPath(root, log.date));
    assert log.path in made.nodes && made.nodes[log.path].File?;
    CreateLinkNoopWhenLinked(m, f, root, log);
  }

  /** An `AlreadyExists` from `hard_link` becomes success with nothing changed;
      every other link failure is returned as it is; an `AlreadyExists` that does
      escape comes from a non-directory standing where a partition directory
      belongs. */
  lemma CreateLinkErrors(n: Nodes, f: Faults, root: Path, log: LogRecord)
    ensures var made := CreateDirAllEffect(n, f, PartitionFolderPath(root, log.date));
      made.result.Ok? && FileName(log.path).Some? ==>
        var linked := HardLinkEffect(made.nodes, f, log.path, LinkPath(root, log));
        (linked.result == Err(AlreadyExists) ==> CreateLinkEffect(n, f, root, log) == Effect(Returned(Ok(())), made.nodes))
        && (linked.result.Err? && linked.result.error != AlreadyExists ==>
              CreateLinkEffect(n, f, root, log) == Effect(Returned(linked.result), made.nodes))
    ensures CreateLinkEffect(n, f, root, log).outcome == Returned(Err(AlreadyExists)) ==>
      CreateDirAllEffect(n, f, PartitionFolderPath(root, log.date)).result == Err(AlreadyExists)
  {
  }

  /** `create_link`, on the disk. */
  method CreateLink(disk: Disk, root: Path, log: LogRecord) returns (r: Outcome<()>)
    modifies disk
    ensures Effect(r, disk.nodes) == CreateLinkEffect(old(disk.nodes), disk.faults, root, log)
  {
    var dir := PartitionFolderPath(root, log.date);
    var made := disk.CreateDirAll(dir);
    if made.Err? {
      return Returned(made);
    }
    var name := FileName(log.path);
    if name.None? {
      return Panicked(NoFileName);
    }
    var linked := disk.HardLink(log.path, dir + [name.value]);
    if linked == Err(AlreadyExists) {
      return Returned(Ok(()));
    }
    return Returned(linked);
  }
}
