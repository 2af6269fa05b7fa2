/** `LocalLowVRChat`: the watched directory and the listing of its rotated log files. */
module Scanner {
  import opened Types
  import opened Decimal

  /** What `DirEntry::file_type()` reports; it does not follow symbolic links. */
  datatype FileType = RegularFile | Directory | Symlink | OtherType

  /** One directory entry: its name, whether that name is valid Unicode (so that
      `file_name().to_str()` succeeds), and the result of `file_type()`. */
  datatype DirEntry = DirEntry(name: string, isUnicode: bool, fileType: Result<FileType>)

  /** The result of `read_dir()`: the directory's entries in the order the
      system yields them, each of which may itself fail to be read. */
  type Listing = Result<seq<Result<DirEntry>>>

  /** `LocalLowVRChat::from_locallow_path`: the directory VRChat writes its logs to. */
  function WatchedPath(locallow: Path): Path {
    locallow + ["VRChat", "VRChat"]
  }

  /** The filename filter `^output_log_\d{2}-\d{2}-\d{2}\.txt$`, read position by
      position (ASCII digits). */
  predicate IsLogfileName(name: string) {
    |name| == 23 && name[..11] == "output_log_"
    && IsDigit(name[11]) && IsDigit(name[12]) && name[13] == '-'
    && IsDigit(name[14]) && IsDigit(name[15]) && name[16] == '-'
    && IsDigit(name[17]) && IsDigit(name[18]) && name[19..] == ".txt"
  }

  predicate IsTwoDigits(s: string) {
    |s| == 2 && AllDigits(s)
  }

  /** The filename built from its three digit groups. */
  function LogfileName(a: string, b: string, c: string): string {
    "output_log_" + a + "-" + b + "-" + c + ".txt"
  }

  /** Every name built from three two-digit groups passes the filter. */
  lemma LogfileNameAccepted(a: string, b: string, c: string)
    requires IsTwoDigits(a) && IsTwoDigits(b) && IsTwoDigits(c)
    ensures IsLogfileName(LogfileName(a, b, c))
  {
    var name := LogfileName(a, b, c);
    assert name[..11] == "output_log_";
    assert name[19..] == ".txt";
  }

  /** Every name that passes the filter is built from three two-digit groups:
      no prefix, no suffix, nothing else. */
  lemma AcceptedNameIsLogfileName(name: string)
    requires IsLogfileName(name)
    ensures IsTwoDigits(name[11..13]) && IsTwoDigits(name[14..16]) && IsTwoDigits(name[17..19])
    ensures name == LogfileName(name[11..13], name[14..16], name[17..19])
  {
    var built := LogfileName(name[11..13], name[14..16], name[17..19]);
    assert |built| == 23;
    forall i | 0 <= i < 23 ensures built[i] == name[i] {
      if i < 11 {
        assert name[i] == name[..11][i];
      } else if 19 <= i {
        assert name[i] == name[19..][i - 19];
      }
    }
  }

  /** An entry whose reading or whose `file_type()` failed. */
  predicate EntryFails(entry: Result<DirEntry>) {
    entry.Err? || entry.value.fileType.Err?
  }

  function EntryError(entry: Result<DirEntry>): IoErrorKind
    requires EntryFails(entry)
  {
    if entry.Err? then entry.error else entry.value.fileType.error
  }

  /** An entry the listing keeps: a regular file whose Unicode name passes the filter. */
  predicate IsCandidate(entry: Result<DirEntry>) {
    entry.Ok? && entry.value.fileType == Ok(RegularFile) && entry.value.isUnicode
    && IsLogfileName(entry.value.name)
  }

  /** The closure given to `filter_map`, after `transpose`: an error, a kept path, or nothing. */
  function EntryCandidate(dir: Path, entry: Result<DirEntry>): Result<Option<Path>> {
    match entry
    case Err(e) => Err(e)
    case Ok(d) =>
      match d.fileType
      case Err(e) => Err(e)
      case Ok(t) =>
        if t == RegularFile && d.isUnicode && IsLogfileName(d.name) then Ok(Some(dir + [d.name]))
        else Ok(None)
  }

  /** `collect::<Result<Vec<_>>>()` over the entries: the kept paths in order, or
      the first error. */
  function CollectCandidates(dir: Path, entries: seq<Result<DirEntry>>): Result<seq<Path>> {
    if entries == [] then Ok([])
    else
      match EntryCandidate(dir, entries[0])
      case Err(e) => Err(e)
      case Ok(c) =>
        match CollectCandidates(dir, entries[1..])
        case Err(e) => Err(e)
        case Ok(rest) => Ok((if c.Some? then [c.value] else []) + rest)
  }

  lemma {:induction false} CollectSucceedsIff(dir: Path, entries: seq<Result<DirEntry>>)
    ensures CollectCandidates(dir, entries).Ok? <==> forall i :: 0 <= i < |entries| ==> !EntryFails(entries[i])
  {
    if entries != [] {
      CollectSucceedsIff(dir, entries[1..]);
      assert forall i :: 1 <= i < |entries| ==> entries[i] == entries[1..][i - 1];
    }
  }

  lemma {:induction false} CollectFirstError(dir: Path, entries: seq<Result<DirEntry>>)
    ensures CollectCandidates(dir, entries).Err? ==>
      exists i :: 0 <= i < |entries| && EntryFails(entries[i])
        && CollectCandidates(dir, entries).error == EntryError(entries[i])
        && forall j :: 0 <= j < i ==> !EntryFails(entries[j])
  {
    if entries != [] && CollectCandidates(dir, entries).Err? {
      if EntryFails(entries[0]) {
        assert EntryFails(entries[0]) && CollectCandidates(dir, entries).error == EntryError(entries[0]);
      } else {
        CollectFirstError(dir, entries[1..]);
        var i :| 0 <= i < |entries[1..]| && EntryFails(entries[1..][i])
          && CollectCandidates(dir, entries[1..]).error == EntryError(entries[1..][i])
          && forall j :: 0 <= j < i ==> !EntryFails(entries[1..][j]);
        assert entries[1..][i] == entries[i + 1];
        forall j | 0 <= j < i + 1 ensures !EntryFails(entries[j]) {
          if j > 0 {
            assert entries[j] == entries[1..][j - 1];
          }
        }
      }
    }
  }

  lemma {:induction false} CollectMembers(dir: Path, entries: seq<Result<DirEntry>>)
    ensures CollectCandidates(dir, entries).Ok? ==>
      forall p :: p in CollectCandidates(dir, entries).value <==>
        exists i :: 0 <= i < |entries| && IsCandidate(entries[i]) && p == dir + [entries[i].value.name]
  {
    var r := CollectCandidates(dir, entries);
    if entries != [] && r.Ok? {
      CollectMembers(dir, entries[1..]);
      var tail := entries[1..];
      var rest := CollectCandidates(dir, tail).value;
      forall p
        ensures p in r.value <==>
          exists i :: 0 <= i < |entries| && IsCandidate(entries[i]) && p == dir + [entries[i].value.name]
      {
        if p in r.value {
          if p in rest {
            var i :| 0 <= i < |tail| && IsCandidate(tail[i]) && p == dir + [tail[i].value.name];
            assert tail[i] == entries[i + 1];
          } else {
            assert IsCandidate(entries[0]) && p == dir + [entries[0].value.name];
          }
        }
        if exists i :: 0 <= i < |entries| && IsCandidate(entries[i]) && p == dir + [entries[i].value.name] {
          var i :| 0 <= i < |entries| && IsCandidate(entries[i]) && p == dir + [entries[i].value.name];
          if i > 0 {
            assert tail[i - 1] == entries[i];
          }
        }
      }
    }
  }

  /** `LocalLowVRChat::list_logfile_paths`: the paths of the regular files whose
      names pass the filter, in listing order; if the directory cannot be listed,
      or any one entry or its file type cannot be read, the whole listing fails
      with that (the first) error instead of returning a partial list. */
  function ListLogfilePaths(dir: Path, listing: Listing): (r: Result<seq<Path>>)
    ensures listing.Err? ==> r == Err(listing.error)
    ensures listing.Ok? ==> (r.Ok? <==> forall i :: 0 <= i < |listing.value| ==> !EntryFails(listing.value[i]))
    ensures listing.Ok? && r.Ok? ==>
      forall p :: p in r.value <==>
        exists i :: 0 <= i < |listing.value| && IsCandidate(listing.value[i]) && p == dir + [listing.value[i].value.name]
    ensures listing.Ok? && r.Err? ==>
      exists i :: 0 <= i < |listing.value| && EntryFails(listing.value[i]) && r.error == EntryError(listing.value[i])
        && forall j :: 0 <= j < i ==> !EntryFails(listing.value[j])
  {
    match listing
    case Err(e) => Err(e)
    case Ok(entries) =>
      CollectSucceedsIff(dir, entries);
      CollectFirstError(dir, entries);
      CollectMembers(dir, entries);
      CollectCandidates(dir, entries)
  }
}
