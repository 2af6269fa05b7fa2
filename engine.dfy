/** `Unrotate`: one step of the collection engine, scan, classify, link. */
module Engine {
  import opened Types
  import opened Calendar
  import opened FileSystem
  import opened Scanner
  import opened Header
  import opened Logfile
  import opened Collection

  /** `Unrotate`: the watched directory and the collection root. */
  datatype Unrotate = Unrotate(watched: Path, collection: Path)

  /** `Unrotate::new`, given the result of looking up the LocalLow folder:
      without it no engine can be built ("failed to get LocalAppDataLow path"). */
  function New(locallow: Option<Path>): Option<Unrotate> {
    match locallow
    case None => None
    case Some(base) => Some(Unrotate(WatchedPath(base), CollectionPath(base)))
  }

  /** An engine is built exactly when the LocalLow folder is known, and then
      both of its directories lie inside that folder, two and three levels down. */
  lemma NewNeedsLocalLow(locallow: Option<Path>)
    ensures New(locallow).Some? <==> locallow.Some?
    ensures locallow.Some? ==> var u := New(locallow).value;
      locallow.value <= u.watched && |u.watched| == |locallow.value| + 2
      && locallow.value <= u.collection && |u.collection| == |locallow.value| + 3
  {
  }

  /** The watched directory and the collection lie in disjoint subtrees of LocalLow:
      no path is inside both. */
  lemma TreesDisjoint(locallow: Path, p: Path)
    requires var u := New(Some(locallow)).value; u.collection <= p
    ensures !(New(Some(locallow)).value.watched <= p)
  {
    var u := New(Some(locallow)).value;
    assert p[|locallow|] == u.collection[|locallow|] == VENDOR_NAME;
    assert u.watched[|locallow|] == "VRChat";
  }

  /** The body of the step's loop for one candidate path. */
  function ProcessOne(n: Nodes, f: Faults, root: Path, path: Path): Effect {
    match Classify(n, f, path)
    case Panicked(reason) => Effect(Panicked(reason), n)
    case Returned(Err(e)) => Effect(Returned(Err(e)), n)
    case Returned(Ok(None)) => Effect(Returned(Ok(())), n)
    case Returned(Ok(Some(log))) => CreateLinkEffect(n, f, root, log)
  }

  /** The candidates in order, stopping at the first that does not succeed. */
  function ProcessAll(n: Nodes, f: Faults, root: Path, paths: seq<Path>): Effect
    decreases |paths|
  {
    if paths == [] then Effect(Returned(Ok(())), n)
    else
      var e := ProcessOne(n, f, root, paths[0]);
      if e.outcome != Returned(Ok(())) then e else ProcessAll(e.nodes, f, root, paths[1..])
  }

  /** `Unrotate::step`: list the candidates, then classify and link each. */
  function StepEffect(n: Nodes, f: Faults, u: Unrotate, listing: Listing): Effect {
    match ListLogfilePaths(u.watched, listing)
    case Err(e) => Effect(Returned(Err(e)), n)
    case Ok(paths) => ProcessAll(n, f, u.collection, paths)
  }

  /** A step only adds entries, whatever its outcome. */
  lemma StepAdditive(n: Nodes, f: Faults, u: Unrotate, listing: Listing)
    ensures Extends(n, StepEffect(n, f, u, listing).nodes)
  {
    var paths := ListLogfilePaths(u.watched, listing);
    if paths.Ok? {
      ProcessAllAdditive(n, f, u.collection, paths.value);
    }
  }

  /** `Unrotate::step`, on the disk. */
  method Step(disk: Disk, u: Unrotate, listing: Listing) returns (r: Outcome<()>)
    modifies disk
    ensures Effect(r, disk.nodes) == StepEffect(old(disk.nodes), disk.faults, u, listing)
  {
    var candidates := ListLogfilePaths(u.watched, listing);
    if candidates.Err? {
      return Returned(Err(candidates.error));
    }
    var paths := candidates.value;
    for i := 0 to |paths|
      invariant ProcessAll(disk.nodes, disk.faults, u.collection, paths[i..])
        == StepEffect(old(disk.nodes), disk.faults, u, listing)
    {
      assert paths[i..][1..] == paths[i + 1..];
      var logfile := Classify(disk.nodes, disk.faults, paths[i]);
      match logfile
      case Panicked(reason) =>
        return Panicked(reason);
      case Returned(Err(e)) =>
        return Returned(Err(e));
      case Returned(Ok(None)) =>
      case Returned(Ok(Some(log))) =>
        var linked := CreateLink(disk, u.collection, log);
        if linked != Returned(Ok(())) {
          return linked;
        }
    }
    return Returned(Ok(()));
  }

  lemma ProcessOneAdditive(n: Nodes, f: Faults, root: Path, path: Path)
    ensures Extends(n, ProcessOne(n, f, root, path).nodes)
  {
    var c := Classify(n, f, path);
    if c.Returned? && c.result.Ok? && c.result.value.Some? {
      CreateLinkAdditive(n, f, root, c.result.value.value);
    }
  }

  /** A step never removes or changes an entry, whatever its outcome. */
  lemma {:induction false} ProcessAllAdditive(n: Nodes, f: Faults, root: Path, paths: seq<Path>)
    ensures Extends(n, ProcessAll(n, f, root, paths).nodes)
    decreases |paths|
  {
    if paths != [] {
      var e := ProcessOne(n, f, root, paths[0]);
      ProcessOneAdditive(n, f, root, paths[0]);
      if e.outcome == Returned(Ok(())) {
        ProcessAllAdditive(e.nodes, f, root, paths[1..]);
      }
    }
  }

  /** Candidates are handled in order: processing a list is processing a prefix
      and then, only if that succeeded, the rest from where it left off. */
  lemma {:induction false} ProcessAllSplit(n: Nodes, f: Faults, root: Path, paths: seq<Path>, k: nat)
    requires k <= |paths|
    ensures var e := ProcessAll(n, f, root, paths[..k]);
      ProcessAll(n, f, root, paths) ==
        if e.outcome == Returned(Ok(())) then ProcessAll(e.nodes, f, root, paths[k..]) else e
    decreases |paths|
  {
    if k > 0 {
      var e := ProcessOne(n, f, root, paths[0]);
      assert paths[..k][0] == paths[0];
      assert paths[..k][1..] == paths[1..][..k - 1];
      if e.outcome == Returned(Ok(())) {
        ProcessAllSplit(e.nodes, f, root, paths[1..], k - 1);
        assert paths[1..][k - 1..] == paths[k..];
      }
    } else {
      assert paths[..0] == [] && paths[0..] == paths;
    }
  }

  /** The step is not transactional: when a later candidate fails, everything
      linked for the earlier ones stays. */
  lemma PartialFailureKeepsEarlierLinks(n: Nodes, f: Faults, root: Path, paths: seq<Path>, k: nat)
    requires k <= |paths|
    requires ProcessAll(n, f, root, paths[..k]).outcome == Returned(Ok(()))
    ensures Extends(ProcessAll(n, f, root, paths[..k]).nodes, ProcessAll(n, f, root, paths).nodes)
  {
    ProcessAllSplit(n, f, root, paths, k);
    ProcessAllAdditive(ProcessAll(n, f, root, paths[..k]).nodes, f, root, paths[k..]);
  }

  /** A failing step fails with the outcome of the first candidate that does not
      succeed, after all those before it succeeded. */
  lemma {:induction false} ProcessAllFirstFailure(n: Nodes, f: Faults, root: Path, paths: seq<Path>)
    requires ProcessAll(n, f, root, paths).outcome != Returned(Ok(()))
    ensures exists k :: (0 <= k < |paths|
      && ProcessAll(n, f, root, paths[..k]).outcome == Returned(Ok(()))
      && ProcessOne(ProcessAll(n, f, root, paths[..k]).nodes, f, root, paths[k]) == ProcessAll(n, f, root, paths))
    decreases |paths|
  {
    var e := ProcessOne(n, f, root, paths[0]);
    if e.outcome != Returned(Ok(())) {
      assert paths[..0] == [];
      assert ProcessAll(n, f, root, paths[..0]).outcome == Returned(Ok(()));
    } else {
      var tail := paths[1..];
      ProcessAllFirstFailure(e.nodes, f, root, tail);
      var k :| 0 <= k < |tail|
        && ProcessAll(e.nodes, f, root, tail[..k]).outcome == Returned(Ok(()))
        && ProcessOne(ProcessAll(e.nodes, f, root, tail[..k]).nodes, f, root, tail[k]) == ProcessAll(e.nodes, f, root, tail);
      assert paths[..k + 1][0] == paths[0] && paths[..k + 1][1..] == tail[..k];
      assert ProcessAll(n, f, root, paths[..k + 1]) == ProcessAll(e.nodes, f, root, tail[..k]);
      assert tail[k] == paths[k + 1];
    }
  }

  /** Files that hold no dated header are skipped without error or change. */
  lemma {:induction false} UnrecognisedFilesSkipped(n: Nodes, f: Faults, root: Path, paths: seq<Path>)
    requires forall i :: 0 <= i < |paths| ==> Classify(n, f, paths[i]) == Returned(Ok(None))
    ensures ProcessAll(n, f, root, paths) == Effect(Returned(Ok(())), n)
    decreases |paths|
  {
    if paths != [] {
      assert Classify(n, f, paths[0]) == Returned(Ok(None));
      assert forall i :: 0 <= i < |paths[1..]| ==> paths[1..][i] == paths[i + 1];
      UnrecognisedFilesSkipped(n, f, root, paths[1..]);
    }
  }

  /** Handling a candidate again, after it succeeded, in any store that
      contains the result, succeeds and changes nothing. */
  lemma ProcessOneRepeat(n: Nodes, m: Nodes, f: Faults, root: Path, p: Path)
    requires ProcessOne(n, f, root, p).outcome == Returned(Ok(()))
    requires Extends(ProcessOne(n, f, root, p).nodes, m)
    ensures ProcessOne(m, f, root, p) == Effect(Returned(Ok(())), m)
  {
    var e := ProcessOne(n, f, root, p);
    var c := Classify(n, f, p);
    ProcessOneAdditive(n, f, root, p);
    assert ReadHead(n, f, p).Ok?;
    assert p in m && m[p] == n[p];
    ClassifyReadsOnlyItsEntry(n, m, f, p);
    if c.result.value.Some? {
      var log := c.result.value.value;
      CreateLinkEstablishes(n, f, root, log);
      CreateLinkNoopWhenLinked(m, f, root, log);
    }
  }

  /** Re-running a successful pass over any store that contains its result
      succeeds and changes nothing. */
  lemma {:induction false} ProcessAllRepeat(n: Nodes, m: Nodes, f: Faults, root: Path, paths: seq<Path>)
    requires ProcessAll(n, f, root, paths).outcome == Returned(Ok(()))
    requires Extends(ProcessAll(n, f, root, paths).nodes, m)
    ensures ProcessAll(m, f, root, paths) == Effect(Returned(Ok(())), m)
    decreases |paths|
  {
    if paths != [] {
      var e := ProcessOne(n, f, root, paths[0]);
      ProcessAllAdditive(e.nodes, f, root, paths[1..]);
      ProcessOneRepeat(n, m, f, root, paths[0]);
      ProcessAllRepeat(e.nodes, m, f, root, paths[1..]);
    }
  }

  /** A second step over an unchanged watched directory, after a successful one,
      succeeds and makes no change. */
  lemma StepIdempotent(n: Nodes, f: Faults, u: Unrotate, listing: Listing)
    requires StepEffect(n, f, u, listing).outcome == Returned(Ok(()))
    ensures var m := StepEffect(n, f, u, listing).nodes;
      StepEffect(m, f, u, listing) == Effect(Returned(Ok(())), m)
  {
    var paths := ListLogfilePaths(u.watched, listing);
    if paths.Ok? {
      ProcessAllRepeat(n, StepEffect(n, f, u, listing).nodes, f, u.collection, paths.value);
    }
  }
}
