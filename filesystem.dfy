/** The filesystem as the program sees it: a map from path to directory entry,
    plus a failure oracle for the operations the environment may refuse.
    `create_dir_all` and `hard_link` are modelled on this map. */
module FileSystem {
  import opened Types

  /** A directory, or a regular file; hard links to one file share its `inode`. */
  datatype Node = Dir | File(inode: nat, content: seq<Byte>)

  type Nodes = map<Path, Node>

  /** A failure the environment may impose on an operation at a path (a permission
      denied, a full disk, a link across volumes, a name too long, ...).
      `AlreadyExists` is not among them: it arises only from an entry that exists. */
  type Fault = k: IoErrorKind | k != AlreadyExists witness PermissionDenied

  type Faults = map<Path, Fault>

  /** What a filesystem operation returns, with the entries afterwards. */
  datatype FsEffect = FsEffect(result: Result<()>, nodes: Nodes)

  /** `m` only adds entries to `n`: every entry of `n` is in `m`, unchanged. */
  ghost predicate Extends(n: Nodes, m: Nodes) {
    forall p :: p in n ==> p in m && m[p] == n[p]
  }

  /** The parent of `p` is a directory; the empty path, the root, always is one. */
  predicate ParentIsDir(n: Nodes, p: Path) {
    |p| > 0 && (|p| == 1 || (p[..|p| - 1] in n && n[p[..|p| - 1]] == Dir))
  }

  /** `fs::create_dir_all(p)` from the `k`-th component on: each prefix
      `p[..k+1]`, `p[..k+2]`, ... is kept if it is a directory, refused with
      `AlreadyExists` if it is something else, refused with its fault if the
      environment imposes one, and created otherwise. Directories created before
      a failure stay. */
  function CreateDirAllFrom(n: Nodes, f: Faults, p: Path, k: nat): (e: FsEffect)
    requires k <= |p|
    ensures Extends(n, e.nodes)
    decreases |p| - k
  {
    if k == |p| then FsEffect(Ok(()), n)
    else
      var q := p[..k + 1];
      if q in n then
        if n[q] == Dir then CreateDirAllFrom(n, f, p, k + 1) else FsEffect(Err(AlreadyExists), n)
      else if q in f then FsEffect(Err(f[q]), n)
      else CreateDirAllFrom(n[q := Dir], f, p, k + 1)
  }

  function CreateDirAllEffect(n: Nodes, f: Faults, p: Path): FsEffect {
    CreateDirAllFrom(n, f, p, 0)
  }

  /** What `create_dir_all` adds are directories, and only prefixes of `p`
      from the `k+1`-th component on. */
  lemma {:induction false} CreateDirAllAddsPrefixes(n: Nodes, f: Faults, p: Path, k: nat)
    requires k <= |p|
    ensures var e := CreateDirAllFrom(n, f, p, k);
      forall q :: q in e.nodes && q !in n ==> e.nodes[q] == Dir && q <= p && k < |q|
    decreases |p| - k
  {
    if k < |p| {
      var q := p[..k + 1];
      if q !in n && q !in f {
        CreateDirAllAddsPrefixes(n[q := Dir], f, p, k + 1);
      } else if q in n && n[q] == Dir {
        CreateDirAllAddsPrefixes(n, f, p, k + 1);
      }
    }
  }

  /** On success every prefix of `p` from the `k+1`-th component on is a directory. */
  lemma {:induction false} CreateDirAllMakesPrefixes(n: Nodes, f: Faults, p: Path, k: nat)
    requires k <= |p|
    ensures var e := CreateDirAllFrom(n, f, p, k);
      e.result.Ok? ==> forall j :: k < j <= |p| ==> p[..j] in e.nodes && e.nodes[p[..j]] == Dir
    decreases |p| - k
  {
    if k < |p| {
      var q := p[..k + 1];
      if q !in n && q !in f {
        CreateDirAllMakesPrefixes(n[q := Dir], f, p, k + 1);
      } else if q in n && n[q] == Dir {
        CreateDirAllMakesPrefixes(n, f, p, k + 1);
      }
    }
  }

  /** Prefixes that are already directories are passed over. */
  lemma {:induction false} CreateDirAllSkipsDirs(n: Nodes, f: Faults, p: Path, k: nat, k': nat)
    requires k <= k' <= |p|
    requires forall j :: k < j <= k' ==> p[..j] in n && n[p[..j]] == Dir
    ensures CreateDirAllFrom(n, f, p, k) == CreateDirAllFrom(n, f, p, k')
    decreases k' - k
  {
    if k < k' {
      var q := p[..k + 1];
      assert q in n && n[q] == Dir;
      assert CreateDirAllFrom(n, f, p, k) == CreateDirAllFrom(n, f, p, k + 1);
      CreateDirAllSkipsDirs(n, f, p, k + 1, k');
    }
  }

  /** When the whole of `p` is already there, `create_dir_all` succeeds and
      changes nothing. */
  lemma CreateDirAllExisting(n: Nodes, f: Faults, p: Path)
    requires forall j :: 0 < j <= |p| ==> p[..j] in n && n[p[..j]] == Dir
    ensures CreateDirAllEffect(n, f, p) == FsEffect(Ok(()), n)
  {
    CreateDirAllSkipsDirs(n, f, p, 0, |p|);
  }

  /** `fs::hard_link(src, dst)`: a second entry for the file at `src`. */
  function HardLinkEffect(n: Nodes, f: Faults, src: Path, dst: Path): (e: FsEffect)
    ensures Extends(n, e.nodes) && e.nodes.Keys <= n.Keys + {dst}
    ensures e.result.Ok? <==> dst !in n && dst in e.nodes
    ensures e.result.Ok? ==> src in n && n[src].File? && e.nodes[dst] == n[src]
    ensures e.result == Err(AlreadyExists) <==> src in n && n[src].File? && dst in n
  {
    if src !in n then FsEffect(Err(NotFound), n)
    else if !n[src].File? then FsEffect(Err(PermissionDenied), n)
    else if dst in n then FsEffect(Err(AlreadyExists), n)
    else if dst in f then FsEffect(Err(f[dst]), n)
    else if !ParentIsDir(n, dst) then FsEffect(Err(NotFound), n)
    else FsEffect(Ok(()), n[dst := n[src]])
  }

  /** The filesystem the program runs against. */
  class Disk {
    var nodes: Nodes
    const faults: Faults

    constructor (nodes0: Nodes, faults0: Faults)
      ensures nodes == nodes0 && faults == faults0
    {
      nodes := nodes0;
      faults := faults0;
    }

    method CreateDirAll(p: Path) returns (r: Result<()>)
      modifies this
      ensures FsEffect(r, nodes) == CreateDirAllEffect(old(nodes), faults, p)
    {
      var k := 0;
      while k < |p|
        invariant k <= |p|
        invariant CreateDirAllFrom(nodes, faults, p, k) == CreateDirAllEffect(old(nodes), faults, p)
      {
        var q := p[..k + 1];
        if q in nodes {
          if nodes[q] != Dir {
            return Err(AlreadyExists);
          }
        } else if q in faults {
          return Err(faults[q]);
        } else {
          nodes := nodes[q := Dir];
        }
        k := k + 1;
      }
      return Ok(());
    }

    method HardLink(src: Path, dst: Path) returns (r: Result<()>)
      modifies this
      ensures FsEffect(r, nodes) == HardLinkEffect(old(nodes), faults, src, dst)
    {
      if src !in nodes {
        return Err(NotFound);
      } else if !nodes[src].File? {
        return Err(PermissionDenied);
      } else if dst in nodes {
        return Err(AlreadyExists);
      } else if dst in faults {
        return Err(faults[dst]);
      } else if !ParentIsDir(nodes, dst) {
        return Err(NotFound);
      }
      nodes := nodes[dst := nodes[src]];
      return Ok(());
    }
  }
}
