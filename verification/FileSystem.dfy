/**
 * A file tree with symbolic links, the kernel's path lookup over it, and the
 * system calls the request handler makes. Locations are sequences of names
 * from the top of the tree; the tree is keyed by real locations.
 */
module FileSystem {
  import opened Bytes

  type Path = seq<string>

  datatype Node = File(size: nat, mode: nat) | Dir(mode: nat) | Link(text: string)

  type Fs = map<Path, Node>

  /** Where a link that lives at a location leads: any function, so absolute and relative targets alike. */
  type Deref = (Path, string) -> Path

  datatype Errno = ENOENT | ENOTDIR | EISDIR | EEXIST | ENOTEMPTY | EINVAL | ELOOP | EBUSY | EXDEV

  datatype Result<+T> = Ok(value: T) | Err(errno: Errno)

  /** Links the kernel follows before it gives up with ELOOP. */
  const MAX_HOPS: nat := 40

  function Parent(p: Path): Path
    requires p != []
  {
    p[..|p| - 1]
  }

  predicate IsDir(fs: Fs, p: Path) {
    p in fs && fs[p].Dir?
  }

  predicate IsLink(fs: Fs, p: Path) {
    p in fs && fs[p].Link?
  }

  /** The top is a directory, and everything else lives in one. */
  ghost predicate WellFormed(fs: Fs) {
    && IsDir(fs, [])
    && forall p {:trigger Parent(p)} :: p in fs && p != [] ==> IsDir(fs, Parent(p))
  }

  lemma {:induction false} AncestorsAreDirs(fs: Fs, p: Path, i: nat)
    requires WellFormed(fs) && p in fs && i < |p|
    ensures IsDir(fs, p[..i])
    decreases |p|
  {
    if i < |p| - 1 {
      assert Parent(p)[..i] == p[..i];
      AncestorsAreDirs(fs, Parent(p), i);
    }
  }

  // ---- lookup -----------------------------------------------------------

  /** Follow `rest` from the real directory `at`; the last name may be absent. */
  function Walk(k: Deref, fs: Fs, at: Path, rest: Path, follow: bool, hops: nat): Result<Path>
    decreases hops, |rest|
  {
    if rest == [] then Ok(at)
    else if at !in fs then Err(ENOENT)
    else if !fs[at].Dir? then Err(ENOTDIR)
    else
      var next := at + [rest[0]];
      if IsLink(fs, next) && (|rest| > 1 || follow) then
        if hops == 0 then Err(ELOOP)
        else Walk(k, fs, [], k(next, fs[next].text) + rest[1..], follow, hops - 1)
      else Walk(k, fs, next, rest[1..], follow, hops)
  }

  /** The location a path denotes; with `follow`, through a link in last position too. */
  function Locate(k: Deref, fs: Fs, p: Path, follow: bool): Result<Path> {
    Walk(k, fs, [], p, follow, MAX_HOPS)
  }

  /** `symlink_metadata`. */
  function Lstat(k: Deref, fs: Fs, p: Path): Result<Node> {
    match Locate(k, fs, p, false)
    case Err(e) => Err(e)
    case Ok(q) => if q in fs then Ok(fs[q]) else Err(ENOENT)
  }

  /** `metadata`, which follows a final link; `Path::exists` and `Path::is_dir` rest on it. */
  function Stat(k: Deref, fs: Fs, p: Path): Result<Node> {
    match Locate(k, fs, p, true)
    case Err(e) => Err(e)
    case Ok(q) => if q in fs then Ok(fs[q]) else Err(ENOENT)
  }

  /** Through directories the lookup stays on the written path. */
  lemma {:induction false} WalkThrough(k: Deref, fs: Fs, at: Path, rest: Path, more: Path, follow: bool, hops: nat)
    requires forall i :: 0 <= i < |rest| ==> IsDir(fs, at + rest[..i])
    requires (more != [] || follow) ==> !IsLink(fs, at + rest)
    ensures Walk(k, fs, at, rest + more, follow, hops) == Walk(k, fs, at + rest, more, follow, hops)
    decreases |rest|
  {
    if rest == [] {
      assert at + rest == at && rest + more == more;
    } else {
      var next, tail := at + [rest[0]], rest[1..];
      assert at + rest[..0] == at;
      assert next + tail == at + rest && (rest + more)[1..] == tail + more;
      if |rest| > 1 {
        assert at + rest[..1] == next;
      } else {
        assert at + rest == next;
      }
      forall i | 0 <= i < |tail|
        ensures IsDir(fs, next + tail[..i])
      {
        assert next + tail[..i] == at + rest[..i + 1];
      }
      WalkThrough(k, fs, next, tail, more, follow, hops);
    }
  }

  /** A path whose proper ancestors are all directories denotes itself. */
  lemma LocateLiteral(k: Deref, fs: Fs, p: Path, follow: bool)
    requires forall i :: 0 <= i < |p| ==> IsDir(fs, p[..i])
    requires follow ==> !IsLink(fs, p)
    ensures Locate(k, fs, p, follow) == Ok(p)
  {
    assert forall i :: 0 <= i < |p| ==> [] + p[..i] == p[..i];
    assert [] + p == p == p + [];
    WalkThrough(k, fs, [], p, [], follow, MAX_HOPS);
  }

  /** Below a file nothing can be found. */
  lemma LocateBelowFile(k: Deref, fs: Fs, p: Path, follow: bool)
    requires p != [] && forall i :: 0 <= i < |p| - 1 ==> IsDir(fs, p[..i])
    requires Parent(p) in fs && !fs[Parent(p)].Dir? && !fs[Parent(p)].Link?
    ensures Locate(k, fs, p, follow) == Err(ENOTDIR)
  {
    var up := Parent(p);
    assert forall i :: 0 <= i < |up| ==> [] + up[..i] == p[..i];
    assert [] + up == up && up + [p[|up|]] == p;
    WalkThrough(k, fs, [], up, [p[|up|]], follow, MAX_HOPS);
  }

  /** In a well-formed tree every existing location denotes itself. */
  lemma LocateExisting(k: Deref, fs: Fs, p: Path)
    requires WellFormed(fs) && p in fs
    ensures Locate(k, fs, p, false) == Ok(p) && Lstat(k, fs, p) == Ok(fs[p])
  {
    forall i | 0 <= i < |p|
      ensures IsDir(fs, p[..i])
    {
      AncestorsAreDirs(fs, p, i);
    }
    LocateLiteral(k, fs, p, false);
  }

  // ---- system calls -----------------------------------------------------

  predicate HasChildren(fs: Fs, d: Path) {
    exists p | p in fs :: d < p
  }

  function Mkdir(k: Deref, fs: Fs, p: Path): Result<Fs> {
    match Locate(k, fs, p, false)
    case Err(e) => Err(e)
    case Ok(q) => if q in fs then Err(EEXIST) else Ok(fs[q := Dir(0)])
  }

  function Rmdir(k: Deref, fs: Fs, p: Path): Result<Fs> {
    match Locate(k, fs, p, false)
    case Err(e) => Err(e)
    case Ok(q) =>
      if q !in fs then Err(ENOENT)
      else if !fs[q].Dir? then Err(ENOTDIR)
      else if q == [] then Err(EBUSY)
      else if HasChildren(fs, q) then Err(ENOTEMPTY)
      else Ok(fs - {q})
  }

  function Unlink(k: Deref, fs: Fs, p: Path): Result<Fs> {
    match Locate(k, fs, p, false)
    case Err(e) => Err(e)
    case Ok(q) =>
      if q !in fs then Err(ENOENT)
      else if fs[q].Dir? then Err(EISDIR)
      else Ok(fs - {q})
  }

  function Chmod(k: Deref, fs: Fs, p: Path, mode: nat): Result<Fs> {
    match Locate(k, fs, p, true)
    case Err(e) => Err(e)
    case Ok(q) => if q !in fs then Err(ENOENT) else Ok(fs[q := WithMode(fs[q], mode)])
  }

  function WithMode(n: Node, mode: nat): Node {
    match n
    case File(size, _) => File(size, mode)
    case Dir(_) => Dir(mode)
    case Link(_) => n
  }

  /** The tree at `src`, moved to `dst`. */
  function Graft(fs: Fs, src: Path, dst: Path): Fs {
    map q | q in (set p | p in fs && src <= p :: dst + p[|src|..]) && dst <= q && src + q[|dst|..] in fs
      :: fs[src + q[|dst|..]]
  }

  /** Everything that neither moves away nor is replaced. */
  function Rest(fs: Fs, src: Path, dst: Path): Fs {
    map p | p in fs && !(src <= p) && !(dst <= p) :: fs[p]
  }

  function Rename(k: Deref, fs: Fs, from: Path, to: Path): Result<Fs> {
    match (Locate(k, fs, from, false), Locate(k, fs, to, false))
    case (Err(e), _) => Err(e)
    case (_, Err(e)) => Err(e)
    case (Ok(src), Ok(dst)) =>
      if src !in fs then Err(ENOENT)
      else if src == [] || dst == [] then Err(EBUSY)
      else if src == dst then Ok(fs)
      else if fs[src].Dir? && src < dst then Err(EINVAL)
      else if dst in fs && fs[src].Dir? && !fs[dst].Dir? then Err(ENOTDIR)
      else if dst in fs && !fs[src].Dir? && fs[dst].Dir? then Err(EISDIR)
      else if dst in fs && HasChildren(fs, dst) then Err(ENOTEMPTY)
      else Ok(Rest(fs, src, dst) + Graft(fs, src, dst))
  }

  // ---- calls keep the tree a tree ---------------------------------------

  lemma RemoveKeepsTree(fs: Fs, q: Path)
    requires WellFormed(fs) && q in fs && q != [] && !HasChildren(fs, q)
    ensures WellFormed(fs - {q})
  {
    forall p | p in fs - {q} && p != []
      ensures IsDir(fs - {q}, Parent(p))
    {
      assert Parent(p) < p;
    }
  }

  lemma FilesHaveNoChildren(fs: Fs, q: Path)
    requires WellFormed(fs) && q in fs && !fs[q].Dir?
    ensures !HasChildren(fs, q)
  {
    forall p | p in fs
      ensures !(q < p)
    {
      if q < p {
        assert p[..|q|] == q;
        AncestorsAreDirs(fs, p, |q|);
      }
    }
  }

  lemma GraftAt(fs: Fs, src: Path, dst: Path, q: Path)
    ensures q in Graft(fs, src, dst) <==> dst <= q && src + q[|dst|..] in fs
  {
    if dst <= q && src + q[|dst|..] in fs {
      var p := src + q[|dst|..];
      assert src <= p && p[|src|..] == q[|dst|..];
      assert dst + p[|src|..] == q;
    }
  }

  /** What a successful rename amounts to, location by location. */
  lemma RenameShape(fs: Fs, src: Path, dst: Path, q: Path)
    ensures var fs' := Rest(fs, src, dst) + Graft(fs, src, dst);
            && (q in fs' <==> if dst <= q then src + q[|dst|..] in fs else q in fs && !(src <= q))
            && (q in fs' ==> fs'[q] == if dst <= q then fs[src + q[|dst|..]] else fs[q])
  {
    GraftAt(fs, src, dst, q);
  }

  /** A destination in an existing directory is not inside a source that is no directory. */
  lemma NotInside(fs: Fs, src: Path, dst: Path)
    requires WellFormed(fs) && src in fs && dst != [] && IsDir(fs, Parent(dst))
    requires src < dst
    ensures fs[src].Dir?
  {
    if |src| < |dst| - 1 {
      assert Parent(dst)[..|src|] == src;
      AncestorsAreDirs(fs, Parent(dst), |src|);
    } else {
      assert Parent(dst) == src;
    }
  }

  lemma RenameKeepsTree(fs: Fs, src: Path, dst: Path)
    requires WellFormed(fs) && src in fs && src != [] && dst != [] && !(src <= dst)
    requires IsDir(fs, Parent(dst))
    ensures WellFormed(Rest(fs, src, dst) + Graft(fs, src, dst))
  {
    hide Graft, Rest;
    var fs' := Rest(fs, src, dst) + Graft(fs, src, dst);
    RenameShape(fs, src, dst, []);
    forall q | q in fs' && q != []
      ensures IsDir(fs', Parent(q))
    {
      var up := Parent(q);
      RenameShape(fs, src, dst, q);
      RenameShape(fs, src, dst, up);
      if q == dst {
        assert !(dst <= up) && !(src <= up);
      } else if dst <= q {
        assert dst <= up;
        var p := src + q[|dst|..];
        assert Parent(p) == src + up[|dst|..];
      }
    }
  }
}
