/**
 * The request handler: path resolution from a connection's working
 * directory, the root-first ancestor re-check before every mutation, and the
 * requests themselves, over a file tree that may contain symbolic links.
 */
module Handler {
  import opened Bytes
  import opened Codes
  import opened FileSystem

  datatype Answer<+T> = Yes(value: T) | No(code: ErrorCode)

  /** `io_code`. */
  function IoCode(e: Errno): ErrorCode {
    match e
    case ENOENT => NotFound
    case EEXIST => AlreadyExists
    case _ => Internal
  }

  /** The components `std::path` splits a path into. */
  datatype Comp = RootDir | CurDir | ParentDir | Normal(name: string) | Prefix

  type UserPath = seq<Comp>

  const TEMP_SUFFIX := ".qftp.partial"

  predicate IsTempName(name: string) {
    |name| >= |TEMP_SUFFIX| && name[|name| - |TEMP_SUFFIX|..] == TEMP_SUFFIX
  }

  /** `is_upload_temp`: only the final component counts. */
  predicate IsUploadTemp(path: UserPath) {
    path != [] && path[|path| - 1].Normal? && IsTempName(path[|path| - 1].name)
  }

  // ---- path resolution --------------------------------------------------

  /** `walk_safe` from `current`: lexical `..`, and no component that is a link. */
  function WalkComps(k: Deref, fs: Fs, root: Path, current: Path, comps: UserPath): Answer<Path>
    decreases |comps|
  {
    if comps == [] then (if root <= current then Yes(current) else No(PermissionDenied))
    else
      match comps[0]
      case RootDir => WalkComps(k, fs, root, root, comps[1..])
      case CurDir => WalkComps(k, fs, root, current, comps[1..])
      case ParentDir =>
        if current == root || current == [] || !(root <= Parent(current)) then No(PermissionDenied)
        else WalkComps(k, fs, root, Parent(current), comps[1..])
      case Normal(name) =>
        var next := current + [name];
        (match Lstat(k, fs, next)
         case Ok(node) =>
           if node.Link? then No(PermissionDenied) else WalkComps(k, fs, root, next, comps[1..])
         case Err(e) =>
           if e == ENOENT then WalkComps(k, fs, root, next, comps[1..]) else No(Internal))
      case Prefix => No(Malformed)
  }

  function WalkSafe(k: Deref, fs: Fs, cwd: Path, root: Path, path: UserPath): Answer<Path> {
    var absolute := path != [] && path[0].RootDir?;
    WalkComps(k, fs, root, if absolute then root else cwd, path)
  }

  function Resolve(k: Deref, fs: Fs, cwd: Path, root: Path, path: UserPath): Answer<Path> {
    match WalkSafe(k, fs, cwd, root, path)
    case No(c) => No(c)
    case Yes(p) => if Stat(k, fs, p).Ok? then Yes(p) else No(NotFound)
  }

  function ResolveParent(k: Deref, fs: Fs, cwd: Path, root: Path, path: UserPath): Answer<Path> {
    match WalkSafe(k, fs, cwd, root, path)
    case No(c) => No(c)
    case Yes(p) =>
      if p == [] then No(Malformed)
      else
        match Lstat(k, fs, Parent(p))
        case Ok(node) => if node.Dir? then Yes(p) else No(NotFound)
        case Err(_) => No(NotFound)
  }

  /** Lexical confinement, whatever the links are. */
  lemma {:induction false} WalkStaysUnder(k: Deref, fs: Fs, root: Path, current: Path, comps: UserPath)
    ensures var r := WalkComps(k, fs, root, current, comps); r.Yes? ==> root <= r.value
    decreases |comps|
  {
    if comps != [] {
      match comps[0]
      case RootDir => WalkStaysUnder(k, fs, root, root, comps[1..]);
      case CurDir => WalkStaysUnder(k, fs, root, current, comps[1..]);
      case ParentDir =>
        if current != [] {
          WalkStaysUnder(k, fs, root, Parent(current), comps[1..]);
        }
      case Normal(name) => WalkStaysUnder(k, fs, root, current + [name], comps[1..]);
      case Prefix =>
    }
  }

  // ---- what a path means ------------------------------------------------

  /**
   * The kernel's own lookup of such a path by a process that holds the real
   * directory `at`, is confined to `root` and follows no links (`openat2` with
   * RESOLVE_BENEATH and RESOLVE_NO_SYMLINKS): `..` leads to the parent of the
   * directory it is in, and only the last name may be absent.
   */
  function LookupBeneath(fs: Fs, root: Path, at: Path, comps: UserPath): Result<Path>
    decreases |comps|
  {
    if comps == [] then Ok(at)
    else if at !in fs then Err(ENOENT)
    else if !fs[at].Dir? then Err(ENOTDIR)
    else
      match comps[0]
      case RootDir => LookupBeneath(fs, root, root, comps[1..])
      case CurDir => LookupBeneath(fs, root, at, comps[1..])
      case ParentDir =>
        if at == root || at == [] then Err(EXDEV) else LookupBeneath(fs, root, Parent(at), comps[1..])
      case Normal(name) =>
        if IsLink(fs, at + [name]) then Err(ELOOP) else LookupBeneath(fs, root, at + [name], comps[1..])
      case Prefix => Err(EINVAL)
  }

  /** Where that lookup arrives, the walk arrives. */
  lemma {:induction false} WalkIsLookup(k: Deref, fs: Fs, root: Path, at: Path, comps: UserPath)
    requires Rooted(fs, root) && root <= at && (at in fs || comps == [])
    requires LookupBeneath(fs, root, at, comps).Ok?
    ensures WalkComps(k, fs, root, at, comps) == Yes(LookupBeneath(fs, root, at, comps).value)
    decreases |comps|
  {
    hide Lstat;
    if comps != [] {
      match comps[0]
      case RootDir => WalkIsLookup(k, fs, root, root, comps[1..]);
      case CurDir => WalkIsLookup(k, fs, root, at, comps[1..]);
      case ParentDir =>
        ParentIsIn(fs, root, at);
        WalkIsLookup(k, fs, root, Parent(at), comps[1..]);
      case Normal(name) =>
        LstatBelow(k, fs, at, name);
        WalkIsLookup(k, fs, root, at + [name], comps[1..]);
    }
  }

  lemma ParentIsIn(fs: Fs, root: Path, at: Path)
    requires Rooted(fs, root) && root < at && at in fs
    ensures Parent(at) in fs && root <= Parent(at)
  {
    AncestorsAreDirs(fs, at, |at| - 1);
  }

  /** What is in a real directory is looked up there. */
  lemma LstatBelow(k: Deref, fs: Fs, at: Path, name: string)
    requires WellFormed(fs) && IsDir(fs, at)
    ensures Lstat(k, fs, at + [name]) == if at + [name] in fs then Ok(fs[at + [name]]) else Err(ENOENT)
  {
    var p := at + [name];
    forall i | 0 <= i < |p|
      ensures IsDir(fs, p[..i])
    {
      if i < |at| {
        AncestorsAreDirs(fs, at, i);
        assert p[..i] == at[..i];
      } else {
        assert p[..i] == at;
      }
    }
    LocateLiteral(k, fs, p, false);
  }

  /**
   * A path denotes what the kernel's own confined lookup says, from the root
   * if it is absolute and from the working directory otherwise.
   */
  lemma WalkDenotes(k: Deref, fs: Fs, cwd: Path, root: Path, path: UserPath)
    requires Rooted(fs, root) && root <= cwd && cwd in fs
    ensures var start := if path != [] && path[0].RootDir? then root else cwd;
            match LookupBeneath(fs, root, start, path)
            case Ok(p) => WalkSafe(k, fs, cwd, root, path) == Yes(p)
            case Err(_) => true
  {
    var start := if path != [] && path[0].RootDir? then root else cwd;
    if LookupBeneath(fs, root, start, path).Ok? {
      WalkIsLookup(k, fs, root, start, path);
    }
  }

  // Beyond that lookup a path is lexical: these laws say what it denotes when
  // directories on the way are absent.

  /** A walk goes on from where its beginning leads, and is refused if that is. */
  lemma {:induction false} WalkAppend(k: Deref, fs: Fs, root: Path, current: Path, a: UserPath, b: UserPath)
    requires root <= current
    ensures WalkComps(k, fs, root, current, a + b)
         == match WalkComps(k, fs, root, current, a)
            case Yes(p) => WalkComps(k, fs, root, p, b)
            case No(c) => No(c)
    decreases |a|
  {
    hide Lstat;
    if a == [] {
      assert a + b == b;
    } else {
      assert (a + b)[0] == a[0] && (a + b)[1..] == a[1..] + b;
      match a[0]
      case RootDir => WalkAppend(k, fs, root, root, a[1..], b);
      case CurDir => WalkAppend(k, fs, root, current, a[1..], b);
      case ParentDir =>
        if current != root && current != [] && root <= Parent(current) {
          WalkAppend(k, fs, root, Parent(current), a[1..], b);
        }
      case Normal(name) => WalkAppend(k, fs, root, current + [name], a[1..], b);
      case Prefix =>
    }
  }

  /** The name can be passed: it is no link, and at worst absent. */
  predicate Passable(k: Deref, fs: Fs, p: Path) {
    match Lstat(k, fs, p)
    case Ok(node) => !node.Link?
    case Err(e) => e == ENOENT
  }

  /** A `.` anywhere changes nothing, and neither does a passable name that is left again by `..`. */
  lemma DetoursDoNotMatter(k: Deref, fs: Fs, root: Path, current: Path, a: UserPath, name: string, b: UserPath)
    requires root <= current
    ensures WalkComps(k, fs, root, current, a + [CurDir] + b) == WalkComps(k, fs, root, current, a + b)
    ensures WalkComps(k, fs, root, current, a).Yes?
            && Passable(k, fs, WalkComps(k, fs, root, current, a).value + [name]) ==>
              (WalkComps(k, fs, root, current, a + [Normal(name), ParentDir] + b)
            == WalkComps(k, fs, root, current, a + b))
  {
    hide Lstat;
    assert a + [CurDir] + b == a + ([CurDir] + b);
    assert a + [Normal(name), ParentDir] + b == a + ([Normal(name), ParentDir] + b);
    WalkAppend(k, fs, root, current, a, [CurDir] + b);
    WalkAppend(k, fs, root, current, a, [Normal(name), ParentDir] + b);
    WalkAppend(k, fs, root, current, a, b);
    WalkStaysUnder(k, fs, root, current, a);
    if WalkComps(k, fs, root, current, a).Yes? {
      var at := WalkComps(k, fs, root, current, a).value;
      assert ([CurDir] + b)[1..] == b;
      if Passable(k, fs, at + [name]) {
        Detour(k, fs, root, at, name, b);
      }
    }
  }

  lemma Detour(k: Deref, fs: Fs, root: Path, at: Path, name: string, b: UserPath)
    requires root <= at && Passable(k, fs, at + [name])
    ensures WalkComps(k, fs, root, at, [Normal(name), ParentDir] + b) == WalkComps(k, fs, root, at, b)
  {
    hide Lstat;
    var comps := [Normal(name), ParentDir] + b;
    assert comps[1..] == [ParentDir] + b && comps[1..][1..] == b;
    assert Parent(at + [name]) == at && at + [name] != root;
  }

  function Names(names: Path): UserPath {
    seq(|names|, i requires 0 <= i < |names| => Normal(names[i]))
  }

  /** A path of plain names is those names below where it starts, exactly if every one of them is passable. */
  lemma {:induction false} NamesAreLiteral(k: Deref, fs: Fs, root: Path, current: Path, names: Path)
    requires root <= current
    ensures (forall i :: 0 < i <= |names| ==> Passable(k, fs, current + names[..i]))
       <==> WalkComps(k, fs, root, current, Names(names)) == Yes(current + names)
    ensures WalkComps(k, fs, root, current, Names(names)).Yes? ==>
              WalkComps(k, fs, root, current, Names(names)).value == current + names
    decreases |names|
  {
    hide Lstat;
    if names == [] {
      assert current + names == current;
    } else {
      var next := current + [names[0]];
      assert Names(names)[1..] == Names(names[1..]);
      assert next + names[1..] == current + names && current + names[..1] == next;
      NamesAreLiteral(k, fs, root, next, names[1..]);
      forall i | 0 < i <= |names[1..]|
        ensures next + names[1..][..i] == current + names[..i + 1]
      {
      }
      if forall i :: 0 < i <= |names| ==> Passable(k, fs, current + names[..i]) {
        forall i | 0 < i <= |names[1..]|
          ensures Passable(k, fs, next + names[1..][..i])
        {
          assert Passable(k, fs, current + names[..i + 1]);
        }
      } else if Passable(k, fs, next) {
        var i :| 0 < i <= |names| && !Passable(k, fs, current + names[..i]);
        assert next + names[1..][..i - 1] == current + names[..i];
      }
    }
  }

  /** An absolute path does not depend on the working directory. */
  lemma AbsoluteIgnoresCwd(k: Deref, fs: Fs, cwd: Path, cwd': Path, root: Path, path: UserPath)
    requires path != [] && path[0].RootDir?
    ensures WalkSafe(k, fs, cwd, root, path) == WalkSafe(k, fs, cwd', root, path)
  {
  }

  /** The component leads nowhere from there. */
  predicate Blocked(k: Deref, fs: Fs, root: Path, at: Path, comp: Comp) {
    match comp
    case Normal(name) => !Passable(k, fs, at + [name])
    case ParentDir => at == root
    case Prefix => true
    case _ => false
  }

  /** A walk is refused exactly if it comes to a component that leads nowhere. */
  lemma {:induction false} RefusedIff(k: Deref, fs: Fs, root: Path, current: Path, comps: UserPath)
    requires root <= current
    ensures WalkComps(k, fs, root, current, comps).No?
       <==> exists i :: 0 <= i < |comps| && BlockedAt(k, fs, root, current, comps, i)
    decreases |comps|
  {
    hide Lstat, Passable;
    if comps != [] {
      var n := |comps| - 1;
      var a := comps[..n];
      assert comps == a + [comps[n]];
      RefusedIff(k, fs, root, current, a);
      WalkAppend(k, fs, root, current, a, [comps[n]]);
      WalkStaysUnder(k, fs, root, current, a);
      forall i | 0 <= i < n
        ensures comps[..i] == a[..i] && comps[i] == a[i]
        ensures BlockedAt(k, fs, root, current, comps, i) <==> BlockedAt(k, fs, root, current, a, i)
      {
      }
      if WalkComps(k, fs, root, current, a).Yes? {
        OneStep(k, fs, root, WalkComps(k, fs, root, current, a).value, comps[n]);
        assert BlockedAt(k, fs, root, current, comps, n)
          <==> Blocked(k, fs, root, WalkComps(k, fs, root, current, a).value, comps[n]);
      } else {
        var i :| 0 <= i < |a| && BlockedAt(k, fs, root, current, a, i);
        assert BlockedAt(k, fs, root, current, comps, i);
      }
    }
  }

  ghost predicate BlockedAt(k: Deref, fs: Fs, root: Path, current: Path, comps: UserPath, i: nat)
    requires i < |comps|
  {
    && WalkComps(k, fs, root, current, comps[..i]).Yes?
    && Blocked(k, fs, root, WalkComps(k, fs, root, current, comps[..i]).value, comps[i])
  }

  lemma OneStep(k: Deref, fs: Fs, root: Path, at: Path, comp: Comp)
    requires root <= at
    ensures WalkComps(k, fs, root, at, [comp]).No? <==> Blocked(k, fs, root, at, comp)
  {
    hide Lstat;
    assert [comp][1..] == [];
  }

  // ---- the ancestor re-check --------------------------------------------

  /** The root-first part of the re-check: ancestors of `target` from length `i` on. */
  function CheckFrom(k: Deref, fs: Fs, target: Path, root: Path, i: nat): Answer<()>
    requires i <= |target|
    decreases |target| - i
  {
    if i == |target| then Yes(())
    else
      match Lstat(k, fs, target[..i])
      case Ok(node) =>
        if node.Link? && target[..i] != root then No(PermissionDenied)
        else CheckFrom(k, fs, target, root, i + 1)
      case Err(e) => if e == ENOENT then No(NotFound) else No(Internal)
  }

  /** `recheck_ancestors_no_symlinks`. */
  function RecheckAncestors(k: Deref, fs: Fs, target: Path, root: Path): Answer<()> {
    if target == [] then Yes(())
    else if !(root <= Parent(target)) then No(PermissionDenied)
    else CheckFrom(k, fs, target, root, |root|)
  }

  /** `recheck_path_no_symlinks`. */
  function RecheckPath(k: Deref, fs: Fs, target: Path, root: Path): Answer<()> {
    if target == root then Yes(())
    else
      match RecheckAncestors(k, fs, target, root)
      case No(c) => No(c)
      case Yes(_) =>
        match Lstat(k, fs, target)
        case Ok(node) => if node.Link? then No(PermissionDenied) else Yes(())
        case Err(e) => if e == ENOENT then No(NotFound) else No(Internal)
  }

  /** The root is a real directory, in a well-formed tree. */
  ghost predicate Rooted(fs: Fs, root: Path) {
    WellFormed(fs) && IsDir(fs, root)
  }

  /**
   * Every proper ancestor of `target` from the root down is really there and
   * no link, and all but the immediate parent are directories.
   */
  ghost predicate ClearAncestors(fs: Fs, target: Path, root: Path) {
    && root < target
    && (forall i :: |root| <= i < |target| ==> target[..i] in fs && !IsLink(fs, target[..i]))
    && (forall i :: 0 <= i < |target| - 1 ==> IsDir(fs, target[..i]))
  }

  /** Below real directories a successful lookup is literal. */
  lemma LookupIsLiteral(k: Deref, fs: Fs, p: Path)
    requires p != [] && Parent(p) in fs && !IsLink(fs, Parent(p))
    requires forall j :: 0 <= j < |p| - 1 ==> IsDir(fs, p[..j])
    requires Lstat(k, fs, p).Ok?
    ensures IsDir(fs, Parent(p)) && p in fs && Lstat(k, fs, p) == Ok(fs[p])
  {
    if IsDir(fs, Parent(p)) {
      assert p[..|p| - 1] == Parent(p);
      LocateLiteral(k, fs, p, false);
    } else {
      LocateBelowFile(k, fs, p, false);
    }
  }

  /** Root first, so each lookup can trust that its own ancestors are real directories. */
  lemma {:induction false} CheckFromClears(k: Deref, fs: Fs, target: Path, root: Path, i: nat)
    requires root < target && |root| < i <= |target|
    requires forall j :: |root| <= j < i ==> target[..j] in fs && !IsLink(fs, target[..j])
    requires forall j :: 0 <= j < i - 1 ==> IsDir(fs, target[..j])
    requires CheckFrom(k, fs, target, root, i).Yes?
    ensures ClearAncestors(fs, target, root)
    decreases |target| - i
  {
    hide Lstat;
    if i < |target| {
      var p := target[..i];
      assert Parent(p) == target[..i - 1];
      assert forall j :: 0 <= j < i ==> p[..j] == target[..j];
      LookupIsLiteral(k, fs, p);
      CheckFromClears(k, fs, target, root, i + 1);
    }
  }

  /** The kernel will act at the written location, or nowhere. */
  lemma ClearMeansLiteral(k: Deref, fs: Fs, target: Path, root: Path)
    requires ClearAncestors(fs, target, root)
    ensures Locate(k, fs, target, false) == if IsDir(fs, Parent(target)) then Ok(target) else Err(ENOTDIR)
    ensures !IsLink(fs, target) ==> Locate(k, fs, target, true) == Locate(k, fs, target, false)
  {
    hide Locate;
    var n := |target| - 1;
    assert Parent(target) == target[..n] && n >= |root|;
    if IsDir(fs, Parent(target)) {
      LocateLiteral(k, fs, target, false);
      if !IsLink(fs, target) {
        LocateLiteral(k, fs, target, true);
      }
    } else {
      LocateBelowFile(k, fs, target, false);
      LocateBelowFile(k, fs, target, true);
    }
  }

  lemma {:induction false} ClearsCheckFrom(k: Deref, fs: Fs, target: Path, root: Path, i: nat)
    requires WellFormed(fs) && ClearAncestors(fs, target, root) && |root| <= i <= |target|
    ensures CheckFrom(k, fs, target, root, i).Yes?
    decreases |target| - i
  {
    hide Lstat;
    if i < |target| {
      LocateExisting(k, fs, target[..i]);
      ClearsCheckFrom(k, fs, target, root, i + 1);
    }
  }

  /** The re-check passes exactly when the ancestors are clear. */
  lemma RecheckClears(k: Deref, fs: Fs, target: Path, root: Path)
    requires Rooted(fs, root)
    ensures RecheckAncestors(k, fs, target, root).Yes? <==> target == [] || ClearAncestors(fs, target, root)
  {
    hide Lstat;
    if target != [] && ClearAncestors(fs, target, root) {
      ClearsCheckFrom(k, fs, target, root, |root|);
    }
    if target != [] && RecheckAncestors(k, fs, target, root).Yes? {
      PassedIsClear(k, fs, target, root);
    }
  }

  lemma PassedIsClear(k: Deref, fs: Fs, target: Path, root: Path)
    requires Rooted(fs, root) && target != [] && RecheckAncestors(k, fs, target, root).Yes?
    ensures ClearAncestors(fs, target, root)
  {
    assert root <= Parent(target) < target;
    assert target[..|root|] == root;
    forall j | 0 <= j < |root|
      ensures IsDir(fs, target[..j])
    {
      AncestorsAreDirs(fs, root, j);
      assert root[..j] == target[..j];
    }
    LocateExisting(k, fs, root);
    hide Lstat;
    assert CheckFrom(k, fs, target, root, |root| + 1).Yes?;
    CheckFromClears(k, fs, target, root, |root| + 1);
  }

  // ---- requests ---------------------------------------------------------

  datatype Request =
    | Pwd | Cd(path: UserPath) | Ls(path: UserPath) | Mkdir(path: UserPath) | Rmdir(path: UserPath)
    | Rm(path: UserPath) | Rename(from: UserPath, to: UserPath) | Chmod(path: UserPath, mode: nat)
    | StatOf(path: UserPath) | Quota | Transfer

  datatype Response =
    | Done | Fail(code: ErrorCode) | PathIs(rel: Path) | Listing(entries: map<string, Node>) | FileStat(node: Node)

  /** Entries of the directory at `d`, upload temps hidden. */
  function Entries(fs: Fs, d: Path): map<string, Node> {
    map n | n in (set p | p in fs && d < p && |p| == |d| + 1 :: p[|d|]) && !IsTempName(n) && d + [n] in fs
      :: fs[d + [n]]
  }

  function Mutate(fs: Fs, r: Result<Fs>): (Fs, Response) {
    match r
    case Ok(fs') => (fs', Done)
    case Err(e) => (fs, Fail(IoCode(e)))
  }

  /** `set_mode`: refuses a link in last position and the special bits. */
  function SetMode(k: Deref, fs: Fs, target: Path, mode: nat): (Fs, Response) {
    match Lstat(k, fs, target)
    case Err(e) => (fs, Fail(IoCode(e)))
    case Ok(node) =>
      if node.Link? then (fs, Fail(PermissionDenied))
      else
        match FileSystem.Chmod(k, fs, target, mode % 0x200)
        case Ok(fs') => (fs', Done)
        case Err(_) => (fs, Fail(Internal))
  }

  /** The requests that change the tree, `target` being resolved: re-check, then the system call. */
  function Guarded(k: Deref, fs: Fs, root: Path, target: Answer<Path>, call: Path -> (Fs, Response)): (Fs, Response) {
    match target
    case No(c) => (fs, Fail(c))
    case Yes(t) =>
      match RecheckAncestors(k, fs, t, root)
      case No(c) => (fs, Fail(c))
      case Yes(_) => call(t)
  }

  /** The tree and the answer after one request other than Cd. */
  function Perform(k: Deref, fs: Fs, cwd: Path, root: Path, req: Request): (Fs, Response) {
    match req
    case Mkdir(p) =>
      Guarded(k, fs, root, ResolveParent(k, fs, cwd, root, p), t => Mutate(fs, FileSystem.Mkdir(k, fs, t)))
    case Rmdir(p) =>
      Guarded(k, fs, root, Resolve(k, fs, cwd, root, p), t => Mutate(fs, FileSystem.Rmdir(k, fs, t)))
    case Rm(p) =>
      if IsUploadTemp(p) then (fs, Fail(PermissionDenied))
      else Guarded(k, fs, root, Resolve(k, fs, cwd, root, p), t => Mutate(fs, Unlink(k, fs, t)))
    case Rename(from, to) =>
      if IsUploadTemp(from) || IsUploadTemp(to) then (fs, Fail(PermissionDenied))
      else
        (match (Resolve(k, fs, cwd, root, from), ResolveParent(k, fs, cwd, root, to))
         case (No(c), _) => (fs, Fail(c))
         case (_, No(c)) => (fs, Fail(c))
         case (Yes(src), Yes(dst)) =>
           match (RecheckAncestors(k, fs, src, root), RecheckAncestors(k, fs, dst, root))
           case (No(c), _) => (fs, Fail(c))
           case (_, No(c)) => (fs, Fail(c))
           case (Yes(_), Yes(_)) => Mutate(fs, FileSystem.Rename(k, fs, src, dst)))
    case Chmod(p, mode) =>
      Guarded(k, fs, root, Resolve(k, fs, cwd, root, p), t => SetMode(k, fs, t, mode))
    case Pwd => (fs, PathIs(if root <= cwd then cwd[|root|..] else []))
    case Ls(p) =>
      (match if p == [] then Yes(cwd) else Resolve(k, fs, cwd, root, p)
       case No(c) => (fs, Fail(c))
       case Yes(d) =>
         match RecheckPath(k, fs, d, root)
         case No(c) => (fs, Fail(c))
         case Yes(_) =>
           match Locate(k, fs, d, true)
           case Err(e) => (fs, Fail(IoCode(e)))
           case Ok(q) =>
             if q !in fs then (fs, Fail(NotFound))
             else if !fs[q].Dir? then (fs, Fail(Internal))
             else (fs, Listing(Entries(fs, q))))
    case StatOf(p) =>
      (match Resolve(k, fs, cwd, root, p)
       case No(c) => (fs, Fail(c))
       case Yes(t) =>
         match if t == root then Yes(()) else RecheckAncestors(k, fs, t, root)
         case No(c) => (fs, Fail(c))
         case Yes(_) =>
           match Lstat(k, fs, t)
           case Err(e) => (fs, Fail(IoCode(e)))
           case Ok(node) => if node.Link? then (fs, Fail(PermissionDenied)) else (fs, FileStat(node)))
    case Transfer => (fs, Fail(Malformed))
    case Quota => (fs, Fail(Unsupported))
    case Cd(_) => (fs, Done)
  }

  function ChangeDir(k: Deref, fs: Fs, cwd: Path, root: Path, p: UserPath): (Path, Response) {
    match Resolve(k, fs, cwd, root, p)
    case No(c) => (cwd, Fail(c))
    case Yes(t) =>
      match RecheckPath(k, fs, t, root)
      case No(c) => (cwd, Fail(c))
      case Yes(_) =>
        match Stat(k, fs, t)
        case Ok(node) => if node.Dir? then (t, Done) else (cwd, Fail(NotADirectory))
        case Err(_) => (cwd, Fail(NotADirectory))
  }

  datatype Outcome = Outcome(fs: Fs, cwd: Path, response: Response)

  /** `handle_request`. */
  function Handle(k: Deref, fs: Fs, cwd: Path, root: Path, req: Request): Outcome {
    if req.Cd? then
      var (cwd', response) := ChangeDir(k, fs, cwd, root, req.path);
      Outcome(fs, cwd', response)
    else
      var (fs', response) := Perform(k, fs, cwd, root, req);
      Outcome(fs', cwd, response)
  }
}
