/**
 * The handler's loops in their own form: resolving a path component by
 * component, collecting ancestors and checking them root first, the walk
 * that counts a home, and a connection that carries its state from one
 * request to the next.
 */
module Session {
  import opened Bytes
  import opened Codes
  import opened FileSystem
  import opened Handler
  import opened Confinement
  import opened Quota
  import opened Sums

  /** `walk_safe`. */
  method WalkSafeLoop(k: Deref, fs: Fs, cwd: Path, root: Path, path: UserPath) returns (r: Answer<Path>)
    ensures r == WalkSafe(k, fs, cwd, root, path)
    ensures r.Yes? ==> root <= r.value
  {
    var current := if path != [] && path[0].RootDir? then root else cwd;
    WalkSafeUnder(k, fs, cwd, root, path);
    assert path[0..] == path;
    for i := 0 to |path|
      invariant WalkComps(k, fs, root, current, path[i..]) == WalkSafe(k, fs, cwd, root, path)
    {
      assert path[i..][1..] == path[i + 1..];
      match path[i] {
        case RootDir => current := root;
        case CurDir =>
        case ParentDir =>
          if current == root || current == [] {
            return No(PermissionDenied);
          }
          current := Parent(current);
          if !(root <= current) {
            return No(PermissionDenied);
          }
        case Normal(name) =>
          current := current + [name];
          match Lstat(k, fs, current) {
            case Ok(node) =>
              if node.Link? {
                return No(PermissionDenied);
              }
            case Err(e) =>
              if e != ENOENT {
                return No(Internal);
              }
          }
        case Prefix =>
          return No(Malformed);
      }
    }
    if !(root <= current) {
      return No(PermissionDenied);
    }
    r := Yes(current);
  }

  /** `recheck_ancestors_no_symlinks`: collect upwards, check downwards. */
  method RecheckLoop(k: Deref, fs: Fs, target: Path, root: Path) returns (r: Answer<()>)
    ensures r == RecheckAncestors(k, fs, target, root)
  {
    var ancestors: seq<Path> := [];
    if target == [] {
      return Yes(());
    }
    var cur := Parent(target);
    while cur != root
      invariant |ancestors| < |target| && cur == target[..|target| - 1 - |ancestors|]
      invariant forall j :: 0 <= j < |ancestors| ==> ancestors[j] == target[..|target| - 1 - j]
      invariant root <= Parent(target) <==> root <= cur
      decreases |cur|
    {
      if !(root <= cur) {
        return No(PermissionDenied);
      }
      ancestors := ancestors + [cur];
      cur := Parent(cur);
    }
    ancestors := ancestors + [cur];
    var i := |ancestors|;
    while i > 0
      invariant 0 <= i <= |ancestors| == |target| - |root|
      invariant CheckFrom(k, fs, target, root, |root|) == CheckFrom(k, fs, target, root, |target| - i)
    {
      i := i - 1;
      match Lstat(k, fs, ancestors[i]) {
        case Ok(node) =>
          if node.Link? && ancestors[i] != root {
            return No(PermissionDenied);
          }
        case Err(e) =>
          return No(if e == ENOENT then NotFound else Internal);
      }
    }
    r := Yes(());
  }

  // ---- the walk that counts a home --------------------------------------

  /** Names in the directory at `d`. */
  function Names(fs: Fs, d: Path): set<string> {
    set p | p in fs && d < p && |p| == |d| + 1 :: p[|d|]
  }

  /** Everything at and below the named entries of `d`. */
  function Forest(fs: Fs, d: Path, names: set<string>): Fs {
    map p | p in fs && d < p && p[|d|] in names :: fs[p]
  }

  lemma ForestIsUnder(fs: Fs, d: Path)
    requires WellFormed(fs)
    ensures Forest(fs, d, Names(fs, d)) == Under(fs, d)
  {
    forall p | p in fs && d < p
      ensures p[|d|] in Names(fs, d)
    {
      var c := p[..|d| + 1];
      if |p| > |d| + 1 {
        AncestorsAreDirs(fs, p, |d| + 1);
      } else {
        assert c == p;
      }
      assert c in fs && d < c && c[|d|] == p[|d|];
    }
  }

  lemma ForestEmpty(fs: Fs, d: Path, w: Node -> nat)
    ensures Sum(w, Forest(fs, d, {})) == 0
  {
    assert Forest(fs, d, {}) == map[];
  }

  /** Taking one entry out takes its node and everything below it. */
  lemma ForestRemove(fs: Fs, d: Path, names: set<string>, n: string, w: Node -> nat)
    requires n in names && d + [n] in fs
    ensures Sum(w, Forest(fs, d, names))
         == Sum(w, Forest(fs, d, names - {n})) + w(fs[d + [n]]) + Sum(w, Under(fs, d + [n]))
  {
    hide Sum;
    var c := d + [n];
    var rest, tree := Forest(fs, d, names - {n}), Subtree(fs, c);
    forall p | p in fs
      ensures (d < p && p[|d|] == n) <==> c <= p
    {
      if d < p && p[|d|] == n {
        assert p[..|c|] == c;
      }
    }
    assert Forest(fs, d, names) == rest + tree;
    SumUnion(w, rest, tree);
    SumRemove(w, tree, c);
    assert tree - {c} == Under(fs, c) by {
      assert forall p :: p in fs && c <= p ==> (c < p <==> p != c);
    }
  }

  lemma FileHasNothingUnder(fs: Fs, p: Path, w: Node -> nat)
    requires WellFormed(fs) && p in fs && !fs[p].Dir?
    ensures Sum(w, Under(fs, p)) == 0
  {
    FilesHaveNoChildren(fs, p);
    var below := Under(fs, p);
    assert forall q :: q in below ==> q in fs && p < q;
    assert below == map[];
  }

  /** What the directories on the stack still have to contribute. */
  ghost function StackSum(w: Node -> nat, fs: Fs, stack: seq<Path>): nat {
    if stack == [] then 0
    else StackSum(w, fs, stack[..|stack| - 1]) + Sum(w, Under(fs, stack[|stack| - 1]))
  }

  lemma StackPush(w: Node -> nat, fs: Fs, stack: seq<Path>, d: Path)
    ensures StackSum(w, fs, stack + [d]) == StackSum(w, fs, stack) + Sum(w, Under(fs, d))
  {
    assert (stack + [d])[..|stack|] == stack;
  }

  function One(n: Node): nat { 1 }

  function OneFile(n: Node): nat {
    if n.File? then 1 else 0
  }

  /** All entries still to be visited: what the walk terminates on. */
  ghost function Work(fs: Fs, stack: seq<Path>): nat {
    StackSum(One, fs, stack) + |stack|
  }

  // ---- what the walk gets to see -----------------------------------------

  /** Which directories can be listed, and which entries can be listed and looked up there. */
  datatype WalkIo = WalkIo(lists: Path -> bool, stats: Path -> bool)

  predicate Reads(io: WalkIo, p: Path, k: nat)
    requires k < |p|
  {
    io.lists(p[..k]) && io.stats(p[..k + 1])
  }

  /** Everything on the way from `home` down to `p` could be read. */
  ghost predicate Met(io: WalkIo, home: Path, p: Path) {
    forall k :: |home| <= k < |p| ==> Reads(io, p, k)
  }

  /** The tree without what lies below `home` and is not met. */
  ghost function Seen(fs: Fs, io: WalkIo, home: Path): Fs {
    map p | p in fs && (home < p ==> Met(io, home, p)) :: fs[p]
  }

  /** The entries below `home` that are not met. */
  ghost function Missed(fs: Fs, io: WalkIo, home: Path): Fs {
    map p | p in fs && home < p && !Met(io, home, p) :: fs[p]
  }

  lemma SeenIsTree(fs: Fs, io: WalkIo, home: Path)
    requires WellFormed(fs)
    ensures WellFormed(Seen(fs, io, home))
  {
    var seen := Seen(fs, io, home);
    forall p {:trigger Parent(p)} | p in seen && p != []
      ensures IsDir(seen, Parent(p))
    {
      var q := Parent(p);
      if home < q {
        forall k | |home| <= k < |q|
          ensures Reads(io, q, k)
        {
          assert Reads(io, p, k);
          assert q[..k] == p[..k] && q[..k + 1] == p[..k + 1];
        }
      }
    }
  }

  /** Of an entry that is met, exactly the readable entries are. */
  lemma SeenEntry(fs: Fs, io: WalkIo, home: Path, d: Path, n: string)
    requires home <= d && d in Seen(fs, io, home) && d + [n] in fs
    ensures d + [n] in Seen(fs, io, home) <==> io.lists(d) && io.stats(d + [n])
  {
    var p := d + [n];
    assert p[..|d|] == d && p[..|d| + 1] == p && home < p;
    if p in Seen(fs, io, home) {
      assert Reads(io, p, |d|);
    }
    if io.lists(d) && io.stats(p) {
      forall k | |home| <= k < |p|
        ensures Reads(io, p, k)
      {
        if k < |d| {
          assert Reads(io, d, k);
          assert p[..k] == d[..k] && p[..k + 1] == d[..k + 1];
        }
      }
    }
  }

  /** An entry that is not met takes everything below it along. */
  lemma ForestSkips(fs: Fs, io: WalkIo, home: Path, d: Path, names: set<string>, n: string)
    requires home <= d && (!io.lists(d) || !io.stats(d + [n]))
    ensures Forest(Seen(fs, io, home), d, names) == Forest(Seen(fs, io, home), d, names - {n})
  {
    forall p | p in Seen(fs, io, home) && d < p
      ensures p[|d|] != n
    {
      assert p[..|d| + 1] == d + [p[|d|]] && p[..|d|] == d;
      assert Reads(io, p, |d|);
    }
  }

  lemma SeenForest(fs: Fs, io: WalkIo, home: Path, d: Path)
    requires WellFormed(fs) && home <= d
    ensures Forest(Seen(fs, io, home), d, Names(fs, d)) == Under(Seen(fs, io, home), d)
    ensures !io.lists(d) ==> Under(Seen(fs, io, home), d) == map[]
  {
    ForestIsUnder(fs, d);
    var seen := Seen(fs, io, home);
    forall p | p in seen && d < p
      ensures p in Under(fs, d) && p[|d|] in Names(fs, d) && io.lists(d)
    {
      assert p in Under(fs, d) && p in Forest(fs, d, Names(fs, d));
      assert p[..|d|] == d && Reads(io, p, |d|);
    }
  }

  /** The walk misses exactly the bytes of the files it does not meet. */
  lemma UndercountIsMissed(fs: Fs, io: WalkIo, home: Path)
    ensures BytesUnder(fs, home) == BytesUnder(Seen(fs, io, home), home) + Sum(FileBytes, Missed(fs, io, home))
  {
    hide Sum;
    var seen, missed := Under(Seen(fs, io, home), home), Missed(fs, io, home);
    assert Under(fs, home) == seen + missed;
    SumUnion(FileBytes, seen, missed);
  }

  /** One directory of the walk: count its files, stack its directories, skip its links and what cannot be read. */
  method VisitDirectory(fs: Fs, io: WalkIo, ghost home: Path, dir: Path, stack0: seq<Path>, bytes0: nat, count0: nat)
      returns (stack: seq<Path>, bytes: nat, count: nat)
    requires WellFormed(fs) && home <= dir && IsDir(Seen(fs, io, home), dir)
    requires forall d :: d in stack0 ==> home <= d && IsDir(Seen(fs, io, home), d)
    ensures forall d :: d in stack ==> home <= d && IsDir(Seen(fs, io, home), d)
    ensures var seen := Seen(fs, io, home);
            && bytes + StackSum(FileBytes, seen, stack)
            == bytes0 + StackSum(FileBytes, seen, stack0) + Sum(FileBytes, Under(seen, dir))
            && count + StackSum(OneFile, seen, stack)
            == count0 + StackSum(OneFile, seen, stack0) + Sum(OneFile, Under(seen, dir))
            && Work(seen, stack) <= Work(seen, stack0) + Sum(One, Under(seen, dir))
  {
    hide StackSum, Sum, Under, Forest, Seen;
    stack, bytes, count := stack0, bytes0, count0;
    ghost var seen := Seen(fs, io, home);
    SeenIsTree(fs, io, home);
    SeenForest(fs, io, home, dir);
    if !io.lists(dir) {
      SumEmpty<Path, Node>(FileBytes);
      SumEmpty<Path, Node>(OneFile);
      return;
    }
    var names := Names(fs, dir);
    while names != {}
      invariant names <= Names(fs, dir)
      invariant forall d :: d in stack ==> home <= d && IsDir(seen, d)
      invariant bytes + StackSum(FileBytes, seen, stack) + Sum(FileBytes, Forest(seen, dir, names))
             == bytes0 + StackSum(FileBytes, seen, stack0) + Sum(FileBytes, Under(seen, dir))
      invariant count + StackSum(OneFile, seen, stack) + Sum(OneFile, Forest(seen, dir, names))
             == count0 + StackSum(OneFile, seen, stack0) + Sum(OneFile, Under(seen, dir))
      invariant Work(seen, stack) + Sum(One, Forest(seen, dir, names))
             <= Work(seen, stack0) + Sum(One, Under(seen, dir))
      decreases |names|
    {
      var n :| n in names;
      var path := dir + [n];
      NameIsEntry(fs, dir, n);
      SeenEntry(fs, io, home, dir, n);
      if !io.stats(path) {
        ForestSkips(fs, io, home, dir, names, n);
        names := names - {n};
        continue;
      }
      SeenIsThere(fs, io, home, path);
      ForestRemove(seen, dir, names, n, FileBytes);
      ForestRemove(seen, dir, names, n, OneFile);
      ForestRemove(seen, dir, names, n, One);
      names := names - {n};
      if fs[path].Dir? {
        StackPush(FileBytes, seen, stack, path);
        StackPush(OneFile, seen, stack, path);
        StackPush(One, seen, stack, path);
        stack := stack + [path];
      } else {
        FileHasNothingUnder(seen, path, FileBytes);
        FileHasNothingUnder(seen, path, OneFile);
        if fs[path].File? {
          bytes := bytes + fs[path].size;
          count := count + 1;
        }
      }
    }
    ForestEmpty(seen, dir, FileBytes);
    ForestEmpty(seen, dir, OneFile);
  }

  lemma SeenIsThere(fs: Fs, io: WalkIo, home: Path, p: Path)
    requires p in Seen(fs, io, home)
    ensures p in fs && Seen(fs, io, home)[p] == fs[p]
  {
  }

  lemma NameIsEntry(fs: Fs, d: Path, n: string)
    requires n in Names(fs, d)
    ensures d + [n] in fs
  {
    var p :| p in fs && d < p && |p| == |d| + 1 && p[|d|] == n;
    assert p == d + [n];
  }

  /**
   * `walk_size`, by the stack-based `walk_directory`: the bytes and the number
   * of the regular files below `home` that the walk meets.
   */
  method WalkSize(fs: Fs, io: WalkIo, home: Path) returns (bytes: nat, count: nat)
    requires WellFormed(fs) && IsDir(fs, home)
    ensures bytes == BytesUnder(Seen(fs, io, home), home)
    ensures count == Sum(OneFile, Under(Seen(fs, io, home), home))
    ensures bytes + Sum(FileBytes, Missed(fs, io, home)) == BytesUnder(fs, home)
  {
    hide Sum, Under, Missed;
    var stack := [home];
    bytes, count := 0, 0;
    ghost var seen := Seen(fs, io, home);
    assert [home] == [] + [home];
    StackPush(FileBytes, seen, [], home);
    StackPush(OneFile, seen, [], home);
    while stack != []
      invariant forall d :: d in stack ==> home <= d && IsDir(seen, d)
      invariant bytes + StackSum(FileBytes, seen, stack) == Sum(FileBytes, Under(seen, home))
      invariant count + StackSum(OneFile, seen, stack) == Sum(OneFile, Under(seen, home))
      decreases Work(seen, stack)
    {
      var dir := stack[|stack| - 1];
      assert dir in stack;
      var rest := stack[..|stack| - 1];
      forall d | d in rest
        ensures home <= d && IsDir(seen, d)
      {
        assert d in stack;
      }
      stack, bytes, count := VisitDirectory(fs, io, home, dir, rest, bytes, count);
    }
    UndercountIsMissed(fs, io, home);
  }

  // ---- a connection -----------------------------------------------------

  /** One connection of one user, alone on the tree. */
  class Session {
    const deref: Deref
    const root: Path
    var fs: Fs
    var cwd: Path
    var usedBytes: nat

    /** The counter is exact, the working directory under the root. */
    ghost predicate Valid()
      reads this
    {
      Rooted(fs, root) && root <= cwd && usedBytes == BytesUnder(fs, root)
    }

    /** At startup the counter is primed by a full walk: it is exact if all that walk missed is empty. */
    constructor (deref: Deref, fs: Fs, io: WalkIo, root: Path)
      requires Rooted(fs, root)
      ensures this.fs == fs && this.root == root && cwd == root && this.deref == deref
      ensures Valid() <==> Sum(FileBytes, Missed(fs, io, root)) == 0
    {
      this.deref, this.root, this.fs, this.cwd := deref, root, fs, root;
      var bytes, count := WalkSize(fs, io, root);
      usedBytes := bytes;
    }

    /** `run_handler`. */
    method Serve(req: Request) returns (response: Response)
      requires Valid()
      modifies this
      ensures Valid()
      ensures Outcome(fs, cwd, response) == Handle(deref, old(fs), old(cwd), root, req)
      ensures forall p :: Touched(old(fs), fs, p) ==> root < p || (p == root == [] && req.Chmod?)
    {
      hide Handle, RunHandler, BytesUnder;
      WrappersOnlyCount(deref, fs, cwd, root, usedBytes, req);
      StepIsConfined(deref, fs, cwd, root, req);
      StepKeepsCount(deref, fs, cwd, root, usedBytes, req);
      var (o, used') := RunHandler(deref, fs, cwd, root, usedBytes, req);
      fs, cwd, usedBytes, response := o.fs, o.cwd, used', o.response;
    }
  }
}
