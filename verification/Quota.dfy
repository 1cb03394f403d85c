/**
 * The cached byte count of a user's home: every request through the
 * quota-aware wrappers keeps it equal to what a full walk of the tree would
 * count. Assumes no hard links, as the tree maps each location to one node.
 */
module Quota {
  import opened Bytes
  import opened Codes
  import opened Sums
  import opened FileSystem
  import opened Handler
  import opened Confinement

  /** Everything strictly below a directory. */
  function Under(fs: Fs, d: Path): Fs {
    map p | p in fs && d < p :: fs[p]
  }

  function Subtree(fs: Fs, d: Path): Fs {
    map p | p in fs && d <= p :: fs[p]
  }

  function FileBytes(n: Node): nat {
    if n.File? then n.size else 0
  }

  /** What `walk_size` counts. */
  ghost function BytesUnder(fs: Fs, home: Path): nat {
    Sum(FileBytes, Under(fs, home))
  }

  /** Moving a tree moves every entry to exactly one new place. */
  lemma {:induction false} GraftSum(w: Node -> nat, m: Fs, src: Path, dst: Path)
    requires forall p :: p in m ==> src <= p
    ensures Sum(w, Graft(m, src, dst)) == Sum(w, m)
    decreases |m|
  {
    hide Graft;
    if m == map[] {
      GraftEmpty(src, dst);
    } else {
      var p :| p in m;
      var q := dst + p[|src|..];
      assert src + q[|dst|..] == p;
      GraftAt(m, src, dst, q);
      GraftValue(m, src, dst, q);
      SumRemove(w, m, p);
      SumRemove(w, Graft(m, src, dst), q);
      GraftRemove(m, src, dst, p);
      GraftSum(w, m - {p}, src, dst);
    }
  }

  lemma GraftEmpty(src: Path, dst: Path)
    ensures Graft(map[], src, dst) == map[]
  {
  }

  lemma GraftValue(m: Fs, src: Path, dst: Path, q: Path)
    requires q in Graft(m, src, dst)
    ensures Graft(m, src, dst)[q] == m[src + q[|dst|..]]
  {
  }

  lemma GraftRemove(m: Fs, src: Path, dst: Path, p: Path)
    requires p in m && src <= p
    ensures Graft(m, src, dst) - {dst + p[|src|..]} == Graft(m - {p}, src, dst)
  {
    hide Graft;
    var gone := dst + p[|src|..];
    var left, right := Graft(m, src, dst) - {gone}, Graft(m - {p}, src, dst);
    forall q: Path
      ensures q in left <==> q in right
      ensures q in left && q in right ==> left[q] == right[q]
    {
      GraftAt(m, src, dst, q);
      GraftAt(m - {p}, src, dst, q);
      if dst <= q && src + q[|dst|..] == p {
        assert q == dst + q[|dst|..] && p[|src|..] == q[|dst|..];
      }
      if q in left && q in right {
        GraftValue(m, src, dst, q);
        GraftValue(m - {p}, src, dst, q);
      }
    }
  }

  // ---- the effect of one request on the count ---------------------------

  lemma CreateDirKeepsBytes(fs: Fs, home: Path, t: Path)
    requires t !in fs
    ensures BytesUnder(fs[t := Dir(0)], home) == BytesUnder(fs, home)
  {
    var before, after := Under(fs, home), Under(fs[t := Dir(0)], home);
    if home < t {
      assert after == before[t := Dir(0)] && before - {t} == before;
      SumInsert(FileBytes, before, t, Dir(0));
    } else {
      assert after == before;
    }
  }

  lemma RemoveCounts(fs: Fs, home: Path, t: Path)
    requires t in fs && home < t
    ensures BytesUnder(fs, home) == BytesUnder(fs - {t}, home) + FileBytes(fs[t])
  {
    assert Under(fs - {t}, home) == Under(fs, home) - {t};
    SumRemove(FileBytes, Under(fs, home), t);
  }

  lemma ChmodKeepsBytes(fs: Fs, home: Path, t: Path, mode: nat)
    requires t in fs
    ensures BytesUnder(fs[t := WithMode(fs[t], mode)], home) == BytesUnder(fs, home)
  {
    var n := WithMode(fs[t], mode);
    var before, after := Under(fs, home), Under(fs[t := n], home);
    if home < t {
      assert after == before[t := n];
      SumInsert(FileBytes, before, t, n);
      SumRemove(FileBytes, before, t);
    } else {
      assert after == before;
    }
  }

  /** Entries below `home` that a rename neither moves nor replaces. */
  function Kept(fs: Fs, home: Path, src: Path, dst: Path): Fs {
    map p | p in fs && home < p && !(src <= p) && !(dst <= p) :: fs[p]
  }

  function Replaced(fs: Fs, dst: Path): Fs {
    map p | p in fs && p == dst :: fs[p]
  }

  lemma UnderBefore(fs: Fs, home: Path, src: Path, dst: Path)
    requires home < src && home < dst && !(src <= dst) && !HasChildren(fs, dst)
    ensures Under(fs, home) == (Kept(fs, home, src, dst) + Subtree(fs, src)) + Replaced(fs, dst)
  {
    forall p | p in fs && dst <= p
      ensures p == dst
    {
    }
  }

  lemma UnderAfter(fs: Fs, home: Path, src: Path, dst: Path)
    requires home < dst
    ensures Under(Rest(fs, src, dst) + Graft(fs, src, dst), home) == Kept(fs, home, src, dst) + Graft(fs, src, dst)
    ensures Kept(fs, home, src, dst).Keys !! Graft(fs, src, dst).Keys
  {
    hide Graft;
    forall q | q in Graft(fs, src, dst)
      ensures dst <= q
    {
      GraftAt(fs, src, dst, q);
    }
  }

  lemma ReplacedSum(fs: Fs, dst: Path)
    ensures Sum(FileBytes, Replaced(fs, dst)) == if dst in fs then FileBytes(fs[dst]) else 0
  {
    hide Sum;
    SumEmpty<Path, Node>(FileBytes);
    if dst in fs {
      var none: Fs := map[];
      SumInsert(FileBytes, none, dst, fs[dst]);
      assert none[dst := fs[dst]] == Replaced(fs, dst) && none - {dst} == none;
    } else {
      assert Replaced(fs, dst) == map[];
    }
  }

  /** A rename frees exactly the entry it replaces. */
  lemma RenameCounts(fs: Fs, home: Path, src: Path, dst: Path)
    requires home < src && home < dst && !(src <= dst) && !HasChildren(fs, dst) && src in fs
    ensures BytesUnder(fs, home)
         == BytesUnder(Rest(fs, src, dst) + Graft(fs, src, dst), home)
            + (if dst in fs then FileBytes(fs[dst]) else 0)
  {
    hide Sum, Graft, Under, Rest;
    var kept, moved, replaced := Kept(fs, home, src, dst), Subtree(fs, src), Replaced(fs, dst);
    UnderBefore(fs, home, src, dst);
    SumUnion(FileBytes, kept + moved, replaced);
    SumUnion(FileBytes, kept, moved);
    ReplacedSum(fs, dst);
    UnderAfter(fs, home, src, dst);
    SumUnion(FileBytes, kept, Graft(fs, src, dst));
    GraftOfSubtree(fs, src, dst);
    GraftSum(FileBytes, moved, src, dst);
  }

  lemma GraftOfSubtree(fs: Fs, src: Path, dst: Path)
    ensures Graft(fs, src, dst) == Graft(Subtree(fs, src), src, dst)
  {
    var left, right := Graft(fs, src, dst), Graft(Subtree(fs, src), src, dst);
    forall q: Path
      ensures q in left <==> q in right
      ensures q in left && q in right ==> left[q] == right[q]
    {
      GraftAt(fs, src, dst, q);
      GraftAt(Subtree(fs, src), src, dst, q);
    }
  }

  // ---- the quota-aware wrappers -----------------------------------------

  function SaturatingSub(a: nat, b: nat): nat {
    if a >= b then a - b else 0
  }

  /** Size of a regular file as `symlink_metadata` reports it, 0 for anything else. */
  function RegularSize(k: Deref, fs: Fs, p: Path): nat {
    match Lstat(k, fs, p)
    case Ok(node) => FileBytes(node)
    case Err(_) => 0
  }

  /** `quota_aware_remove`: tree, answer and counter. */
  function QuotaRemove(k: Deref, fs: Fs, cwd: Path, root: Path, used: nat, path: UserPath): (Fs, Response, nat) {
    if IsUploadTemp(path) then (fs, Fail(PermissionDenied), used)
    else
      match Resolve(k, fs, cwd, root, path)
      case No(c) => (fs, Fail(c), used)
      case Yes(t) =>
        match RecheckAncestors(k, fs, t, root)
        case No(c) => (fs, Fail(c), used)
        case Yes(_) =>
          var preSize := RegularSize(k, fs, t);
          match Unlink(k, fs, t)
          case Ok(fs') => (fs', Done, if preSize > 0 then SaturatingSub(used, preSize) else used)
          case Err(e) => (fs, Fail(IoCode(e)), used)
  }

  /** `quota_aware_rename`: the size at the destination is read before the rename is validated. */
  function QuotaRename(k: Deref, fs: Fs, cwd: Path, root: Path, used: nat, from: UserPath, to: UserPath)
    : (Fs, Response, nat)
  {
    var clobbered :=
      match (Resolve(k, fs, cwd, root, from), ResolveParent(k, fs, cwd, root, to))
      case (Yes(f), Yes(t)) => if f != t then RegularSize(k, fs, t) else 0
      case _ => 0;
    var (fs', response) := Perform(k, fs, cwd, root, Request.Rename(from, to));
    (fs', response, if response == Done && clobbered > 0 then SaturatingSub(used, clobbered) else used)
  }

  /** `run_handler`: the dispatch of a request to the wrappers. */
  function RunHandler(k: Deref, fs: Fs, cwd: Path, root: Path, used: nat, req: Request): (Outcome, nat) {
    match req
    case Rm(path) =>
      var (fs', response, used') := QuotaRemove(k, fs, cwd, root, used, path);
      (Outcome(fs', cwd, response), used')
    case Rename(from, to) =>
      var (fs', response, used') := QuotaRename(k, fs, cwd, root, used, from, to);
      (Outcome(fs', cwd, response), used')
    case _ => (Handle(k, fs, cwd, root, req), used)
  }

  /** The wrappers change the tree exactly as the plain handler does. */
  lemma WrappersOnlyCount(k: Deref, fs: Fs, cwd: Path, root: Path, used: nat, req: Request)
    ensures RunHandler(k, fs, cwd, root, used, req).0 == Handle(k, fs, cwd, root, req)
  {
    hide WalkSafe, Stat, Lstat, Locate, RecheckAncestors;
  }

  lemma RemoveKeepsCount(k: Deref, fs: Fs, cwd: Path, root: Path, used: nat, path: UserPath)
    requires Rooted(fs, root) && used == BytesUnder(fs, root)
    ensures QuotaRemove(k, fs, cwd, root, used, path).2 == BytesUnder(QuotaRemove(k, fs, cwd, root, used, path).0, root)
  {
    hide WalkSafe, Stat, Locate, RecheckAncestors, BytesUnder, Lstat;
    var (fs', response, used') := QuotaRemove(k, fs, cwd, root, used, path);
    PerformIsLiteral(k, fs, cwd, root, Rm(path));
    if response == Done {
      var t := WalkSafe(k, fs, cwd, root, path).value;
      LocateExisting(k, fs, t);
      RemoveCounts(fs, root, t);
    }
  }

  lemma RenameKeepsCount(k: Deref, fs: Fs, cwd: Path, root: Path, used: nat, from: UserPath, to: UserPath)
    requires Rooted(fs, root) && used == BytesUnder(fs, root)
    ensures var r := QuotaRename(k, fs, cwd, root, used, from, to); r.2 == BytesUnder(r.0, root)
  {
    hide WalkSafe, Stat, RecheckAncestors, BytesUnder, Graft, Rest, Locate;
    PerformIsLiteral(k, fs, cwd, root, Request.Rename(from, to));
    var (fs', response) := Perform(k, fs, cwd, root, Request.Rename(from, to));
    if response == Done {
      var src, dst := WalkSafe(k, fs, cwd, root, from).value, WalkSafe(k, fs, cwd, root, to).value;
      ClearMeansLiteral(k, fs, dst, root);
      if src != dst {
        RenameCountsIfReplacing(fs, root, src, dst);
      }
    }
  }

  lemma RenameCountsIfReplacing(fs: Fs, home: Path, src: Path, dst: Path)
    requires WellFormed(fs) && home < src && home < dst && !(src <= dst) && src in fs
    requires dst in fs ==> !HasChildren(fs, dst)
    ensures BytesUnder(fs, home)
         == BytesUnder(Rest(fs, src, dst) + Graft(fs, src, dst), home)
            + (if dst in fs then FileBytes(fs[dst]) else 0)
  {
    hide BytesUnder, Graft, Rest;
    if dst !in fs {
      forall p | p in fs
        ensures !(dst < p)
      {
        if dst < p {
          assert p[..|dst|] == dst;
          AncestorsAreDirs(fs, p, |dst|);
        }
      }
    }
    RenameCounts(fs, home, src, dst);
  }

  /** One request keeps the cached count equal to a full walk. */
  lemma StepKeepsCount(k: Deref, fs: Fs, cwd: Path, root: Path, used: nat, req: Request)
    requires Rooted(fs, root) && used == BytesUnder(fs, root)
    ensures var (o, used') := RunHandler(k, fs, cwd, root, used, req); used' == BytesUnder(o.fs, root)
  {
    hide WalkSafe, Perform, ChangeDir, BytesUnder, QuotaRemove, QuotaRename;
    match req
    case Rm(path) => RemoveKeepsCount(k, fs, cwd, root, used, path);
    case Rename(from, to) => RenameKeepsCount(k, fs, cwd, root, used, from, to);
    case Mkdir(p) =>
      PerformIsLiteral(k, fs, cwd, root, req);
      if Perform(k, fs, cwd, root, req).1 == Done {
        CreateDirKeepsBytes(fs, root, WalkSafe(k, fs, cwd, root, p).value);
      }
    case Rmdir(p) =>
      PerformIsLiteral(k, fs, cwd, root, req);
      if Perform(k, fs, cwd, root, req).1 == Done {
        RemoveCounts(fs, root, WalkSafe(k, fs, cwd, root, p).value);
      }
    case Chmod(p, mode) =>
      PerformIsLiteral(k, fs, cwd, root, req);
      if Perform(k, fs, cwd, root, req).1 == Done {
        ChmodKeepsBytes(fs, root, WalkSafe(k, fs, cwd, root, p).value, mode % 0x200);
      }
    case Cd(_) =>
    case _ => PerformIsLiteral(k, fs, cwd, root, req);
  }

  /** The counter after a run of requests by any connections, one at a time. */
  function RunCount(k: Deref, s: Server, root: Path, used: nat, events: seq<Event>): nat
    decreases |events|
  {
    if events == [] then used
    else
      var e := events[0];
      var used' := RunHandler(k, s.fs, CwdOf(s, e.conn, root), root, used, e.req).1;
      RunCount(k, Step(k, s, root, e), root, used', events[1..])
  }

  /**
   * For every sequential run: the counter, started at the size of the home,
   * still equals it, whatever was removed, overwritten or moved.
   */
  lemma {:induction false} RunKeepsCount(k: Deref, s: Server, root: Path, used: nat, events: seq<Event>)
    requires Confined(s, root) && used == BytesUnder(s.fs, root)
    ensures RunCount(k, s, root, used, events) == BytesUnder(RunAll(k, s, root, events).fs, root)
    decreases |events|
  {
    hide Handle, RunHandler, BytesUnder;
    if events != [] {
      var e := events[0];
      var cwd := CwdOf(s, e.conn, root);
      WrappersOnlyCount(k, s.fs, cwd, root, used, e.req);
      StepKeepsCount(k, s.fs, cwd, root, used, e.req);
      StepIsConfined(k, s.fs, cwd, root, e.req);
      RunKeepsCount(k, Step(k, s, root, e), root,
                    RunHandler(k, s.fs, cwd, root, used, e.req).1, events[1..]);
    }
  }
}
