/**
 * Confinement of every run of requests, by any number of connections over
 * one tree: each change happens at the very location the request spells out,
 * below the root, even when a connection's working directory has gone stale
 * and now passes through a symbolic link.
 */
module Confinement {
  import opened Bytes
  import opened Codes
  import opened FileSystem
  import opened Handler

  /** A location whose entry differs between two trees. */
  predicate Touched(fs: Fs, fs': Fs, p: Path) {
    (p in fs) != (p in fs') || (p in fs && fs[p] != fs'[p])
  }

  /** What each successful mutation did, in terms of the lexically resolved path and nothing else. */
  ghost predicate LiteralEffect(k: Deref, fs: Fs, cwd: Path, root: Path, req: Request, fs': Fs) {
    match req
    case Mkdir(p) =>
      var t := WalkSafe(k, fs, cwd, root, p);
      && t.Yes? && ClearAncestors(fs, t.value, root) && IsDir(fs, Parent(t.value))
      && t.value !in fs && fs' == fs[t.value := Dir(0)]
    case Rmdir(p) =>
      var t := WalkSafe(k, fs, cwd, root, p);
      && t.Yes? && ClearAncestors(fs, t.value, root)
      && IsDir(fs, t.value) && !HasChildren(fs, t.value) && fs' == fs - {t.value}
    case Rm(p) =>
      var t := WalkSafe(k, fs, cwd, root, p);
      && t.Yes? && ClearAncestors(fs, t.value, root)
      && t.value in fs && !IsDir(fs, t.value) && fs' == fs - {t.value}
    case Rename(from, to) =>
      var s, d := WalkSafe(k, fs, cwd, root, from), WalkSafe(k, fs, cwd, root, to);
      && s.Yes? && d.Yes? && RenameEffect(fs, root, s.value, d.value, fs')
    case Chmod(p, mode) =>
      var t := WalkSafe(k, fs, cwd, root, p);
      && t.Yes? && (t.value == root == [] || ClearAncestors(fs, t.value, root))
      && t.value in fs && !IsLink(fs, t.value)
      && fs' == fs[t.value := WithMode(fs[t.value], mode % 0x200)]
    case _ => false
  }

  ghost predicate RenameEffect(fs: Fs, root: Path, src: Path, dst: Path, fs': Fs) {
    && ClearAncestors(fs, src, root) && ClearAncestors(fs, dst, root)
    && src in fs && IsDir(fs, Parent(dst))
    && (if src == dst then fs' == fs
        else
          && !(src <= dst) && (dst in fs ==> !HasChildren(fs, dst))
          && (dst in fs ==> IsDir(fs, src) == IsDir(fs, dst))
          && fs' == Rest(fs, src, dst) + Graft(fs, src, dst))
  }

  /** The root itself cannot be removed, renamed or recreated; the re-check refuses it unless it is the top. */
  lemma RecheckedTarget(k: Deref, fs: Fs, root: Path, t: Path)
    requires Rooted(fs, root) && root <= t && RecheckAncestors(k, fs, t, root).Yes?
    ensures t == root == [] || ClearAncestors(fs, t, root)
  {
    if t != [] {
      RecheckClears(k, fs, t, root);
    }
  }

  lemma LocateTop(k: Deref, fs: Fs, follow: bool)
    ensures Locate(k, fs, [], follow) == Ok([])
  {
  }

  lemma RenameIsLiteral(k: Deref, fs: Fs, cwd: Path, root: Path, from: UserPath, to: UserPath)
    requires Rooted(fs, root)
    requires Perform(k, fs, cwd, root, Rename(from, to)).1 == Done
    ensures LiteralEffect(k, fs, cwd, root, Rename(from, to), Perform(k, fs, cwd, root, Rename(from, to)).0)
  {
    hide WalkComps, Locate, Lstat, CheckFrom, Graft, Rest;
    var src, dst := WalkSafe(k, fs, cwd, root, from).value, WalkSafe(k, fs, cwd, root, to).value;
    WalkSafeUnder(k, fs, cwd, root, from);
    WalkSafeUnder(k, fs, cwd, root, to);
    RecheckedTarget(k, fs, root, src);
    RecheckedTarget(k, fs, root, dst);
    LocateTop(k, fs, false);
    if src != [] && dst != [] {
      ClearMeansLiteral(k, fs, src, root);
      ClearMeansLiteral(k, fs, dst, root);
      if src < dst {
        NotInside(fs, src, dst);
      }
    }
  }

  lemma WalkSafeUnder(k: Deref, fs: Fs, cwd: Path, root: Path, path: UserPath)
    ensures WalkSafe(k, fs, cwd, root, path).Yes? ==> root <= WalkSafe(k, fs, cwd, root, path).value
  {
    var absolute := path != [] && path[0].RootDir?;
    WalkStaysUnder(k, fs, root, if absolute then root else cwd, path);
  }

  lemma ChmodIsLiteral(k: Deref, fs: Fs, cwd: Path, root: Path, p: UserPath, mode: nat)
    requires Rooted(fs, root)
    requires Perform(k, fs, cwd, root, Chmod(p, mode)).1 == Done
    ensures LiteralEffect(k, fs, cwd, root, Chmod(p, mode), Perform(k, fs, cwd, root, Chmod(p, mode)).0)
  {
    hide WalkComps, Locate, CheckFrom;
    var t := WalkSafe(k, fs, cwd, root, p).value;
    WalkSafeUnder(k, fs, cwd, root, p);
    RecheckedTarget(k, fs, root, t);
    LocateTop(k, fs, false);
    LocateTop(k, fs, true);
    if t != [] {
      ClearMeansLiteral(k, fs, t, root);
    }
  }

  /** A request that is not answered with success changes nothing; a successful one acts at the written path. */
  lemma PerformIsLiteral(k: Deref, fs: Fs, cwd: Path, root: Path, req: Request)
    requires Rooted(fs, root) && !req.Cd?
    ensures var (fs', response) := Perform(k, fs, cwd, root, req);
            if response == Done then LiteralEffect(k, fs, cwd, root, req, fs') else fs' == fs
  {
    hide WalkComps, Locate, Lstat, CheckFrom;
    var (fs', response) := Perform(k, fs, cwd, root, req);
    if response == Done {
      match req
      case Rename(from, to) => RenameIsLiteral(k, fs, cwd, root, from, to);
      case Chmod(p, mode) => ChmodIsLiteral(k, fs, cwd, root, p, mode);
      case Mkdir(p) => TargetIsLiteral(k, fs, cwd, root, p);
      case Rmdir(p) => TargetIsLiteral(k, fs, cwd, root, p);
      case Rm(p) => TargetIsLiteral(k, fs, cwd, root, p);
      case _ =>
    }
  }

  lemma TargetIsLiteral(k: Deref, fs: Fs, cwd: Path, root: Path, p: UserPath)
    requires Rooted(fs, root) && WalkSafe(k, fs, cwd, root, p).Yes?
    requires RecheckAncestors(k, fs, WalkSafe(k, fs, cwd, root, p).value, root).Yes?
    ensures var t := WalkSafe(k, fs, cwd, root, p).value;
            if t == [] then root == [] && Locate(k, fs, t, false) == Ok([])
            else
              && ClearAncestors(fs, t, root)
              && Locate(k, fs, t, false) == if IsDir(fs, Parent(t)) then Ok(t) else Err(ENOTDIR)
  {
    hide WalkComps, Locate, Lstat, CheckFrom;
    var t := WalkSafe(k, fs, cwd, root, p).value;
    WalkSafeUnder(k, fs, cwd, root, p);
    RecheckedTarget(k, fs, root, t);
    LocateTop(k, fs, false);
    if t != [] {
      ClearMeansLiteral(k, fs, t, root);
    }
  }

  // ---- when a request succeeds ------------------------------------------

  predicate Changes(req: Request) {
    req.Mkdir? || req.Rmdir? || req.Rm? || req.Rename? || req.Chmod?
  }

  /** The temporary files of uploads may not be removed or renamed, nor be renamed to. */
  predicate NamesTemp(req: Request) {
    match req
    case Rm(p) => IsUploadTemp(p)
    case Rename(from, to) => IsUploadTemp(from) || IsUploadTemp(to)
    case _ => false
  }

  /** The target is itself a link to nowhere, which a path can name only as a stale working directory. */
  predicate Dangles(k: Deref, fs: Fs, cwd: Path, root: Path, p: UserPath) {
    var t := WalkSafe(k, fs, cwd, root, p);
    t.Yes? && IsLink(fs, t.value) && Stat(k, fs, t.value).Err?
  }

  predicate SourceDangles(k: Deref, fs: Fs, cwd: Path, root: Path, req: Request) {
    match req
    case Rm(p) => Dangles(k, fs, cwd, root, p)
    case Rename(from, _) => Dangles(k, fs, cwd, root, from)
    case _ => false
  }

  /** A request that changes the tree succeeds exactly when the change it asks for is possible. */
  lemma PerformSucceedsIff(k: Deref, fs: Fs, cwd: Path, root: Path, req: Request)
    requires Rooted(fs, root) && Changes(req)
    ensures Perform(k, fs, cwd, root, req).1 == Done
       <==> !NamesTemp(req) && !SourceDangles(k, fs, cwd, root, req)
            && exists fs' :: LiteralEffect(k, fs, cwd, root, req, fs')
  {
    hide WalkSafe, Perform, LiteralEffect, Stat;
    PerformIsLiteral(k, fs, cwd, root, req);
    if Perform(k, fs, cwd, root, req).1 == Done {
      DoneIsFound(k, fs, cwd, root, req);
      assert LiteralEffect(k, fs, cwd, root, req, Perform(k, fs, cwd, root, req).0);
    } else if exists fs' :: LiteralEffect(k, fs, cwd, root, req, fs') {
      var fs' :| LiteralEffect(k, fs, cwd, root, req, fs');
      if !NamesTemp(req) && !SourceDangles(k, fs, cwd, root, req) {
        PossibleIsDone(k, fs, cwd, root, req, fs');
        assert false;
      }
    }
  }

  lemma DoneIsFound(k: Deref, fs: Fs, cwd: Path, root: Path, req: Request)
    requires Changes(req) && Perform(k, fs, cwd, root, req).1 == Done
    ensures !NamesTemp(req) && !SourceDangles(k, fs, cwd, root, req)
  {
    hide WalkSafe, RecheckAncestors, Stat, SetMode;
  }

  lemma PossibleIsDone(k: Deref, fs: Fs, cwd: Path, root: Path, req: Request, fs': Fs)
    requires Rooted(fs, root) && LiteralEffect(k, fs, cwd, root, req, fs')
    requires !NamesTemp(req) && !SourceDangles(k, fs, cwd, root, req)
    ensures Perform(k, fs, cwd, root, req).1 == Done
  {
    hide WalkSafe, RecheckAncestors, Locate, ClearAncestors, Graft, Rest, HasChildren;
    match req
    case Mkdir(p) => ParentIsFound(k, fs, root, WalkSafe(k, fs, cwd, root, p).value);
    case Rmdir(p) => TargetIsFound(k, fs, root, WalkSafe(k, fs, cwd, root, p).value);
    case Rm(p) => TargetIsFound(k, fs, root, WalkSafe(k, fs, cwd, root, p).value);
    case Rename(from, to) =>
      TargetIsFound(k, fs, root, WalkSafe(k, fs, cwd, root, from).value);
      ParentIsFound(k, fs, root, WalkSafe(k, fs, cwd, root, to).value);
    case Chmod(p, mode) =>
      var t := WalkSafe(k, fs, cwd, root, p).value;
      LocateTop(k, fs, false);
      LocateTop(k, fs, true);
      if t == [] {
        RecheckClears(k, fs, t, root);
      } else {
        TargetIsFound(k, fs, root, t);
      }
  }

  lemma TargetIsFound(k: Deref, fs: Fs, root: Path, t: Path)
    requires Rooted(fs, root) && ClearAncestors(fs, t, root) && t in fs
    ensures t != [] && RecheckAncestors(k, fs, t, root).Yes?
    ensures Locate(k, fs, t, false) == Ok(t) && (!IsLink(fs, t) ==> Locate(k, fs, t, true) == Ok(t))
  {
    hide RecheckAncestors, Locate;
    RecheckClears(k, fs, t, root);
    ClearMeansLiteral(k, fs, t, root);
    assert IsDir(fs, Parent(t));
  }

  lemma ParentIsFound(k: Deref, fs: Fs, root: Path, t: Path)
    requires Rooted(fs, root) && ClearAncestors(fs, t, root) && IsDir(fs, Parent(t))
    ensures t != [] && RecheckAncestors(k, fs, t, root).Yes?
    ensures Locate(k, fs, t, false) == Ok(t) && Lstat(k, fs, Parent(t)) == Ok(fs[Parent(t)])
  {
    hide RecheckAncestors, Locate, Lstat;
    RecheckClears(k, fs, t, root);
    ClearMeansLiteral(k, fs, t, root);
    LocateExisting(k, fs, Parent(t));
  }

  /** A change of directory succeeds exactly on a real directory at the written path, and leads there. */
  lemma ChangeDirIff(k: Deref, fs: Fs, cwd: Path, root: Path, p: UserPath)
    requires Rooted(fs, root)
    ensures var (t, (cwd', response)) := (WalkSafe(k, fs, cwd, root, p), ChangeDir(k, fs, cwd, root, p));
            && (response == Done <==> t.Yes? && IsDir(fs, t.value)
                                      && (t.value == root || ClearAncestors(fs, t.value, root)))
            && cwd' == if response == Done then t.value else cwd
  {
    hide WalkSafe, RecheckAncestors, Locate, ClearAncestors;
    WalkSafeUnder(k, fs, cwd, root, p);
    if WalkSafe(k, fs, cwd, root, p).Yes? {
      DirectoryIsFound(k, fs, root, WalkSafe(k, fs, cwd, root, p).value);
    }
  }

  lemma DirectoryIsFound(k: Deref, fs: Fs, root: Path, t: Path)
    requires Rooted(fs, root) && root <= t
    ensures RecheckPath(k, fs, t, root).Yes? && Stat(k, fs, t).Ok? && Stat(k, fs, t).value.Dir?
       <==> IsDir(fs, t) && (t == root || ClearAncestors(fs, t, root))
  {
    hide RecheckAncestors, Locate, ClearAncestors;
    RecheckClears(k, fs, t, root);
    if t == root {
      LocateExisting(k, fs, root);
      FollowExisting(k, fs, root);
    } else if ClearAncestors(fs, t, root) {
      ClearLookup(k, fs, t, root);
    }
  }

  lemma FollowExisting(k: Deref, fs: Fs, p: Path)
    requires WellFormed(fs) && IsDir(fs, p)
    ensures Locate(k, fs, p, true) == Ok(p)
  {
    forall i | 0 <= i < |p|
      ensures IsDir(fs, p[..i])
    {
      AncestorsAreDirs(fs, p, i);
    }
    LocateLiteral(k, fs, p, true);
  }

  lemma ClearLookup(k: Deref, fs: Fs, t: Path, root: Path)
    requires WellFormed(fs) && ClearAncestors(fs, t, root)
    ensures t != [] && Locate(k, fs, t, false) == if IsDir(fs, Parent(t)) then Ok(t) else Err(ENOTDIR)
    ensures !IsLink(fs, t) ==> Locate(k, fs, t, true) == Locate(k, fs, t, false)
    ensures t in fs ==> IsDir(fs, Parent(t))
  {
    ClearMeansLiteral(k, fs, t, root);
  }

  // ---- one step ---------------------------------------------------------

  /** A literal effect stays strictly below the root, with one exception: chmod of the top of the tree itself. */
  lemma EffectIsConfined(k: Deref, fs: Fs, cwd: Path, root: Path, req: Request, fs': Fs)
    requires Rooted(fs, root) && LiteralEffect(k, fs, cwd, root, req, fs')
    ensures forall p :: Touched(fs, fs', p) ==> root < p || (p == root == [] && req.Chmod?)
  {
    hide WalkSafe, Graft, Rest;
    if req.Rename? {
      var src, dst := WalkSafe(k, fs, cwd, root, req.from).value, WalkSafe(k, fs, cwd, root, req.to).value;
      if src != dst {
        forall p | Touched(fs, fs', p)
          ensures root < p
        {
          RenameShape(fs, src, dst, p);
          assert src <= p || dst <= p;
        }
      }
    }
  }

  lemma EffectKeepsTree(k: Deref, fs: Fs, cwd: Path, root: Path, req: Request, fs': Fs)
    requires Rooted(fs, root) && LiteralEffect(k, fs, cwd, root, req, fs')
    ensures Rooted(fs', root)
  {
    hide WalkSafe, Graft, Rest;
    match req
    case Mkdir(p) =>
      var t := WalkSafe(k, fs, cwd, root, p).value;
      assert forall q :: IsDir(fs, q) ==> IsDir(fs', q);
    case Rmdir(p) => RemoveKeepsTree(fs, WalkSafe(k, fs, cwd, root, p).value);
    case Rm(p) =>
      var t := WalkSafe(k, fs, cwd, root, p).value;
      FilesHaveNoChildren(fs, t);
      RemoveKeepsTree(fs, t);
    case Rename(from, to) =>
      var src, dst := WalkSafe(k, fs, cwd, root, from).value, WalkSafe(k, fs, cwd, root, to).value;
      if src != dst {
        RenameKeepsTree(fs, src, dst);
        RenameShape(fs, src, dst, root);
      }
    case Chmod(p, mode) =>
      assert forall q :: IsDir(fs, q) <==> IsDir(fs', q);
  }

  lemma ChangeDirStaysUnder(k: Deref, fs: Fs, cwd: Path, root: Path, p: UserPath)
    requires root <= cwd
    ensures root <= ChangeDir(k, fs, cwd, root, p).0
  {
    hide WalkSafe, Stat, RecheckPath;
    WalkSafeUnder(k, fs, cwd, root, p);
  }

  /** The entry at `p` was there before or is there afterwards, at the end of a chain of real directories. */
  ghost predicate ReallyAt(fs: Fs, fs': Fs, p: Path) {
    || (p in fs && forall i :: 0 <= i < |p| ==> IsDir(fs, p[..i]))
    || (p in fs' && forall i :: 0 <= i < |p| ==> IsDir(fs', p[..i]))
  }

  lemma TouchedIsReal(fs: Fs, fs': Fs, p: Path)
    requires WellFormed(fs) && WellFormed(fs') && Touched(fs, fs', p)
    ensures ReallyAt(fs, fs', p)
  {
    var tree := if p in fs then fs else fs';
    forall i | 0 <= i < |p|
      ensures IsDir(tree, p[..i])
    {
      AncestorsAreDirs(tree, p, i);
    }
  }

  /** One request: the root stays a real directory, the working directory stays under it, changes stay below it. */
  lemma StepIsConfined(k: Deref, fs: Fs, cwd: Path, root: Path, req: Request)
    requires Rooted(fs, root) && root <= cwd
    ensures var o := Handle(k, fs, cwd, root, req);
            && Rooted(o.fs, root) && root <= o.cwd
            && (o.fs != fs ==> LiteralEffect(k, fs, cwd, root, req, o.fs))
            && forall p :: Touched(fs, o.fs, p) ==> root < p || (p == root == [] && req.Chmod?)
  {
    hide Perform, ChangeDir, LiteralEffect;
    if req.Cd? {
      ChangeDirStaysUnder(k, fs, cwd, root, req.path);
    } else {
      PerformIsLiteral(k, fs, cwd, root, req);
      var (fs', response) := Perform(k, fs, cwd, root, req);
      if response == Done {
        EffectIsConfined(k, fs, cwd, root, req, fs');
        EffectKeepsTree(k, fs, cwd, root, req, fs');
      }
    }
  }

  // ---- every run --------------------------------------------------------

  /** A connection's request, among those of any number of connections. */
  datatype Event = Event(conn: nat, req: Request)

  /** The shared tree and every connection's working directory; a new connection starts at the root. */
  datatype Server = Server(fs: Fs, cwds: map<nat, Path>)

  function CwdOf(s: Server, conn: nat, root: Path): Path {
    if conn in s.cwds then s.cwds[conn] else root
  }

  function Step(k: Deref, s: Server, root: Path, e: Event): Server {
    var o := Handle(k, s.fs, CwdOf(s, e.conn, root), root, e.req);
    Server(o.fs, s.cwds[e.conn := o.cwd])
  }

  function RunAll(k: Deref, s: Server, root: Path, events: seq<Event>): Server
    decreases |events|
  {
    if events == [] then s else RunAll(k, Step(k, s, root, events[0]), root, events[1..])
  }

  ghost predicate Confined(s: Server, root: Path) {
    Rooted(s.fs, root) && forall c :: c in s.cwds ==> root <= s.cwds[c]
  }

  predicate HasChmod(events: seq<Event>) {
    exists i :: 0 <= i < |events| && events[i].req.Chmod?
  }

  /**
   * For every run of requests by any connections: the root stays a real
   * directory, every working directory stays lexically under it, and nothing
   * outside it ever changes.
   */
  lemma {:induction false} RunIsConfined(k: Deref, s: Server, root: Path, events: seq<Event>)
    requires Confined(s, root)
    ensures var s' := RunAll(k, s, root, events);
            && Confined(s', root)
            && forall p :: Touched(s.fs, s'.fs, p) ==>
                 ReallyAt(s.fs, s'.fs, p) && (root < p || (p == root == [] && HasChmod(events)))
    decreases |events|
  {
    hide Handle, WellFormed, ReallyAt;
    if events != [] {
      var e := events[0];
      StepIsConfined(k, s.fs, CwdOf(s, e.conn, root), root, e.req);
      var mid := Step(k, s, root, e);
      RunIsConfined(k, mid, root, events[1..]);
      var end := RunAll(k, s, root, events);
      forall p | Touched(s.fs, end.fs, p)
        ensures ReallyAt(s.fs, end.fs, p) && (root < p || (p == root == [] && HasChmod(events)))
      {
        TouchedIsReal(s.fs, end.fs, p);
        assert Touched(s.fs, mid.fs, p) || Touched(mid.fs, end.fs, p);
        if HasChmod(events[1..]) {
          var i :| 0 <= i < |events[1..]| && events[1..][i].req.Chmod?;
          assert events[i + 1].req.Chmod?;
        }
      }
    }
  }

  /** Below a root that is not the top of the tree there is no exception. */
  lemma RunStaysStrictlyBelow(k: Deref, s: Server, root: Path, events: seq<Event>)
    requires Confined(s, root) && root != []
    ensures forall p :: Touched(s.fs, RunAll(k, s, root, events).fs, p) ==> root < p
  {
    RunIsConfined(k, s, root, events);
  }

  /** With the top of the tree as root, a chmod of "/" does change the root itself. */
  lemma ChmodReachesTop(k: Deref)
    ensures var fs: Fs := map[[] := Dir(0)];
            var o := Handle(k, fs, [], [], Chmod([RootDir], 0x1ed));
            Rooted(fs, []) && Touched(fs, o.fs, [])
  {
    var fs: Fs := map[[] := Dir(0)];
    var comps := [RootDir];
    assert comps[1..] == [];
    assert WalkComps(k, fs, [], [], comps) == WalkComps(k, fs, [], [], []) == Yes([]);
    assert Locate(k, fs, [], true) == Ok([]) && Locate(k, fs, [], false) == Ok([]);
  }

  // ---- a stale working directory ----------------------------------------

  /** A tree in which /srv/a/b, once a directory, is now a link that leads out of /srv. */
  const OUTSIDE: Path := ["out"]
  const STALE: Fs := map[
    [] := Dir(0), ["srv"] := Dir(0), ["srv", "a"] := Dir(0), ["srv", "a", "b"] := Link("/out"),
    ["out"] := Dir(0), ["out", "x"] := File(1, 0)]

  lemma StaleLookup(k: Deref, follow: bool)
    requires forall p, text :: k(p, text) == OUTSIDE
    ensures Locate(k, STALE, ["srv", "a", "b", "x"], follow) == Ok(["out", "x"])
  {
    var up: Path := ["srv", "a"];
    var out: Path := ["out", "x"];
    assert [] + up[..0] == [] && [] + up[..1] == ["srv"] && [] + out[..0] == [] && [] + out[..1] == ["out"];
    assert [] + up == up && [] + out == out == out + [];
    WalkThrough(k, STALE, [], up, ["b", "x"], follow, MAX_HOPS);
    WalkThrough(k, STALE, [], out, [], follow, MAX_HOPS - 1);
    assert up + ["b", "x"] == ["srv", "a", "b", "x"] && up + ["b"] == ["srv", "a", "b"];
    assert OUTSIDE + ["b", "x"][1..] == out;
    assert Walk(k, STALE, up, ["b", "x"], follow, MAX_HOPS) == Walk(k, STALE, [], out, follow, MAX_HOPS - 1);
  }

  lemma StaleLookups()
    ensures var k: Deref := (_, _) => OUTSIDE;
            && Locate(k, STALE, ["srv", "a", "b", "x"], false) == Ok(["out", "x"])
            && Locate(k, STALE, ["srv", "a", "b", "x"], true) == Ok(["out", "x"])
            && Locate(k, STALE, ["srv", "a", "b"], false) == Ok(["srv", "a", "b"])
  {
    var k: Deref := (_, _) => OUTSIDE;
    StaleLookup(k, false);
    StaleLookup(k, true);
    var b: Path := ["srv", "a", "b"];
    assert b[..0] == [] && b[..1] == ["srv"] && b[..2] == ["srv", "a"];
    LocateLiteral(k, STALE, b, false);
  }

  lemma StaleIsWellFormed()
    ensures WellFormed(STALE)
  {
    forall p {:trigger Parent(p)} | p in STALE && p != []
      ensures IsDir(STALE, Parent(p))
    {
      assert p == ["srv"] || p == ["srv", "a"] || p == ["srv", "a", "b"] || p == ["out"] || p == ["out", "x"];
      assert Parent(["srv"]) == [] && Parent(["out"]) == [] && Parent(["out", "x"]) == ["out"];
      assert Parent(["srv", "a"]) == ["srv"] && Parent(["srv", "a", "b"]) == ["srv", "a"];
    }
  }

  /**
   * `walk_safe` alone does not confine: from a working directory that has
   * become a link it accepts a path the kernel would resolve outside the
   * root. The ancestor re-check refuses the removal.
   */
  lemma StaleCwdIsCaught()
    ensures var k: Deref := (_, _) => OUTSIDE;
            var root, cwd := ["srv"], ["srv", "a", "b"];
            && Rooted(STALE, root) && root <= cwd
            && WalkSafe(k, STALE, cwd, root, [Normal("x")]) == Yes(cwd + ["x"])
            && Locate(k, STALE, cwd + ["x"], false) == Ok(["out", "x"])
            && Handle(k, STALE, cwd, root, Rm([Normal("x")])) == Outcome(STALE, cwd, Fail(PermissionDenied))
  {
    hide Locate;
    var k: Deref := (_, _) => OUTSIDE;
    var root, cwd, target := ["srv"], ["srv", "a", "b"], ["srv", "a", "b", "x"];
    var path := [Normal("x")];
    StaleLookups();
    assert cwd + ["x"] == target && path[1..] == [];
    StaleIsWellFormed();
    assert WalkComps(k, STALE, root, cwd, path) == WalkComps(k, STALE, root, target, []) == Yes(target);
    assert target[..1] == root && target[..2] == ["srv", "a"] && target[..3] == cwd;
    LocateExisting(k, STALE, root);
    LocateExisting(k, STALE, ["srv", "a"]);
    assert CheckFrom(k, STALE, target, root, 3) == No(PermissionDenied);
    assert CheckFrom(k, STALE, target, root, 2) == No(PermissionDenied);
    assert CheckFrom(k, STALE, target, root, 1) == No(PermissionDenied);
    assert !IsTempName("x");
  }
}
