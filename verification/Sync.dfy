/**
 * Planning a sync: the walk of the local tree that skips what `.qftpignore`
 * excludes, the separate predicate for remote files, and the plan made of
 * both. The root of the local tree is the empty path; glob matching and what
 * can be read are parameters.
 */
module Sync {
  import opened Bytes
  import opened Sums
  import opened FileSystem
  import Q = Quota
  import S = Session

  type Glob = (string, string) -> bool

  datatype Rule = Rule(pattern: string, anchored: bool, dirOnly: bool)

  /** What a listing says of a file. */
  datatype Meta = Meta(size: nat, modified: nat)

  const IGNORE_FILE: Path := [".qftpignore"]

  // ---- the matcher ------------------------------------------------------

  function Joined(p: Path): string {
    if p == [] then "" else if |p| == 1 then p[0] else p[0] + "/" + Joined(p[1..])
  }

  function Slashed(s: string): string {
    seq(|s|, i requires 0 <= i < |s| => if s[i] == '\\' then '/' else s[i])
  }

  predicate RuleMatches(glob: Glob, rule: Rule, rel: Path, isDir: bool) {
    && (rule.dirOnly ==> isDir)
    && (glob(rule.pattern, Slashed(Joined(rel)))
        || (!rule.anchored && exists i :: 0 <= i < |rel| && glob(rule.pattern, rel[i])))
  }

  predicate Matches(glob: Glob, rules: seq<Rule>, rel: Path, isDir: bool) {
    exists k :: 0 <= k < |rules| && RuleMatches(glob, rules[k], rel, isDir)
  }

  /** `sync_excludes`: the file matches, or a directory above it does. */
  predicate Excludes(glob: Glob, rules: seq<Rule>, rel: Path) {
    Matches(glob, rules, rel, false) || exists i :: 0 < i < |rel| && Matches(glob, rules, rel[..i], true)
  }

  lemma MatchesAddUp(glob: Glob, rules: seq<Rule>, rel: Path, isDir: bool)
    ensures Matches(glob, rules, rel, isDir) <==> exists k :: 0 <= k < |rules| && Matches(glob, [rules[k]], rel, isDir)
  {
    hide RuleMatches;
    forall k | 0 <= k < |rules|
      ensures Matches(glob, [rules[k]], rel, isDir) <==> RuleMatches(glob, rules[k], rel, isDir)
    {
      OneRule(glob, rules[k]);
    }
  }

  /** Each rule excludes by itself. */
  lemma RulesAddUp(glob: Glob, rules: seq<Rule>, rel: Path)
    ensures Excludes(glob, rules, rel) <==> exists k :: 0 <= k < |rules| && Excludes(glob, [rules[k]], rel)
  {
    hide Matches;
    MatchesAddUp(glob, rules, rel, false);
    forall i: nat | 0 < i < |rel|
      ensures Matches(glob, rules, rel[..i], true)
         <==> exists k :: 0 <= k < |rules| && Matches(glob, [rules[k]], rel[..i], true)
    {
      MatchesAddUp(glob, rules, rel[..i], true);
    }
  }

  lemma OneRule(glob: Glob, rule: Rule)
    ensures forall rel: Path, isDir :: Matches(glob, [rule], rel, isDir) <==> RuleMatches(glob, rule, rel, isDir)
  {
    forall rel: Path, isDir
      ensures Matches(glob, [rule], rel, isDir) <==> RuleMatches(glob, rule, rel, isDir)
    {
      if RuleMatches(glob, rule, rel, isDir) {
        assert RuleMatches(glob, [rule][0], rel, isDir);
      }
    }
  }

  /** The path as the patterns see it: its names with slashes between them. */
  function Written(rel: Path): string {
    Slashed(Joined(rel))
  }

  /** The lengths at which a rule looks: a path to a directory only stops above the file itself. */
  predicate LooksAt(rule: Rule, rel: Path, i: nat) {
    0 < i <= |rel| && (rule.dirOnly ==> i < |rel|)
  }

  /**
   * What one rule excludes: the file, or everything below a directory, whose
   * path from the root it matches; and, unless it is anchored, those with a
   * name anywhere that it matches. A rule for directories does not look at the
   * file itself.
   */
  lemma RuleExcludes(glob: Glob, pattern: string, anchored: bool, dirOnly: bool, rel: Path)
    requires rel != []
    ensures var rule := Rule(pattern, anchored, dirOnly);
            (Excludes(glob, [rule], rel)
        <==> || (exists i: nat :: LooksAt(rule, rel, i) && glob(pattern, Written(rel[..i])))
             || (!anchored && exists i: nat :: LooksAt(rule, rel, i) && glob(pattern, rel[i - 1])))
  {
    var rule := Rule(pattern, anchored, dirOnly);
    OneRule(glob, rule);
    assert rel[..|rel|] == rel;
    if i: nat :| LooksAt(rule, rel, i) && glob(pattern, Written(rel[..i])) {
      assert RuleMatches(glob, rule, rel[..i], i < |rel|);
    }
    if i: nat :| !anchored && LooksAt(rule, rel, i) && glob(pattern, rel[i - 1]) {
      assert rel[..i][i - 1] == rel[i - 1];
      assert RuleMatches(glob, rule, rel[..i], i < |rel|);
    }
    if Excludes(glob, [rule], rel) {
      var i: nat :| 0 < i <= |rel| && RuleMatches(glob, rule, rel[..i], i < |rel|);
      assert LooksAt(rule, rel, i);
      if !glob(pattern, Written(rel[..i])) {
        var j :| 0 <= j < i && glob(pattern, rel[..i][j]);
        assert LooksAt(rule, rel, j + 1) && glob(pattern, rel[(j + 1) - 1]);
      }
    }
  }

  /** Patterns that are plain names. */
  function Plain(): Glob {
    (pattern, text) => pattern == text
  }

  predicate Simple(name: string) {
    '\\' !in name && '/' !in name
  }

  lemma SlashedSame(s: string)
    requires '\\' !in s
    ensures Slashed(s) == s
  {
  }

  lemma WrittenNames(a: string, b: string)
    requires Simple(a) && Simple(b)
    ensures Written([a]) == a && Written([a, b]) == a + "/" + b
  {
    assert Joined([a, b]) == a + "/" + Joined([b]);
    SlashedSame(a);
    SlashedSame(a + "/" + b);
  }

  /** A rule for a name excludes it anywhere, and all below it. */
  lemma NameRule(p: Path, name: string, q: Path)
    ensures Excludes(Plain(), [Rule(name, false, false)], p + [name] + q)
  {
    var rel, i := p + [name] + q, |p| + 1;
    RuleExcludes(Plain(), name, false, false, rel);
    assert LooksAt(Rule(name, false, false), rel, i) && rel[i - 1] == name;
  }

  /** A rule for a directory excludes what is below one of that name, and no file of that name. */
  lemma DirectoryRule(p: Path, name: string, q: Path)
    requires q != []
    ensures Excludes(Plain(), [Rule(name, false, true)], p + [name] + q)
    ensures !Excludes(Plain(), [Rule(name, false, true)], [name])
  {
    var rel, i := p + [name] + q, |p| + 1;
    RuleExcludes(Plain(), name, false, true, rel);
    assert LooksAt(Rule(name, false, true), rel, i) && rel[i - 1] == name;
    RuleExcludes(Plain(), name, false, true, [name]);
  }

  /** An anchored rule for a name excludes it, and all below it, at the root alone. */
  lemma AnchoredRule(name: string, other: string)
    requires Simple(name) && Simple(other)
    ensures Excludes(Plain(), [Rule(name, true, false)], [name])
    ensures Excludes(Plain(), [Rule(name, true, false)], [name, other])
    ensures other != name ==> !Excludes(Plain(), [Rule(name, true, false)], [other, name])
  {
    var rule := Rule(name, true, false);
    RuleExcludes(Plain(), name, true, false, [name]);
    RuleExcludes(Plain(), name, true, false, [name, other]);
    RuleExcludes(Plain(), name, true, false, [other, name]);
    WrittenNames(name, other);
    WrittenNames(other, name);
    hide Written;
    assert LooksAt(rule, [name], 1) && [name][..1] == [name];
    assert LooksAt(rule, [name, other], 1) && [name, other][..1] == [name];
    assert [other, name][..1] == [other] && [other, name][..2] == [other, name];
    assert (other + "/" + name)[|other|] == '/';
  }

  method SyncExcludes(glob: Glob, rules: seq<Rule>, rel: Path) returns (excluded: bool)
    ensures excluded == Excludes(glob, rules, rel)
  {
    if Matches(glob, rules, rel, false) {
      return true;
    }
    hide Matches;
    var n := |rel|;
    while n > 1
      invariant n <= |rel| && forall i :: 0 < i < |rel| && n <= i ==> !Matches(glob, rules, rel[..i], true)
    {
      n := n - 1;
      if Matches(glob, rules, rel[..n], true) {
        return true;
      }
    }
    return false;
  }

  // ---- the walk ---------------------------------------------------------

  /**
   * The local tree; which directories can be listed, and which of their
   * entries can be read and told for files or directories; and which entries
   * can be looked up for their size and time.
   */
  datatype Local = Local(fs: Fs, modified: Path -> nat, io: S.WalkIo, measured: Path -> bool)

  /** No rule prunes the directory or one above it, and the entries that lead to it can all be read. */
  predicate Entered(glob: Glob, rules: seq<Rule>, local: Local, dir: Path) {
    forall i :: 0 <= i <= |dir| ==>
        (i > 0 ==> !Matches(glob, rules, dir[..i], true)) && (i < |dir| ==> S.Reads(local.io, dir, i))
  }

  /** The walk has this file in its index. */
  predicate Kept(glob: Glob, rules: seq<Rule>, local: Local, p: Path) {
    && p in local.fs && local.fs[p].File? && p != [] && p != IGNORE_FILE
    && Entered(glob, rules, local, Parent(p)) && S.Reads(local.io, p, |p| - 1)
    && !Matches(glob, rules, p, false)
  }

  /** All directories above `p` can be listed, and they and `p` itself are among the entries that can be read. */
  predicate Readable(local: Local, p: Path) {
    forall i :: 0 <= i < |p| ==> S.Reads(local.io, p, i)
  }

  /** The pruned walk and the separate exclusion test agree, file by file. */
  lemma KeptIffNotExcluded(glob: Glob, rules: seq<Rule>, local: Local, p: Path)
    requires p != []
    ensures Kept(glob, rules, local, p)
       <==> p in local.fs && local.fs[p].File? && p != IGNORE_FILE && Readable(local, p) && !Excludes(glob, rules, p)
  {
    hide Matches;
    var up := Parent(p);
    forall i | 0 <= i < |up|
      ensures up[..i] == p[..i] && (S.Reads(local.io, up, i) <==> S.Reads(local.io, p, i))
    {
      assert up[..i] == p[..i] && up[..i + 1] == p[..i + 1];
    }
    assert up == p[..|p| - 1] && up[..|up|] == up;
  }

  lemma KeptIsRead(glob: Glob, rules: seq<Rule>, local: Local, p: Path, i: nat)
    requires Kept(glob, rules, local, p) && i < |p|
    ensures S.Reads(local.io, p, i)
  {
    hide Matches;
    KeptIffNotExcluded(glob, rules, local, p);
  }

  /** A file that cannot be looked up passes for an empty one of the year 1970. */
  function MetaOf(local: Local, p: Path): Meta {
    if local.measured(p) && p in local.fs && local.fs[p].File? then Meta(local.fs[p].size, local.modified(p))
    else Meta(0, 0)
  }

  ghost predicate Sound(glob: Glob, rules: seq<Rule>, local: Local, index: map<Path, Meta>, stack: seq<Path>) {
    && (forall p :: p in index ==> Kept(glob, rules, local, p) && index[p] == MetaOf(local, p))
    && (forall d :: d in stack ==> IsDir(local.fs, d) && Entered(glob, rules, local, d))
  }

  /** In the index, or still below a directory on the stack. */
  ghost predicate Covered(index: map<Path, Meta>, stack: seq<Path>, p: Path) {
    p in index || exists i :: 0 <= i < |stack| && stack[i] < p
  }

  /** Kept files below `dir`, through any of the names already listed, are covered. */
  ghost predicate Listed(glob: Glob, rules: seq<Rule>, local: Local, dir: Path, left: set<string>,
                         index: map<Path, Meta>, stack: seq<Path>) {
    forall p :: dir < p && p[|dir|] !in left && Kept(glob, rules, local, p) ==> Covered(index, stack, p)
  }

  lemma EnterChild(glob: Glob, rules: seq<Rule>, local: Local, dir: Path, n: string)
    requires Entered(glob, rules, local, dir) && !Matches(glob, rules, dir + [n], true)
    requires local.io.lists(dir) && local.io.stats(dir + [n])
    ensures Entered(glob, rules, local, dir + [n])
  {
    hide Matches;
    var c := dir + [n];
    forall i | 0 <= i <= |c|
      ensures i > 0 ==> !Matches(glob, rules, c[..i], true)
      ensures i < |c| ==> S.Reads(local.io, c, i)
    {
      assert c[..|dir|] == dir && c[..|c|] == c && dir[..|dir|] == dir;
      if i <= |dir| {
        assert c[..i] == dir[..i];
      }
      if i < |dir| {
        assert c[..i + 1] == dir[..i + 1] && S.Reads(local.io, dir, i);
      }
    }
  }

  /** Through a name that leads nowhere, nothing is kept but what the name itself is. */
  lemma PrunedName(glob: Glob, rules: seq<Rule>, local: Local, dir: Path, n: string, p: Path)
    requires WellFormed(local.fs) && dir < p && p[|dir|] == n && Kept(glob, rules, local, p)
    requires dir + [n] in local.fs
    ensures dir + [n] <= p && local.io.stats(dir + [n])
    ensures p != dir + [n] ==> IsDir(local.fs, dir + [n]) && !Matches(glob, rules, dir + [n], true)
  {
    hide Matches;
    var c := dir + [n];
    assert p[..|c|] == c;
    KeptIsRead(glob, rules, local, p, |dir|);
    if p != c {
      AncestorsAreDirs(local.fs, p, |c|);
      assert Parent(p)[..|c|] == c;
    }
  }

  /** What one listed name adds to the index or the stack. */
  lemma NameListed(glob: Glob, rules: seq<Rule>, local: Local, dir: Path, n: string, left: set<string>,
                   index0: map<Path, Meta>, stack0: seq<Path>, index: map<Path, Meta>, stack: seq<Path>)
    requires WellFormed(local.fs) && dir + [n] in local.fs
    requires Listed(glob, rules, local, dir, left + {n}, index0, stack0)
    requires index0.Keys <= index.Keys && stack0 <= stack
    requires IsDir(local.fs, dir + [n]) && local.io.stats(dir + [n]) && !Matches(glob, rules, dir + [n], true) ==>
               dir + [n] in stack
    requires Kept(glob, rules, local, dir + [n]) ==> dir + [n] in index
    ensures Listed(glob, rules, local, dir, left, index, stack)
  {
    hide Matches, Kept;
    forall p | dir < p && p[|dir|] !in left && Kept(glob, rules, local, p)
      ensures Covered(index, stack, p)
    {
      if p[|dir|] == n {
        PrunedName(glob, rules, local, dir, n, p);
        if p != dir + [n] {
          var i :| 0 <= i < |stack| && stack[i] == dir + [n];
          assert stack[i] < p;
        }
      } else {
        assert Covered(index0, stack0, p);
        if p !in index {
          var i :| 0 <= i < |stack0| && stack0[i] < p;
          assert stack[i] < p;
        }
      }
    }
  }

  lemma ChildKeptIff(glob: Glob, rules: seq<Rule>, local: Local, dir: Path, n: string)
    requires Entered(glob, rules, local, dir) && local.io.lists(dir) && dir + [n] in local.fs
    ensures Kept(glob, rules, local, dir + [n])
       <==> && local.io.stats(dir + [n]) && local.fs[dir + [n]].File? && dir + [n] != IGNORE_FILE
            && !Matches(glob, rules, dir + [n], false)
  {
    hide Matches, Entered;
    var p := dir + [n];
    assert Parent(p) == dir && p[..|p|] == p;
  }

  lemma NothingListed(glob: Glob, rules: seq<Rule>, local: Local, dir: Path, index: map<Path, Meta>, stack: seq<Path>)
    requires WellFormed(local.fs)
    ensures Listed(glob, rules, local, dir, S.Names(local.fs, dir), index, stack)
  {
    hide Matches, Entered;
    forall p | dir < p && p in local.fs
      ensures p[|dir|] in S.Names(local.fs, dir)
    {
      var c := p[..|dir| + 1];
      assert c == dir + [p[|dir|]];
      if |p| > |c| {
        AncestorsAreDirs(local.fs, p, |c|);
      } else {
        assert p == c;
      }
    }
  }

  /** One directory of the walk that can be listed; entries that cannot be read are skipped. */
  method VisitLocal(glob: Glob, rules: seq<Rule>, local: Local, dir: Path, stack0: seq<Path>, index0: map<Path, Meta>)
      returns (stack: seq<Path>, index: map<Path, Meta>)
    requires WellFormed(local.fs) && IsDir(local.fs, dir) && Entered(glob, rules, local, dir) && local.io.lists(dir)
    requires Sound(glob, rules, local, index0, stack0) && forall d :: d in stack0 ==> IsDir(local.fs, d)
    ensures Sound(glob, rules, local, index, stack) && index0.Keys <= index.Keys && stack0 <= stack
    ensures Listed(glob, rules, local, dir, {}, index, stack)
    ensures S.Work(local.fs, stack) <= S.Work(local.fs, stack0) + Sum(S.One, Q.Under(local.fs, dir))
  {
    hide S.StackSum, Sum, Q.Under, S.Forest, Matches, Entered, Kept, WellFormed;
    stack, index := stack0, index0;
    var names := S.Names(local.fs, dir);
    S.ForestIsUnder(local.fs, dir);
    NothingListed(glob, rules, local, dir, index, stack);
    while names != {}
      invariant names <= S.Names(local.fs, dir)
      invariant Sound(glob, rules, local, index, stack) && index0.Keys <= index.Keys && stack0 <= stack
      invariant Listed(glob, rules, local, dir, names, index, stack)
      invariant S.Work(local.fs, stack) + Sum(S.One, S.Forest(local.fs, dir, names))
             <= S.Work(local.fs, stack0) + Sum(S.One, Q.Under(local.fs, dir))
      decreases |names|
    {
      var n :| n in names;
      var path := dir + [n];
      S.NameIsEntry(local.fs, dir, n);
      S.ForestRemove(local.fs, dir, names, n, S.One);
      ghost var was, were := index, stack;
      ChildKeptIff(glob, rules, local, dir, n);
      assert names - {n} + {n} == names;
      names := names - {n};
      if local.io.stats(path) {
        if local.fs[path].Dir? {
          if !Matches(glob, rules, path, true) {
            EnterChild(glob, rules, local, dir, n);
            S.StackPush(S.One, local.fs, stack, path);
            stack := stack + [path];
          }
        } else if local.fs[path].File? && path != IGNORE_FILE && !Matches(glob, rules, path, false) {
          index := index[path := MetaOf(local, path)];
        }
      }
      NameListed(glob, rules, local, dir, n, names, was, were, index, stack);
    }
  }

  /** Every kept file is in the index or below the stack. */
  ghost predicate AllCovered(glob: Glob, rules: seq<Rule>, local: Local, index: map<Path, Meta>, stack: seq<Path>) {
    forall p :: Kept(glob, rules, local, p) ==> Covered(index, stack, p)
  }

  lemma StillCovered(glob: Glob, rules: seq<Rule>, local: Local, index0: map<Path, Meta>, stack0: seq<Path>, dir: Path,
                     index: map<Path, Meta>, stack: seq<Path>)
    requires AllCovered(glob, rules, local, index0, stack0 + [dir]) && index0.Keys <= index.Keys && stack0 <= stack
    requires Listed(glob, rules, local, dir, {}, index, stack)
    ensures AllCovered(glob, rules, local, index, stack)
  {
    hide Kept;
    forall p | Kept(glob, rules, local, p)
      ensures Covered(index, stack, p)
    {
      if p !in index {
        var i :| 0 <= i < |stack0 + [dir]| && (stack0 + [dir])[i] < p;
        if i < |stack0| {
          assert stack[i] < p;
        }
      }
    }
  }

  /** A directory that cannot be listed hides nothing that is kept. */
  lemma UnreadableIsEmpty(glob: Glob, rules: seq<Rule>, local: Local, dir: Path, index: map<Path, Meta>,
                          stack: seq<Path>)
    requires !local.io.lists(dir)
    ensures Listed(glob, rules, local, dir, {}, index, stack)
  {
    hide Matches;
    forall p | dir < p && Kept(glob, rules, local, p)
      ensures false
    {
      assert p[..|dir|] == dir;
      KeptIsRead(glob, rules, local, p, |dir|);
    }
  }

  lemma RootEntered(glob: Glob, rules: seq<Rule>, local: Local)
    ensures Entered(glob, rules, local, [])
    ensures AllCovered(glob, rules, local, map[], [[]])
  {
    hide Matches;
    forall p | Kept(glob, rules, local, p)
      ensures Covered(map[], [[]], p)
    {
      assert [[]][0] < p;
    }
  }

  /** `walk_local`: exactly the kept files, each with its size and time. */
  method WalkLocal(glob: Glob, rules: seq<Rule>, local: Local) returns (index: map<Path, Meta>)
    requires WellFormed(local.fs)
    ensures forall p :: p in index <==> Kept(glob, rules, local, p)
    ensures forall p :: p in index ==> index[p] == MetaOf(local, p)
  {
    hide S.StackSum, Sum, Q.Under, Matches, Entered, Kept, Listed, AllCovered;
    index := map[];
    var stack: seq<Path> := [[]];
    RootEntered(glob, rules, local);
    while stack != []
      invariant Sound(glob, rules, local, index, stack) && AllCovered(glob, rules, local, index, stack)
      decreases S.Work(local.fs, stack)
    {
      var dir, rest := stack[|stack| - 1], stack[..|stack| - 1];
      assert rest + [dir] == stack;
      S.StackPush(S.One, local.fs, rest, dir);
      ghost var before := index;
      if local.io.lists(dir) {
        stack, index := VisitLocal(glob, rules, local, dir, rest, index);
      } else {
        UnreadableIsEmpty(glob, rules, local, dir, index, rest);
        stack := rest;
      }
      StillCovered(glob, rules, local, before, rest, dir, index, stack);
    }
    Finished(glob, rules, local, index);
  }

  lemma Finished(glob: Glob, rules: seq<Rule>, local: Local, index: map<Path, Meta>)
    requires AllCovered(glob, rules, local, index, [])
    ensures forall p :: Kept(glob, rules, local, p) ==> p in index
  {
    hide Kept;
    forall p | Kept(glob, rules, local, p)
      ensures p in index
    {
      assert Covered(index, [], p);
    }
  }

  // ---- the plan ---------------------------------------------------------

  /** Times may drift by two seconds. */
  predicate MtimeDiffers(a: nat, b: nat) {
    (if a >= b then a - b else b - a) > 2
  }

  predicate NeedsUpload(mine: Meta, remote: map<Path, Meta>, useChecksum: bool, p: Path) {
    p !in remote || useChecksum || remote[p].size != mine.size || MtimeDiffers(remote[p].modified, mine.modified)
  }

  predicate Distinct(s: seq<Path>) {
    forall i, j :: 0 <= i < j < |s| ==> s[i] != s[j]
  }

  /** The copy has the size and, within two seconds, the time of the file. */
  predicate UpToDate(mine: Meta, copy: Meta) {
    copy.size == mine.size && mine.modified - 2 <= copy.modified <= mine.modified + 2
  }

  lemma NeedsUploadIff(mine: Meta, remote: map<Path, Meta>, useChecksum: bool, p: Path)
    ensures NeedsUpload(mine, remote, useChecksum, p) <==> !(!useChecksum && p in remote && UpToDate(mine, remote[p]))
  {
  }

  /**
   * Left out of the uploads is exactly what needs none: a file whose remote
   * copy is up to date, unless contents are to be compared.
   */
  method Plan(glob: Glob, rules: seq<Rule>, local: map<Path, Meta>, remote: map<Path, Meta>, useChecksum: bool,
              delete: bool)
      returns (toUpload: seq<Path>, toDelete: seq<Path>)
    ensures Distinct(toUpload) && Distinct(toDelete)
    ensures forall p ::
              p in toUpload <==> p in local && !(!useChecksum && p in remote && UpToDate(local[p], remote[p]))
    ensures forall p :: p in toDelete <==> delete && p in remote && p !in local && !Excludes(glob, rules, p)
  {
    hide Excludes, NeedsUpload, UpToDate;
    forall p | p in local
      ensures NeedsUpload(local[p], remote, useChecksum, p)
         <==> !(!useChecksum && p in remote && UpToDate(local[p], remote[p]))
    {
      NeedsUploadIff(local[p], remote, useChecksum, p);
    }
    toUpload, toDelete := [], [];
    var left := local.Keys;
    while left != {}
      invariant left <= local.Keys && Distinct(toUpload)
      invariant forall p :: p in toUpload <==> p in local && p !in left && NeedsUpload(local[p], remote, useChecksum, p)
    {
      var p :| p in left;
      left := left - {p};
      if NeedsUpload(local[p], remote, useChecksum, p) {
        toUpload := toUpload + [p];
      }
    }
    if delete {
      left := remote.Keys;
      while left != {}
        invariant left <= remote.Keys && Distinct(toDelete)
        invariant forall p :: p in toDelete <==> p in remote && p !in left && p !in local && !Excludes(glob, rules, p)
      {
        var p :| p in left;
        left := left - {p};
        if p !in local {
          var excluded := SyncExcludes(glob, rules, p);
          if !excluded {
            toDelete := toDelete + [p];
          }
        }
      }
    }
  }

  /** What a sync plans: every kept file without a current copy, and with `delete` what is neither kept nor excluded. */
  ghost predicate Planned(glob: Glob, rules: seq<Rule>, local: Local, remote: map<Path, Meta>, useChecksum: bool,
                          delete: bool, toUpload: seq<Path>, toDelete: seq<Path>) {
    && (forall p :: p in toUpload <==>
          && Kept(glob, rules, local, p)
          && !(!useChecksum && p in remote && UpToDate(MetaOf(local, p), remote[p])))
    && (forall p ::
          p in toDelete <==> delete && p in remote && !Kept(glob, rules, local, p) && !Excludes(glob, rules, p))
  }

  /**
   * Walk, then plan against a remote listing. Of the files in the local tree,
   * only the root `.qftpignore` and those the walk could not read its way to
   * lose their remote copy, and no excluded file does.
   */
  method PlanSync(glob: Glob, rules: seq<Rule>, local: Local, remote: map<Path, Meta>, useChecksum: bool, delete: bool)
      returns (toUpload: seq<Path>, toDelete: seq<Path>)
    requires WellFormed(local.fs)
    ensures Distinct(toUpload) && Distinct(toDelete)
    ensures Planned(glob, rules, local, remote, useChecksum, delete, toUpload, toDelete)
    ensures forall p :: p in toDelete ==> p !in toUpload
    ensures forall p :: p in remote && p in local.fs && local.fs[p].File? ==>
              (p in toDelete <==> delete && !Excludes(glob, rules, p) && (p == IGNORE_FILE || !Readable(local, p)))
  {
    hide Kept, Excludes, UpToDate, Readable, MetaOf;
    var index := WalkLocal(glob, rules, local);
    toUpload, toDelete := Plan(glob, rules, index, remote, useChecksum, delete);
    forall p | p in local.fs && local.fs[p].File?
      ensures Kept(glob, rules, local, p) <==> p != IGNORE_FILE && Readable(local, p) && !Excludes(glob, rules, p)
    {
      KeptIffNotExcluded(glob, rules, local, p);
    }
  }

  /** The remote listing once the plan is carried out; a Put sends no time, so the copy has that of its upload. */
  function CarriedOut(local: Local, remote: map<Path, Meta>, toUpload: seq<Path>, toDelete: seq<Path>,
                      uploaded: Path -> nat): map<Path, Meta>
    requires forall p :: p in toUpload ==> p in local.fs && local.fs[p].File?
  {
    map p | p in remote.Keys + (set q | q in toUpload) && p !in toDelete ::
      if p in toUpload then Meta(local.fs[p].size, uploaded(p)) else remote[p]
  }

  /**
   * After a sync the remote holds every kept file that can be looked up, with
   * its size, and with its time unless it was just uploaded; a sync that
   * deletes leaves besides them only files that are excluded, one that does
   * not all that was there.
   */
  lemma SyncMirrors(glob: Glob, rules: seq<Rule>, local: Local, remote: map<Path, Meta>, useChecksum: bool,
                    delete: bool, toUpload: seq<Path>, toDelete: seq<Path>, uploaded: Path -> nat)
    requires Planned(glob, rules, local, remote, useChecksum, delete, toUpload, toDelete)
    ensures var after := CarriedOut(local, remote, toUpload, toDelete, uploaded);
            && (forall p :: Kept(glob, rules, local, p) ==> p in after)
            && (forall p :: Kept(glob, rules, local, p) && local.measured(p) ==>
                  && after[p].size == local.fs[p].size
                  && (after[p].modified == uploaded(p)
                      || local.modified(p) - 2 <= after[p].modified <= local.modified(p) + 2))
            && (if delete then forall p :: p in after ==> Kept(glob, rules, local, p) || Excludes(glob, rules, p)
                else remote.Keys <= after.Keys)
  {
    hide Excludes, Matches, Entered;
  }

  /**
   * A second sync of an unchanged tree deletes nothing, and uploads again
   * exactly the files whose first upload was more than two seconds from their
   * own time: a Put does not carry it.
   */
  lemma SecondSync(glob: Glob, rules: seq<Rule>, local: Local, remote: map<Path, Meta>, delete: bool,
                   toUpload: seq<Path>, toDelete: seq<Path>, uploaded: Path -> nat,
                   again: seq<Path>, deletes: seq<Path>)
    requires Planned(glob, rules, local, remote, false, delete, toUpload, toDelete)
    requires Planned(glob, rules, local, CarriedOut(local, remote, toUpload, toDelete, uploaded), false, delete,
                     again, deletes)
    ensures forall p :: p !in deletes
    ensures forall p :: Kept(glob, rules, local, p) && local.measured(p) ==>
              (p in again <==> p in toUpload && !(local.modified(p) - 2 <= uploaded(p) <= local.modified(p) + 2))
  {
    hide Excludes, Matches, Entered;
  }

  /**
   * One file, in a directory that can be listed: its entry cannot be read, and
   * its remote copy is deleted. Nothing excludes it.
   */
  method LosesRemoteCopy(glob: Glob, name: string, size: nat, theirs: Meta) returns (toDelete: seq<Path>)
    requires [name] != IGNORE_FILE
    ensures forall p :: p in toDelete <==> p == [name]
  {
    var fs: Fs := map[[] := Dir(0), [name] := File(size, 0)];
    var io := S.WalkIo(p => true, p => p != [name]);
    var local := Local(fs, p => 0, io, p => true);
    assert Parent([name]) == [];
    var toUpload;
    toUpload, toDelete := PlanSync(glob, [], local, map[[name] := theirs], false, true);
    assert !S.Reads(io, [name], 0);
  }
}
