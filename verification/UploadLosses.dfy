/**
 * Runs that show where the cached count gives way, each from a home whose
 * count is exact: a stale partial that is refunded and not truncated, or
 * truncated and not refunded; a commit over a file that is there; a rejected
 * partial that cannot be removed; an aborted one that is not flushed; and a
 * file removed before it is charged.
 */
module UploadLosses {
  import opened Bytes
  import opened Sums
  import opened Uploads
  import opened UploadState
  import opened UploadRuns

  // ---- a stale partial ---------------------------------------------------

  function Home(files: map<Path, nat>, temps: map<Path, nat>, used: nat): World {
    World(Account(used, 0, {}), None, files, temps, map[], 0)
  }

  /** One upload of nothing, over a partial of `stale` bytes. */
  function Lone(p: Path, stale: nat, used: nat, phase: Phase): World {
    World(Account(used, 0, {p}), None, map[], map[p := stale], map[1 := Upload(p, 0, 0, false, 0, phase)], 0)
  }

  lemma LoneStarts(p: Path, stale: nat)
    ensures Apply(Home(map[], map[p := stale], stale), Claim(1, p, 0, 0, false)) == Lone(p, stale, stale, Claimed)
    ensures Apply(Lone(p, stale, stale, Claimed), OpenTemp(1)) == Lone(p, stale, stale, Opened(stale))
  {
    var m: map<Path, nat> := map[p := stale];
    assert m[p := stale] == m;
  }

  lemma LoneLoses(p: Path, stale: nat)
    ensures Apply(Lone(p, stale, stale, Opened(stale)), RefundStale(1)) == Lone(p, stale, 0, StaleRefunded(stale))
    ensures Apply(Lone(p, stale, 0, StaleRefunded(stale)), TruncateFails(1)) == Lone(p, stale, 0, Ended)
  {
  }

  lemma LoneEnds(p: Path, stale: nat)
    ensures Apply(Lone(p, stale, 0, Ended), DropClaim(1)) == Home(map[], map[p := stale], 0)
  {
  }

  /** A refund followed by a failed truncation leaves bytes on disk that nothing counts. */
  lemma RefundedPartialStays(p: Path, stale: nat) returns (w: World, es: seq<Event>)
    requires 0 < stale
    ensures Fresh(w) && Run(w, es).uploads == map[] && Run(w, es).acct.used == 0 && OnDisk(Run(w, es)) == stale
  {
    SumOne(p, stale);
    LoneStarts(p, stale);
    LoneLoses(p, stale);
    LoneEnds(p, stale);
    hide Sum, Run, Apply, Lone;
    w := Home(map[], map[p := stale], stale);
    es := [Claim(1, p, 0, 0, false), OpenTemp(1), RefundStale(1), TruncateFails(1), DropClaim(1)];
    TraceIsRun([w, Lone(p, stale, stale, Claimed), Lone(p, stale, stale, Opened(stale)),
                Lone(p, stale, 0, StaleRefunded(stale)), Lone(p, stale, 0, Ended), Home(map[], map[p := stale], 0)],
                    es);
  }

  lemma LoneIsUnmeasured(p: Path, stale: nat)
    ensures Apply(Lone(p, stale, stale, Claimed), OpenUnmeasured(1)) == Lone(p, stale, stale, Unmeasured)
  {
    var m: map<Path, nat> := map[p := stale];
    assert m[p := stale] == m;
  }

  lemma LoneIsCleared(p: Path, stale: nat)
    ensures Apply(Lone(p, stale, stale, Unmeasured), Truncate(1)) == Lone(p, 0, stale, Prepared)
  {
    var m: map<Path, nat> := map[p := stale];
    assert m[p := 0] == map[p := 0];
  }

  lemma LoneIsAbandoned(p: Path, stale: nat)
    ensures Apply(Lone(p, 0, stale, Prepared), Abandon(1)) == Lone(p, 0, stale, Ended)
    ensures Apply(Lone(p, 0, stale, Ended), DropClaim(1)) == Home(map[], map[p := 0], stale)
  {
  }

  /** A failed length lookup followed by a truncation leaves bytes in the count that are on no disk. */
  lemma UnmeasuredPartialStaysCounted(p: Path, stale: nat) returns (w: World, es: seq<Event>)
    requires 0 < stale
    ensures Fresh(w) && Run(w, es).uploads == map[] && Run(w, es).acct.used == stale && OnDisk(Run(w, es)) == 0
  {
    SumOne(p, stale);
    SumOne(p, 0);
    LoneStarts(p, stale);
    LoneIsUnmeasured(p, stale);
    LoneIsCleared(p, stale);
    LoneIsAbandoned(p, stale);
    hide Sum, Run, Apply, Lone;
    w := Home(map[], map[p := stale], stale);
    es := [Claim(1, p, 0, 0, false), OpenUnmeasured(1), Truncate(1), Abandon(1), DropClaim(1)];
    TraceIsRun([w, Lone(p, stale, stale, Claimed), Lone(p, stale, stale, Unmeasured), Lone(p, 0, stale, Prepared),
                Lone(p, 0, stale, Ended), Home(map[], map[p := 0], stale)], es);
  }

  // ---- a commit over a file ---------------------------------------------

  /** A home whose only file has `m` bytes. */
  function HomeWith(p: Path, m: nat): World {
    World(Account(m, 0, {}), None, map[p := m], map[], map[], 0)
  }

  /** An upload of `n` bytes is about to be received there. */
  function Overwriting(p: Path, m: nat, n: nat): World {
    World(Account(m, n, {p}), None, map[p := m], map[p := 0], map[1 := Upload(p, 0, n, false, n, Receiving)], 0)
  }

  lemma CommitOver(p: Path, m: nat, n: nat)
    requires n <= MAX_FILE_SIZE
    ensures Run(Overwriting(p, m, n), [Receive(1, n)] + ([Rename(1), Release(1), Settle(1)] + [DropClaim(1)]))
         == World(Account(m + n, 0, {}), None, map[p := n], map[], map[], m)
  {
    var w := Overwriting(p, m, n);
    var full := w.(temps := map[p := n], uploads := map[1 := Upload(p, 0, n, false, 0, Receiving)]);
    assert Apply(w, Receive(1, n)) == full by {
      assert w.temps[p := n] == full.temps && w.uploads[1 := full.uploads[1]] == full.uploads;
    }
    var ended := World(Account(m + n, 0, {p}), None, map[p := n], map[], map[1 := Upload(p, 0, n, false, 0, Ended)], m);
    CommitSteps(full, 1);
    assert At(Replaced(full, p), 1, Charged(Released(full.acct, n), n), full.temps - {p}, Ended) == ended by {
      assert full.uploads[1 := full.uploads[1].(phase := Ended)] == ended.uploads;
      assert full.files[p := n] == map[p := n] && full.temps - {p} == map[];
    }
    ClaimStep(ended, 1);
    assert ended.uploads - {1} == map[] && ended.acct.active - {p} == {};
    hide Run, Apply, At, Replaced;
    RunOne(w, Receive(1, n));
    RunOne(ended, DropClaim(1));
    RunAppend(w, [Receive(1, n)], [Rename(1), Release(1), Settle(1)] + [DropClaim(1)]);
    RunAppend(full, [Rename(1), Release(1), Settle(1)], [DropClaim(1)]);
  }

  /** An upload of `n` bytes over a file of `m` leaves `n` bytes on disk, and `m + n` in the count. */
  lemma OverwriteStaysCounted(p: Path, m: nat, n: nat) returns (w: World, es: seq<Event>)
    requires 0 < m && n <= MAX_FILE_SIZE
    ensures Fresh(w) && Run(w, es).uploads == map[]
    ensures OnDisk(Run(w, es)) == n && Run(w, es).acct.used == m + n > OnDisk(Run(w, es))
  {
    w := HomeWith(p, m);
    SumOne(p, m);
    SumOne(p, n);
    var u := Upload(p, 0, n, false, n, Claimed);
    StartRun(w, 1, p, 0, n, false, ALL_WELL);
    assert Started(w, 1, u, ALL_WELL) == Overwriting(p, m, n);
    hide Run, StartSteps, Started, Sum, Overwriting;
    var rest := [Receive(1, n)] + ([Rename(1), Release(1), Settle(1)] + [DropClaim(1)]);
    CommitOver(p, m, n);
    RunAppend(w, StartSteps(1, p, 0, n, false, ALL_WELL), rest);
    es := StartSteps(1, p, 0, n, false, ALL_WELL) + rest;
  }

  // ---- a partial the count does not know ---------------------------------

  /** An upload of `n` bytes to an empty home, all of them received. */
  function Full(p: Path, n: nat): World {
    World(Account(0, n, {p}), Some(n), map[], map[p := n], map[1 := Upload(p, 0, n, false, 0, Receiving)], 0)
  }

  function UpToFull(p: Path, n: nat): seq<Event> {
    StartSteps(1, p, 0, n, false, ALL_WELL) + [Receive(1, n)]
  }

  lemma ReachesFull(p: Path, n: nat)
    requires 0 < n <= MAX_FILE_SIZE
    ensures Run(Home0(n), UpToFull(p, n)) == Full(p, n)
  {
    var w := Home0(n);
    var u := Upload(p, 0, n, false, n, Claimed);
    StartRun(w, 1, p, 0, n, false, ALL_WELL);
    var started := World(Account(0, n, {p}), Some(n), map[], map[p := 0], map[1 := u.(phase := Receiving)], 0);
    assert Started(w, 1, u, ALL_WELL) == started;
    assert Apply(started, Receive(1, n)) == Full(p, n) by {
      assert started.temps[p := n] == map[p := n];
      assert started.uploads[1 := Full(p, n).uploads[1]] == Full(p, n).uploads;
    }
    hide Run, Apply, StartSteps, Started;
    RunAppend(w, StartSteps(1, p, 0, n, false, ALL_WELL), [Receive(1, n)]);
    RunOne(started, Receive(1, n));
  }

  /** Nothing is going on; these are the counters, and the partial at `p`. */
  function Quiet(p: Path, n: nat, used: nat, partial: nat): World {
    World(Account(used, 0, {}), Some(n), map[], map[p := partial], map[], 0)
  }

  lemma RejectsFull(p: Path, n: nat)
    requires 0 < n <= MAX_FILE_SIZE
    ensures Run(Full(p, n), [RejectFails(1), Release(1), Settle(1)] + [DropClaim(1)]) == Quiet(p, n, 0, n)
  {
    var w := Full(p, n);
    RejectSteps(w, 1, false);
    var ended := At(w, 1, Refunded(Released(w.acct, n), 0), w.temps, Ended);
    assert ended.acct == Account(0, 0, {p});
    ClaimStep(ended, 1);
    assert ended.uploads - {1} == map[] && ended.acct.active - {p} == {};
    hide Run, Apply;
    RunAppend(w, [RejectFails(1), Release(1), Settle(1)], [DropClaim(1)]);
    RunOne(ended, DropClaim(1));
  }

  /** A rejected partial that cannot be removed leaves bytes on disk that nothing counts. */
  lemma RejectedPartialStays(p: Path, n: nat) returns (w: World, es: seq<Event>)
    requires 0 < n <= MAX_FILE_SIZE
    ensures Fresh(w) && Run(w, es).uploads == map[] && Run(w, es).acct.used == 0 && OnDisk(Run(w, es)) == n
  {
    hide Run, Sum, UpToFull;
    w := Home0(n);
    HomeIsFresh(n);
    SumOne(p, n);
    ReachesFull(p, n);
    RejectsFull(p, n);
    es := UpToFull(p, n) + ([RejectFails(1), Release(1), Settle(1)] + [DropClaim(1)]);
    RunAppend(w, UpToFull(p, n), [RejectFails(1), Release(1), Settle(1)] + [DropClaim(1)]);
  }

  lemma SpoilsFull(p: Path, n: nat, landed: nat)
    requires 0 < n <= MAX_FILE_SIZE
    ensures Run(Full(p, n), [AbortSpoiled(1, landed), Settle(1), DropClaim(1)]) == Quiet(p, n, n, landed)
  {
    var w := Full(p, n);
    DropSteps(w, 1, Some(landed));
    var temps: map<Path, nat> := map[p := n];
    assert temps[p := landed] == map[p := landed];
    assert w.uploads - {1} == map[] && w.acct.active - {p} == {};
  }

  /** An upload whose buffer cannot be flushed is charged for all it received, whatever landed. */
  lemma SpoiledAbortIsCharged(p: Path, n: nat, landed: nat) returns (w: World, es: seq<Event>)
    requires 0 < n <= MAX_FILE_SIZE
    ensures Fresh(w) && Run(w, es).uploads == map[] && Run(w, es).acct.used == n && OnDisk(Run(w, es)) == landed
  {
    hide Run, Sum, UpToFull;
    w := Home0(n);
    HomeIsFresh(n);
    SumOne(p, landed);
    ReachesFull(p, n);
    SpoilsFull(p, n, landed);
    es := UpToFull(p, n) + [AbortSpoiled(1, landed), Settle(1), DropClaim(1)];
    RunAppend(w, UpToFull(p, n), [AbortSpoiled(1, landed), Settle(1), DropClaim(1)]);
  }

  // ---- a file removed before it is charged -------------------------------

  lemma RemovedEarly(p: Path, n: nat)
    requires 0 < n <= MAX_FILE_SIZE
    ensures Run(Committing(p, n), [Unlink(p), Refund(n)])
         == World(Account(0, n, {p}), Some(n), map[], map[], map[1 := Upload(p, 0, n, false, 0, Renamed)], 0)
  {
    var w := Committing(p, n);
    var cut := w.(files := map[], gone := n);
    assert Apply(w, Unlink(p)) == cut by {
      assert w.files - {p} == map[];
    }
    assert Apply(cut, Refund(n)) == w.(files := map[]);
    hide Apply;
    TraceIsRun([w, cut, w.(files := map[])], [Unlink(p), Refund(n)]);
  }

  lemma ChargedLate(p: Path, n: nat)
    requires 0 < n <= MAX_FILE_SIZE
    ensures Run(Committing(p, n).(files := map[]), [Release(1), Settle(1), DropClaim(1)])
         == World(Account(n, 0, {}), Some(n), map[], map[], map[], 0)
  {
    var w := Committing(p, n).(files := map[]);
    var u := w.uploads[1];
    var released := w.(acct := Account(0, 0, {p}), uploads := map[1 := u.(phase := CommitReleased)]);
    var ended := w.(acct := Account(n, 0, {p}), uploads := map[1 := u.(phase := Ended)]);
    ReleaseStep(w, 1);
    assert w.uploads[1 := u.(phase := CommitReleased)] == released.uploads;
    SettleStep(released, 1);
    assert released.uploads[1 := u.(phase := Ended)] == ended.uploads;
    ClaimStep(ended, 1);
    assert ended.uploads - {1} == map[] && ended.acct.active - {p} == {};
    assert Apply(released, Settle(1)) == ended;
    hide Apply;
    RunThree(w, Release(1), Settle(1), DropClaim(1));
  }

  /**
   * A file removed between the rename and the charge of its commit: the refund
   * finds nothing to take, and the charge stays for good.
   */
  lemma EarlyRemovalStaysCounted(p: Path, n: nat) returns (w: World, es: seq<Event>)
    requires 0 < n <= MAX_FILE_SIZE
    ensures Fresh(w) && Run(w, es).uploads == map[] && Run(w, es).acct.used == n && OnDisk(Run(w, es)) == 0
  {
    hide Run, Sum, UpToCommit;
    w := Home0(n);
    HomeIsFresh(n);
    SumEmpty<Path, nat>(Size);
    ReachesCommit(p, n);
    RemovedEarly(p, n);
    ChargedLate(p, n);
    var end := [Release(1), Settle(1), DropClaim(1)];
    RunAppend(Committing(p, n), [Unlink(p), Refund(n)], end);
    RunAppend(w, UpToCommit(p, n), [Unlink(p), Refund(n)] + end);
    es := UpToCommit(p, n) + ([Unlink(p), Refund(n)] + end);
  }
}
