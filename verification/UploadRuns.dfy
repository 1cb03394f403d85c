/**
 * Runs that show where the quota gives way, each from an empty home: a check
 * in the gap of a commit, and a check around a whole commit.
 */
module UploadRuns {
  import opened Bytes
  import opened Sums
  import opened Uploads
  import opened UploadBudget
  import opened UploadState

  const ALL_WELL: PutIo := PutIo(true, true, true, true, true, true)

  // ---- a check in the gap -----------------------------------------------

  /** One upload caught between a commit's two counter updates, another about to be checked. */
  function Caught(p: Path, q: Path, n: nat, phase: Phase): World {
    World(Account(0, n, {p, q}), Some(n), map[p := n], map[q := 0],
          map[1 := Upload(p, 0, n, false, 0, CommitReleased), 2 := Upload(q, 0, n, false, n, phase)], 0)
  }

  lemma CaughtBudget(p: Path, q: Path, n: nat, phase: Phase)
    ensures Budget(Caught(p, q, n, phase)) == n + Pledged(Upload(q, 0, n, false, n, phase))
  {
    hide Sum;
    SumTwo(Pledged, Upload(p, 0, n, false, 0, CommitReleased), Upload(q, 0, n, false, n, phase));
  }

  lemma CaughtIsAdmitted(p: Path, q: Path, n: nat)
    requires n <= MAX_FILE_SIZE
    ensures Run(Caught(p, q, n, Holding), [LoadUsed(2), CheckQuota(2, true, true)]) == Caught(p, q, n, Receiving)
  {
    var w, c := Caught(p, q, n, Holding), Caught(p, q, n, Checking(0));
    LoadStep(w, 2);
    assert w.uploads[2 := w.uploads[2].(phase := Checking(0))] == c.uploads;
    CheckStep(c, 2, true, true);
    assert c.uploads[2 := c.uploads[2].(phase := Receiving)] == Caught(p, q, n, Receiving).uploads;
    assert Apply(c, CheckQuota(2, true, true)) == Caught(p, q, n, Receiving);
    hide Apply;
    TraceIsRun([w, c, Caught(p, q, n, Receiving)], [LoadUsed(2), CheckQuota(2, true, true)]);
  }

  function Home0(n: nat): World {
    World(Account(0, 0, {}), Some(n), map[], map[], map[], 0)
  }

  /** The first upload is committed, up to its counters. */
  function Committing(p: Path, n: nat): World {
    World(Account(0, n, {p}), Some(n), map[p := n], map[], map[1 := Upload(p, 0, n, false, 0, Renamed)], 0)
  }

  function UpToCommit(p: Path, n: nat): seq<Event> {
    StartSteps(1, p, 0, n, false, ALL_WELL) + [Receive(1, n), Rename(1)]
  }

  lemma ReachesCommit(p: Path, n: nat)
    requires 0 < n <= MAX_FILE_SIZE
    ensures Run(Home0(n), UpToCommit(p, n)) == Committing(p, n)
  {
    var w := Home0(n);
    var u := Upload(p, 0, n, false, n, Claimed);
    StartRun(w, 1, p, 0, n, false, ALL_WELL);
    var started := World(Account(0, n, {p}), Some(n), map[], map[p := 0], map[1 := u.(phase := Receiving)], 0);
    assert Started(w, 1, u, ALL_WELL) == started;
    hide Run, StartSteps, Started;
    RunAppend(w, StartSteps(1, p, 0, n, false, ALL_WELL), [Receive(1, n), Rename(1)]);
    CommitBody(p, n, started);
  }

  lemma CommitBody(p: Path, n: nat, w: World)
    requires w == World(Account(0, n, {p}), Some(n), map[], map[p := 0],
                        map[1 := Upload(p, 0, n, false, n, Receiving)], 0)
    ensures Run(w, [Receive(1, n), Rename(1)]) == Committing(p, n)
  {
    var full := World(Account(0, n, {p}), Some(n), map[], map[p := n],
                      map[1 := Upload(p, 0, n, false, 0, Receiving)], 0);
    assert Apply(w, Receive(1, n)) == full by {
      assert w.temps[p := n] == full.temps && w.uploads[1 := full.uploads[1]] == full.uploads;
    }
    assert Apply(full, Rename(1)) == Committing(p, n) by {
      assert full.temps - {p} == map[] && full.files[p := n] == map[p := n];
      assert full.uploads[1 := full.uploads[1].(phase := Renamed)] == Committing(p, n).uploads;
    }
    hide Apply;
    TraceIsRun([w, full, Committing(p, n)], [Receive(1, n), Rename(1)]);
  }

  /** Meanwhile the second upload reserves. */
  function UpToReserve(q: Path, n: nat): seq<Event> {
    [Claim(2, q, 0, n, false)] + (OpenEvents(2, ALL_WELL) + [Reserve(2)])
  }

  /** The first upload in the middle of its commit, the second with its reservation, about to be checked. */
  function Both(p: Path, q: Path, n: nat, acct: Account, first: Phase, second: Phase): World {
    World(acct, Some(n), map[p := n], map[q := 0],
          map[1 := Upload(p, 0, n, false, 0, first), 2 := Upload(q, 0, n, false, n, second)], 0)
  }

  lemma OpensSecond(p: Path, q: Path, n: nat, c: World)
    requires p != q && 0 < n <= MAX_FILE_SIZE
    requires c == Claimant(Committing(p, n), 2, Upload(q, 0, n, false, n, Claimed))
    ensures Run(c, OpenEvents(2, ALL_WELL)) == Both(p, q, n, Account(0, n, {p, q}), Renamed, Prepared)
  {
    var o := Both(p, q, n, Account(0, n, {p, q}), Renamed, Prepared);
    hide Run;
    OpenSteps(c, 2, ALL_WELL);
    assert c.uploads[2 := c.uploads[2].(phase := Prepared)] == o.uploads && c.temps[q := 0] == o.temps;
    assert c.acct == o.acct;
  }

  lemma ReservesSecond(p: Path, q: Path, n: nat)
    requires 0 < n <= MAX_FILE_SIZE
    ensures Apply(Both(p, q, n, Account(0, n, {p, q}), Renamed, Prepared), Reserve(2))
         == Both(p, q, n, Account(0, 2 * n, {p, q}), Renamed, Holding)
  {
    var o := Both(p, q, n, Account(0, n, {p, q}), Renamed, Prepared);
    ReserveStep(o, 2);
    assert o.uploads[2 := o.uploads[2].(phase := Holding)] == Both(p, q, n, o.acct, Renamed, Holding).uploads;
  }

  lemma ReachesReserve(p: Path, q: Path, n: nat)
    requires p != q && 0 < n <= MAX_FILE_SIZE
    ensures Run(Committing(p, n), UpToReserve(q, n)) == Both(p, q, n, Account(0, 2 * n, {p, q}), Renamed, Holding)
  {
    hide Run, Apply, OpenEvents, Both;
    var w, b := Committing(p, n), Upload(q, 0, n, false, n, Claimed);
    var c := Claimant(w, 2, b);
    ClaimIs(w, 2, b);
    OpensSecond(p, q, n, c);
    ReservesSecond(p, q, n);
    RunOne(w, Claim(2, q, 0, n, false));
    RunOne(Run(c, OpenEvents(2, ALL_WELL)), Reserve(2));
    RunAppend(w, [Claim(2, q, 0, n, false)], OpenEvents(2, ALL_WELL) + [Reserve(2)]);
    RunAppend(c, OpenEvents(2, ALL_WELL), [Reserve(2)]);
  }

  /** From an empty home to that point. */
  function UpToBoth(p: Path, q: Path, n: nat): seq<Event> {
    UpToCommit(p, n) + UpToReserve(q, n)
  }

  lemma ReachesBoth(p: Path, q: Path, n: nat)
    requires p != q && 0 < n <= MAX_FILE_SIZE
    ensures Run(Home0(n), UpToBoth(p, q, n)) == Both(p, q, n, Account(0, 2 * n, {p, q}), Renamed, Holding)
  {
    hide Run, UpToCommit, UpToReserve;
    ReachesCommit(p, n);
    ReachesReserve(p, q, n);
    RunAppend(Home0(n), UpToCommit(p, n), UpToReserve(q, n));
  }

  lemma LetsGo(p: Path, q: Path, n: nat, second: Phase)
    requires p != q && 0 < n <= MAX_FILE_SIZE
    ensures Apply(Both(p, q, n, Account(0, 2 * n, {p, q}), Renamed, second), Release(1)) == Caught(p, q, n, second)
  {
    var both := Both(p, q, n, Account(0, 2 * n, {p, q}), Renamed, second);
    ReleaseStep(both, 1);
    assert both.uploads[1 := both.uploads[1].(phase := CommitReleased)] == Caught(p, q, n, second).uploads;
  }

  /**
   * A check that falls between a commit's two updates misses its bytes: from
   * an empty home, two uploads of the whole quota are both admitted.
   */
  lemma GapAdmitsTooMuch(p: Path, q: Path, n: nat) returns (w: World, es: seq<Event>)
    requires p != q && 0 < n <= MAX_FILE_SIZE
    ensures Fresh(w) && w.quota == Some(n) && Budget(w) <= n
    ensures Run(w, es).quota == Some(n) && Budget(Run(w, es)) == 2 * n > n
  {
    hide Apply, Budget, Run, Caught, Both, UpToBoth;
    w := Home0(n);
    HomeIsFresh(n);
    ReachesBoth(p, q, n);
    var both := Run(w, UpToBoth(p, q, n));
    LetsGo(p, q, n, Holding);
    CaughtIsAdmitted(p, q, n);
    var check := [LoadUsed(2), CheckQuota(2, true, true)];
    RunOne(both, Release(1));
    RunAppend(both, [Release(1)], check);
    RunAppend(w, UpToBoth(p, q, n), [Release(1)] + check);
    es := UpToBoth(p, q, n) + ([Release(1)] + check);
    CaughtBudget(p, q, n, Receiving);
    RunKeepsQuota(w, es);
  }

  // ---- a check around a commit ------------------------------------------

  /** Between its loads the second upload's check sleeps through the rest of the first one's commit. */
  lemma SleepsThrough(p: Path, q: Path, n: nat)
    requires p != q && 0 < n <= MAX_FILE_SIZE
    ensures Run(Both(p, q, n, Account(0, 2 * n, {p, q}), Renamed, Holding), [LoadUsed(2), Release(1), Settle(1)])
         == Both(p, q, n, Account(n, n, {p, q}), Ended, Checking(0))
  {
    var w := Both(p, q, n, Account(0, 2 * n, {p, q}), Renamed, Holding);
    var loaded := Both(p, q, n, Account(0, 2 * n, {p, q}), Renamed, Checking(0));
    var ended := Both(p, q, n, Account(n, n, {p, q}), Ended, Checking(0));
    LoadStep(w, 2);
    assert w.uploads[2 := w.uploads[2].(phase := Checking(0))] == loaded.uploads;
    LetsGo(p, q, n, Checking(0));
    var caught := Caught(p, q, n, Checking(0));
    SettleStep(caught, 1);
    assert caught.uploads[1 := caught.uploads[1].(phase := Ended)] == ended.uploads;
    assert Apply(caught, Settle(1)) == ended;
    hide Apply;
    RunThree(w, LoadUsed(2), Release(1), Settle(1));
  }

  lemma OldLoadIsAdmitted(p: Path, q: Path, n: nat)
    requires n <= MAX_FILE_SIZE
    ensures Apply(Both(p, q, n, Account(n, n, {p, q}), Ended, Checking(0)), CheckQuota(2, true, true))
         == Both(p, q, n, Account(n, n, {p, q}), Ended, Receiving)
  {
    var w := Both(p, q, n, Account(n, n, {p, q}), Ended, Checking(0));
    CheckStep(w, 2, true, true);
    assert w.uploads[2 := w.uploads[2].(phase := Receiving)] == Both(p, q, n, w.acct, Ended, Receiving).uploads;
  }

  lemma BothBudget(p: Path, q: Path, n: nat)
    ensures Budget(Both(p, q, n, Account(n, n, {p, q}), Ended, Receiving)) == 2 * n
  {
    hide Sum;
    SumTwo(Pledged, Upload(p, 0, n, false, 0, Ended), Upload(q, 0, n, false, n, Receiving));
  }

  /**
   * Neither load need fall into the gap: a check that loads `used_bytes`
   * before a commit's updates and `in_flight_bytes` after them misses its
   * bytes as well.
   */
  lemma OldLoadAdmitsTooMuch(p: Path, q: Path, n: nat) returns (w: World, es: seq<Event>)
    requires p != q && 0 < n <= MAX_FILE_SIZE
    ensures Fresh(w) && w.quota == Some(n) && Budget(w) <= n
    ensures Run(w, es).quota == Some(n) && Budget(Run(w, es)) == 2 * n > n
  {
    hide Apply, Budget, Run, Both, UpToBoth;
    w := Home0(n);
    HomeIsFresh(n);
    ReachesBoth(p, q, n);
    SleepsThrough(p, q, n);
    OldLoadIsAdmitted(p, q, n);
    var both := Run(w, UpToBoth(p, q, n));
    var commit, check := [LoadUsed(2), Release(1), Settle(1)], CheckQuota(2, true, true);
    RunOne(Run(both, commit), check);
    RunAppend(both, commit, [check]);
    RunAppend(w, UpToBoth(p, q, n), commit + [check]);
    es := UpToBoth(p, q, n) + (commit + [check]);
    BothBudget(p, q, n);
    RunKeepsQuota(w, es);
  }

  lemma HomeIsFresh(n: nat)
    ensures Fresh(Home0(n)) && Budget(Home0(n)) == 0
  {
    SumEmpty<Path, nat>(Size);
    SumEmpty<nat, Upload>(Pledged);
  }

  lemma SumTwo(f: Upload -> nat, a: Upload, b: Upload)
    ensures Sum<nat, Upload>(f, map[1 := a, 2 := b]) == f(a) + f(b)
  {
    hide Sum;
    var none: map<nat, Upload> := map[];
    SumEmpty<nat, Upload>(f);
    SumAdd(f, none, 1, a);
    SumAdd(f, none[1 := a], 2, b);
    assert none[1 := a][2 := b] == map[1 := a, 2 := b];
  }
}
