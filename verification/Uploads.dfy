/**
 * Upload accounting. Any number of uploads of one user interleave with one
 * another and with the user's requests that remove and rename files, one
 * atomic step at a time, over the shared counters `used_bytes` and
 * `in_flight_bytes`, the set of claimed destinations and the files on disk.
 */
module Uploads {
  import opened Bytes
  import opened Sums
  import FileSystem

  type Path = FileSystem.Path

  // ---- the shared counters ----------------------------------------------

  datatype Account = Account(used: nat, inFlight: nat, active: set<Path>)

  function Reserved(a: Account, n: nat): Account {
    a.(inFlight := (a.inFlight + n) % U64)
  }

  function Released(a: Account, n: nat): Account {
    a.(inFlight := (a.inFlight - n) % U64)
  }

  function Charged(a: Account, n: nat): Account {
    a.(used := a.used + n)
  }

  /** The refunds saturate at zero. */
  function Refunded(a: Account, n: nat): Account {
    a.(used := if n <= a.used then a.used - n else 0)
  }

  function Projected(a: Account): nat {
    Min(a.used + a.inFlight, U64 - 1)
  }

  // ---- uploads, steps and runs ------------------------------------------

  datatype Phase =
    | Claimed
    | Opened(stale: nat)
    | Unmeasured
    | StaleRefunded(stale: nat)
    | Prepared
    | Holding
    | Checking(seen: nat)
    | Refused
    | Receiving
    | Renamed
    | CommitReleased
    | Rejected
    | RejectReleased
    | AbortReleased
    | Ended

  datatype Upload = Upload(
    dest: Path, offset: nat, size: nat, noClobber: bool, remaining: nat, phase: Phase)

  /**
   * `temps` holds the partial file of each destination. `gone` is history:
   * the bytes of finished files that commits and requests have replaced or
   * removed, less what requests have refunded for that.
   */
  datatype World = World(
    acct: Account, quota: Option<nat>, files: map<Path, nat>, temps: map<Path, nat>,
    uploads: map<nat, Upload>, gone: int)

  datatype Event =
    | Claim(id: nat, dest: Path, offset: nat, size: nat, noClobber: bool)
    | OpenTemp(id: nat)
    | OpenUnmeasured(id: nat)
    | OpenFails(id: nat)
    | RefundStale(id: nat)
    | Truncate(id: nat)
    | TruncateFails(id: nat)
    | Abandon(id: nat)
    | Reserve(id: nat)
    | LoadUsed(id: nat)
    | CheckQuota(id: nat, decoderReady: bool, removes: bool)
    | DropGuard(id: nat)
    | Receive(id: nat, n: nat)
    | Rename(id: nat)
    | Reject(id: nat)
    | RejectFails(id: nat)
    | Abort(id: nat)
    | AbortSpoiled(id: nat, landed: nat)
    | Release(id: nat)
    | Settle(id: nat)
    | DropClaim(id: nat)
    | Unlink(path: Path)
    | Move(from: Path, to: Path)
    | Refund(bytes: nat)

  /** Steps of the user's requests to remove or rename a finished file. */
  predicate ByRequest(e: Event) {
    e.Unlink? || e.Move? || e.Refund?
  }

  function Length(m: map<Path, nat>, p: Path): nat {
    if p in m then m[p] else 0
  }

  function Advance(w: World, id: nat, phase: Phase): World
    requires id in w.uploads
  {
    w.(uploads := w.uploads[id := w.uploads[id].(phase := phase)])
  }

  /** One step; an event whose upload is not at the right point changes nothing. */
  function Apply(w: World, e: Event): World {
    if e.Claim? then ApplyClaim(w, e.id, e.dest, e.offset, e.size, e.noClobber)
    else if ByRequest(e) then ApplyRequest(w, e)
    else if e.id !in w.uploads then w
    else ApplyTo(w, e, e.id)
  }

  function ApplyClaim(w: World, id: nat, dest: Path, offset: nat, size: nat, noClobber: bool): World {
    if id in w.uploads || offset + size > MAX_FILE_SIZE || dest in w.acct.active then w
    else
      w.(acct := w.acct.(active := w.acct.active + {dest}),
         uploads := w.uploads[id := Upload(dest, offset, size, noClobber, size, Claimed)])
  }

  /** A refund is for whatever length the request has seen before; it saturates at zero. */
  function ApplyRequest(w: World, e: Event): World
    requires ByRequest(e)
  {
    match e
    case Unlink(p) => w.(files := w.files - {p}, gone := w.gone + Length(w.files, p))
    case Move(p, q) =>
      if p !in w.files || p == q then w
      else w.(files := (w.files - {p})[q := w.files[p]], gone := w.gone + Length(w.files, q))
    case Refund(n) => w.(acct := Refunded(w.acct, n), gone := w.gone - n)
  }

  function ApplyTo(w: World, e: Event, id: nat): World
    requires id in w.uploads && !e.Claim? && !ByRequest(e)
  {
    var u := w.uploads[id];
    match (e, u.phase)
    case (OpenTemp(_), Claimed) => ApplyOpen(w, id)
    case (OpenUnmeasured(_), Claimed) => ApplyOpenUnmeasured(w, id)
    case (OpenFails(_), Claimed) => Advance(w, id, Ended)
    case (RefundStale(_), Opened(stale)) =>
      Advance(w.(acct := Refunded(w.acct, stale)), id, StaleRefunded(stale))
    case (Truncate(_), StaleRefunded(_)) =>
      Advance(w.(temps := w.temps[u.dest := 0]), id, Prepared)
    case (Truncate(_), Unmeasured) => Advance(w.(temps := w.temps[u.dest := 0]), id, Prepared)
    case (TruncateFails(_), StaleRefunded(_)) => Advance(w, id, Ended)
    case (TruncateFails(_), Unmeasured) => Advance(w, id, Ended)
    case (Abandon(_), Prepared) => Advance(w, id, Ended)
    case (Reserve(_), Prepared) => Advance(w.(acct := Reserved(w.acct, u.size)), id, Holding)
    case (LoadUsed(_), Holding) => Advance(w, id, Checking(w.acct.used))
    case (CheckQuota(_, ready, removes), Checking(seen)) => ApplyCheck(w, id, seen, ready, removes)
    case (DropGuard(_), Refused) => Advance(w.(acct := Released(w.acct, u.size)), id, Ended)
    case (Receive(_, n), Receiving) => if n <= u.remaining then ApplyReceive(w, id, n) else w
    case (Rename(_), Receiving) =>
      if u.remaining == 0 && !(u.noClobber && u.dest in w.files) then ApplyRename(w, id) else w
    case (Reject(_), Receiving) => Advance(w.(temps := w.temps - {u.dest}), id, Rejected)
    case (RejectFails(_), Receiving) => Advance(w, id, Rejected)
    case (Abort(_), Receiving) => Advance(w.(acct := Released(w.acct, u.size)), id, AbortReleased)
    case (AbortSpoiled(_, n), Receiving) =>
      Advance(w.(acct := Released(w.acct, u.size), temps := w.temps[u.dest := n]), id, AbortReleased)
    case (Release(_), Renamed) => Advance(w.(acct := Released(w.acct, u.size)), id, CommitReleased)
    case (Release(_), Rejected) => Advance(w.(acct := Released(w.acct, u.size)), id, RejectReleased)
    case (Settle(_), CommitReleased) => Advance(w.(acct := Charged(w.acct, u.size)), id, Ended)
    case (Settle(_), AbortReleased) =>
      Advance(w.(acct := Charged(w.acct, u.size - Min(u.remaining, u.size))), id, Ended)
    case (Settle(_), RejectReleased) => Advance(w.(acct := Refunded(w.acct, u.offset)), id, Ended)
    case (DropClaim(_), Ended) =>
      w.(acct := w.acct.(active := w.acct.active - {u.dest}), uploads := w.uploads - {id})
    case _ => w
  }

  /** A fresh upload creates or reuses the partial; a resumed one needs exactly `offset` bytes of it. */
  function ApplyOpen(w: World, id: nat): World
    requires id in w.uploads
  {
    var u := w.uploads[id];
    if u.offset == 0 then
      Advance(w.(temps := w.temps[u.dest := Length(w.temps, u.dest)]), id, Opened(Length(w.temps, u.dest)))
    else if u.dest in w.temps && w.temps[u.dest] == u.offset then Advance(w, id, Prepared)
    else Advance(w, id, Ended)
  }

  /** Its length unknown, a stale partial counts as empty; a resumed upload cannot go on. */
  function ApplyOpenUnmeasured(w: World, id: nat): World
    requires id in w.uploads
  {
    var u := w.uploads[id];
    if u.offset == 0 then Advance(w.(temps := w.temps[u.dest := Length(w.temps, u.dest)]), id, Unmeasured)
    else Advance(w, id, Ended)
  }

  /** The decision, on `used_bytes` as it was loaded before and `in_flight_bytes` as it is now. */
  function ApplyCheck(w: World, id: nat, seen: nat, decoderReady: bool, removes: bool): World
    requires id in w.uploads
  {
    var u := w.uploads[id];
    if w.quota.Some? && Projected(w.acct.(used := seen)) > w.quota.value then
      Advance(if u.offset == 0 && removes then w.(temps := w.temps - {u.dest}) else w, id, Refused)
    else Advance(w, id, if decoderReady then Receiving else Refused)
  }

  function ApplyReceive(w: World, id: nat, n: nat): World
    requires id in w.uploads && n <= w.uploads[id].remaining
  {
    var u := w.uploads[id];
    w.(temps := w.temps[u.dest := Length(w.temps, u.dest) + n],
       uploads := w.uploads[id := u.(remaining := u.remaining - n)])
  }

  function ApplyRename(w: World, id: nat): World
    requires id in w.uploads
  {
    var u := w.uploads[id];
    Advance(w.(files := w.files[u.dest := Length(w.temps, u.dest)],
               temps := w.temps - {u.dest},
               gone := w.gone + Length(w.files, u.dest)), id, Renamed)
  }

  function Run(w: World, es: seq<Event>): World
    decreases |es|
  {
    if es == [] then w else Run(Apply(w, es[0]), es[1..])
  }

  // ---- what every step keeps --------------------------------------------

  function Size(n: nat): nat {
    n
  }

  /** What an upload holds of `in_flight_bytes`: an armed guard, or its state's reservation. */
  function Held(u: Upload): nat {
    match u.phase
    case Holding | Checking(_) | Refused | Receiving | Renamed | Rejected => u.size
    case _ => 0
  }

  /** Bytes put on disk for this upload that `used_bytes` does not count yet. */
  function Ahead(u: Upload): nat {
    match u.phase
    case StaleRefunded(stale) => stale
    case Receiving | AbortReleased => u.size - Min(u.remaining, u.size)
    case Renamed | CommitReleased => u.size
    case _ => 0
  }

  /** Bytes gone from disk that `used_bytes` still counts. */
  function Owed(u: Upload): nat {
    if u.phase.Rejected? || u.phase.RejectReleased? then u.offset else 0
  }

  ghost function OnDisk(w: World): nat {
    Sum(Size, w.files) + Sum(Size, w.temps)
  }

  /** `active_uploads` is exactly the destinations of the live claims, one claim each. */
  ghost predicate ClaimsExact(w: World) {
    && (forall i, j :: i in w.uploads && j in w.uploads && i != j ==> w.uploads[i].dest != w.uploads[j].dest)
    && (forall i :: i in w.uploads ==> w.uploads[i].dest in w.acct.active)
    && (forall p :: p in w.acct.active ==> exists i :: i in w.uploads && w.uploads[i].dest == p)
  }

  /** What an upload knows of the partial at its destination. */
  predicate InShape(u: Upload, temps: map<Path, nat>) {
    && u.remaining <= u.size
    && u.offset + u.size <= MAX_FILE_SIZE
    && match u.phase
       case Claimed => u.remaining == u.size
       case Opened(stale) =>
         u.offset == 0 && u.dest in temps && temps[u.dest] == stale && u.remaining == u.size
       case StaleRefunded(stale) =>
         u.offset == 0 && u.dest in temps && temps[u.dest] == stale && u.remaining == u.size
       case Unmeasured => u.offset == 0 && u.dest in temps && u.remaining == u.size
       case Prepared | Holding | Checking(_) =>
         u.dest in temps && temps[u.dest] == u.offset && u.remaining == u.size
       case Receiving | AbortReleased =>
         u.dest in temps && temps[u.dest] == u.offset + (u.size - u.remaining)
       case _ => true
  }

  ghost predicate Shaped(w: World) {
    forall i :: i in w.uploads ==> InShape(w.uploads[i], w.temps)
  }

  ghost predicate InFlightExact(w: World) {
    w.acct.inFlight == Sum(Held, w.uploads) % U64
  }

  ghost predicate UsedExact(w: World) {
    w.acct.used + Sum(Ahead, w.uploads) == OnDisk(w) + w.gone + Sum(Owed, w.uploads)
  }

  ghost predicate Consistent(w: World) {
    ClaimsExact(w) && Shaped(w) && InFlightExact(w) && UsedExact(w)
  }

  /** Renamed into place and not charged yet. */
  predicate Committed(u: Upload) {
    u.phase.Renamed? || u.phase.CommitReleased?
  }

  /** The files just renamed into place are still there, and no request has refunded more than went. */
  ghost predicate Backed(w: World) {
    && w.gone >= 0
    && forall i :: i in w.uploads && Committed(w.uploads[i]) ==>
         InPlace(w.uploads[i], w.files)
  }

  predicate InPlace(u: Upload, files: map<Path, nat>) {
    u.dest in files && files[u.dest] == u.offset + u.size
  }

  /** No uploads yet, and `used_bytes` primed with what is on disk. */
  ghost predicate Fresh(w: World) {
    && w.uploads == map[] && w.gone == 0
    && w.acct == Account(OnDisk(w), 0, {})
  }

  // ---- one step ---------------------------------------------------------

  lemma SumWithout(m: map<Path, nat>, p: Path)
    ensures Sum(Size, m) == Length(m, p) + Sum(Size, m - {p})
  {
    if p in m {
      SumRemove(Size, m, p);
    } else {
      assert m - {p} == m;
    }
  }

  /** `v` is `w` with upload `id` moved on, and counters and disk moved with it, at its destination alone. */
  predicate MovesAlone(w: World, v: World, id: nat)
    requires id in w.uploads
  {
    && id in v.uploads
    && var was, u := w.uploads[id], v.uploads[id];
    && v.uploads == w.uploads[id := u] && u.dest == was.dest && v.acct.active == w.acct.active
    && v.temps - {u.dest} == w.temps - {u.dest} && v.files - {u.dest} == w.files - {u.dest}
    && InShape(u, v.temps)
    && v.acct.inFlight == (w.acct.inFlight + Held(u) - Held(was)) % U64
    && v.acct.used + Ahead(u) - Owed(u) - v.gone - Length(v.temps, u.dest) - Length(v.files, u.dest)
       == w.acct.used + Ahead(was) - Owed(was) - w.gone - Length(w.temps, u.dest) - Length(w.files, u.dest)
  }

  /** Such a move keeps everything that adds up. */
  lemma MoveKeeps(w: World, v: World, id: nat)
    requires Consistent(w) && id in w.uploads && MovesAlone(w, v, id)
    ensures Consistent(v)
  {
    hide Sum, Held, Ahead, Owed;
    var u := v.uploads[id];
    SumUpdate(Held, w.uploads, id, u);
    SumUpdate(Ahead, w.uploads, id, u);
    SumUpdate(Owed, w.uploads, id, u);
    SumWithout(w.temps, u.dest);
    SumWithout(v.temps, u.dest);
    SumWithout(w.files, u.dest);
    SumWithout(v.files, u.dest);
    ModShift(Sum(Held, w.uploads), Held(u) - Held(w.uploads[id]));
    MoveKeepsClaims(w, v, id, u);
    MoveKeepsShapes(w, v, id, u);
  }

  lemma ModShift(total: int, delta: int)
    ensures (total % U64 + delta) % U64 == (total + delta) % U64
  {
    var k := total / U64;
    assert total % U64 + delta == (total + delta) - k * U64;
    ModMultiple(total + delta, -k);
  }

  lemma {:induction false} ModMultiple(x: int, k: int)
    ensures (x + k * U64) % U64 == x % U64
    decreases if k < 0 then -k else k
  {
    if k > 0 {
      ModMultiple(x, k - 1);
    } else if k < 0 {
      ModMultiple(x, k + 1);
    }
  }

  lemma MoveKeepsClaims(w: World, v: World, id: nat, u: Upload)
    requires ClaimsExact(w) && id in w.uploads
    requires v.uploads == w.uploads[id := u] && u.dest == w.uploads[id].dest && v.acct.active == w.acct.active
    ensures ClaimsExact(v)
  {
    forall p | p in v.acct.active
      ensures exists i :: i in v.uploads && v.uploads[i].dest == p
    {
      var i :| i in w.uploads && w.uploads[i].dest == p;
      assert i in v.uploads && v.uploads[i].dest == p;
    }
  }

  lemma MoveKeepsShapes(w: World, v: World, id: nat, u: Upload)
    requires ClaimsExact(w) && Shaped(w) && id in w.uploads
    requires v.uploads == w.uploads[id := u] && u.dest == w.uploads[id].dest
    requires v.temps - {u.dest} == w.temps - {u.dest} && InShape(u, v.temps)
    ensures Shaped(v)
  {
    forall i | i in v.uploads
      ensures InShape(v.uploads[i], v.temps)
    {
      if i != id {
        var other := w.uploads[i];
        assert other.dest != u.dest;
        assert other.dest in w.temps <==> other.dest in w.temps - {u.dest};
        assert other.dest in v.temps <==> other.dest in v.temps - {u.dest};
      }
    }
  }

  /** What uploads have on disk beyond `used_bytes` is on disk: no two share a destination. */
  lemma {:induction false} AheadIsOnDisk(uploads: map<nat, Upload>, temps: map<Path, nat>, files: map<Path, nat>)
    requires forall i, j :: i in uploads && j in uploads && i != j ==> uploads[i].dest != uploads[j].dest
    requires forall i :: i in uploads ==>
        Ahead(uploads[i]) <= Length(temps, uploads[i].dest) + Length(files, uploads[i].dest)
    ensures Sum(Ahead, uploads) <= Sum(Size, temps) + Sum(Size, files)
    decreases |uploads|
  {
    hide Sum, Ahead;
    if uploads == map[] {
      SumEmpty<nat, Upload>(Ahead);
    } else {
      var i :| i in uploads;
      var p := uploads[i].dest;
      SumRemove(Ahead, uploads, i);
      SumWithout(temps, p);
      SumWithout(files, p);
      AheadIsOnDisk(uploads - {i}, temps - {p}, files - {p});
    }
  }

  lemma ShapeHoldsAhead(u: Upload, temps: map<Path, nat>, files: map<Path, nat>)
    requires InShape(u, temps) && (Committed(u) ==> InPlace(u, files))
    ensures Ahead(u) <= Length(temps, u.dest) + Length(files, u.dest)
  {
  }

  /** The refund of a stale partial does not saturate. */
  lemma StaleIsCounted(w: World, id: nat)
    requires Consistent(w) && Backed(w) && id in w.uploads && w.uploads[id].phase.Opened?
    ensures w.uploads[id].phase.stale <= w.acct.used
  {
    hide Sum, Ahead, InShape;
    var u := w.uploads[id];
    OpenedShape(u, w.temps);
    SumRemove(Ahead, w.uploads, id);
    SumWithout(w.temps, u.dest);
    SumWithout(w.files, u.dest);
    forall i | i in w.uploads - {id}
      ensures Ahead(w.uploads[i]) <= Length(w.temps - {u.dest}, w.uploads[i].dest)
              + Length(w.files - {u.dest}, w.uploads[i].dest)
    {
      ShapeHoldsAhead(w.uploads[i], w.temps, w.files);
    }
    AheadIsOnDisk(w.uploads - {id}, w.temps - {u.dest}, w.files - {u.dest});
  }

  lemma OpenedShape(u: Upload, temps: map<Path, nat>)
    requires InShape(u, temps) && u.phase.Opened?
    ensures u.dest in temps && temps[u.dest] == u.phase.stale && Ahead(u) == 0
  {
  }

  /** The refund of a deleted resume prefix does not saturate. */
  lemma PrefixIsCounted(w: World, id: nat)
    requires Consistent(w) && Backed(w) && id in w.uploads && w.uploads[id].phase.RejectReleased?
    ensures w.uploads[id].offset <= w.acct.used
  {
    hide Sum, Ahead, InShape;
    SumRemove(Owed, w.uploads, id);
    forall i | i in w.uploads
      ensures Ahead(w.uploads[i]) <= Length(w.temps, w.uploads[i].dest) + Length(w.files, w.uploads[i].dest)
    {
      ShapeHoldsAhead(w.uploads[i], w.temps, w.files);
    }
    AheadIsOnDisk(w.uploads, w.temps, w.files);
  }

  lemma ClaimKeeps(w: World, id: nat, dest: Path, offset: nat, size: nat, noClobber: bool)
    requires Consistent(w)
    ensures Consistent(ApplyClaim(w, id, dest, offset, size, noClobber))
  {
    hide Sum, ClaimsExact;
    var v := ApplyClaim(w, id, dest, offset, size, noClobber);
    if v != w {
      var u := Upload(dest, offset, size, noClobber, size, Claimed);
      SumAdd(Held, w.uploads, id, u);
      SumAdd(Ahead, w.uploads, id, u);
      SumAdd(Owed, w.uploads, id, u);
      ClaimKeepsClaims(w, v, id, u);
    }
  }

  lemma ClaimKeepsClaims(w: World, v: World, id: nat, u: Upload)
    requires ClaimsExact(w) && id !in w.uploads && u.dest !in w.acct.active
    requires v.uploads == w.uploads[id := u] && v.acct.active == w.acct.active + {u.dest}
    ensures ClaimsExact(v)
  {
    forall p | p in v.acct.active
      ensures exists i :: i in v.uploads && v.uploads[i].dest == p
    {
      if p == u.dest {
        assert v.uploads[id].dest == p;
      } else {
        var i :| i in w.uploads && w.uploads[i].dest == p;
        assert i in v.uploads && v.uploads[i].dest == p;
      }
    }
  }

  lemma DropClaimKeeps(w: World, id: nat)
    requires Consistent(w) && id in w.uploads && w.uploads[id].phase.Ended?
    ensures Consistent(ApplyTo(w, DropClaim(id), id))
  {
    hide Sum, ClaimsExact;
    SumRemove(Held, w.uploads, id);
    SumRemove(Ahead, w.uploads, id);
    SumRemove(Owed, w.uploads, id);
    DropKeepsClaims(w, ApplyTo(w, DropClaim(id), id), id);
  }

  lemma DropKeepsClaims(w: World, v: World, id: nat)
    requires ClaimsExact(w) && id in w.uploads
    requires v.uploads == w.uploads - {id} && v.acct.active == w.acct.active - {w.uploads[id].dest}
    ensures ClaimsExact(v)
  {
    forall p | p in v.acct.active
      ensures exists i :: i in v.uploads && v.uploads[i].dest == p
    {
      var i :| i in w.uploads && w.uploads[i].dest == p;
      assert i in v.uploads && v.uploads[i].dest == p;
    }
  }

  /** A file system call failed, or the disk is not what the failed call leaves the code to believe. */
  predicate Fails(w: World, e: Event) {
    if e.Claim? || ByRequest(e) || e.id !in w.uploads then false
    else
      var u := w.uploads[e.id];
      var n := Length(w.temps, u.dest);
      match e
      // a stale partial was refunded, and is still there
      case TruncateFails(_) => u.phase.StaleRefunded? && u.phase.stale > 0
      // a stale partial was not refunded, and is gone
      case Truncate(_) => u.phase.Unmeasured? && n > 0
      // a rejected partial is refunded, and still there
      case RejectFails(_) => u.phase.Receiving? && n > 0
      // an aborted upload is charged for what is not there, or not for all that is
      case AbortSpoiled(_, landed) => u.phase.Receiving? && landed != n
      case _ => false
  }

  /** A refund of more than `used_bytes` holds. */
  predicate Saturates(w: World, e: Event) {
    if e.Claim? then false
    else if e.Refund? then e.bytes > w.acct.used
    else if ByRequest(e) || e.id !in w.uploads then false
    else
      var u := w.uploads[e.id];
      || (e.RefundStale? && u.phase.Opened? && u.phase.stale > w.acct.used)
      || (e.Settle? && u.phase.RejectReleased? && u.offset > w.acct.used)
  }

  predicate LosesCount(w: World, e: Event) {
    Fails(w, e) || Saturates(w, e)
  }

  /** Every step keeps the accounting, but for those that lose count, which always break it. */
  lemma StepKeeps(w: World, e: Event)
    requires Consistent(w)
    ensures Consistent(Apply(w, e)) <==> !LosesCount(w, e)
  {
    hide Consistent, ApplyTo, ApplyClaim, ApplyRequest;
    if e.Claim? {
      ClaimKeeps(w, e.id, e.dest, e.offset, e.size, e.noClobber);
    } else if ByRequest(e) {
      RequestKeeps(w, e);
    } else if e.id in w.uploads {
      if LosesCount(w, e) {
        LosesIt(w, e, e.id);
      } else {
        StepOfKeeps(w, e, e.id);
      }
    }
  }

  /** A request moves disk and history by the same bytes. */
  lemma RequestKeeps(w: World, e: Event)
    requires Consistent(w) && ByRequest(e)
    ensures Consistent(ApplyRequest(w, e)) <==> !Saturates(w, e)
  {
    hide Sum, ClaimsExact;
    assert ClaimsExact(w) && ApplyRequest(w, e).acct.active == w.acct.active;
    SameClaims(w, ApplyRequest(w, e));
    match e
    case Unlink(p) =>
      SumWithout(w.files, p);
    case Move(p, q) =>
      if p in w.files && p != q {
        SumWithout(w.files, p);
        SumWithout(w.files - {p}, q);
        SumWithout((w.files - {p})[q := w.files[p]], q);
        SameElsewhere(w.files - {p}, q, w.files[p]);
      }
    case Refund(n) =>
  }

  lemma SameClaims(w: World, v: World)
    requires ClaimsExact(w) && v.uploads == w.uploads && v.acct.active == w.acct.active
    ensures ClaimsExact(v)
  {
  }

  lemma LosesIt(w: World, e: Event, id: nat)
    requires Consistent(w) && !e.Claim? && !ByRequest(e) && e.id == id && id in w.uploads && LosesCount(w, e)
    ensures !Consistent(ApplyTo(w, e, id))
  {
    hide Sum, Consistent, ApplyTo, Ahead, Owed;
    var v := ApplyTo(w, e, id);
    if e.AbortSpoiled? {
      SpoilsShape(w, e, id);
    } else {
      LosesBytes(w, e, id);
      var u := v.uploads[id];
      SumUpdate(Ahead, w.uploads, id, u);
      SumUpdate(Owed, w.uploads, id, u);
      SumWithout(w.temps, u.dest);
      SumWithout(v.temps, u.dest);
      SameElsewhere(w.temps, u.dest, 0);
      OffBalance(w, v, id);
    }
  }

  lemma SpoilsShape(w: World, e: Event, id: nat)
    requires Consistent(w) && id in w.uploads && e.AbortSpoiled? && e.id == id && LosesCount(w, e)
    ensures !Consistent(ApplyTo(w, e, id))
  {
    hide Sum, ClaimsExact, InFlightExact, UsedExact;
    assert InShape(w.uploads[id], w.temps);
    assert !InShape(ApplyTo(w, e, id).uploads[id], ApplyTo(w, e, id).temps);
  }

  /** The counter and the disk move apart, at the upload's destination. */
  lemma LosesBytes(w: World, e: Event, id: nat)
    requires Consistent(w) && !e.Claim? && !ByRequest(e) && e.id == id && id in w.uploads && LosesCount(w, e)
    requires !e.AbortSpoiled?
    ensures var v := ApplyTo(w, e, id);
            && id in v.uploads
            && var was, u := w.uploads[id], v.uploads[id];
            && v.uploads == w.uploads[id := u] && u.dest == was.dest && v.files == w.files && v.gone == w.gone
            && (v.temps == w.temps || v.temps == w.temps[u.dest := 0])
            && v.acct.used + Ahead(u) - Owed(u) - Length(v.temps, u.dest)
            != w.acct.used + Ahead(was) - Owed(was) - Length(w.temps, u.dest)
  {
    hide Sum, ClaimsExact, InFlightExact, UsedExact;
    assert InShape(w.uploads[id], w.temps);
  }

  lemma OffBalance(w: World, v: World, id: nat)
    requires Consistent(w) && id in w.uploads && id in v.uploads && v.files == w.files && v.gone == w.gone
    requires var was, u := w.uploads[id], v.uploads[id];
             && Sum(Ahead, v.uploads) + Ahead(was) == Sum(Ahead, w.uploads) + Ahead(u)
             && Sum(Owed, v.uploads) + Owed(was) == Sum(Owed, w.uploads) + Owed(u)
             && Sum(Size, v.temps) - Length(v.temps, u.dest) == Sum(Size, w.temps) - Length(w.temps, u.dest)
             && v.acct.used + Ahead(u) - Owed(u) - Length(v.temps, u.dest)
             != w.acct.used + Ahead(was) - Owed(was) - Length(w.temps, u.dest)
    ensures !Consistent(v)
  {
    hide Sum, ClaimsExact, InFlightExact, Shaped, Ahead, Owed;
  }

  lemma StepOfKeeps(w: World, e: Event, id: nat)
    requires Consistent(w) && id in w.uploads && !e.Claim? && !ByRequest(e) && e.id == id && !LosesCount(w, e)
    ensures Consistent(ApplyTo(w, e, id))
  {
    hide Sum, ClaimsExact, UsedExact, InFlightExact, InShape, Held, Ahead, Owed, MovesAlone, Fails, Saturates;
    var v := ApplyTo(w, e, id);
    if v != w {
      if e.DropClaim? {
        DropClaimKeeps(w, id);
      } else {
        StepMoves(w, e, id);
        MoveKeeps(w, v, id);
      }
    }
  }

  lemma SameElsewhere(m: map<Path, nat>, p: Path, n: nat)
    ensures m[p := n] - {p} == m - {p} && (m - {p}) - {p} == m - {p}
  {
  }

  lemma ShapeOf(w: World, id: nat)
    requires Consistent(w) && id in w.uploads
    ensures InShape(w.uploads[id], w.temps) && w.acct.inFlight % U64 == w.acct.inFlight
  {
    hide Sum, UsedExact, ClaimsExact;
  }

  /** Each step changes counters and disk by what the upload's phase says, at its destination alone. */
  lemma StepMoves(w: World, e: Event, id: nat)
    requires Consistent(w) && id in w.uploads && !e.Claim? && !ByRequest(e) && !e.DropClaim?
    requires e.id == id && !LosesCount(w, e)
    ensures MovesAlone(w, ApplyTo(w, e, id), id)
  {
    hide Sum, ClaimsExact, UsedExact, InFlightExact, Consistent, MovesAlone, ApplyTo, InShape, Fails, Saturates;
    ShapeOf(w, id);
    if e.OpenTemp? || e.OpenUnmeasured? || e.OpenFails? || e.Abandon? {
      OpenMoves(w, e, id);
    } else if e.Truncate? || e.TruncateFails? {
      TruncateMoves(w, e, id);
    } else if e.Reject? || e.RejectFails? {
      RejectMoves(w, e, id);
    } else if e.LoadUsed? || e.CheckQuota? {
      CheckMoves(w, e, id);
    } else if e.Receive? {
      ReceiveMoves(w, e, id);
    } else if e.Rename? {
      RenameMoves(w, e, id);
    } else if e.RefundStale? || e.Settle? {
      SettleMoves(w, e, id);
    } else if e.AbortSpoiled? {
      SpoiledMoves(w, e, id);
    } else if e.Abort? || e.Release? {
      ReleaseMoves(w, e, id);
    } else {
      ReservationMoves(w, e, id);
    }
  }

  lemma OpenMoves(w: World, e: Event, id: nat)
    requires id in w.uploads && InShape(w.uploads[id], w.temps) && w.acct.inFlight % U64 == w.acct.inFlight
    requires e.OpenTemp? || e.OpenUnmeasured? || e.OpenFails? || e.Abandon?
    ensures MovesAlone(w, ApplyTo(w, e, id), id)
  {
    assert w.uploads == w.uploads[id := w.uploads[id]];
    SameElsewhere(w.temps, w.uploads[id].dest, Length(w.temps, w.uploads[id].dest));
  }

  lemma TruncateMoves(w: World, e: Event, id: nat)
    requires id in w.uploads && InShape(w.uploads[id], w.temps) && w.acct.inFlight % U64 == w.acct.inFlight
    requires e.Truncate? || e.TruncateFails?
    requires e.id == id && !LosesCount(w, e)
    ensures MovesAlone(w, ApplyTo(w, e, id), id)
  {
    assert w.uploads == w.uploads[id := w.uploads[id]];
    SameElsewhere(w.temps, w.uploads[id].dest, 0);
  }

  lemma RejectMoves(w: World, e: Event, id: nat)
    requires id in w.uploads && InShape(w.uploads[id], w.temps) && w.acct.inFlight % U64 == w.acct.inFlight
    requires e.Reject? || e.RejectFails?
    requires e.id == id && !LosesCount(w, e)
    ensures MovesAlone(w, ApplyTo(w, e, id), id)
  {
    assert w.uploads == w.uploads[id := w.uploads[id]];
    SameElsewhere(w.temps, w.uploads[id].dest, 0);
  }

  lemma CheckMoves(w: World, e: Event, id: nat)
    requires id in w.uploads && InShape(w.uploads[id], w.temps) && w.acct.inFlight % U64 == w.acct.inFlight
    requires e.LoadUsed? || e.CheckQuota?
    ensures MovesAlone(w, ApplyTo(w, e, id), id)
  {
    hide Projected;
    assert w.uploads == w.uploads[id := w.uploads[id]];
    SameElsewhere(w.temps, w.uploads[id].dest, 0);
  }

  lemma ReceiveMoves(w: World, e: Event, id: nat)
    requires id in w.uploads && InShape(w.uploads[id], w.temps) && w.acct.inFlight % U64 == w.acct.inFlight
    requires e.Receive?
    ensures MovesAlone(w, ApplyTo(w, e, id), id)
  {
    assert w.uploads == w.uploads[id := w.uploads[id]];
    if w.uploads[id].phase.Receiving? {
      SameElsewhere(w.temps, w.uploads[id].dest, Length(w.temps, w.uploads[id].dest) + e.n);
    }
  }

  lemma RenameMoves(w: World, e: Event, id: nat)
    requires id in w.uploads && InShape(w.uploads[id], w.temps) && w.acct.inFlight % U64 == w.acct.inFlight
    requires e.Rename?
    ensures MovesAlone(w, ApplyTo(w, e, id), id)
  {
    assert w.uploads == w.uploads[id := w.uploads[id]];
    SameElsewhere(w.temps, w.uploads[id].dest, 0);
    SameElsewhere(w.files, w.uploads[id].dest, Length(w.temps, w.uploads[id].dest));
  }

  lemma SettleMoves(w: World, e: Event, id: nat)
    requires id in w.uploads && InShape(w.uploads[id], w.temps) && w.acct.inFlight % U64 == w.acct.inFlight
    requires e.RefundStale? || e.Settle?
    requires e.id == id && !LosesCount(w, e)
    ensures MovesAlone(w, ApplyTo(w, e, id), id)
  {
    assert w.uploads == w.uploads[id := w.uploads[id]];
  }

  lemma SpoiledMoves(w: World, e: Event, id: nat)
    requires id in w.uploads && InShape(w.uploads[id], w.temps) && w.acct.inFlight % U64 == w.acct.inFlight
    requires e.AbortSpoiled?
    requires e.id == id && !LosesCount(w, e)
    ensures MovesAlone(w, ApplyTo(w, e, id), id)
  {
    assert w.uploads == w.uploads[id := w.uploads[id]];
    SameElsewhere(w.temps, w.uploads[id].dest, e.landed);
  }

  lemma ReservationMoves(w: World, e: Event, id: nat)
    requires id in w.uploads && InShape(w.uploads[id], w.temps) && w.acct.inFlight % U64 == w.acct.inFlight
    requires e.Reserve? || e.DropGuard?
    ensures MovesAlone(w, ApplyTo(w, e, id), id)
  {
    assert w.uploads == w.uploads[id := w.uploads[id]];
  }

  lemma ReleaseMoves(w: World, e: Event, id: nat)
    requires id in w.uploads && InShape(w.uploads[id], w.temps) && w.acct.inFlight % U64 == w.acct.inFlight
    requires e.Abort? || e.Release?
    ensures MovesAlone(w, ApplyTo(w, e, id), id)
  {
    assert w.uploads == w.uploads[id := w.uploads[id]];
  }

  // ---- whole runs -------------------------------------------------------

  /** No step of the run loses count. */
  predicate KeepsCount(w: World, es: seq<Event>)
    decreases |es|
  {
    es == [] || (!LosesCount(w, es[0]) && KeepsCount(Apply(w, es[0]), es[1..]))
  }

  /** The accounting holds at every point of every interleaving in which no step loses count. */
  lemma {:induction false} RunKeepsAccounting(w: World, es: seq<Event>)
    requires Consistent(w) && KeepsCount(w, es)
    ensures Consistent(Run(w, es))
    decreases |es|
  {
    hide Consistent, Apply, LosesCount;
    if es != [] {
      StepKeeps(w, es[0]);
      RunKeepsAccounting(Apply(w, es[0]), es[1..]);
    }
  }

  lemma FreshIsConsistent(w: World)
    requires Fresh(w)
    ensures Consistent(w) && Backed(w)
  {
    SumEmpty<nat, Upload>(Held);
    SumEmpty<nat, Upload>(Ahead);
    SumEmpty<nat, Upload>(Owed);
  }

  /**
   * Once every upload of a run has ended, nothing stays reserved or claimed,
   * and `used_bytes` exceeds the disk by exactly what has gone from it without
   * a refund: a commit never takes the bytes of the file it replaces out of
   * the count.
   */
  lemma QuietRunBalances(w: World, es: seq<Event>)
    requires Fresh(w) && KeepsCount(w, es) && Run(w, es).uploads == map[]
    ensures var v := Run(w, es);
            && v.acct.used == OnDisk(v) + v.gone && v.acct.inFlight == 0 && v.acct.active == {}
            && (v.acct.used == OnDisk(v) <==> v.gone == 0)
  {
    FreshIsConsistent(w);
    RunKeepsAccounting(w, es);
    SumEmpty<nat, Upload>(Held);
    SumEmpty<nat, Upload>(Ahead);
    SumEmpty<nat, Upload>(Owed);
  }

  // ---- runs in which no refund saturates ---------------------------------

  /** An upload has renamed its file into place and not charged it yet. */
  ghost predicate Uncharged(w: World, p: Path) {
    exists i :: i in w.uploads && w.uploads[i].dest == p && Committed(w.uploads[i])
  }

  /** Requests leave files alone that are not charged yet, and refund at most what has gone. */
  ghost predicate Orderly(w: World, e: Event) {
    match e
    case Unlink(p) => !Uncharged(w, p)
    case Move(p, q) => !Uncharged(w, p) && !Uncharged(w, q)
    case Refund(n) => n <= w.gone
    case _ => true
  }

  lemma OrderlyRefunds(w: World, e: Event)
    requires Consistent(w) && Backed(w) && Orderly(w, e)
    ensures !Saturates(w, e)
  {
    hide Consistent, Backed;
    if e.Refund? {
      GoneIsCounted(w);
    } else if Saturates(w, e) {
      if e.RefundStale? {
        StaleIsCounted(w, e.id);
      } else {
        PrefixIsCounted(w, e.id);
      }
    }
  }

  lemma GoneIsCounted(w: World)
    requires Consistent(w) && Backed(w)
    ensures w.gone <= w.acct.used
  {
    hide Sum, Ahead, InShape;
    forall i | i in w.uploads
      ensures Ahead(w.uploads[i]) <= Length(w.temps, w.uploads[i].dest) + Length(w.files, w.uploads[i].dest)
    {
      ShapeHoldsAhead(w.uploads[i], w.temps, w.files);
    }
    AheadIsOnDisk(w.uploads, w.temps, w.files);
  }

  /** What is in place stays there. */
  lemma StaysBacked(w: World, e: Event)
    requires Consistent(w) && Backed(w) && Orderly(w, e)
    ensures Backed(Apply(w, e))
  {
    hide Consistent, Apply, ApplyTo;
    if e.Rename? {
      if e.id in w.uploads {
        RenameBacks(w, e.id);
      }
      RenameIs(w, e);
    } else if ByRequest(e) {
      RequestBacks(w, e);
    } else {
      FilesStay(w, e);
      forall i | i in Apply(w, e).uploads && Committed(Apply(w, e).uploads[i])
        ensures InPlace(Apply(w, e).uploads[i], Apply(w, e).files)
      {
        CommitStays(w, e, i);
      }
    }
  }

  lemma RenameIs(w: World, e: Event)
    requires e.Rename?
    ensures Apply(w, e) == if e.id in w.uploads then ApplyTo(w, Rename(e.id), e.id) else w
  {
  }

  lemma RequestBacks(w: World, e: Event)
    requires Backed(w) && ByRequest(e) && Orderly(w, e)
    ensures Backed(Apply(w, e))
  {
    forall i | i in w.uploads && Committed(w.uploads[i])
      ensures InPlace(w.uploads[i], Apply(w, e).files)
    {
      assert Uncharged(w, w.uploads[i].dest);
    }
  }

  lemma FilesStay(w: World, e: Event)
    requires !e.Rename? && !ByRequest(e)
    ensures Apply(w, e).files == w.files && Apply(w, e).gone == w.gone
  {
  }

  /** An upload is about to charge a file only if it was before. */
  lemma CommitStays(w: World, e: Event, i: nat)
    requires !e.Rename? && !ByRequest(e) && i in Apply(w, e).uploads && Committed(Apply(w, e).uploads[i])
    ensures i in w.uploads && Committed(w.uploads[i])
    ensures Apply(w, e).uploads[i] == w.uploads[i].(phase := Apply(w, e).uploads[i].phase)
  {
    if e.id == i && !e.Claim? {
      if i in w.uploads {
        OwnCommit(w, e, i);
      }
    } else {
      OthersStay(w, e, i);
    }
  }

  lemma OwnCommit(w: World, e: Event, i: nat)
    requires !e.Rename? && !ByRequest(e) && !e.Claim? && i in w.uploads
    requires i in ApplyTo(w, e, i).uploads && Committed(ApplyTo(w, e, i).uploads[i])
    ensures Committed(w.uploads[i])
    ensures ApplyTo(w, e, i).uploads[i] == w.uploads[i].(phase := ApplyTo(w, e, i).uploads[i].phase)
  {
  }

  lemma OthersStay(w: World, e: Event, i: nat)
    requires !ByRequest(e) && (e.id != i || e.Claim?) && i in Apply(w, e).uploads
    ensures || (i in w.uploads && Apply(w, e).uploads[i] == w.uploads[i])
            || (e.Claim? && Apply(w, e).uploads[i].phase.Claimed?)
  {
  }

  lemma RenameBacks(w: World, id: nat)
    requires Consistent(w) && Backed(w) && id in w.uploads
    ensures Backed(ApplyTo(w, Rename(id), id))
  {
    hide InFlightExact, UsedExact;
    var v := ApplyTo(w, Rename(id), id);
    if v != w {
      assert InShape(w.uploads[id], w.temps);
      forall i | i in v.uploads && Committed(v.uploads[i])
        ensures InPlace(v.uploads[i], v.files)
      {
        if i != id {
          assert w.uploads[i].dest != w.uploads[id].dest;
        }
      }
    }
  }

  /** No file system call fails, and every request is orderly. */
  ghost predicate OrderlyRun(w: World, es: seq<Event>)
    decreases |es|
  {
    es == [] || (!Fails(w, es[0]) && Orderly(w, es[0]) && OrderlyRun(Apply(w, es[0]), es[1..]))
  }

  /** In such a run no refund saturates, so no step loses count. */
  lemma {:induction false} OrderlyRunKeepsCount(w: World, es: seq<Event>)
    requires Consistent(w) && Backed(w) && OrderlyRun(w, es)
    ensures KeepsCount(w, es) && Consistent(Run(w, es)) && Backed(Run(w, es))
    decreases |es|
  {
    hide Consistent, Backed, Apply, Orderly, Fails, Saturates;
    if es != [] {
      OrderlyRefunds(w, es[0]);
      StaysBacked(w, es[0]);
      StepKeeps(w, es[0]);
      OrderlyRunKeepsCount(Apply(w, es[0]), es[1..]);
    }
  }

  /** An abort counts exactly the bytes it leaves on disk beyond the resumed prefix. */
  lemma AbortCountsReceived(w: World, id: nat)
    requires Consistent(w) && id in w.uploads && w.uploads[id].phase.Receiving?
    ensures var u, v := w.uploads[id], Apply(Apply(w, Abort(id)), Settle(id));
            && u.dest in w.temps && u.offset <= w.temps[u.dest]
            && v.acct.used == w.acct.used + (w.temps[u.dest] - u.offset)
            && v.temps == w.temps && v.files == w.files && Consistent(v)
  {
    hide Consistent, Sum;
    ShapeOf(w, id);
    assert !LosesCount(w, Abort(id)) && !LosesCount(Apply(w, Abort(id)), Settle(id));
    StepKeeps(w, Abort(id));
    StepKeeps(Apply(w, Abort(id)), Settle(id));
  }

  // ---- runs step by step -------------------------------------------------

  lemma SumOne(p: Path, n: nat)
    ensures Sum<Path, nat>(Size, map[p := n]) == n && Sum<Path, nat>(Size, map[]) == 0
  {
    SumEmpty<Path, nat>(Size);
    var none: map<Path, nat> := map[];
    SumAdd(Size, none, p, n);
    assert none[p := n] == map[p := n];
  }

  /** The worlds a run passes through. */
  ghost predicate Trace(ws: seq<World>, es: seq<Event>) {
    |ws| == |es| + 1 && forall i :: 0 <= i < |es| ==> ws[i + 1] == Apply(ws[i], es[i])
  }

  lemma {:induction false} TraceIsRun(ws: seq<World>, es: seq<Event>)
    requires Trace(ws, es)
    ensures Run(ws[0], es) == ws[|es|]
    decreases |es|
  {
    hide Apply;
    if es != [] {
      TraceIsRun(ws[1..], es[1..]);
    }
  }
}
