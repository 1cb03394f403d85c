/**
 * The objects behind an upload: the user's shared counters, the claim and
 * reservation guards, and the state of a Put being received. Each method is
 * proved to take the atomic steps of `Uploads` it stands for, in order.
 */
module UploadState {
  import opened Bytes
  import opened Uploads

  /** A user's counters, together with the files and partials in the user's home. */
  class User {
    const quotaBytes: Option<nat>
    var usedBytes: nat
    var inFlightBytes: nat
    var activeUploads: set<Path>
    var files: map<Path, nat>
    var temps: map<Path, nat>

    constructor (quota: Option<nat>, files: map<Path, nat>, temps: map<Path, nat>, walked: nat)
      ensures Now(map[], 0) == World(Account(walked, 0, {}), quota, files, temps, map[], 0)
    {
      quotaBytes, usedBytes, inFlightBytes, activeUploads := quota, walked, 0, {};
      this.files, this.temps := files, temps;
    }

    /** The world these counters and this disk are part of. */
    ghost function Now(uploads: map<nat, Upload>, gone: int): World
      reads this
    {
      World(Account(usedBytes, inFlightBytes, activeUploads), quotaBytes, files, temps, uploads, gone)
    }

    method CurrentUsage() returns (n: nat)
      ensures n == Projected(Account(usedBytes, inFlightBytes, activeUploads))
    {
      var used := usedBytes;
      var inFlight := inFlightBytes;
      n := Min(used + inFlight, U64 - 1);
    }
  }

  class UploadClaim {
    const owner: User
    const path: Path

    constructor (owner: User, path: Path)
      ensures this.owner == owner && this.path == path
    {
      this.owner, this.path := owner, path;
    }

    static method TryClaim(user: User, path: Path) returns (claim: UploadClaim?)
      modifies user`activeUploads
      ensures claim != null <==> path !in old(user.activeUploads)
      ensures user.activeUploads == old(user.activeUploads) + {path}
      ensures claim != null ==> fresh(claim) && claim.owner == user && claim.path == path
    {
      if path in user.activeUploads {
        claim := null;
        return;
      }
      user.activeUploads := user.activeUploads + {path};
      claim := new UploadClaim(user, path);
    }

    method Drop()
      modifies owner`activeUploads
      ensures owner.activeUploads == old(owner.activeUploads) - {path}
    {
      owner.activeUploads := owner.activeUploads - {path};
    }
  }

  class InFlightReservation {
    const user: User
    const bytes: nat
    var armed: bool

    constructor Reserve(user: User, bytes: nat)
      modifies user`inFlightBytes
      ensures this.user == user && this.bytes == bytes && armed
      ensures user.inFlightBytes == (old(user.inFlightBytes) + bytes) % U64
    {
      this.user, this.bytes, armed := user, bytes, true;
      new;
      user.inFlightBytes := (user.inFlightBytes + bytes) % U64;
    }

    method Disarm()
      modifies this
      ensures !armed
    {
      armed := false;
    }

    method Drop()
      modifies user`inFlightBytes
      ensures user.inFlightBytes == if armed then (old(user.inFlightBytes) - bytes) % U64 else old(user.inFlightBytes)
    {
      if armed {
        user.inFlightBytes := (user.inFlightBytes - bytes) % U64;
      }
    }
  }

  /** A Put whose body is being received. */
  class ReadingFileData {
    const id: nat
    const owner: User
    const finalPath: Path
    const noClobber: bool
    const reservedBytes: nat
    const priorBytes: nat
    const claim: UploadClaim
    var remaining: nat
    var completed: bool

    constructor (id: nat, owner: User, claim: UploadClaim, finalPath: Path, noClobber: bool, size: nat, prior: nat)
      ensures this.id == id && this.owner == owner && this.finalPath == finalPath && this.noClobber == noClobber
      ensures reservedBytes == size && priorBytes == prior && remaining == size && !completed && this.claim == claim
    {
      this.id, this.owner, this.claim, this.finalPath, this.noClobber := id, owner, claim, finalPath, noClobber;
      reservedBytes, priorBytes, remaining, completed := size, prior, size, false;
    }

    ghost function In(phase: Phase): Upload
      reads this
    {
      Upload(finalPath, priorBytes, reservedBytes, noClobber, remaining, phase)
    }

    /** `n` body bytes reach the partial. */
    method Receive(n: nat, ghost uploads: map<nat, Upload>, ghost lost: int)
      requires n <= remaining
      requires id in uploads && uploads[id] == In(Receiving)
      modifies this`remaining, owner`temps
      ensures owner.Now(uploads[id := In(Receiving)], lost)
              == Apply(old(owner.Now(uploads, lost)), Event.Receive(id, n))
    {
      owner.temps := owner.temps[finalPath := (if finalPath in owner.temps then owner.temps[finalPath] else 0) + n];
      remaining := remaining - n;
    }

    /** The upload is refused for good: its partial is deleted, if it can be, and its prefix refunded. */
    method CleanupRejected(removes: bool, ghost uploads: map<nat, Upload>, ghost lost: int)
      requires id in uploads && uploads[id] == In(Receiving)
      modifies this`completed, owner
      ensures completed
      ensures owner.Now(uploads[id := In(Ended)], lost)
           == Run(old(owner.Now(uploads, lost)), [Rejecting(id, removes), Release(id), Settle(id)])
    {
      ghost var w := owner.Now(uploads, lost);
      if removes {
        owner.temps := owner.temps - {finalPath};
      }
      owner.inFlightBytes := (owner.inFlightBytes - reservedBytes) % U64;
      if priorBytes > 0 {
        owner.usedBytes := if priorBytes <= owner.usedBytes then owner.usedBytes - priorBytes else 0;
      }
      completed := true;
      RejectSteps(w, id, removes);
    }

    /**
     * The body is complete and verified: rename, then hand the reservation
     * over to `used_bytes`. If the rename fails the upload is left to `Drop`.
     */
    method Commit(renames: bool, removes: bool, ghost uploads: map<nat, Upload>, ghost lost: int)
        returns (ok: bool, ghost gone: nat)
      requires remaining == 0 && finalPath in owner.temps
      requires id in uploads && uploads[id] == In(Receiving)
      modifies this`completed, owner
      ensures var taken := noClobber && finalPath in old(owner.files);
              completed == (taken || renames) && ok == (!taken && renames)
      ensures completed ==>
                (owner.Now(uploads[id := In(Ended)], lost + gone)
              == Run(old(owner.Now(uploads, lost)),
                     [if ok then Rename(id) else Rejecting(id, removes), Release(id), Settle(id)]))
      ensures !completed ==> owner.Now(uploads, lost) == old(owner.Now(uploads, lost))
    {
      hide Run, Apply;
      gone := 0;
      if noClobber && finalPath in owner.files {
        CleanupRejected(removes, uploads, lost);
        return false, gone;
      }
      if !renames {
        completed := false;
        return false, gone;
      }
      ghost var w := owner.Now(uploads, lost);
      gone := Length(owner.files, finalPath);
      owner.files := owner.files[finalPath := owner.temps[finalPath]];
      owner.temps := owner.temps - {finalPath};
      completed := true;
      owner.inFlightBytes := (owner.inFlightBytes - reservedBytes) % U64;
      owner.usedBytes := owner.usedBytes + reservedBytes;
      ok := true;
      CommitSteps(w, id);
    }

    /**
     * The stream ends: an upload that is not settled turns what it received
     * into `used_bytes`. After a failed write or flush, `landed` bytes of the
     * partial are on disk.
     */
    method Drop(landed: Option<nat>, ghost uploads: map<nat, Upload>, ghost lost: int)
      requires id in uploads && uploads[id] == In(if completed then Ended else Receiving)
      requires claim.owner == owner && claim.path == finalPath
      modifies owner
      ensures owner.Now(uploads - {id}, lost)
           == Run(old(owner.Now(uploads, lost)), [Aborting(id, landed), Settle(id), DropClaim(id)])
    {
      ghost var w := owner.Now(uploads, lost);
      if !completed {
        if landed.Some? {
          owner.temps := owner.temps[finalPath := landed.value];
        }
        owner.inFlightBytes := (owner.inFlightBytes - reservedBytes) % U64;
        var written := if remaining <= reservedBytes then reservedBytes - remaining else 0;
        if written > 0 {
          owner.usedBytes := owner.usedBytes + written;
        }
      }
      claim.Drop();
      DropSteps(w, id, landed);
    }
  }

  function Rejecting(id: nat, removes: bool): Event {
    if removes then Reject(id) else RejectFails(id)
  }

  function Aborting(id: nat, landed: Option<nat>): Event {
    match landed
    case None => Abort(id)
    case Some(n) => AbortSpoiled(id, n)
  }

  /**
   * What the file system lets a starting Put do: open its partial, ask for its
   * length, truncate it, all that follows before the reservation, start the
   * decoder, and remove the partial of a refused upload.
   */
  datatype PutIo = PutIo(opens: bool, measures: bool, truncates: bool, settles: bool, decoderReady: bool, removes: bool)

  function Opening(id: nat, io: PutIo): Event {
    if !io.opens then OpenFails(id) else if io.measures then OpenTemp(id) else OpenUnmeasured(id)
  }

  function Clearing(id: nat, io: PutIo): Event {
    if io.truncates then Truncate(id) else TruncateFails(id)
  }

  function OpenEvents(id: nat, io: PutIo): seq<Event> {
    [Opening(id, io), RefundStale(id), Clearing(id, io)]
  }

  function CheckEvents(id: nat, io: PutIo): seq<Event> {
    [if io.settles then Reserve(id) else Abandon(id), LoadUsed(id), CheckQuota(id, io.decoderReady, io.removes),
     DropGuard(id)]
  }

  /** The steps a Put request takes before its body is received; the last two undo a refused one. */
  function StartSteps(id: nat, dest: Path, offset: nat, size: nat, noClobber: bool, io: PutIo): seq<Event> {
    [Claim(id, dest, offset, size, noClobber)] + (OpenEvents(id, io) + (CheckEvents(id, io) + [DropClaim(id)]))
  }

  /** Counters and partials once the temp is open, and whether the upload goes on. */
  function Preparation(a: Account, temps: map<Path, nat>, u: Upload, io: PutIo): (r: (Account, map<Path, nat>, bool))
    ensures r.0.active == a.active
  {
    var n := Length(temps, u.dest);
    if !io.opens then (a, temps, false)
    else if u.offset > 0 then (a, temps, io.measures && u.dest in temps && n == u.offset)
    else (if io.measures then Refunded(a, n) else a, temps[u.dest := if io.truncates then 0 else n], io.truncates)
  }

  /** What starting a Put on a free destination comes to. */
  function Started(w: World, id: nat, u: Upload, io: PutIo): World {
    var (before, temps, ok) := Preparation(w.acct, w.temps, u, io);
    if !ok || !io.settles then w.(acct := before, temps := temps)
    else
      var held := Reserved(before, u.size);
      var over := w.quota.Some? && Projected(held) > w.quota.value;
      if over || !io.decoderReady then
        w.(acct := Released(held, u.size),
           temps := if over && u.offset == 0 && io.removes then temps - {u.dest} else temps)
      else
        w.(acct := held.(active := w.acct.active + {u.dest}), temps := temps,
           uploads := w.uploads[id := u.(phase := Receiving)])
  }

  /**
   * A fresh upload opens or creates its partial, refunds what it holds and
   * clears it; a resumed one needs a partial of its offset. A failed
   * truncation leaves the partial as it was, refunded; if its length cannot be
   * told, it is cleared without a refund.
   */
  method PreparePartial(user: User, dest: Path, offset: nat, io: PutIo) returns (prepared: bool)
    modifies user`usedBytes, user`temps
    ensures forall u: Upload, active :: u.dest == dest && u.offset == offset ==>
              var before := Account(old(user.usedBytes), old(user.inFlightBytes), active);
              (Preparation(before, old(user.temps), u, io)
           == (Account(user.usedBytes, user.inFlightBytes, active), user.temps, prepared))
  {
    if !io.opens {
      return false;
    }
    if offset > 0 {
      return io.measures && dest in user.temps && user.temps[dest] == offset;
    }
    if dest !in user.temps {
      user.temps := user.temps[dest := 0];
    }
    var stale := if io.measures then user.temps[dest] else 0;
    if stale > 0 {
      user.usedBytes := if stale <= user.usedBytes then user.usedBytes - stale else 0;
    }
    if io.truncates {
      user.temps := user.temps[dest := 0];
    }
    assert user.temps == old(user.temps)[dest := if io.truncates then 0 else Length(old(user.temps), dest)];
    prepared := io.truncates;
  }

  /**
   * Accept a Put: claim the destination, clear or match the partial, reserve,
   * then check the quota. The guards undo whatever was taken if it is refused.
   */
  method StartPut(user: User, id: nat, dest: Path, offset: nat, size: nat, noClobber: bool, io: PutIo,
                  ghost uploads: map<nat, Upload>, ghost lost: int) returns (state: ReadingFileData?)
    requires id !in uploads
    modifies user
    ensures state != null ==> fresh(state) && fresh(state.claim) && state.owner == user && state.id == id
    ensures state != null ==> state.claim.owner == user && state.claim.path == dest
    ensures user.Now(if state != null then uploads[id := state.In(Receiving)] else uploads, lost)
         == Run(old(user.Now(uploads, lost)), StartSteps(id, dest, offset, size, noClobber, io))
  {
    hide Run, StartSteps, Preparation;
    StartRun(user.Now(uploads, lost), id, dest, offset, size, noClobber, io);
    if offset + size > MAX_FILE_SIZE {
      return null;
    }
    var claim := UploadClaim.TryClaim(user, dest);
    if claim == null {
      assert user.activeUploads == old(user.activeUploads);
      return null;
    }
    assert user.activeUploads - {dest} == old(user.activeUploads);
    ghost var u := Upload(dest, offset, size, noClobber, size, Claimed);
    var prepared := PreparePartial(user, dest, offset, io);
    assert Preparation(old(user.Now(uploads, lost)).acct, old(user.temps), u, io)
        == (Account(user.usedBytes, user.inFlightBytes, old(user.activeUploads)), user.temps, prepared);
    if !prepared || !io.settles {
      claim.Drop();
      return null;
    }
    state := Admit(user, claim, id, offset, size, noClobber, io);
  }

  /**
   * Reserve, then check: either the reservation is handed over to the receiving state, or guard and
   * claim are dropped.
   */
  method Admit(user: User, claim: UploadClaim, id: nat, offset: nat, size: nat, noClobber: bool, io: PutIo)
      returns (state: ReadingFileData?)
    requires claim.owner == user
    modifies user
    ensures user.usedBytes == old(user.usedBytes)
    ensures var before := Account(old(user.usedBytes), old(user.inFlightBytes), old(user.activeUploads));
            var held := Reserved(before, size);
            var over := user.quotaBytes.Some? && Projected(held) > user.quotaBytes.value;
            && (state == null <==> over || !io.decoderReady)
            && user.inFlightBytes == (if state == null then Released(held, size).inFlight else held.inFlight)
            && user.temps
                == (if over && offset == 0 && io.removes then old(user.temps) - {claim.path} else old(user.temps))
            && user.activeUploads
                == (if state == null then old(user.activeUploads) - {claim.path} else old(user.activeUploads))
    ensures user.files == old(user.files)
    ensures state != null ==> fresh(state) && state.claim == claim && state.owner == user && state.id == id
    ensures state != null ==> state.In(Receiving) == Upload(claim.path, offset, size, noClobber, size, Receiving)
  {
    var reservation := new InFlightReservation.Reserve(user, size);
    var projected := user.CurrentUsage();
    var over := user.quotaBytes.Some? && projected > user.quotaBytes.value;
    if over && offset == 0 && io.removes {
      user.temps := user.temps - {claim.path};
    }
    if over || !io.decoderReady {
      reservation.Drop();
      claim.Drop();
      return null;
    }
    reservation.Disarm();
    state := new ReadingFileData(id, user, claim, claim.path, noClobber, size, offset);
  }

  lemma RunThree(w: World, a: Event, b: Event, c: Event)
    ensures Run(w, [a, b, c]) == Apply(Apply(Apply(w, a), b), c)
  {
    hide Apply;
    TraceIsRun([w, Apply(w, a), Apply(Apply(w, a), b), Apply(Apply(Apply(w, a), b), c)], [a, b, c]);
  }

  lemma RunFour(w: World, a: Event, b: Event, c: Event, d: Event)
    ensures Run(w, [a, b, c, d]) == Apply(Apply(Apply(Apply(w, a), b), c), d)
  {
    hide Apply;
    var v := Apply(Apply(Apply(w, a), b), c);
    TraceIsRun([w, Apply(w, a), Apply(Apply(w, a), b), v, Apply(v, d)], [a, b, c, d]);
  }

  lemma {:induction false} RunAppend(w: World, es: seq<Event>, fs: seq<Event>)
    ensures Run(w, es + fs) == Run(Run(w, es), fs)
    decreases |es|
  {
    hide Apply;
    if es == [] {
      assert es + fs == fs;
    } else {
      assert (es + fs)[1..] == es[1..] + fs;
      RunAppend(Apply(w, es[0]), es[1..], fs);
    }
  }

  // ---- what the steps of one upload come to when nothing interleaves -----

  /** `w` with the upload at `phase`, and these counters and partials. */
  function At(w: World, id: nat, acct: Account, temps: map<Path, nat>, phase: Phase): World
    requires id in w.uploads
  {
    w.(acct := acct, temps := temps, uploads := w.uploads[id := w.uploads[id].(phase := phase)])
  }

  lemma AtAgain(w: World, id: nat, a: Account, t: map<Path, nat>, p: Phase)
    requires id in w.uploads
    ensures var v := At(w, id, a, t, p);
            && id in v.uploads && v.acct == a && v.temps == t && v.quota == w.quota && v.files == w.files
            && v.uploads[id] == w.uploads[id].(phase := p)
            && forall b, s, q :: At(v, id, b, s, q) == At(w, id, b, s, q)
  {
    forall b: Account, s: map<Path, nat>, q: Phase
      ensures At(At(w, id, a, t, p), id, b, s, q) == At(w, id, b, s, q)
    {
      var m := w.uploads;
      assert m[id := m[id].(phase := p)][id := m[id].(phase := q)] == m[id := m[id].(phase := q)];
    }
  }

  lemma OpenStep(w: World, id: nat)
    requires id in w.uploads && w.uploads[id].phase.Claimed?
    ensures var u := w.uploads[id]; var n := Length(w.temps, u.dest);
            (Apply(w, OpenTemp(id))
         == if u.offset == 0 then At(w, id, w.acct, w.temps[u.dest := n], Opened(n))
            else At(w, id, w.acct, w.temps, if u.dest in w.temps && n == u.offset then Prepared else Ended))
  {
  }

  lemma OpenUnmeasuredStep(w: World, id: nat)
    requires id in w.uploads && w.uploads[id].phase.Claimed?
    ensures var u := w.uploads[id]; var n := Length(w.temps, u.dest);
            (Apply(w, OpenUnmeasured(id))
         == if u.offset == 0 then At(w, id, w.acct, w.temps[u.dest := n], Unmeasured)
            else At(w, id, w.acct, w.temps, Ended))
  {
  }

  predicate Clearable(p: Phase) {
    p.StaleRefunded? || p.Unmeasured?
  }

  /** A truncation that fails, or whatever fails after it, ends the upload where it is. */
  lemma GiveUpSteps(w: World, id: nat)
    requires id in w.uploads
    ensures Apply(w, TruncateFails(id))
         == if Clearable(w.uploads[id].phase) then At(w, id, w.acct, w.temps, Ended) else w
    ensures Apply(w, OpenFails(id)) == if w.uploads[id].phase.Claimed? then At(w, id, w.acct, w.temps, Ended) else w
    ensures Apply(w, Abandon(id)) == if w.uploads[id].phase.Prepared? then At(w, id, w.acct, w.temps, Ended) else w
  {
  }

  lemma RefundStep(w: World, id: nat)
    requires id in w.uploads
    ensures var u := w.uploads[id];
            (Apply(w, RefundStale(id))
         == if u.phase.Opened? then At(w, id, Refunded(w.acct, u.phase.stale), w.temps, StaleRefunded(u.phase.stale))
             else w)
  {
  }

  lemma TruncateStep(w: World, id: nat)
    requires id in w.uploads
    ensures Apply(w, Truncate(id))
         == if Clearable(w.uploads[id].phase) then At(w, id, w.acct, w.temps[w.uploads[id].dest := 0], Prepared)
             else w
  {
  }

  lemma ReserveStep(w: World, id: nat)
    requires id in w.uploads
    ensures Apply(w, Reserve(id))
         == if w.uploads[id].phase.Prepared? then At(w, id, Reserved(w.acct, w.uploads[id].size), w.temps, Holding)
             else w
  {
  }

  lemma LoadStep(w: World, id: nat)
    requires id in w.uploads
    ensures Apply(w, LoadUsed(id))
         == if w.uploads[id].phase.Holding? then At(w, id, w.acct, w.temps, Checking(w.acct.used)) else w
  {
  }

  lemma CheckStep(w: World, id: nat, ready: bool, removes: bool)
    requires id in w.uploads
    ensures var u := w.uploads[id];
            Apply(w, CheckQuota(id, ready, removes)) == if u.phase.Checking? then Checked(w, id, ready, removes) else w
  {
    hide Projected;
  }

  function Checked(w: World, id: nat, ready: bool, removes: bool): World
    requires id in w.uploads && w.uploads[id].phase.Checking?
  {
    var u := w.uploads[id];
    var over := w.quota.Some? && Projected(w.acct.(used := u.phase.seen)) > w.quota.value;
    At(w, id, w.acct, if over && u.offset == 0 && removes then w.temps - {u.dest} else w.temps,
       if over || !ready then Refused else Receiving)
  }

  lemma GuardStep(w: World, id: nat)
    requires id in w.uploads
    ensures Apply(w, DropGuard(id))
         == if w.uploads[id].phase.Refused? then At(w, id, Released(w.acct, w.uploads[id].size), w.temps, Ended) else w
  {
  }

  lemma ClaimStep(w: World, id: nat)
    requires id in w.uploads
    ensures Apply(w, DropClaim(id))
         == if w.uploads[id].phase.Ended? then
              w.(acct := w.acct.(active := w.acct.active - {w.uploads[id].dest}), uploads := w.uploads - {id})
            else w
  {
  }

  /** The partials once a rejected upload's has been removed, if it could be. */
  function Remains(w: World, id: nat, removes: bool): map<Path, nat>
    requires id in w.uploads
  {
    if removes then w.temps - {w.uploads[id].dest} else w.temps
  }

  /** The partials once an aborted upload's buffers have been flushed. */
  function Landed(w: World, id: nat, landed: Option<nat>): map<Path, nat>
    requires id in w.uploads
  {
    match landed
    case None => w.temps
    case Some(n) => w.temps[w.uploads[id].dest := n]
  }

  lemma RejectStep(w: World, id: nat)
    requires id in w.uploads && w.uploads[id].phase.Receiving?
    ensures forall removes :: Apply(w, Rejecting(id, removes)) == At(w, id, w.acct, Remains(w, id, removes), Rejected)
    ensures forall landed :: (Apply(w, Aborting(id, landed))
                           == At(w, id, Released(w.acct, w.uploads[id].size), Landed(w, id, landed), AbortReleased))
  {
  }

  lemma RenameStep(w: World, id: nat)
    requires id in w.uploads && w.uploads[id].phase.Receiving? && w.uploads[id].remaining == 0
    requires !(w.uploads[id].noClobber && w.uploads[id].dest in w.files)
    ensures var u := w.uploads[id];
            (Apply(w, Rename(id))
         == At(Replaced(w, u.dest), id, w.acct, w.temps - {u.dest}, Renamed))
  {
  }

  /** The partial takes the place of whatever was at its destination. */
  function Replaced(w: World, dest: Path): World {
    w.(files := w.files[dest := Length(w.temps, dest)], gone := w.gone + Length(w.files, dest))
  }

  lemma ReleaseStep(w: World, id: nat)
    requires id in w.uploads && (w.uploads[id].phase.Renamed? || w.uploads[id].phase.Rejected?)
    ensures Apply(w, Release(id))
         == At(w, id, Released(w.acct, w.uploads[id].size), w.temps,
               if w.uploads[id].phase.Renamed? then CommitReleased else RejectReleased)
  {
  }

  lemma SettleStep(w: World, id: nat)
    requires id in w.uploads
    ensures var u := w.uploads[id];
            (Apply(w, Settle(id))
         == match u.phase
            case CommitReleased => At(w, id, Charged(w.acct, u.size), w.temps, Ended)
            case AbortReleased => At(w, id, Charged(w.acct, u.size - Min(u.remaining, u.size)), w.temps, Ended)
            case RejectReleased => At(w, id, Refunded(w.acct, u.offset), w.temps, Ended)
            case _ => w)
  {
  }

  lemma RejectSteps(w: World, id: nat, removes: bool)
    requires id in w.uploads && w.uploads[id].phase.Receiving?
    ensures var u := w.uploads[id];
            (Run(w, [Rejecting(id, removes), Release(id), Settle(id)])
         == At(w, id, Refunded(Released(w.acct, u.size), u.offset), Remains(w, id, removes), Ended))
  {
    hide Run, Apply, At, Rejecting, Remains;
    RunThree(w, Rejecting(id, removes), Release(id), Settle(id));
    var u, temps := w.uploads[id], Remains(w, id, removes);
    RejectStep(w, id);
    var v := Apply(w, Rejecting(id, removes));
    AtAgain(w, id, w.acct, temps, Rejected);
    ReleaseStep(v, id);
    AtAgain(w, id, Released(w.acct, u.size), temps, RejectReleased);
    SettleStep(Apply(v, Release(id)), id);
  }

  lemma CommitSteps(w: World, id: nat)
    requires id in w.uploads && w.uploads[id].phase.Receiving? && w.uploads[id].remaining == 0
    requires !(w.uploads[id].noClobber && w.uploads[id].dest in w.files)
    ensures var u := w.uploads[id];
            (Run(w, [Rename(id), Release(id), Settle(id)])
         == At(Replaced(w, u.dest), id, Charged(Released(w.acct, u.size), u.size), w.temps - {u.dest}, Ended))
  {
    hide Run, Apply, At;
    RunThree(w, Rename(id), Release(id), Settle(id));
    var u := w.uploads[id];
    RenameStep(w, id);
    AtAgain(Replaced(w, u.dest), id, w.acct, w.temps - {u.dest}, Renamed);
    ReleaseStep(Apply(w, Rename(id)), id);
    AtAgain(Replaced(w, u.dest), id, Released(w.acct, u.size), w.temps - {u.dest}, CommitReleased);
    SettleStep(Apply(Apply(w, Rename(id)), Release(id)), id);
  }

  lemma DropSteps(w: World, id: nat, landed: Option<nat>)
    requires id in w.uploads && (w.uploads[id].phase.Receiving? || w.uploads[id].phase.Ended?)
    ensures Run(w, [Aborting(id, landed), Settle(id), DropClaim(id)]) == AfterDrop(w, id, landed)
  {
    hide Run, Apply, At, Aborting, Landed;
    RunThree(w, Aborting(id, landed), Settle(id), DropClaim(id));
    var u := w.uploads[id];
    if u.phase.Ended? {
      EndedIgnores(w, id, landed);
      ClaimStep(w, id);
    } else {
      var temps := Landed(w, id, landed);
      RejectStep(w, id);
      var v := Apply(w, Aborting(id, landed));
      AtAgain(w, id, Released(w.acct, u.size), temps, AbortReleased);
      SettleStep(v, id);
      var a := Charged(Released(w.acct, u.size), u.size - Min(u.remaining, u.size));
      AtAgain(w, id, a, temps, Ended);
      ClaimStep(At(w, id, a, temps, Ended), id);
      AtGone(w, id, a, temps, Ended, w.acct.active - {u.dest});
    }
  }

  function AfterDrop(w: World, id: nat, landed: Option<nat>): World
    requires id in w.uploads
  {
    var u := w.uploads[id];
    var a := if u.phase.Ended? then w.acct
             else Charged(Released(w.acct, u.size), u.size - Min(u.remaining, u.size));
    w.(acct := a.(active := w.acct.active - {u.dest}), uploads := w.uploads - {id},
       temps := if u.phase.Ended? then w.temps else Landed(w, id, landed))
  }

  lemma EndedIgnores(w: World, id: nat, landed: Option<nat>)
    requires id in w.uploads && w.uploads[id].phase.Ended?
    ensures Apply(w, Aborting(id, landed)) == w && Apply(w, Settle(id)) == w
  {
  }

  lemma AtGone(w: World, id: nat, a: Account, t: map<Path, nat>, p: Phase, active: set<Path>)
    requires id in w.uploads
    ensures var v := At(w, id, a, t, p);
            (v.(acct := a.(active := active), uploads := v.uploads - {id})
         == w.(acct := a.(active := active), temps := t, uploads := w.uploads - {id}))
  {
    assert w.uploads[id := w.uploads[id].(phase := p)] - {id} == w.uploads - {id};
  }

  function Claimant(w: World, id: nat, u: Upload): World {
    w.(acct := w.acct.(active := w.acct.active + {u.dest}), uploads := w.uploads[id := u])
  }

  lemma OpenSteps(w: World, id: nat, io: PutIo)
    requires id in w.uploads && w.uploads[id].phase.Claimed?
    ensures var (a, t, ok) := Preparation(w.acct, w.temps, w.uploads[id], io);
            (Run(w, OpenEvents(id, io)) == At(w, id, a, t, if ok then Prepared else Ended))
  {
    hide Run, Apply, At, Refunded;
    var es := OpenEvents(id, io);
    RunThree(w, es[0], es[1], es[2]);
    var u, n := w.uploads[id], Length(w.temps, w.uploads[id].dest);
    GiveUpSteps(w, id);
    OpenStep(w, id);
    OpenUnmeasuredStep(w, id);
    if io.opens && u.offset == 0 {
      if io.measures {
        FreshSteps(w, id, io);
      } else {
        UnmeasuredSteps(w, id, io);
      }
    } else {
      AtAgain(w, id, w.acct, w.temps, Prepared);
      AtAgain(w, id, w.acct, w.temps, Ended);
      OpenSkips(Apply(w, es[0]), id);
    }
  }

  /** The partial of a fresh upload is refunded, and cleared if it can be. */
  lemma FreshSteps(w: World, id: nat, io: PutIo)
    requires id in w.uploads && w.uploads[id].phase.Claimed? && w.uploads[id].offset == 0
    ensures var dest := w.uploads[id].dest;
            var n := Length(w.temps, dest);
            (Apply(Apply(Apply(w, OpenTemp(id)), RefundStale(id)), Clearing(id, io))
         == At(w, id, Refunded(w.acct, n), w.temps[dest := if io.truncates then 0 else n],
               if io.truncates then Prepared else Ended))
  {
    hide Apply, At, Refunded;
    var u, n := w.uploads[id], Length(w.temps, w.uploads[id].dest);
    var temps := w.temps[u.dest := n];
    OpenStep(w, id);
    AtAgain(w, id, w.acct, temps, Opened(n));
    RefundStep(Apply(w, OpenTemp(id)), id);
    AtAgain(w, id, Refunded(w.acct, n), temps, StaleRefunded(n));
    TruncateStep(Apply(Apply(w, OpenTemp(id)), RefundStale(id)), id);
    GiveUpSteps(Apply(Apply(w, OpenTemp(id)), RefundStale(id)), id);
    assert temps[u.dest := 0] == w.temps[u.dest := 0];
  }

  /** A partial whose length cannot be told is cleared, if it can be, without a refund. */
  lemma UnmeasuredSteps(w: World, id: nat, io: PutIo)
    requires id in w.uploads && w.uploads[id].phase.Claimed? && w.uploads[id].offset == 0
    ensures var dest := w.uploads[id].dest;
            (Apply(Apply(Apply(w, OpenUnmeasured(id)), RefundStale(id)), Clearing(id, io))
         == At(w, id, w.acct, w.temps[dest := if io.truncates then 0 else Length(w.temps, dest)],
               if io.truncates then Prepared else Ended))
  {
    hide Apply, At;
    var u := w.uploads[id];
    var temps := w.temps[u.dest := Length(w.temps, u.dest)];
    OpenUnmeasuredStep(w, id);
    AtAgain(w, id, w.acct, temps, Unmeasured);
    var v := Apply(w, OpenUnmeasured(id));
    RefundStep(v, id);
    TruncateStep(v, id);
    GiveUpSteps(v, id);
    assert temps[u.dest := 0] == w.temps[u.dest := 0];
  }

  lemma OpenSkips(w: World, id: nat)
    requires id in w.uploads && (w.uploads[id].phase.Ended? || w.uploads[id].phase.Prepared?)
    ensures Apply(w, RefundStale(id)) == w && Apply(w, Truncate(id)) == w && Apply(w, TruncateFails(id)) == w
  {
  }

  /** Both loads and the decision, with nothing in between. */
  lemma DecideSteps(w: World, id: nat, io: PutIo)
    requires id in w.uploads && w.uploads[id].phase.Holding?
    ensures var u := w.uploads[id];
            var over := w.quota.Some? && Projected(w.acct) > w.quota.value;
            (Apply(Apply(w, LoadUsed(id)), CheckQuota(id, io.decoderReady, io.removes))
         == At(w, id, w.acct, if over && u.offset == 0 && io.removes then w.temps - {u.dest} else w.temps,
               if over || !io.decoderReady then Refused else Receiving))
  {
    hide Apply, At, Projected;
    LoadStep(w, id);
    AtAgain(w, id, w.acct, w.temps, Checking(w.acct.used));
    var c := Apply(w, LoadUsed(id));
    assert c.acct.(used := w.acct.used) == w.acct;
    CheckStep(c, id, io.decoderReady, io.removes);
  }

  lemma CheckSteps(w: World, id: nat, io: PutIo)
    requires id in w.uploads && w.uploads[id].phase.Prepared? && io.settles
    ensures var u := w.uploads[id]; var a := Reserved(w.acct, u.size);
            var over := w.quota.Some? && Projected(a) > w.quota.value;
            (Run(w, CheckEvents(id, io))
         == if over || !io.decoderReady then
              At(w, id, Released(a, u.size),
                 if over && u.offset == 0 && io.removes then w.temps - {u.dest} else w.temps, Ended)
            else At(w, id, a, w.temps, Receiving))
  {
    hide Run, Apply, At, Reserved, Released, Projected;
    var es := CheckEvents(id, io);
    RunFour(w, es[0], es[1], es[2], es[3]);
    var u := w.uploads[id];
    var a := Reserved(w.acct, u.size);
    var over := w.quota.Some? && Projected(a) > w.quota.value;
    var temps := if over && u.offset == 0 && io.removes then w.temps - {u.dest} else w.temps;
    ReserveStep(w, id);
    AtAgain(w, id, a, w.temps, Holding);
    DecideSteps(Apply(w, es[0]), id, io);
    AtAgain(w, id, a, temps, if over || !io.decoderReady then Refused else Receiving);
    GuardStep(Apply(Apply(Apply(w, es[0]), es[1]), es[2]), id);
  }

  lemma {:induction false} NobodyMoves(w: World, es: seq<Event>, id: nat)
    requires id !in w.uploads && forall e :: e in es ==> !e.Claim? && !ByRequest(e) && e.id == id
    ensures Run(w, es) == w
    decreases |es|
  {
    if es != [] {
      NobodyMoves(w, es[1..], id);
    }
  }

  /** An upload that ended, or is given up here, takes no further step. */
  lemma EndedSkips(w: World, id: nat, io: PutIo)
    requires id in w.uploads && (w.uploads[id].phase.Ended? || (w.uploads[id].phase.Prepared? && !io.settles))
    ensures Run(w, CheckEvents(id, io)) == At(w, id, w.acct, w.temps, Ended)
  {
    hide Run, Apply, At;
    var es := CheckEvents(id, io);
    RunFour(w, es[0], es[1], es[2], es[3]);
    GiveUpSteps(w, id);
    ReserveStep(w, id);
    AtAgain(w, id, w.acct, w.temps, Ended);
    AtSelf(w, id);
    LoadStep(Apply(w, es[0]), id);
    CheckStep(Apply(w, es[0]), id, io.decoderReady, io.removes);
    GuardStep(Apply(w, es[0]), id);
  }

  lemma AtSelf(w: World, id: nat)
    requires id in w.uploads
    ensures At(w, id, w.acct, w.temps, w.uploads[id].phase) == w
  {
    assert w.uploads[id := w.uploads[id]] == w.uploads;
  }

  lemma StartSplits(w: World, c: World, o: World, r: World, id: nat, u: Upload, io: PutIo)
    requires c == Apply(w, Claim(id, u.dest, u.offset, u.size, u.noClobber))
    requires o == Run(c, OpenEvents(id, io)) && r == Run(o, CheckEvents(id, io))
    ensures Run(w, StartSteps(id, u.dest, u.offset, u.size, u.noClobber, io)) == Apply(r, DropClaim(id))
  {
    hide Run, Apply, OpenEvents, CheckEvents;
    var claim := Claim(id, u.dest, u.offset, u.size, u.noClobber);
    RunOne(w, claim);
    RunAppend(w, [claim], OpenEvents(id, io) + (CheckEvents(id, io) + [DropClaim(id)]));
    RunAppend(c, OpenEvents(id, io), CheckEvents(id, io) + [DropClaim(id)]);
    RunAppend(o, CheckEvents(id, io), [DropClaim(id)]);
    RunOne(r, DropClaim(id));
  }

  lemma RunOne(w: World, e: Event)
    ensures Run(w, [e]) == Apply(w, e)
  {
    hide Apply;
    TraceIsRun([w, Apply(w, e)], [e]);
  }

  lemma StartRun(w: World, id: nat, dest: Path, offset: nat, size: nat, noClobber: bool, io: PutIo)
    requires id !in w.uploads
    ensures Run(w, StartSteps(id, dest, offset, size, noClobber, io))
         == if offset + size > MAX_FILE_SIZE || dest in w.acct.active then w
            else Started(w, id, Upload(dest, offset, size, noClobber, size, Claimed), io)
  {
    hide Run;
    if offset + size > MAX_FILE_SIZE || dest in w.acct.active {
      RefusedStart(w, id, dest, offset, size, noClobber, io);
    } else {
      AcceptedStart(w, id, Upload(dest, offset, size, noClobber, size, Claimed), io);
    }
  }

  /** The bytes a starting Put takes out of the count: a fresh one takes those of the partial it will clear. */
  function StaleBytes(w: World, dest: Path, offset: nat, io: PutIo): nat {
    if offset == 0 && io.measures && dest in w.temps then Min(w.temps[dest], w.acct.used) else 0
  }

  /**
   * A Put starts exactly when the file is not too large, nobody else uploads
   * to its destination, the file system lets it, a partial to resume has the
   * length of its offset, and what the account then holds is within the quota.
   * It then has its claim and its reservation, and a fresh one an empty
   * partial; a refused one leaves claims, uploads and reservations alone.
   */
  lemma StartsIff(w: World, id: nat, dest: Path, offset: nat, size: nat, noClobber: bool, io: PutIo)
    requires id !in w.uploads && w.acct.inFlight < U64
    ensures var w' := Run(w, StartSteps(id, dest, offset, size, noClobber, io));
            var kept := w.acct.used - StaleBytes(w, dest, offset, io);
            var inFlight := (w.acct.inFlight + size) % U64;
            && (id in w'.uploads <==>
                 && offset + size <= MAX_FILE_SIZE && dest !in w.acct.active
                 && io.opens && io.settles && io.decoderReady
                 && (if offset == 0 then io.truncates
                     else io.measures && dest in w.temps && w.temps[dest] == offset)
                 && (w.quota.Some? ==> Min(kept + inFlight, U64 - 1) <= w.quota.value))
            && (id in w'.uploads ==>
                 w' == w.(acct := Account(kept, inFlight, w.acct.active + {dest}),
                          temps := if offset == 0 then w.temps[dest := 0] else w.temps,
                          uploads := w.uploads[id := Upload(dest, offset, size, noClobber, size, Receiving)]))
            && (id !in w'.uploads ==>
                 && w'.uploads == w.uploads && w'.files == w.files
                 && w'.acct.active == w.acct.active && w'.acct.inFlight == w.acct.inFlight)
  {
    hide Run;
    StartRun(w, id, dest, offset, size, noClobber, io);
    ReleaseUndoes(w.acct, size);
  }

  lemma ReleaseUndoes(a: Account, n: nat)
    requires a.inFlight < U64
    ensures Released(Reserved(a, n), n) == a
  {
  }

  lemma RefusedStart(w: World, id: nat, dest: Path, offset: nat, size: nat, noClobber: bool, io: PutIo)
    requires id !in w.uploads && (offset + size > MAX_FILE_SIZE || dest in w.acct.active)
    ensures Run(w, StartSteps(id, dest, offset, size, noClobber, io)) == w
  {
    var es := StartSteps(id, dest, offset, size, noClobber, io);
    assert Apply(w, es[0]) == w;
    NobodyMoves(w, es[1..], id);
  }

  lemma AcceptedStart(w: World, id: nat, u: Upload, io: PutIo)
    requires id !in w.uploads && u.dest !in w.acct.active && u.offset + u.size <= MAX_FILE_SIZE
    requires u.phase.Claimed? && u.remaining == u.size
    ensures Run(w, StartSteps(id, u.dest, u.offset, u.size, u.noClobber, io)) == Started(w, id, u, io)
  {
    hide Run, At, Apply, StartSteps, OpenEvents, CheckEvents, Started, Preparation;
    var c := Claimant(w, id, u);
    ClaimIs(w, id, u);
    var o := Run(c, OpenEvents(id, io));
    var r := Run(o, CheckEvents(id, io));
    StartSplits(w, c, o, r, id, u, io);
    OpenSteps(c, id, io);
    var (a, t, ok) := Preparation(c.acct, c.temps, u, io);
    AtAgain(c, id, a, t, if ok then Prepared else Ended);
    if !ok || !io.settles {
      EndedSkips(o, id, io);
      AtAgain(c, id, a, t, Ended);
      ClaimStep(r, id);
      AtGone(c, id, a, t, Ended, c.acct.active - {u.dest});
    } else {
      CheckSteps(o, id, io);
      var held := Reserved(a, u.size);
      var over := w.quota.Some? && Projected(held) > w.quota.value;
      var temps := if over && u.offset == 0 && io.removes then t - {u.dest} else t;
      if over || !io.decoderReady {
        AtAgain(c, id, Released(held, u.size), temps, Ended);
        AtGone(c, id, Released(held, u.size), temps, Ended, c.acct.active - {u.dest});
      } else {
        AtAgain(c, id, held, temps, Receiving);
      }
      ClaimStep(r, id);
    }
    StartedIs(w, c, id, u, io);
  }

  /** Dropping the claim of a refused upload leaves everyone else's claims and uploads. */
  lemma StartedIs(w: World, c: World, id: nat, u: Upload, io: PutIo)
    requires id !in w.uploads && u.dest !in w.acct.active && c == Claimant(w, id, u)
    ensures var (a, t, ok) := Preparation(c.acct, c.temps, u, io);
            var held := Reserved(a, u.size);
            var over := w.quota.Some? && Projected(held) > w.quota.value;
            var others := c.acct.active - {u.dest};
            (Started(w, id, u, io)
         == if !ok || !io.settles then
              c.(acct := a.(active := others), temps := t, uploads := c.uploads - {id})
            else if over || !io.decoderReady then
              c.(acct := Released(held, u.size).(active := others),
                 temps := if over && u.offset == 0 && io.removes then t - {u.dest} else t, uploads := c.uploads - {id})
            else At(c, id, held, t, Receiving))
  {
    assert c.uploads - {id} == w.uploads && c.acct.active - {u.dest} == w.acct.active;
    assert c.uploads[id := u.(phase := Receiving)] == w.uploads[id := u.(phase := Receiving)];
  }

  lemma ClaimIs(w: World, id: nat, u: Upload)
    requires id !in w.uploads && u.dest !in w.acct.active && u.offset + u.size <= MAX_FILE_SIZE
    requires u.phase.Claimed? && u.remaining == u.size
    ensures Apply(w, Claim(id, u.dest, u.offset, u.size, u.noClobber)) == Claimant(w, id, u)
  {
  }
}
