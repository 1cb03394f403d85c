/**
 * The quota over interleaved uploads: what reserving before checking is worth.
 * A check loads `used_bytes` and then `in_flight_bytes`. It misses what is
 * charged between its loads, and the uploads that are between the two counter
 * updates that end them; it counts reservations that are not decided yet.
 * Exactly while the last outweigh the others, it admits only what fits.
 */
module UploadBudget {
  import opened Bytes
  import opened Sums
  import opened Uploads

  /** What an admitted upload may yet add to `used_bytes`. */
  function Pledged(u: Upload): nat {
    match u.phase
    case Receiving | Renamed | Rejected | CommitReleased => u.size
    case AbortReleased => u.size - Min(u.remaining, u.size)
    case _ => 0
  }

  ghost function Budget(w: World): nat {
    w.acct.used + Sum(Pledged, w.uploads)
  }

  /** `in_flight_bytes` is the sum of what is held, and nobody holds more than a file may have. */
  ghost predicate Booked(w: World) {
    InFlightExact(w) && forall i :: i in w.uploads ==> w.uploads[i].size <= MAX_FILE_SIZE
  }

  /** That holds at every point of every run, also when calls of the file system fail and refunds saturate. */
  lemma StepKeepsBooked(w: World, e: Event)
    requires Booked(w)
    ensures Booked(Apply(w, e))
  {
    hide Sum, ApplyTo;
    if e.Claim? {
      if Apply(w, e) != w {
        SumAdd(Held, w.uploads, e.id, Upload(e.dest, e.offset, e.size, e.noClobber, e.size, Claimed));
      }
    } else if !ByRequest(e) && e.id in w.uploads {
      if e.DropClaim? {
        DropKeepsBooked(w, e.id);
      } else {
        HeldMoves(w, e, e.id);
        var u := ApplyTo(w, e, e.id).uploads[e.id];
        SumUpdate(Held, w.uploads, e.id, u);
        ModShift(Sum(Held, w.uploads), Held(u) - Held(w.uploads[e.id]));
      }
    }
  }

  lemma DropKeepsBooked(w: World, id: nat)
    requires Booked(w) && id in w.uploads
    ensures Booked(ApplyTo(w, DropClaim(id), id))
  {
    hide Sum;
    SumRemove(Held, w.uploads, id);
  }

  predicate Books(e: Event) {
    e.Reserve? || e.DropGuard? || e.Abort? || e.AbortSpoiled? || e.Release?
  }

  lemma HeldMoves(w: World, e: Event, id: nat)
    requires id in w.uploads && w.acct.inFlight % U64 == w.acct.inFlight
    requires !e.Claim? && !ByRequest(e) && !e.DropClaim?
    ensures var v := ApplyTo(w, e, id);
            && id in v.uploads && v.uploads == w.uploads[id := v.uploads[id]]
            && v.uploads[id].size == w.uploads[id].size
            && v.acct.inFlight == (w.acct.inFlight + Held(v.uploads[id]) - Held(w.uploads[id])) % U64
  {
    hide ApplyTo, Held;
    if Books(e) {
      BookingMoves(w, e, id);
    } else {
      HeldStays(w, e, id);
    }
  }

  lemma BookingMoves(w: World, e: Event, id: nat)
    requires id in w.uploads && w.acct.inFlight % U64 == w.acct.inFlight && Books(e)
    ensures var v := ApplyTo(w, e, id);
            && id in v.uploads && v.uploads == w.uploads[id := v.uploads[id]]
            && v.uploads[id].size == w.uploads[id].size
            && v.acct.inFlight == (w.acct.inFlight + Held(v.uploads[id]) - Held(w.uploads[id])) % U64
  {
    assert w.uploads == w.uploads[id := w.uploads[id]];
  }

  lemma HeldStays(w: World, e: Event, id: nat)
    requires id in w.uploads && !e.Claim? && !ByRequest(e) && !e.DropClaim? && !Books(e)
    ensures var v := ApplyTo(w, e, id);
            && id in v.uploads && v.uploads == w.uploads[id := v.uploads[id]]
            && v.uploads[id].size == w.uploads[id].size
            && v.acct.inFlight == w.acct.inFlight && Held(v.uploads[id]) == Held(w.uploads[id])
  {
    hide Projected;
    assert w.uploads == w.uploads[id := w.uploads[id]];
  }

  /** Released from `in_flight_bytes` but not yet charged to `used_bytes`. */
  predicate InGap(u: Upload) {
    u.phase.CommitReleased? || u.phase.AbortReleased?
  }

  /** Bytes a check misses: released, not charged. */
  function Missed(u: Upload): nat {
    if InGap(u) then Pledged(u) else 0
  }

  /** Bytes a check counts although nothing is decided about them: its own, and those of others. */
  function Undecided(u: Upload): nat {
    if u.phase.Holding? || u.phase.Checking? || u.phase.Refused? then u.size else 0
  }

  /** The reservations fit their counter, and those not decided cover what is missed and what is asked for. */
  ghost predicate Covered(w: World, e: Event) {
    e.CheckQuota? && e.id in w.uploads && w.uploads[e.id].phase.Checking? ==>
      Sum(Held, w.uploads) < U64 && Covers(w, e.id)
  }

  /** Missed is what has been charged since the load, and what is in the gap now. */
  ghost predicate Covers(w: World, id: nat)
    requires id in w.uploads && w.uploads[id].phase.Checking?
  {
    var u := w.uploads[id];
    u.size == 0 || w.acct.used - u.phase.seen + Sum(Missed, w.uploads) + u.size <= Sum(Undecided, w.uploads)
  }

  /** Reservations and the gap split up into what is pledged and what is undecided. */
  lemma {:induction false} SumsSplit(m: map<nat, Upload>)
    ensures Sum(Held, m) + Sum(Missed, m) == Sum(Pledged, m) + Sum(Undecided, m)
    decreases |m|
  {
    hide Sum;
    if m == map[] {
      SumEmpty<nat, Upload>(Held);
      SumEmpty<nat, Upload>(Missed);
      SumEmpty<nat, Upload>(Pledged);
      SumEmpty<nat, Upload>(Undecided);
    } else {
      var i :| i in m;
      SumRemove(Held, m, i);
      SumRemove(Missed, m, i);
      SumRemove(Pledged, m, i);
      SumRemove(Undecided, m, i);
      SumsSplit(m - {i});
    }
  }

  lemma {:induction false} HeldFits(m: map<nat, Upload>)
    requires forall i :: i in m ==> m[i].size <= MAX_FILE_SIZE
    ensures Sum(Held, m) <= |m| * MAX_FILE_SIZE
    decreases |m|
  {
    hide Sum;
    if m == map[] {
      SumEmpty<nat, Upload>(Held);
    } else {
      var i :| i in m;
      SumRemove(Held, m, i);
      assert |m - {i}| == |m| - 1 by {
        assert (m - {i}).Keys == m.Keys - {i};
      }
      HeldFits(m - {i});
    }
  }

  /** With the reservations within their counter, releasing one never underflows it. */
  lemma ReleaseNeverUnderflows(w: World, id: nat)
    requires Booked(w) && id in w.uploads && |w.uploads| * MAX_FILE_SIZE < U64
    ensures w.acct.inFlight == Sum(Held, w.uploads) && Held(w.uploads[id]) <= w.acct.inFlight
  {
    hide Sum;
    HeldFits(w.uploads);
    SumRemove(Held, w.uploads, id);
  }

  /** Only an admission raises the budget. */
  lemma OnlyAdmissionRaises(w: World, e: Event)
    requires Booked(w)
    ensures e.CheckQuota? || Budget(Apply(w, e)) <= Budget(w)
  {
    hide Sum, Booked, ApplyTo;
    if ByRequest(e) {
    } else if e.Claim? {
      if Apply(w, e) != w {
        SumAdd(Pledged, w.uploads, e.id, Upload(e.dest, e.offset, e.size, e.noClobber, e.size, Claimed));
      }
    } else if e.id in w.uploads && !e.CheckQuota? {
      if e.DropClaim? {
        DropClaimLowers(w, e.id);
      } else {
        PledgeMoves(w, e, e.id);
        SumUpdate(Pledged, w.uploads, e.id, ApplyTo(w, e, e.id).uploads[e.id]);
      }
    }
  }

  lemma DropClaimLowers(w: World, id: nat)
    requires id in w.uploads
    ensures Budget(ApplyTo(w, DropClaim(id), id)) <= Budget(w)
  {
    hide Sum;
    SumRemove(Pledged, w.uploads, id);
  }

  lemma PledgeMoves(w: World, e: Event, id: nat)
    requires id in w.uploads && !e.Claim? && !ByRequest(e) && !e.CheckQuota? && !e.DropClaim?
    ensures var v := ApplyTo(w, e, id);
            && id in v.uploads && v.uploads == w.uploads[id := v.uploads[id]]
            && v.acct.used + Pledged(v.uploads[id]) <= w.acct.used + Pledged(w.uploads[id])
  {
    hide ApplyTo, Pledged;
    if e.Settle? || e.Abort? || e.AbortSpoiled? || e.Release? {
      EndPledges(w, e, id);
    } else {
      StartPledges(w, e, id);
    }
  }

  lemma EndPledges(w: World, e: Event, id: nat)
    requires id in w.uploads && (e.Settle? || e.Abort? || e.AbortSpoiled? || e.Release?)
    ensures var v := ApplyTo(w, e, id);
            && id in v.uploads && v.uploads == w.uploads[id := v.uploads[id]]
            && v.acct.used + Pledged(v.uploads[id]) <= w.acct.used + Pledged(w.uploads[id])
  {
    assert w.uploads == w.uploads[id := w.uploads[id]];
  }

  lemma StartPledges(w: World, e: Event, id: nat)
    requires id in w.uploads && !e.Claim? && !ByRequest(e) && !e.CheckQuota? && !e.DropClaim?
    requires !e.Settle? && !e.Abort? && !e.AbortSpoiled? && !e.Release?
    ensures var v := ApplyTo(w, e, id);
            && id in v.uploads && v.uploads == w.uploads[id := v.uploads[id]]
            && v.acct.used + Pledged(v.uploads[id]) <= w.acct.used + Pledged(w.uploads[id])
  {
    assert w.uploads == w.uploads[id := w.uploads[id]];
  }

  /** The same world under another quota. */
  function Under(w: World, quota: nat): World {
    w.(quota := Some(quota))
  }

  /**
   * The check admits exactly when `used_bytes` as loaded and all reservations are within the quota,
   * and then pledges the upload.
   */
  lemma AdmissionRaises(w: World, id: nat, quota: nat)
    requires Booked(w) && id in w.uploads && w.uploads[id].phase.Checking?
    requires Sum(Held, w.uploads) < U64 && quota < U64 - 1
    ensures Budget(Apply(Under(w, quota), CheckQuota(id, true, true)))
         == Budget(w) + if w.uploads[id].phase.seen + Sum(Held, w.uploads) <= quota then w.uploads[id].size else 0
  {
    hide Sum, Booked, Apply, Held;
    InFlightIsHeld(w);
    var v := Apply(Under(w, quota), CheckQuota(id, true, true));
    AdmissionStep(Under(w, quota), id, true, true);
    SumUpdate(Pledged, w.uploads, id, v.uploads[id]);
  }

  lemma InFlightIsHeld(w: World)
    requires Booked(w) && Sum(Held, w.uploads) < U64
    ensures w.acct.inFlight == Sum(Held, w.uploads)
  {
    hide Sum;
  }

  /** Under every quota that covers what is there, the check admits only what fits. */
  ghost predicate AdmitsOnlyFitting(w: World, id: nat)
    requires id in w.uploads
  {
    forall quota: nat :: Budget(w) <= quota < U64 - 1 ==>
      Budget(Apply(Under(w, quota), CheckQuota(id, true, true))) <= quota
  }

  /** A check admits only what fits exactly when the undecided reservations cover the missed bytes and its own. */
  lemma AdmitsOnlyFittingIff(w: World, id: nat)
    requires Booked(w) && id in w.uploads && w.uploads[id].phase.Checking?
    requires w.uploads[id].phase.seen + Sum(Held, w.uploads) < U64 - 1 && Budget(w) < U64 - 1
    ensures AdmitsOnlyFitting(w, id) <==> Covers(w, id)
  {
    hide Sum, Booked, Apply, Held, Missed, Pledged, Undecided;
    SumsSplit(w.uploads);
    if Covers(w, id) {
      forall quota: nat | Budget(w) <= quota < U64 - 1
        ensures Budget(Apply(Under(w, quota), CheckQuota(id, true, true))) <= quota
      {
        AdmissionRaises(w, id, quota);
      }
    } else {
      var counted := w.uploads[id].phase.seen + Sum(Held, w.uploads);
      var quota := if counted <= Budget(w) then Budget(w) else counted;
      AdmissionRaises(w, id, quota);
      assert Budget(Apply(Under(w, quota), CheckQuota(id, true, true))) > quota;
    }
  }

  /** A covered check admits only what fits, whatever is the quota in force and whoever asks. */
  lemma AdmissionFits(w: World, id: nat, ready: bool, removes: bool)
    requires Booked(w) && w.quota.Some? && w.quota.value < U64 - 1 && Budget(w) <= w.quota.value
    requires Covered(w, CheckQuota(id, ready, removes))
    ensures Budget(Apply(w, CheckQuota(id, ready, removes))) <= w.quota.value
  {
    hide Sum, Booked, Apply, Held, Missed, Pledged, Undecided, Projected;
    if id !in w.uploads {
      CheckOfNobody(w, id, ready, removes);
    } else {
      AdmissionStep(w, id, ready, removes);
      SumUpdate(Pledged, w.uploads, id, Apply(w, CheckQuota(id, ready, removes)).uploads[id]);
      if w.uploads[id].phase.Checking? {
        SumsSplit(w.uploads);
        InFlightIsHeld(w);
        PledgeOfAdmitted(w.uploads[id]);
        ProjectedIs(w, w.uploads[id].phase.seen);
      }
    }
  }

  lemma PledgeOfAdmitted(u: Upload)
    requires u.phase.Checking?
    ensures Pledged(u) == 0 && Pledged(u.(phase := Receiving)) == u.size
  {
  }

  lemma ProjectedIs(w: World, seen: nat)
    requires w.quota.Some? && w.quota.value < U64 - 1
    ensures Projected(w.acct.(used := seen)) <= w.quota.value <==> seen + w.acct.inFlight <= w.quota.value
  {
  }

  lemma CheckOfNobody(w: World, id: nat, ready: bool, removes: bool)
    requires id !in w.uploads
    ensures Apply(w, CheckQuota(id, ready, removes)) == w
  {
  }

  lemma AdmissionStep(w: World, id: nat, ready: bool, removes: bool)
    requires id in w.uploads
    ensures var v, u := Apply(w, CheckQuota(id, ready, removes)), w.uploads[id];
            && id in v.uploads && v.uploads == w.uploads[id := v.uploads[id]] && v.acct == w.acct
            && (if u.phase.Checking? && ready
                   && (w.quota.None? || Projected(w.acct.(used := u.phase.seen)) <= w.quota.value)
                then v.uploads[id] == u.(phase := Receiving)
                else (&& Pledged(v.uploads[id]) == Pledged(u)
                      && (v.uploads[id] == u || v.uploads[id] == u.(phase := Refused))))
  {
    hide Projected;
    assert w.uploads == w.uploads[id := w.uploads[id]];
  }

  ghost predicate AllCovered(w: World, es: seq<Event>)
    decreases |es|
  {
    es == [] || (Covered(w, es[0]) && AllCovered(Apply(w, es[0]), es[1..]))
  }

  /** No interleaving in which every check is covered takes the user past the quota, at any point of the run. */
  lemma {:induction false} RunStaysWithinQuota(w: World, es: seq<Event>)
    requires Booked(w) && AllCovered(w, es)
    requires w.quota.Some? && w.quota.value < U64 - 1 && Budget(w) <= w.quota.value
    ensures Budget(Run(w, es)) <= w.quota.value
    decreases |es|
  {
    hide Booked, Apply, Budget, Covered;
    if es != [] {
      StepKeepsBooked(w, es[0]);
      if es[0].CheckQuota? {
        AdmissionFits(w, es[0].id, es[0].decoderReady, es[0].removes);
      } else {
        OnlyAdmissionRaises(w, es[0]);
      }
      QuotaIsFixed(w, es[0]);
      RunStaysWithinQuota(Apply(w, es[0]), es[1..]);
    }
  }

  /** With no upload in the gap, and nothing charged since the load, a check is covered. */
  lemma NoGapIsCovered(w: World, e: Event)
    requires Booked(w) && |w.uploads| * MAX_FILE_SIZE < U64
    requires e.CheckQuota? && e.id in w.uploads && w.uploads[e.id].phase.Checking? ==>
               && w.acct.used <= w.uploads[e.id].phase.seen
               && forall i :: i in w.uploads ==> !InGap(w.uploads[i])
    ensures Covered(w, e)
  {
    hide Sum, Booked, Held, Undecided, Missed, InGap;
    if e.CheckQuota? && e.id in w.uploads && w.uploads[e.id].phase.Checking? {
      HeldIsBounded(w);
      NothingMissed(w.uploads);
      SumRemove(Undecided, w.uploads, e.id);
      CheckingIsUndecided(w.uploads[e.id]);
    }
  }

  lemma CheckingIsUndecided(u: Upload)
    requires u.phase.Checking?
    ensures Undecided(u) == u.size
  {
  }

  lemma HeldIsBounded(w: World)
    requires Booked(w) && |w.uploads| * MAX_FILE_SIZE < U64
    ensures Sum(Held, w.uploads) < U64
  {
    hide Sum;
    HeldFits(w.uploads);
  }

  lemma {:induction false} NothingMissed(m: map<nat, Upload>)
    requires forall i :: i in m ==> !InGap(m[i])
    ensures Sum(Missed, m) == 0
    decreases |m|
  {
    hide Sum;
    if m == map[] {
      SumEmpty<nat, Upload>(Missed);
    } else {
      var i :| i in m;
      SumRemove(Missed, m, i);
      NothingMissed(m - {i});
    }
  }

  lemma QuotaIsFixed(w: World, e: Event)
    ensures Apply(w, e).quota == w.quota
  {
  }

  // ---- one event loop ---------------------------------------------------

  /** Between the loads of its check, or between the updates that end it. */
  predicate MidStep(u: Upload) {
    u.phase.Checking? || InGap(u)
  }

  /** At most one upload is between two accesses to the counters, and nothing was charged since it loaded. */
  ghost predicate OneAtATime(w: World) {
    && (forall i, j :: i in w.uploads && j in w.uploads && MidStep(w.uploads[i]) && MidStep(w.uploads[j]) ==> i == j)
    && (forall i :: i in w.uploads && w.uploads[i].phase.Checking? ==> w.acct.used <= w.uploads[i].phase.seen)
  }

  /**
   * What one thread runs while others serve requests: an upload between two
   * accesses to the counters goes on before any other upload does anything.
   */
  ghost predicate InTurn(w: World, e: Event) {
    ByRequest(e) || forall i :: i in w.uploads && MidStep(w.uploads[i]) ==> e.id == i && (e.CheckQuota? || e.Settle?)
  }

  /** Such a run, in which no step finds 2^34 uploads. */
  ghost predicate EventLoop(w: World, es: seq<Event>)
    decreases |es|
  {
    es == [] ||
    (InTurn(w, es[0]) && |w.uploads| * MAX_FILE_SIZE < U64 && EventLoop(Apply(w, es[0]), es[1..]))
  }

  lemma RequestKeepsOne(w: World, e: Event)
    requires ByRequest(e)
    ensures Apply(w, e).uploads == w.uploads && Apply(w, e).acct.used <= w.acct.used
  {
  }

  /** A step of an upload changes only that one. */
  lemma OnlyOwn(w: World, e: Event, i: nat)
    requires !ByRequest(e) && i in Apply(w, e).uploads && i != e.id
    ensures i in w.uploads && Apply(w, e).uploads[i] == w.uploads[i]
  {
    hide ApplyTo;
    if !e.Claim? && e.id in w.uploads {
      if e.DropClaim? {
        DropIs(w, e.id);
      } else if e.CheckQuota? {
        AdmissionStep(w, e.id, e.decoderReady, e.removes);
      } else {
        PledgeMoves(w, e, e.id);
      }
    }
  }

  lemma DropIs(w: World, id: nat)
    requires id in w.uploads
    ensures var v := ApplyTo(w, DropClaim(id), id).uploads; v == w.uploads || v == w.uploads - {id}
  {
  }

  /** An upload that a step brings between two accesses has just loaded what is there, or is in the gap. */
  lemma OwnStep(w: World, e: Event)
    requires !ByRequest(e) && e.id in Apply(w, e).uploads && MidStep(Apply(w, e).uploads[e.id])
    ensures var v := Apply(w, e);
            v == w || (v.uploads[e.id].phase.Checking? ==> v.acct.used == v.uploads[e.id].phase.seen)
  {
  }

  lemma TurnKeepsOne(w: World, e: Event)
    requires OneAtATime(w) && InTurn(w, e)
    ensures OneAtATime(Apply(w, e))
  {
    hide Apply, InGap;
    var v := Apply(w, e);
    if ByRequest(e) {
      RequestKeepsOne(w, e);
    } else if v != w {
      forall i | i in v.uploads && MidStep(v.uploads[i])
        ensures i == e.id && (v.uploads[i].phase.Checking? ==> v.acct.used <= v.uploads[i].phase.seen)
      {
        if i != e.id {
          OnlyOwn(w, e, i);
        } else {
          OwnStep(w, e);
        }
      }
    }
  }

  lemma TurnIsCovered(w: World, e: Event)
    requires OneAtATime(w) && InTurn(w, e) && Booked(w) && |w.uploads| * MAX_FILE_SIZE < U64
    ensures Covered(w, e)
  {
    hide Booked, Covered;
    NoGapIsCovered(w, e);
  }

  /**
   * On one event loop, with requests served by other threads at any moment,
   * every run stays within the quota, whatever fails.
   */
  lemma {:induction false} EventLoopStaysWithinQuota(w: World, es: seq<Event>)
    requires Booked(w) && OneAtATime(w) && EventLoop(w, es)
    requires w.quota.Some? && w.quota.value < U64 - 1 && Budget(w) <= w.quota.value
    ensures AllCovered(w, es) && Budget(Run(w, es)) <= w.quota.value
    decreases |es|
  {
    hide Booked, OneAtATime, Apply, Budget, Covered, InTurn;
    if es != [] {
      TurnIsCovered(w, es[0]);
      StepKeepsBooked(w, es[0]);
      if es[0].CheckQuota? {
        AdmissionFits(w, es[0].id, es[0].decoderReady, es[0].removes);
      } else {
        OnlyAdmissionRaises(w, es[0]);
      }
      QuotaIsFixed(w, es[0]);
      TurnKeepsOne(w, es[0]);
      EventLoopStaysWithinQuota(Apply(w, es[0]), es[1..]);
    }
  }

  lemma {:induction false} RunKeepsQuota(w: World, es: seq<Event>)
    ensures Run(w, es).quota == w.quota
    decreases |es|
  {
    hide Apply;
    if es != [] {
      QuotaIsFixed(w, es[0]);
      RunKeepsQuota(Apply(w, es[0]), es[1..]);
    }
  }
}
