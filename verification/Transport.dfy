/**
 * Datagram egress: the GSO coalescing loop, its replay after a failed
 * segmented send, and the per-packet loop it must be indistinguishable
 * from on the wire.
 */
module Transport {
  import opened Bytes

  const MAX_DATAGRAM_SIZE: nat := 1350
  const GSO_BURST_PACKETS: nat := 32

  /** A socket address: `octets` is 4 or 16 bytes long. */
  datatype SocketAddr = SocketAddr(octets: seq<Byte>, port: nat)

  datatype Datagram = Datagram(dst: SocketAddr, data: seq<Byte>)

  // ---- the QUIC connection as a source of datagrams ---------------------

  /** What the next `conn.send` will do: write a datagram, or fail. */
  datatype Outgoing = Ready(datagram: Datagram) | Broken

  datatype SendAnswer = Done | Fault | Wrote(len: nat, to: SocketAddr)

  /** quiche writes non-empty datagrams of at most the configured payload size. */
  predicate WellFormed(queue: seq<Outgoing>) {
    forall i :: 0 <= i < |queue| && queue[i].Ready? ==> 0 < |queue[i].datagram.data| <= MAX_DATAGRAM_SIZE
  }

  /** The datagrams the connection yields before it runs dry or fails. */
  function Pending(queue: seq<Outgoing>): seq<Datagram> {
    if queue == [] || queue[0].Broken? then []
    else [queue[0].datagram] + Pending(queue[1..])
  }

  class Connection {
    var queue: seq<Outgoing>

    /** `conn.send(&mut buf[at..at + cap])`. */
    method Send(buf: array<Byte>, at: nat, cap: nat) returns (answer: SendAnswer)
      requires at + cap <= buf.Length
      modifies this, buf
      ensures buf[..at] == old(buf[..at])
      ensures old(queue) == [] ==> answer == Done && queue == []
      ensures old(queue) != [] ==> queue == old(queue)[1..] && answer != Done
      ensures answer.Fault? <==>
                old(queue) != [] && (old(queue)[0].Broken? || |old(queue)[0].datagram.data| > cap)
      ensures answer.Wrote? ==>
                var d := old(queue)[0].datagram;
                answer == Wrote(|d.data|, d.dst) && buf[at..at + |d.data|] == d.data
    {
      if queue == [] {
        return Done;
      }
      var head := queue[0];
      queue := queue[1..];
      if head.Broken? || |head.datagram.data| > cap {
        return Fault;
      }
      var data := head.datagram.data;
      forall i | 0 <= i < |data| {
        buf[at + i] := data[i];
      }
      return Wrote(|data|, head.datagram.dst);
    }
  }

  // ---- the UDP socket ---------------------------------------------------

  /** The datagrams `sendmsg(UDP_SEGMENT)` makes of one buffer: `seg` bytes each, the last may be shorter. */
  function Cut(data: seq<Byte>, dst: SocketAddr, seg: nat): seq<Datagram>
    requires seg > 0
  {
    if |data| <= seg then (if data == [] then [] else [Datagram(dst, data)])
    else [Datagram(dst, data[..seg])] + Cut(data[seg..], dst, seg)
  }

  /** The kernel's verdict on the next system call; once there are none left every call succeeds. */
  function Verdict(verdicts: seq<bool>): bool {
    verdicts == [] || verdicts[0]
  }

  /** What is left of the verdicts after `n` calls. */
  function After(verdicts: seq<bool>, n: nat): seq<bool> {
    if n <= |verdicts| then verdicts[n..] else []
  }

  /** The first `n` calls succeed. */
  predicate Granted(verdicts: seq<bool>, n: nat) {
    forall i :: 0 <= i < n && i < |verdicts| ==> verdicts[i]
  }

  class Socket {
    /** Every datagram that has reached the wire. */
    var wire: seq<Datagram>
    /** Whether segmented sends are still tried (the process-wide `GSO_USABLE`). */
    var gsoUsable: bool
    /** What the kernel will say to each coming `send_to`, and to each coming segmented send. */
    var plain: seq<bool>
    var segmented: seq<bool>

    method SendTo(data: seq<Byte>, dst: SocketAddr) returns (ok: bool)
      modifies this`plain, this`wire
      ensures ok == Verdict(old(plain)) && plain == After(old(plain), 1)
      ensures wire == if ok then old(wire) + [Datagram(dst, data)] else old(wire)
    {
      ok := Verdict(plain);
      plain := After(plain, 1);
      if ok {
        wire := wire + [Datagram(dst, data)];
      }
    }

    method SendmsgUdpSegment(data: seq<Byte>, dst: SocketAddr, seg: nat) returns (ok: bool)
      requires 0 < seg < 0x1_0000
      modifies this`segmented, this`wire
      ensures ok == Verdict(old(segmented)) && segmented == After(old(segmented), 1)
      ensures wire == if ok then old(wire) + Cut(data, dst, seg) else old(wire)
    {
      ok := Verdict(segmented);
      segmented := After(segmented, 1);
      if ok {
        wire := wire + Cut(data, dst, seg);
      }
    }
  }

  // ---- batches ----------------------------------------------------------

  function Datas(ds: seq<Datagram>): seq<seq<Byte>> {
    seq(|ds|, i requires 0 <= i < |ds| => ds[i].data)
  }

  /** Datagrams that may share one segmented send: only the last may be short. */
  predicate IsBatch(ds: seq<Datagram>, dst: SocketAddr, seg: nat) {
    && (forall i :: 0 <= i < |ds| ==> ds[i].dst == dst && 0 < |ds[i].data| <= seg)
    && (forall i :: 0 <= i < |ds| - 1 ==> |ds[i].data| == seg)
  }

  /** Segmenting the concatenation of a batch gives back exactly its datagrams. */
  lemma {:induction false} CutBatch(ds: seq<Datagram>, dst: SocketAddr, seg: nat)
    requires seg > 0 && IsBatch(ds, dst, seg)
    ensures Cut(Flatten(Datas(ds)), dst, seg) == ds
  {
    if ds != [] {
      CutBatch(ds[1..], dst, seg);
      assert Datas(ds)[1..] == Datas(ds[1..]);
      var rest := Flatten(Datas(ds[1..]));
      assert Flatten(Datas(ds)) == ds[0].data + rest;
      if |ds| == 1 {
        assert rest == [] && ds == [ds[0]];
        assert ds[0].data + rest == ds[0].data;
      } else {
        assert Datas(ds[1..])[0] == ds[1].data;
        assert |rest| > 0;
        assert (ds[0].data + rest)[..seg] == ds[0].data && (ds[0].data + rest)[seg..] == rest;
      }
    }
  }

  /** A batch that `send_to` may carry as a whole: a single datagram. */
  lemma CutSingle(ds: seq<Datagram>)
    requires |ds| == 1
    ensures Flatten(Datas(ds)) == ds[0].data
  {
    assert Datas(ds) == [ds[0].data];
    FlattenOne(ds[0].data);
  }

  /** Only a prefix of what had to be sent is on the wire: nothing reordered, split or invented. */
  predicate SentPrefix(before: seq<Datagram>, after: seq<Datagram>, toSend: seq<Datagram>) {
    exists k :: 0 <= k <= |toSend| && after == before + toSend[..k]
  }

  /** So many `send_to` calls have been made, each of them granted; or one more, which was refused. */
  ghost predicate Called(before: seq<bool>, after: seq<bool>, granted: nat, refused: bool) {
    && Granted(before, granted)
    && after == After(before, granted + if refused then 1 else 0)
    && (refused ==> granted < |before| && !before[granted])
  }

  lemma CallsAdd(before: seq<bool>, between: seq<bool>, after: seq<bool>, a: nat, b: nat, refused: bool)
    requires Called(before, between, a, false) && Called(between, after, b, refused)
    ensures Called(before, after, a + b, refused)
  {
  }

  lemma NoCalls(plain: seq<bool>, segmented: seq<bool>, usable: bool)
    ensures Called(plain, plain, 0, false) && Tried(segmented, usable, segmented, usable, 0)
  {
  }

  lemma OneCall(plain: seq<bool>, ok: bool)
    requires ok == Verdict(plain)
    ensures Called(plain, After(plain, 1), if ok then 1 else 0, !ok)
  {
  }

  /** A kernel that refuses no `send_to` never fails a flush, whatever it does to segmented sends. */
  lemma NoRefusalNoFailure(before: seq<bool>, after: seq<bool>, calls: nat, refused: bool)
    requires Called(before, after, calls, refused) && forall i :: 0 <= i < |before| ==> before[i]
    ensures !refused
  {
  }

  lemma CalledSays(before: seq<bool>, after: seq<bool>, granted: nat, refused: bool, n: nat)
    requires Called(before, after, granted, refused) && (if refused then granted < n else granted == n)
    ensures Granted(before, n) == !refused
  {
  }

  /** So many segmented sends have been made; the first that is refused ends segmentation. */
  ghost predicate Tried(before: seq<bool>, usable: bool, after: seq<bool>, usable': bool, tries: nat) {
    after == After(before, tries) && usable' == (usable && Granted(before, tries))
  }

  lemma TriesAdd(before: seq<bool>, u: bool, between: seq<bool>, u': bool, after: seq<bool>, u'': bool, a: nat, b: nat)
    requires Tried(before, u, between, u', a) && Tried(between, u', after, u'', b)
    ensures Tried(before, u, after, u'', a + b)
  {
    if a < |before| && Granted(before, a) {
      assert forall i :: 0 <= i && i < |between| ==> between[i] == before[a + i];
      forall i | a <= i < a + b && i < |before|
        ensures Granted(between, b) ==> before[i]
        ensures Granted(before, a + b) ==> between[i - a]
      {
        assert between[i - a] == before[i];
      }
    }
  }

  /**
   * `send_batch`: one `send_to`, one segmented send, or a replay of the batch
   * packet by packet. It fails only if a `send_to` is refused, and then what
   * was sent before it is out; a refused segmented send ends segmentation and
   * nothing else.
   */
  method SendBatch(socket: Socket, buf: seq<Byte>, dst: SocketAddr, seg: nat, packets: nat, ghost ds: seq<Datagram>)
      returns (ok: bool, ghost calls: nat)
    requires 0 < seg <= MAX_DATAGRAM_SIZE && packets == |ds| > 0
    requires IsBatch(ds, dst, seg) && buf == Flatten(Datas(ds))
    modifies socket
    ensures var asOne := packets > 1 && Verdict(old(socket.segmented));
            && ok == (asOne || Granted(old(socket.plain), packets))
            && (if asOne then calls == 0 else if ok then calls == packets else calls < packets)
            && socket.wire == old(socket.wire) + (if ok then ds else ds[..calls])
            && Called(old(socket.plain), socket.plain, calls, !ok)
    ensures Tried(old(socket.segmented), old(socket.gsoUsable), socket.segmented, socket.gsoUsable,
                  if packets == 1 then 0 else 1)
  {
    CutBatch(ds, dst, seg);
    assert socket.wire == socket.wire + ds[..0];
    assert ds[..|ds|] == ds;
    calls := 0;
    if packets <= 1 {
      CutSingle(ds);
      ok := socket.SendTo(buf, dst);
      calls := if ok then 1 else 0;
      return;
    }
    ok := socket.SendmsgUdpSegment(buf, dst, seg);
    if !ok {
      socket.gsoUsable := false;
      ok, calls := ReplayBatch(socket, buf, dst, seg);
    }
  }

  lemma CutUnfold(data: seq<Byte>, dst: SocketAddr, seg: nat)
    requires seg > 0 && data != []
    ensures var n := Min(seg, |data|);
            Cut(data, dst, seg) == [Datagram(dst, data[..n])] + Cut(data[n..], dst, seg)
  {
    if |data| <= seg {
      assert data[..|data|] == data && data[|data|..] == [];
    }
  }

  /** `done` is the cut of the first `off` bytes, and the rest remains to be cut. */
  ghost predicate Replayed(buf: seq<Byte>, dst: SocketAddr, seg: nat, off: nat, done: seq<Datagram>) {
    seg > 0 && off <= |buf| && done + Cut(buf[off..], dst, seg) == Cut(buf, dst, seg)
  }

  lemma ReplayStarts(buf: seq<Byte>, dst: SocketAddr, seg: nat)
    requires seg > 0
    ensures Replayed(buf, dst, seg, 0, [])
  {
    hide Cut;
    assert buf[0..] == buf;
  }

  lemma ReplayEnds(buf: seq<Byte>, dst: SocketAddr, seg: nat, done: seq<Datagram>)
    requires Replayed(buf, dst, seg, |buf|, done)
    ensures done == Cut(buf, dst, seg) && Cut(buf, dst, seg)[..|done|] == done
  {
    hide Cut;
    CutNothing(dst, seg);
    assert buf[|buf|..] == [];
  }

  /** One range of a replay is the next datagram of the cut. */
  lemma NextRange(buf: seq<Byte>, dst: SocketAddr, seg: nat, off: nat, done: seq<Datagram>)
    requires Replayed(buf, dst, seg, off, done) && off < |buf|
    ensures var n, all := Min(seg, |buf| - off), Cut(buf, dst, seg);
            && Replayed(buf, dst, seg, off + n, done + [Datagram(dst, buf[off..off + n])])
            && |done| < |all| && all[..|done|] == done
  {
    hide Cut;
    var n := Min(seg, |buf| - off);
    CutUnfold(buf[off..], dst, seg);
    RangeIs(buf, off, n);
    Regroup(done, Datagram(dst, buf[off..off + n]), Cut(buf[off + n..], dst, seg));
  }

  lemma RangeIs(buf: seq<Byte>, off: nat, n: nat)
    requires off + n <= |buf|
    ensures buf[off..][..n] == buf[off..off + n] && buf[off..][n..] == buf[off + n..]
  {
  }

  lemma AppendOne(before: seq<Datagram>, done: seq<Datagram>, d: Datagram)
    ensures before + done + [d] == before + (done + [d])
  {
  }

  lemma Regroup(done: seq<Datagram>, d: Datagram, rest: seq<Datagram>)
    ensures done + ([d] + rest) == done + [d] + rest && (done + [d] + rest)[..|done|] == done
  {
  }

  /** The `gso_replay_ranges` loop: `seg`-sized ranges until the batch is used up. */
  method ReplayBatch(socket: Socket, buf: seq<Byte>, dst: SocketAddr, seg: nat) returns (ok: bool, ghost calls: nat)
    requires seg > 0
    modifies socket`wire, socket`plain
    ensures ok == Granted(old(socket.plain), |Cut(buf, dst, seg)|) && calls <= |Cut(buf, dst, seg)|
    ensures ok <==> calls == |Cut(buf, dst, seg)|
    ensures socket.wire == old(socket.wire) + Cut(buf, dst, seg)[..calls]
    ensures Called(old(socket.plain), socket.plain, calls, !ok)
  {
    hide Cut, Called, Granted, Verdict, After, Replayed;
    var off := 0;
    ghost var done: seq<Datagram> := [];
    ReplayStarts(buf, dst, seg);
    NoCalls(socket.plain, [], true);
    while off < |buf|
      invariant off <= |buf| && Replayed(buf, dst, seg, off, done)
      invariant socket.wire == old(socket.wire) + done
      invariant Called(old(socket.plain), socket.plain, |done|, false)
    {
      NextRange(buf, dst, seg, off, done);
      var n := Min(seg, |buf| - off);
      ghost var plain, d := socket.plain, Datagram(dst, buf[off..off + n]);
      var sent := socket.SendTo(buf[off..off + n], dst);
      OneCall(plain, sent);
      CallsAdd(old(socket.plain), plain, socket.plain, |done|, if sent then 1 else 0, !sent);
      if !sent {
        CalledSays(old(socket.plain), socket.plain, |done|, true, |Cut(buf, dst, seg)|);
        return false, |done|;
      }
      AppendOne(old(socket.wire), done, d);
      done := done + [d];
      off := off + n;
    }
    ReplayEnds(buf, dst, seg, done);
    CalledSays(old(socket.plain), socket.plain, |done|, false, |done|);
    ok, calls := true, |done|;
  }

  lemma CutNothing(dst: SocketAddr, seg: nat)
    requires seg > 0
    ensures Cut([], dst, seg) == []
  {
  }

  // ---- flush loops ------------------------------------------------------

  datatype GsoStep = Append | AppendThenFlush | FlushThenSendAlone

  /** The decision per packet; `segSize` is 0 while the batch is empty. */
  function DecideGsoStep(segSize: nat, sameDst: bool, write: nat): GsoStep {
    if segSize == 0 then Append
    else if !sameDst || write > segSize then FlushThenSendAlone
    else if write < segSize then AppendThenFlush
    else Append
  }

  /** A datagram may join an open batch exactly when the batch stays one the kernel can segment. */
  lemma StepKeepsBatch(ds: seq<Datagram>, dst: SocketAddr, seg: nat, d: Datagram)
    requires seg > 0 && ds != [] && IsBatch(ds, dst, seg) && |ds[|ds| - 1].data| == seg
    requires d.data != []
    ensures var step := DecideGsoStep(seg, d.dst == dst, |d.data|);
            && (step == FlushThenSendAlone <==> !IsBatch(ds + [d], dst, seg))
            && (step == Append <==> d.dst == dst && |d.data| == seg)
  {
    var all := ds + [d];
    assert all[|ds|] == d;
    assert forall i :: 0 <= i < |ds| ==> all[i] == ds[i];
  }

  /** The batch that is open after these datagrams: what the coalescing loop has taken and not yet sent. */
  function OpenBatch(ds: seq<Datagram>): (open: seq<Datagram>)
    ensures |open| <= |ds|
  {
    if ds == [] then [] else OpenAfter(OpenBatch(ds[..|ds| - 1]), ds[|ds| - 1])
  }

  function OpenAfter(open: seq<Datagram>, d: Datagram): seq<Datagram> {
    if open == [] then [d]
    else if DecideGsoStep(|open[0].data|, open[0].dst == d.dst, |d.data|) == Append && |open| + 1 < GSO_BURST_PACKETS
    then open + [d]
    else []
  }

  /** Fewer than a burst, all of one length and for one address. */
  predicate Uniform(open: seq<Datagram>) {
    |open| < GSO_BURST_PACKETS
    && forall d :: d in open ==> d.data != [] && d.dst == open[0].dst && |d.data| == |open[0].data|
  }

  lemma StaysUniform(open: seq<Datagram>, d: Datagram)
    requires Uniform(open) && d.data != []
    ensures Uniform(OpenAfter(open, d)) && (OpenAfter(open, d) == [] || OpenAfter(open, d) == open + [d])
  {
  }

  /** The open batch is the latest datagrams, fewer than a burst, all of one length and for one address. */
  lemma {:induction false} OpenIsLatest(ds: seq<Datagram>)
    requires forall d :: d in ds ==> d.data != []
    ensures var open := OpenBatch(ds); ds[|ds| - |open|..] == open && Uniform(open)
  {
    hide OpenAfter, Uniform;
    if ds != [] {
      var n := |ds| - 1;
      OpenIsLatest(ds[..n]);
      var open := OpenBatch(ds[..n]);
      StaysUniform(open, ds[n]);
      assert ds == ds[..n] + [ds[n]];
      assert ds[n - |open|..] == open + [ds[n]];
    } else {
      assert Uniform(OpenBatch(ds)) by {
        NoneIsUniform();
      }
    }
  }

  lemma NoneIsUniform()
    ensures Uniform([])
  {
  }

  /** With no batch open, the datagrams before make no difference. */
  lemma {:induction false} OpenAgain(before: seq<Datagram>, ds: seq<Datagram>)
    requires OpenBatch(before) == []
    ensures OpenBatch(before + ds) == OpenBatch(ds)
  {
    hide OpenAfter;
    if ds == [] {
      assert before + ds == before;
    } else {
      var n := |ds| - 1;
      OpenAgain(before, ds[..n]);
      assert (before + ds)[..|before| + n] == before + ds[..n];
    }
  }

  lemma OpenSnoc(ds: seq<Datagram>, d: Datagram)
    ensures OpenBatch(ds + [d]) == OpenAfter(OpenBatch(ds), d)
  {
    assert (ds + [d])[..|ds|] == ds;
  }

  datatype FlushEnd = Drained | ConnFailed | SocketFailed

  /** What is out when the connection fails to write: all it wrote before, but for a segmented flush its open batch. */
  function OutBeforeFailure(pending: seq<Datagram>, segmented: bool): seq<Datagram> {
    if segmented then pending[..|pending| - |OpenBatch(pending)|] else pending
  }

  /**
   * What a flush promises: all pending datagrams in order; exactly those not
   * lost if the connection fails; and a prefix of them if the socket does,
   * which is only if a `send_to` is refused.
   */
  twostate predicate Flushed(conn: Connection, socket: Socket, end: FlushEnd, segmented: bool)
    reads conn, socket
  {
    && Ended(old(conn.queue), conn.queue, old(socket.wire), socket.wire, end, segmented)
    && (exists calls: nat :: Called(old(socket.plain), socket.plain, calls, end.SocketFailed?))
    && (exists tries: nat ::
          Tried(old(socket.segmented), old(socket.gsoUsable), socket.segmented, socket.gsoUsable, tries))
  }

  ghost predicate Ended(queue: seq<Outgoing>, left: seq<Outgoing>, before: seq<Datagram>, after: seq<Datagram>,
                        end: FlushEnd, segmented: bool)
  {
    var pending := Pending(queue);
    match end
    case Drained => after == before + pending && left == [] && |pending| == |queue|
    case ConnFailed => after == before + OutBeforeFailure(pending, segmented) && |pending| < |queue|
    case SocketFailed => SentPrefix(before, after, pending)
  }

  /** The first `k` entries are datagrams. */
  ghost predicate Leading(queue: seq<Outgoing>, k: nat) {
    k <= |queue| && forall i :: 0 <= i < k ==> queue[i].Ready?
  }

  lemma {:induction false} PendingSplit(queue: seq<Outgoing>, k: nat)
    requires Leading(queue, k)
    ensures k <= |Pending(queue)| && Pending(queue)[k..] == Pending(queue[k..])
    ensures forall i :: 0 <= i < k ==> Pending(queue)[i] == queue[i].datagram
  {
    if k == 0 {
      assert queue[0..] == queue;
    } else {
      PendingSplit(queue[1..], k - 1);
      assert queue[1..][k - 1..] == queue[k..];
      assert Pending(queue) == [queue[0].datagram] + Pending(queue[1..]);
    }
  }

  lemma PendingBroken(queue: seq<Outgoing>, k: nat)
    requires Leading(queue, k) && k < |queue| && queue[k].Broken?
    ensures |Pending(queue)| == k
  {
    PendingSplit(queue, k);
  }

  method FlushEgressPerPacket(conn: Connection, socket: Socket) returns (end: FlushEnd)
    requires WellFormed(conn.queue)
    modifies conn, socket
    ensures Flushed(conn, socket, end, false)
  {
    hide Called, Tried, SentPrefix;
    ghost var calls: nat, tries: nat := 0, 0;
    NoCalls(socket.plain, socket.segmented, socket.gsoUsable);
    end, calls := SendEach(conn, socket);
    assert Called(old(socket.plain), socket.plain, calls, end.SocketFailed?);
    assert Tried(old(socket.segmented), old(socket.gsoUsable), socket.segmented, socket.gsoUsable, tries);
  }

  /** The loop: one `send_to` for each datagram. */
  method SendEach(conn: Connection, socket: Socket) returns (end: FlushEnd, ghost calls: nat)
    requires WellFormed(conn.queue)
    modifies conn, socket`wire, socket`plain
    ensures Ended(old(conn.queue), conn.queue, old(socket.wire), socket.wire, end, false)
    ensures Called(old(socket.plain), socket.plain, calls, end.SocketFailed?)
  {
    hide Called;
    ghost var queue := conn.queue;
    ghost var pending := Pending(queue);
    calls := 0;
    NoCalls(socket.plain, [], true);
    var out := new Byte[MAX_DATAGRAM_SIZE](_ => 0);
    while true
      invariant Leading(queue, calls) && conn.queue == queue[calls..] && calls <= |pending|
      invariant socket.wire == old(socket.wire) + pending[..calls]
      invariant Called(old(socket.plain), socket.plain, calls, false)
      decreases |conn.queue|
    {
      PendingSplit(queue, calls);
      var answer := conn.Send(out, 0, MAX_DATAGRAM_SIZE);
      match answer {
        case Done =>
          assert pending[..calls] == pending;
          return Drained, calls;
        case Fault =>
          PendingBroken(queue, calls);
          assert pending[..calls] == pending;
          return ConnFailed, calls;
        case Wrote(write, to) =>
          PendingSplit(queue, calls + 1);
          ghost var plain := socket.plain;
          var sent := socket.SendTo(out[..write], to);
          OneCall(plain, sent);
          CallsAdd(old(socket.plain), plain, socket.plain, calls, if sent then 1 else 0, !sent);
          if !sent {
            return SocketFailed, calls;
          }
          assert out[..write] == out[0..write];
          assert pending[..calls + 1] == pending[..calls] + [pending[calls]];
          calls := calls + 1;
      }
    }
  }

  /** The flush loop's progress: the first `k` pending datagrams are out, no batch is open, the rest is still queued. */
  ghost predicate SoFar(queue: seq<Outgoing>, left: seq<Outgoing>, before: seq<Datagram>, now: seq<Datagram>, k: nat) {
    && Leading(queue, k) && left == queue[k..] && k <= |Pending(queue)|
    && now == before + Pending(queue)[..k] && WellFormed(left)
    && (left != [] ==> OpenBatch(Pending(queue)[..k]) == [])
  }

  /** One round has sent the next `sent` datagrams, and left no batch open. */
  ghost predicate Moved(queue: seq<Outgoing>, left: seq<Outgoing>, before: seq<Datagram>, now: seq<Datagram>,
                         sent: seq<Datagram>) {
    && Leading(queue, |sent|) && left == queue[|sent|..]
    && |sent| <= |Pending(queue)| && Pending(queue)[..|sent|] == sent
    && now == before + sent && (left != [] ==> OpenBatch(sent) == [])
  }

  /** A batch under construction: the datagrams `ds` fill `buf[..total]`. */
  ghost predicate Holds(buf: seq<Byte>, total: nat, ds: seq<Datagram>, dst: Option<SocketAddr>, seg: nat) {
    && total <= |buf| && buf[..total] == Flatten(Datas(ds))
    && total <= |ds| * MAX_DATAGRAM_SIZE && seg <= MAX_DATAGRAM_SIZE
    && (if ds == [] then seg == 0 && total == 0 && dst.None?
        else seg > 0 && total > 0 && dst.Some? && IsBatch(ds, dst.value, seg))
  }

  /** ... and it can still grow: every datagram in it has the full segment size. */
  ghost predicate Open(ds: seq<Datagram>, seg: nat) {
    ds != [] ==> |ds[|ds| - 1].data| == seg
  }

  /** Writing one more datagram behind a batch that may take it keeps it a batch. */
  lemma HoldsSnoc(b: seq<Byte>, b': seq<Byte>, total: nat, ds: seq<Datagram>, dst: Option<SocketAddr>, seg: nat,
                  d: Datagram)
    requires Holds(b, total, ds, dst, seg) && Open(ds, seg)
    requires 0 < |d.data| <= MAX_DATAGRAM_SIZE && total + |d.data| <= |b'|
    requires b'[..total] == b[..total] && b'[total..total + |d.data|] == d.data
    requires ds != [] ==> d.dst == dst.value && |d.data| <= seg
    ensures Holds(b', total + |d.data|, ds + [d], Some(d.dst), if ds == [] then |d.data| else seg)
    ensures ds == [] || |d.data| == seg ==> Open(ds + [d], if ds == [] then |d.data| else seg)
  {
    assert Datas(ds + [d]) == Datas(ds) + [d.data];
    FlattenSnoc(Datas(ds), d.data);
    assert b'[..total + |d.data|] == b'[..total] + b'[total..total + |d.data|];
    var all := ds + [d];
    assert all[|ds|] == d;
    assert forall i :: 0 <= i < |ds| ==> all[i] == ds[i];
  }

  lemma PendingSnoc(queue: seq<Outgoing>, k: nat)
    requires Leading(queue, k) && k < |queue| && queue[k].Ready?
    ensures Leading(queue, k + 1) && k < |Pending(queue)| && Pending(queue)[k] == queue[k].datagram
    ensures Pending(queue)[..k + 1] == Pending(queue)[..k] + [queue[k].datagram]
  {
    PendingSplit(queue, k + 1);
  }

  /** Why the coalescing loop stopped: batch complete, a datagram that must travel alone, or an error. */
  datatype Fill = Full | Alone(write: nat, to: SocketAddr) | Failed

  /** What the connection yields next, behind the `k` datagrams already taken. */
  method TakeNext(conn: Connection, buf: array<Byte>, at: nat, cap: nat, ghost queue: seq<Outgoing>,
                  ghost k: nat)
      returns (answer: SendAnswer)
    requires WellFormed(queue) && Leading(queue, k) && conn.queue == queue[k..] && k <= |Pending(queue)|
    requires cap == MAX_DATAGRAM_SIZE && at + cap <= buf.Length
    modifies conn, buf
    ensures buf[..at] == old(buf[..at])
    ensures answer.Done? ==> conn.queue == [] == queue[k..]
    ensures answer.Fault? ==> k < |queue| && |Pending(queue)| == k
    ensures answer.Wrote? ==>
              && Leading(queue, k + 1) && conn.queue == queue[k + 1..] && k < |Pending(queue)|
              && Pending(queue)[..k + 1] == Pending(queue)[..k] + [Pending(queue)[k]]
              && var d := Pending(queue)[k];
              && 0 < |d.data| <= MAX_DATAGRAM_SIZE && answer == SendAnswer.Wrote(|d.data|, d.dst)
              && at + |d.data| <= buf.Length && buf[at..at + |d.data|] == d.data
  {
    hide Pending;
    answer := conn.Send(buf, at, cap);
    if answer.Fault? {
      PendingBroken(queue, k);
    } else if answer.Wrote? {
      PendingSnoc(queue, k);
    }
  }

  /** The inner loop of `flush_egress_gso`: coalesce what the connection yields into one batch. */
  method FillBatch(conn: Connection, buf: array<Byte>)
      returns (fill: Fill, total: nat, seg: nat, packets: nat, dst: Option<SocketAddr>, ghost ds: seq<Datagram>)
    requires WellFormed(conn.queue)
    requires buf.Length >= MAX_DATAGRAM_SIZE * GSO_BURST_PACKETS
    modifies conn, buf
    ensures packets == |ds| && Holds(buf[..], total, ds, dst, seg)
    ensures Leading(old(conn.queue), |ds|)
    ensures |ds| <= |Pending(old(conn.queue))| && Pending(old(conn.queue))[..|ds|] == ds
    ensures fill.Full? ==> conn.queue == old(conn.queue)[|ds|..] && (ds == [] ==> conn.queue == [])
    ensures fill.Full? && conn.queue != [] ==> OpenBatch(ds) == []
    ensures fill.Failed? ==> |ds| < |old(conn.queue)| && Pending(old(conn.queue)) == ds == OpenBatch(ds)
    ensures fill.Alone? ==>
              && Leading(old(conn.queue), |ds| + 1) && |ds| < |Pending(old(conn.queue))|
              && conn.queue == old(conn.queue)[|ds| + 1..]
              && total + fill.write <= buf.Length
              && Pending(old(conn.queue))[|ds|] == Datagram(fill.to, buf[total..total + fill.write])
              && OpenBatch(ds + [Pending(old(conn.queue))[|ds|]]) == []
  {
    hide Flatten, Datas, IsBatch, OpenBatch, Pending, WellFormed;
    ghost var queue := conn.queue;
    PendingStart(queue, []);
    NoBatch(buf[..]);
    total, seg, packets, dst, ds := 0, 0, 0, None, [];
    for i := 0 to GSO_BURST_PACKETS
      invariant packets == |ds| == i
      invariant Holds(buf[..], total, ds, dst, seg) && Open(ds, seg)
      invariant Leading(queue, |ds|) && conn.queue == queue[|ds|..]
      invariant |ds| <= |Pending(queue)| && Pending(queue)[..|ds|] == ds
      invariant OpenBatch(ds) == if i < GSO_BURST_PACKETS then ds else []
    {
      var cap := Min(MAX_DATAGRAM_SIZE, buf.Length - total);
      if cap == 0 {
        break;
      }
      ghost var before := buf[..];
      var answer := TakeNext(conn, buf, total, cap, queue, |ds|);
      assert buf[..][..total] == before[..total];
      if answer == Done {
        fill := Full;
        return;
      }
      if answer == Fault {
        fill := Failed;
        return;
      }
      var write, to := answer.len, answer.to;
      ghost var d := Pending(queue)[|ds|];
      OpenSnoc(ds, d);
      HeadOfBatch(buf[..], total, ds, dst, seg);
      var sameDst := dst.None? || dst.value == to;
      var step := DecideGsoStep(seg, sameDst, write);
      if step == FlushThenSendAlone {
        fill := Alone(write, to);
        return;
      }
      assert buf[..][total..total + write] == d.data;
      HoldsSnoc(before, buf[..], total, ds, dst, seg, d);
      if seg == 0 {
        dst := Some(to);
        seg := write;
      }
      total := total + write;
      packets := packets + 1;
      ds := ds + [d];
      if step == AppendThenFlush {
        break;
      }
    }
    fill := Full;
  }

  lemma HeadOfBatch(buf: seq<Byte>, total: nat, ds: seq<Datagram>, dst: Option<SocketAddr>, seg: nat)
    requires Holds(buf, total, ds, dst, seg) && Open(ds, seg)
    ensures ds != [] ==> ds[0].dst == dst.value && |ds[0].data| == seg
  {
  }

  lemma NoBatch(buf: seq<Byte>)
    ensures Holds(buf, 0, [], None, 0)
  {
    assert Datas([]) == [];
  }

  lemma PrefixInside(before: seq<Datagram>, after: seq<Datagram>, all: seq<Datagram>, k: nat, n: nat)
    requires k + n <= |all| && SentPrefix(before + all[..k], after, all[k..k + n])
    ensures SentPrefix(before, after, all)
  {
    var m :| 0 <= m <= n && after == before + all[..k] + all[k..k + n][..m];
    assert after == before + all[..k + m];
  }

  /** After `k` entries, the next `sent` of them take the flush `|sent|` further. */
  lemma Advance(queue: seq<Outgoing>, k: nat, sent: seq<Datagram>)
    requires Leading(queue, k) && Leading(queue[k..], |sent|)
    requires |sent| <= |Pending(queue[k..])| && Pending(queue[k..])[..|sent|] == sent
    ensures Leading(queue, k + |sent|) && queue[k..][|sent|..] == queue[k + |sent|..]
    ensures k + |sent| <= |Pending(queue)| && Pending(queue)[..k + |sent|] == Pending(queue)[..k] + sent
  {
    var n := |sent|;
    forall i | k <= i < k + n
      ensures queue[i].Ready?
    {
      assert queue[k..][i - k].Ready?;
    }
    PendingSplit(queue, k);
    assert Pending(queue)[..k + n] == Pending(queue)[..k] + Pending(queue)[k..][..n];
  }

  lemma AbortPrefix(queue: seq<Outgoing>, k: nat, before: seq<Datagram>, after: seq<Datagram>)
    requires Leading(queue, k) && k <= |Pending(queue)|
    requires SentPrefix(before + Pending(queue)[..k], after, Pending(queue[k..]))
    ensures SentPrefix(before, after, Pending(queue))
  {
    PendingSplit(queue, k);
    var all := Pending(queue);
    assert all[k..k + (|all| - k)] == all[k..];
    PrefixInside(before, after, all, k, |all| - k);
  }

  datatype Round = Continue | Stop | Abort(end: FlushEnd)

  /** One turn of `flush_egress_gso`'s outer loop: fill a batch, send it, then the datagram that could not join it. */
  method FlushRound(conn: Connection, socket: Socket, buf: array<Byte>)
      returns (round: Round, ghost sent: seq<Datagram>, ghost calls: nat, ghost tries: nat)
    requires WellFormed(conn.queue)
    requires buf.Length >= MAX_DATAGRAM_SIZE * GSO_BURST_PACKETS
    modifies conn, socket, buf
    ensures round.Abort? ==>
              && !round.end.Drained?
              && Ended(old(conn.queue), conn.queue, old(socket.wire), socket.wire, round.end, true)
    ensures Called(old(socket.plain), socket.plain, calls, round == Abort(SocketFailed))
    ensures Tried(old(socket.segmented), old(socket.gsoUsable), socket.segmented, socket.gsoUsable, tries)
    ensures !round.Abort? ==> Moved(old(conn.queue), conn.queue, old(socket.wire), socket.wire, sent)
    ensures round.Stop? ==> sent == [] && conn.queue == []
    ensures round.Continue? ==> sent != []
  {
    hide Flatten, Datas, IsBatch, Pending, OpenBatch, Called, Tried, Granted, SentPrefix, OutBeforeFailure;
    ghost var pending := Pending(conn.queue);
    sent, calls, tries := [], 0, 0;
    NoCalls(socket.plain, socket.segmented, socket.gsoUsable);
    assert pending[..0] == [];
    var fill, total, seg, packets, dst, ds := FillBatch(conn, buf);
    if fill.Failed? {
      NothingOut(pending);
      return Abort(ConnFailed), sent, calls, tries;
    }
    if total > 0 {
      var ok;
      ok, calls := SendBatch(socket, buf[..total], dst.value, seg, packets, ds);
      tries := if packets == 1 then 0 else 1;
      if !ok {
        StopsWithin(old(socket.wire), pending, ds, calls);
        return Abort(SocketFailed), sent, calls, tries;
      }
    } else if fill.Full? {
      return Stop, sent, calls, tries;
    }
    sent := ds;
    assert socket.wire == old(socket.wire) + ds;
    if fill.Alone? {
      var ok;
      ok, calls := SendAlone(socket, buf[total..total + fill.write], fill.to, old(socket.plain), calls);
      if !ok {
        StopsWithin(old(socket.wire), pending, ds, |ds|);
        return Abort(SocketFailed), sent, calls, tries;
      }
      sent := sent + [pending[|ds|]];
      assert pending[..|ds| + 1] == pending[..|ds|] + [pending[|ds|]];
    }
    round := Continue;
  }

  /** The one `send_to` for it, after so many other calls. */
  method SendAlone(socket: Socket, data: seq<Byte>, to: SocketAddr, ghost before: seq<bool>, ghost calls: nat)
      returns (ok: bool, ghost calls': nat)
    requires Called(before, socket.plain, calls, false)
    modifies socket`wire, socket`plain
    ensures socket.wire == if ok then old(socket.wire) + [Datagram(to, data)] else old(socket.wire)
    ensures Called(before, socket.plain, calls', !ok)
  {
    hide Called;
    ok := socket.SendTo(data, to);
    OneCall(old(socket.plain), ok);
    calls' := calls + if ok then 1 else 0;
    CallsAdd(before, old(socket.plain), socket.plain, calls, if ok then 1 else 0, !ok);
  }

  /** With every datagram in the open batch, none is out. */
  lemma NothingOut(pending: seq<Datagram>)
    ensures OpenBatch(pending) == pending ==> OutBeforeFailure(pending, true) == []
  {
  }

  /** What a refused call within a batch leaves on the wire. */
  lemma StopsWithin(before: seq<Datagram>, pending: seq<Datagram>, ds: seq<Datagram>, calls: nat)
    requires calls <= |ds| <= |pending| && pending[..|ds|] == ds
    ensures SentPrefix(before, before + ds[..calls], pending) && ds[..|ds|] == ds
  {
    assert pending[..calls] == ds[..calls];
  }

  /** A flush that ends in a later round ends the whole. */
  lemma RoundEnds(queue: seq<Outgoing>, k: nat, before: seq<Datagram>, after: seq<Datagram>)
    requires Leading(queue, k) && k <= |Pending(queue)| && OpenBatch(Pending(queue)[..k]) == []
    requires after == before + Pending(queue)[..k] + OutBeforeFailure(Pending(queue[k..]), true)
    ensures after == before + OutBeforeFailure(Pending(queue), true)
    ensures |queue| - |Pending(queue)| == |queue[k..]| - |Pending(queue[k..])|
  {
    hide Pending, OpenBatch;
    PendingSplit(queue, k);
    var head, rest := Pending(queue)[..k], Pending(queue[k..]);
    assert Pending(queue) == head + rest;
    OpenAgain(head, rest);
    Shortened(before, head, rest, |OpenBatch(rest)|);
  }

  lemma Shortened(before: seq<Datagram>, head: seq<Datagram>, rest: seq<Datagram>, n: nat)
    requires n <= |rest|
    ensures before + (head + rest)[..|head + rest| - n] == before + head + rest[..|rest| - n]
  {
    assert (head + rest)[..|head + rest| - n] == head + rest[..|rest| - n];
  }

  lemma RoundMoves(queue: seq<Outgoing>, left: seq<Outgoing>, before: seq<Datagram>, now: seq<Datagram>, k: nat,
                   left': seq<Outgoing>, now': seq<Datagram>, sent: seq<Datagram>)
    requires SoFar(queue, left, before, now, k) && Moved(left, left', now, now', sent)
    ensures SoFar(queue, left', before, now', k + |sent|)
  {
    hide Pending, OpenBatch, Leading, WellFormed;
    Advance(queue, k, sent);
    StillWellFormed(left, |sent|);
    if left' != [] {
      LeftMeansLeft(left, |sent|);
      OpenAgain(Pending(queue)[..k], sent);
    }
  }

  lemma LeftMeansLeft(left: seq<Outgoing>, n: nat)
    requires Leading(left, n) && left[n..] != []
    ensures left != []
  {
  }

  lemma RoundAborts(queue: seq<Outgoing>, left: seq<Outgoing>, before: seq<Datagram>, now: seq<Datagram>, k: nat,
                    left': seq<Outgoing>, now': seq<Datagram>, end: FlushEnd)
    requires SoFar(queue, left, before, now, k) && Ended(left, left', now, now', end, true) && !end.Drained?
    ensures Ended(queue, left', before, now', end, true)
  {
    hide Pending, OpenBatch, WellFormed, SentPrefix, OutBeforeFailure;
    if end.ConnFailed? {
      RoundEnds(queue, k, before, now');
    } else {
      AbortPrefix(queue, k, before, now');
    }
  }

  lemma LoopEnds(queue: seq<Outgoing>, before: seq<Datagram>, now: seq<Datagram>, k: nat)
    requires SoFar(queue, [], before, now, k)
    ensures Ended(queue, [], before, now, Drained, true)
  {
    hide OpenBatch, WellFormed;
    PendingEnd(queue, k, before);
  }

  /** `flush_egress_gso`. */
  method FlushEgressGso(conn: Connection, socket: Socket, buf: array<Byte>) returns (end: FlushEnd)
    requires WellFormed(conn.queue)
    requires buf.Length >= MAX_DATAGRAM_SIZE * GSO_BURST_PACKETS
    modifies conn, socket, buf
    ensures Flushed(conn, socket, end, true)
  {
    hide SoFar, Moved, Ended, Called, Tried, WellFormed;
    ghost var k: nat, calls: nat, tries: nat := 0, 0, 0;
    PendingStart(conn.queue, socket.wire);
    NoCalls(socket.plain, socket.segmented, socket.gsoUsable);
    var running := true;
    while running
      invariant SoFar(old(conn.queue), conn.queue, old(socket.wire), socket.wire, k) && WellFormed(conn.queue)
      invariant !running ==> conn.queue == []
      invariant Called(old(socket.plain), socket.plain, calls, false)
      invariant Tried(old(socket.segmented), old(socket.gsoUsable), socket.segmented, socket.gsoUsable, tries)
      decreases |conn.queue|, running
    {
      ghost var left, now := conn.queue, socket.wire;
      ghost var plain, segmented, usable := socket.plain, socket.segmented, socket.gsoUsable;
      var round, sent, more, again := FlushRound(conn, socket, buf);
      CallsAdd(old(socket.plain), plain, socket.plain, calls, more, round == Abort(SocketFailed));
      TriesAdd(old(socket.segmented), old(socket.gsoUsable), segmented, usable, socket.segmented, socket.gsoUsable,
               tries, again);
      calls, tries := calls + more, tries + again;
      if round.Abort? {
        end := round.end;
        RoundAborts(old(conn.queue), left, old(socket.wire), now, k, conn.queue, socket.wire, end);
        assert Called(old(socket.plain), socket.plain, calls, end.SocketFailed?);
        return;
      }
      RoundMoves(old(conn.queue), left, old(socket.wire), now, k, conn.queue, socket.wire, sent);
      SoFarWellFormed(old(conn.queue), conn.queue, old(socket.wire), socket.wire, k + |sent|);
      MovedBy(left, conn.queue, now, socket.wire, sent);
      k := k + |sent|;
      running := round.Continue?;
    }
    LoopEnds(old(conn.queue), old(socket.wire), socket.wire, k);
    end := Drained;
    assert Called(old(socket.plain), socket.plain, calls, end.SocketFailed?);
    assert Tried(old(socket.segmented), old(socket.gsoUsable), socket.segmented, socket.gsoUsable, tries);
  }

  lemma SoFarWellFormed(queue: seq<Outgoing>, left: seq<Outgoing>, before: seq<Datagram>, now: seq<Datagram>, k: nat)
    requires SoFar(queue, left, before, now, k)
    ensures WellFormed(left)
  {
  }

  lemma MovedBy(queue: seq<Outgoing>, left: seq<Outgoing>, before: seq<Datagram>, now: seq<Datagram>,
                sent: seq<Datagram>)
    requires Moved(queue, left, before, now, sent)
    ensures |left| == |queue| - |sent|
  {
  }

  lemma StillWellFormed(queue: seq<Outgoing>, n: nat)
    requires WellFormed(queue) && Leading(queue, n)
    ensures WellFormed(queue[n..])
  {
  }

  lemma PendingStart(queue: seq<Outgoing>, before: seq<Datagram>)
    ensures Leading(queue, 0) && queue == queue[0..] && Pending(queue)[..0] == []
    ensures WellFormed(queue) ==> SoFar(queue, queue, before, before, 0)
  {
  }

  /** Once the queue is used up, everything pending has been sent. */
  lemma PendingEnd(queue: seq<Outgoing>, k: nat, before: seq<Datagram>)
    requires Leading(queue, k) && queue[k..] == []
    ensures |Pending(queue)| == |queue| == k && Pending(queue)[..k] == Pending(queue)
    ensures SentPrefix(before, before + Pending(queue)[..k], Pending(queue))
  {
    PendingSplit(queue, k);
  }

  /** `flush_egress`: segmented while the kernel accepts it, per packet otherwise. */
  method FlushEgress(conn: Connection, socket: Socket, buf: array<Byte>) returns (end: FlushEnd)
    requires WellFormed(conn.queue)
    requires buf.Length >= MAX_DATAGRAM_SIZE * GSO_BURST_PACKETS
    modifies conn, socket, buf
    ensures Flushed(conn, socket, end, old(socket.gsoUsable))
  {
    if socket.gsoUsable {
      end := FlushEgressGso(conn, socket, buf);
    } else {
      end := FlushEgressPerPacket(conn, socket);
    }
  }
}
