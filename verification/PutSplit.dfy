/**
 * How an upload's stream is cut into the file body and the 32-byte checksum
 * trailer: chunk by chunk as bytes arrive, and once over the whole stream.
 */
module PutSplit {
  import opened Bytes

  const TRAILER_LEN: nat := 32

  datatype Overflow = BodyExceeded | TrailerExceeded

  datatype ChunkSplit = Split(toBody: nat, toTrailer: nat) | TooMuch(kind: Overflow)

  function ClassifyPutChunk(chunkLen: nat, bodyRemaining: nat, checksumTrailer: bool,
                            trailerRemaining: nat): ChunkSplit {
    var toBody := Min(chunkLen, bodyRemaining);
    var afterBody := chunkLen - toBody;
    if afterBody == 0 then Split(toBody, 0)
    else if !checksumTrailer then TooMuch(BodyExceeded)
    else if afterBody > trailerRemaining then TooMuch(TrailerExceeded)
    else Split(toBody, afterBody)
  }

  // ---- on values --------------------------------------------------------

  /** A declared upload: `size` body bytes, and a trailer or none. */
  datatype Declared = Declared(size: nat, checksumTrailer: bool)

  datatype Cut = Parts(body: seq<Byte>, trailer: seq<Byte>) | Refused(kind: Overflow)

  function Wanted(d: Declared): nat {
    d.size + if d.checksumTrailer then TRAILER_LEN else 0
  }

  /** The split of the whole stream at once. */
  function CutOnce(d: Declared, stream: seq<Byte>): Cut {
    if |stream| > Wanted(d) then Refused(if d.checksumTrailer then TrailerExceeded else BodyExceeded)
    else Parts(stream[..Min(d.size, |stream|)], stream[Min(d.size, |stream|)..])
  }

  /** Room is left for what the parts still lack. */
  predicate Fits(d: Declared, c: Cut) {
    c.Parts? ==>
      && |c.body| <= d.size && |c.trailer| <= TRAILER_LEN
      && (c.trailer != [] ==> d.checksumTrailer && |c.body| == d.size)
  }

  /** One more chunk. */
  function CutChunk(d: Declared, c: Cut, chunk: seq<Byte>): (r: Cut)
    requires Fits(d, c)
    ensures Fits(d, r)
  {
    if c.Refused? then c
    else
      match ClassifyPutChunk(|chunk|, d.size - |c.body|, d.checksumTrailer, TRAILER_LEN - |c.trailer|)
      case TooMuch(kind) => Refused(kind)
      case Split(b, t) => Parts(c.body + chunk[..b], c.trailer + chunk[b..b + t])
  }

  function CutChunks(d: Declared, c: Cut, chunks: seq<seq<Byte>>): (r: Cut)
    requires Fits(d, c)
    ensures Fits(d, r)
  {
    if chunks == [] then c else CutChunk(d, CutChunks(d, c, chunks[..|chunks| - 1]), chunks[|chunks| - 1])
  }

  /** Taking a chunk after a stream is cutting the longer stream. */
  lemma ChunkExtends(d: Declared, stream: seq<Byte>, chunk: seq<Byte>)
    ensures Fits(d, CutOnce(d, stream))
    ensures CutChunk(d, CutOnce(d, stream), chunk) == CutOnce(d, stream + chunk)
  {
    var whole := stream + chunk;
    if |stream| <= Wanted(d) && |whole| <= Wanted(d) {
      var c := CutOnce(d, stream);
      var b := Min(|chunk|, d.size - |c.body|);
      assert c.body + chunk[..b] == whole[..Min(d.size, |whole|)];
      assert c.trailer + chunk[b..] == whole[Min(d.size, |whole|)..];
      assert chunk[b..b + (|chunk| - b)] == chunk[b..];
    }
  }

  /** Any chunking gives the body, the trailer and the verdict that the whole stream gives. */
  lemma {:induction false} ChunkingDoesNotMatter(d: Declared, chunks: seq<seq<Byte>>)
    ensures CutChunks(d, Parts([], []), chunks) == CutOnce(d, Flatten(chunks))
    decreases |chunks|
  {
    hide CutChunk, CutOnce;
    if chunks == [] {
      CutOfNothing(d);
    } else {
      var n := |chunks| - 1;
      ChunkingDoesNotMatter(d, chunks[..n]);
      ChunkExtends(d, Flatten(chunks[..n]), chunks[n]);
      FlattenTake(chunks, n);
      assert chunks[..n + 1] == chunks;
    }
  }

  lemma CutOfNothing(d: Declared)
    ensures CutOnce(d, []) == Parts([], [])
  {
  }

  // ---- the receiver as it is updated in place ----------------------------

  class TrailerBuf {
    const bytes: array<Byte>
    var filled: nat

    ghost predicate Valid()
      reads this, bytes
    {
      bytes.Length == TRAILER_LEN && filled <= TRAILER_LEN && forall i :: filled <= i < TRAILER_LEN ==> bytes[i] == 0
    }

    ghost function Contents(): seq<Byte>
      reads this, bytes
      requires Valid()
    {
      bytes[..filled]
    }

    constructor ()
      ensures Valid() && Contents() == [] && fresh(bytes)
    {
      bytes := new Byte[TRAILER_LEN](_ => 0);
      filled := 0;
    }

    function Remaining(): nat
      reads this, bytes
      requires Valid()
    {
      TRAILER_LEN - filled
    }

    predicate IsFull()
      reads this
    {
      filled == TRAILER_LEN
    }

    /** Append what fits. */
    method Extend(src: seq<Byte>) returns (want: nat)
      requires Valid()
      modifies this, bytes
      ensures Valid() && want == Min(|src|, TRAILER_LEN - old(filled))
      ensures Contents() == old(Contents()) + src[..want]
    {
      want := Min(Remaining(), |src|);
      var start := filled;
      forall i | 0 <= i < want {
        bytes[start + i] := src[i];
      }
      filled := filled + want;
    }
  }

  class PutReceiver {
    const declared: Declared
    var body: seq<Byte>
    var bodyRemaining: nat
    const trailer: TrailerBuf

    ghost predicate Valid()
      reads this, trailer, trailer.bytes
    {
      && trailer.Valid() && |body| + bodyRemaining == declared.size
      && Fits(declared, Now())
    }

    ghost function Now(): Cut
      reads this, trailer, trailer.bytes
      requires trailer.Valid()
    {
      Parts(body, trailer.Contents())
    }

    constructor (size: nat, checksumTrailer: bool)
      ensures Valid() && Now() == Parts([], []) && declared == Declared(size, checksumTrailer)
      ensures fresh(trailer) && fresh(trailer.bytes)
    {
      declared, body, bodyRemaining := Declared(size, checksumTrailer), [], size;
      trailer := new TrailerBuf();
    }

    /** Route one received chunk; an overflow leaves what was received before it. */
    method RoutePutChunk(chunk: seq<Byte>) returns (overflow: Option<Overflow>)
      requires Valid()
      modifies this, trailer, trailer.bytes
      ensures Valid()
      ensures match CutChunk(declared, old(Now()), chunk)
              case Refused(kind) => overflow == Some(kind) && Now() == old(Now())
              case Parts(b, t) => overflow == None && Now() == Parts(b, t)
    {
      match ClassifyPutChunk(|chunk|, bodyRemaining, declared.checksumTrailer, trailer.Remaining())
      case TooMuch(kind) =>
        overflow := Some(kind);
      case Split(toBody, toTrailer) =>
        ghost var was := Now();
        if toBody > 0 {
          body := body + chunk[..toBody];
          bodyRemaining := bodyRemaining - toBody;
        }
        if toTrailer > 0 {
          var _ := trailer.Extend(chunk[toBody..toBody + toTrailer]);
          assert chunk[toBody..toBody + toTrailer][..toTrailer] == chunk[toBody..toBody + toTrailer];
        }
        overflow := None;
        assert Now() == Parts(was.body + chunk[..toBody], was.trailer + chunk[toBody..toBody + toTrailer]);
    }
  }

  datatype Outcome =
    | Complete(body: seq<Byte>, checksum: Option<seq<Byte>>)
    | Overflowed(kind: Overflow)
    | Truncated(bodyMissing: bool)

  /** A complete trailer overrides the checksum of the request header. */
  function ResolvePutChecksum(checksumTrailer: bool, trailer: seq<Byte>, header: Option<seq<Byte>>): Option<seq<Byte>> {
    if checksumTrailer && |trailer| == TRAILER_LEN then Some(trailer) else header
  }

  /** What reading stops at. */
  function Verdict(d: Declared, header: Option<seq<Byte>>, stream: seq<Byte>): Outcome {
    match CutOnce(d, stream)
    case Refused(kind) => Overflowed(kind)
    case Parts(body, trailer) =>
      if |stream| == Wanted(d) then Complete(body, ResolvePutChecksum(d.checksumTrailer, trailer, header))
      else Truncated(|stream| < d.size)
  }

  /** The outcome after `taken` reads, none of them empty and none before them enough. */
  ghost predicate StopsAt(d: Declared, header: Option<seq<Byte>>, leftover: seq<Byte>, arrivals: seq<seq<Byte>>,
                          outcome: Outcome, taken: nat)
    requires taken <= |arrivals|
  {
    && outcome == Verdict(d, header, Flatten([leftover] + arrivals[..taken]))
    && (forall i :: 0 <= i < taken ==> arrivals[i] != [] && |Flatten([leftover] + arrivals[..i])| < Wanted(d))
    && (outcome.Truncated? ==> taken == |arrivals| || arrivals[taken] == [])
  }

  /** The first `k` reads carry bytes and, with the leftover, exactly what the upload declared. */
  ghost predicate FillsExactly(d: Declared, leftover: seq<Byte>, arrivals: seq<seq<Byte>>, k: nat)
    requires k <= |arrivals|
  {
    |Flatten([leftover] + arrivals[..k])| == Wanted(d) && forall i :: 0 <= i < k ==> arrivals[i] != []
  }

  /**
   * An upload completes exactly when some of its reads add up to what was
   * declared: surplus bytes in a later chunk go unnoticed, while in the chunk
   * that passes the mark they are refused.
   */
  lemma CompletesIff(d: Declared, header: Option<seq<Byte>>, leftover: seq<Byte>, arrivals: seq<seq<Byte>>,
                     outcome: Outcome, taken: nat)
    requires taken <= |arrivals| && StopsAt(d, header, leftover, arrivals, outcome, taken)
    ensures outcome.Complete? <==> exists k :: 0 <= k <= |arrivals| && FillsExactly(d, leftover, arrivals, k)
  {
    hide Flatten;
    if outcome.Complete? {
      assert FillsExactly(d, leftover, arrivals, taken);
    }
    if k :| 0 <= k <= |arrivals| && FillsExactly(d, leftover, arrivals, k) {
      assert taken <= k;
      assert [leftover] + arrivals[..k] == ([leftover] + arrivals[..taken]) + arrivals[taken..k];
      FlattenAppend([leftover] + arrivals[..taken], arrivals[taken..k]);
    }
  }

  /** Reads of at most `limit` bytes, none of them empty. */
  predicate Short(arrivals: seq<seq<Byte>>, limit: nat) {
    forall i :: 0 <= i < |arrivals| ==> 0 < |arrivals[i]| <= limit
  }

  /** A stream in reads of `limit` bytes, and a last one of what is left. */
  function Reads(stream: seq<Byte>, limit: nat): (arrivals: seq<seq<Byte>>)
    requires limit > 0
    ensures Short(arrivals, limit)
  {
    if stream == [] then []
    else [stream[..Min(limit, |stream|)]] + Reads(stream[Min(limit, |stream|)..], limit)
  }

  lemma {:induction false} ReadsSpell(stream: seq<Byte>, limit: nat)
    requires limit > 0
    ensures Flatten(Reads(stream, limit)) == stream
    decreases |stream|
  {
    if stream != [] {
      var n := Min(limit, |stream|);
      ReadsSpell(stream[n..], limit);
      assert stream == stream[..n] + stream[n..];
      assert Reads(stream, limit)[1..] == Reads(stream[n..], limit);
    }
  }

  /** More reads never make less. */
  lemma MoreReads(leftover: seq<Byte>, arrivals: seq<seq<Byte>>, i: nat, j: nat)
    requires i <= j <= |arrivals|
    ensures |Flatten([leftover] + arrivals[..i])| <= |Flatten([leftover] + arrivals[..j])|
  {
    assert [leftover] + arrivals[..j] == ([leftover] + arrivals[..i]) + arrivals[i..j];
    FlattenAppend([leftover] + arrivals[..i], arrivals[i..j]);
  }

  /** Of a surplus stream nothing is waited for: it is complete if a read ends at the mark, and refused otherwise. */
  lemma SurplusEnds(d: Declared, header: Option<seq<Byte>>, leftover: seq<Byte>, arrivals: seq<seq<Byte>>,
                    outcome: Outcome, taken: nat, limit: nat)
    requires taken <= |arrivals| && StopsAt(d, header, leftover, arrivals, outcome, taken) && Short(arrivals, limit)
    requires |Flatten([leftover] + arrivals)| > Wanted(d)
    ensures if exists k :: 0 <= k <= |arrivals| && FillsExactly(d, leftover, arrivals, k) then outcome.Complete?
            else outcome.Overflowed?
  {
    hide Flatten;
    CompletesIff(d, header, leftover, arrivals, outcome, taken);
    assert arrivals[..|arrivals|] == arrivals;
  }

  /** `first`, then one read, then `rest`: no other number of reads comes near the mark. */
  lemma Spanned(d: Declared, leftover: seq<Byte>, first: seq<seq<Byte>>, last: seq<Byte>, rest: seq<seq<Byte>>, k: nat)
    requires var arrivals := first + [last] + rest; k <= |arrivals|
    requires |leftover| + |Flatten(first)| < Wanted(d) < |leftover| + |Flatten(first)| + |last|
    ensures !FillsExactly(d, leftover, first + [last] + rest, k)
  {
    hide Flatten;
    var arrivals := first + [last] + rest;
    assert arrivals[..|first|] == first && arrivals[..|first| + 1] == first + [last];
    assert [leftover] + (first + [last]) == ([leftover] + first) + [last];
    FlattenOne(leftover);
    FlattenAppend([leftover], first);
    FlattenSnoc([leftover] + first, last);
    if k <= |first| {
      MoreReads(leftover, arrivals, k, |first|);
    } else {
      MoreReads(leftover, arrivals, |first| + 1, k);
    }
  }

  /**
   * So every surplus stream can end either way, however little a read brings:
   * complete if a read ends where the upload does, refused if one spans that
   * mark.
   */
  lemma SurplusDependsOnChunks(d: Declared, header: Option<seq<Byte>>, stream: seq<Byte>, limit: nat)
      returns (good: seq<seq<Byte>>, leftover: seq<Byte>, bad: seq<seq<Byte>>)
    requires |stream| > Wanted(d) && limit >= 2
    ensures Short(good, limit) && Short(bad, limit) && |leftover| <= limit
    ensures Flatten([[]] + good) == stream == Flatten([leftover] + bad)
    ensures forall outcome, taken: nat ::
              taken <= |good| && StopsAt(d, header, [], good, outcome, taken) ==> outcome.Complete?
    ensures forall outcome, taken: nat ::
              taken <= |bad| && StopsAt(d, header, leftover, bad, outcome, taken) ==> outcome.Overflowed?
  {
    hide Flatten, StopsAt, FillsExactly, Reads;
    good := Completing(d, stream, limit);
    leftover, bad := Spanning(d, stream, limit);
    forall outcome, taken: nat | taken <= |good| && StopsAt(d, header, [], good, outcome, taken)
      ensures outcome.Complete?
    {
      SurplusEnds(d, header, [], good, outcome, taken, limit);
    }
    forall outcome, taken: nat | taken <= |bad| && StopsAt(d, header, leftover, bad, outcome, taken)
      ensures outcome.Overflowed?
    {
      SurplusEnds(d, header, leftover, bad, outcome, taken, limit);
    }
  }

  lemma Completing(d: Declared, stream: seq<Byte>, limit: nat) returns (good: seq<seq<Byte>>)
    requires |stream| > Wanted(d) && limit >= 2
    ensures Short(good, limit) && Flatten([[]] + good) == stream
    ensures exists k :: 0 <= k <= |good| && FillsExactly(d, [], good, k)
  {
    hide Flatten, Reads;
    var upTo, rest := stream[..Wanted(d)], stream[Wanted(d)..];
    var first, later := Reads(upTo, limit), Reads(rest, limit);
    good := first + later;
    ReadsSpell(upTo, limit);
    ReadsSpell(rest, limit);
    FlattenOne<Byte>([]);
    FlattenAppend([[]], good);
    FlattenAppend(first, later);
    FlattenAppend([[]], first);
    assert stream == upTo + rest && good[..|first|] == first;
    assert FillsExactly(d, [], good, |first|);
  }

  lemma Spanning(d: Declared, stream: seq<Byte>, limit: nat) returns (leftover: seq<Byte>, bad: seq<seq<Byte>>)
    requires |stream| > Wanted(d) && limit >= 2
    ensures Short(bad, limit) && |leftover| <= limit && Flatten([leftover] + bad) == stream
    ensures !exists k :: 0 <= k <= |bad| && FillsExactly(d, leftover, bad, k)
  {
    hide Flatten, Reads, FillsExactly;
    var w := Wanted(d);
    if w == 0 {
      leftover, bad := stream[..1], Reads(stream[1..], limit);
      ReadsSpell(stream[1..], limit);
      FlattenOne(leftover);
      FlattenAppend([leftover], bad);
      forall k | 0 <= k <= |bad|
        ensures !FillsExactly(d, leftover, bad, k)
      {
        NothingFills(d, leftover, bad, k);
      }
    } else {
      var upTo, last, rest := stream[..w - 1], stream[w - 1..w + 1], stream[w + 1..];
      var first, later := Reads(upTo, limit), Reads(rest, limit);
      leftover, bad := [], first + [last] + later;
      ReadsSpell(upTo, limit);
      ReadsSpell(rest, limit);
      FlattenOne<Byte>([]);
      FlattenAppend([[]], bad);
      FlattenAppend(first + [last], later);
      FlattenSnoc(first, last);
      assert stream == upTo + last + rest;
      forall k | 0 <= k <= |bad|
        ensures !FillsExactly(d, leftover, bad, k)
      {
        Spanned(d, leftover, first, last, later, k);
      }
    }
  }

  /** Past the mark already, no reads lead back to it. */
  lemma NothingFills(d: Declared, leftover: seq<Byte>, arrivals: seq<seq<Byte>>, k: nat)
    requires k <= |arrivals| && |leftover| > Wanted(d)
    ensures !FillsExactly(d, leftover, arrivals, k)
  {
    hide Flatten;
    FlattenOne(leftover);
    assert [leftover] + arrivals[..0] == [leftover];
    MoreReads(leftover, arrivals, 0, k);
  }

  /**
   * Receive an upload: what came with the request, then reads until body and
   * trailer are complete. A read of no bytes, or the end of the stream, is
   * reported as truncation. Reading stops at the chunk that completes the
   * upload, so surplus bytes are noticed exactly when they share that chunk.
   */
  method ReceivePut(size: nat, checksumTrailer: bool, header: Option<seq<Byte>>, leftover: seq<Byte>,
                    arrivals: seq<seq<Byte>>)
    returns (outcome: Outcome, taken: nat)
    ensures taken <= |arrivals|
    ensures StopsAt(Declared(size, checksumTrailer), header, leftover, arrivals, outcome, taken)
  {
    hide Flatten, CutChunk, CutOnce;
    var put := new PutReceiver(size, checksumTrailer);
    var d := put.declared;
    CutOfNothing(d);
    FlattenOne(leftover);
    assert [leftover] + arrivals[..0] == [leftover];
    ChunkExtends(d, [], leftover);
    assert [] + leftover == leftover;
    var overflow := put.RoutePutChunk(leftover);
    taken := 0;
    if overflow.Some? {
      return Overflowed(overflow.value), 0;
    }
    PartsSpell(d, leftover);
    while put.bodyRemaining > 0 || (checksumTrailer && !put.trailer.IsFull())
      invariant taken <= |arrivals| && put.Valid() && put.declared == d
      invariant fresh(put) && fresh(put.trailer) && fresh(put.trailer.bytes)
      invariant put.Now() == CutOnce(d, Flatten([leftover] + arrivals[..taken]))
      invariant |put.body| + |put.trailer.Contents()| == |Flatten([leftover] + arrivals[..taken])|
      invariant forall i :: 0 <= i < taken ==> arrivals[i] != [] && |Flatten([leftover] + arrivals[..i])| < Wanted(d)
      decreases |arrivals| - taken
    {
      ghost var stream := Flatten([leftover] + arrivals[..taken]);
      if taken == |arrivals| || arrivals[taken] == [] {
        return Truncated(put.bodyRemaining > 0), taken;
      }
      var chunk := arrivals[taken];
      ChunkExtends(d, stream, chunk);
      assert [leftover] + arrivals[..taken + 1] == ([leftover] + arrivals[..taken]) + [chunk];
      FlattenSnoc([leftover] + arrivals[..taken], chunk);
      overflow := put.RoutePutChunk(chunk);
      taken := taken + 1;
      if overflow.Some? {
        return Overflowed(overflow.value), taken;
      }
      PartsSpell(d, stream + chunk);
    }
    outcome := Complete(put.body, ResolvePutChecksum(checksumTrailer, put.trailer.bytes[..put.trailer.filled], header));
  }

  lemma PartsSpell(d: Declared, stream: seq<Byte>)
    requires CutOnce(d, stream).Parts?
    ensures CutOnce(d, stream).body + CutOnce(d, stream).trailer == stream
    ensures |CutOnce(d, stream).body| == Min(d.size, |stream|)
  {
  }
}
