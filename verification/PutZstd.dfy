/**
 * The native server's receiving side of a compressed upload: each chunk goes
 * through the decoder, its plaintext behind the resumed prefix, and what
 * follows the frame into the trailer; then the digest of all of it decides.
 */
module PutZstd {
  import opened Bytes
  import opened Codes
  import opened Compress
  import opened PutSplit
  import GetServer
  import G = GetClient

  type Hash = GetServer.Hash

  class CompressedPut {
    const decoder: ZstdDecoder
    const trailer: TrailerBuf?
    const size: nat
    var remaining: nat
    /** Content of the partial; every write appends. */
    var file: seq<Byte>
    var hashed: seq<Byte>

    ghost const prefix: seq<Byte>
    /** A frame and the plaintext it encodes, if the client sends one. */
    ghost const frame: seq<Byte>
    ghost const plain: seq<Byte>
    /** Every byte received after the request. */
    ghost var received: seq<Byte>

    ghost function Repr(): set<object> {
      {this, decoder} + (if trailer != null then {trailer, trailer.bytes} else {})
    }

    ghost function Trailer(): seq<Byte>
      reads if trailer != null then {trailer, trailer.bytes} else {}
      requires trailer != null ==> trailer.Valid()
    {
      if trailer == null then [] else trailer.Contents()
    }

    ghost predicate Valid()
      reads Repr()
    {
      && decoder.Valid() && decoder.Pending() == [] && (trailer != null ==> trailer.Valid())
      && hashed == file && remaining + decoder.decoded == size && (decoder.frameComplete ==> remaining == 0)
      && G.ZstdState(IsLawful(), frame, plain, prefix, received, decoder.fed, decoder.decoded, decoder.frameComplete,
                     file, Trailer())
    }

    ghost predicate IsLawful() {
      G.Lawful(decoder.step, decoder.maxPlaintext, frame, plain)
    }

    /** The stream begins with a frame of the declared size, as far as it goes. */
    ghost predicate Promised(s: seq<Byte>) {
      IsLawful() && Compatible(s, frame) && |plain| == size
    }

    function Room(): nat {
      if trailer == null then 0 else TRAILER_LEN
    }

    constructor (step: DecoderStep, prefix: seq<Byte>, size: nat, checksumTrailer: bool,
                 ghost frame: seq<Byte>, ghost plain: seq<Byte>)
      ensures Valid() && fresh(Repr()) && received == [] && (trailer != null <==> checksumTrailer)
      ensures this.prefix == prefix && this.frame == frame && this.plain == plain && this.size == size
      ensures decoder.step == step && decoder.maxPlaintext == Min(size, MAX_FILE_SIZE)
    {
      this.size, remaining, file, hashed := size, size, prefix, prefix;
      this.prefix, this.frame, this.plain, this.received := prefix, frame, plain, [];
      decoder := new ZstdDecoder(step, Min(size, MAX_FILE_SIZE));
      var buf: TrailerBuf? := null;
      if checksumTrailer {
        buf := new TrailerBuf();
      }
      trailer := buf;
    }

    /** `append_put_trailer`. */
    method AppendTrailer(bytes: seq<Byte>) returns (refusal: Option<ErrorCode>)
      requires trailer != null ==> trailer.Valid()
      modifies if trailer != null then {trailer, trailer.bytes} else {}
      ensures trailer != null ==> trailer.Valid()
      ensures refusal == if |old(Trailer())| + |bytes| <= Room() then None else Some(UploadOverflow)
      ensures refusal.None? ==> Trailer() == old(Trailer()) + bytes
    {
      if bytes == [] {
        return None;
      }
      if trailer == null {
        return Some(UploadOverflow);
      }
      var consumed := trailer.Extend(bytes);
      if consumed < |bytes| {
        return Some(UploadOverflow);
      }
      assert bytes[..consumed] == bytes;
      return None;
    }

    /** Write and hash what the decoder holds, unless it is more than was declared. */
    method DrainDecoded() returns (fits: bool)
      requires decoder.Valid()
      modifies this`file, this`hashed, this`remaining, decoder`pending, decoder`pendingPos
      ensures decoder.Valid() && fits == (|old(decoder.Pending())| <= old(remaining))
      ensures fits ==>
                && decoder.Pending() == [] && remaining == old(remaining) - |old(decoder.Pending())|
                && file == old(file) + old(decoder.Pending()) && hashed == old(hashed) + old(decoder.Pending())
    {
      while decoder.Pending() != []
        invariant decoder.Valid()
        invariant remaining - |decoder.Pending()| == old(remaining) - |old(decoder.Pending())|
        invariant file + decoder.Pending() == old(file) + old(decoder.Pending())
        invariant hashed + decoder.Pending() == old(hashed) + old(decoder.Pending())
        decreases |decoder.Pending()|
      {
        var n := |decoder.Pending()|;
        if n > remaining {
          return false;
        }
        file := file + decoder.Pending();
        hashed := hashed + decoder.Pending();
        decoder.Consume(n);
        remaining := remaining - n;
      }
      return true;
    }

    /** `feed_zstd_put_chunk`. */
    method Feed(input: seq<Byte>) returns (refusal: Option<ErrorCode>)
      requires Valid()
      modifies Repr()
      ensures refusal.None? ==> Valid() && received == old(received) + input
      ensures old(decoder.frameComplete) ==> decoder.frameComplete
      ensures Promised(old(received) + input) ==>
                refusal == if |old(received) + input| <= |frame| + Room() then None else Some(UploadOverflow)
    {
      hide PushSpec, G.Lawful, Decodes, G.ZstdState, Compatible;
      if decoder.frameComplete {
        G.ZstdTail(IsLawful(), frame, plain, prefix, received, decoder.fed, decoder.decoded, file, Trailer(), input);
        TailLength(IsLawful(), frame, plain, prefix, received, decoder.fed, decoder.decoded, file, Trailer(), input);
        refusal := AppendTrailer(input);
        received := received + input;
        return;
      }
      G.ZstdNoTrailer(IsLawful(), frame, plain, prefix, received, decoder.fed, decoder.decoded, file, Trailer());
      G.ZstdStep(decoder.step, decoder.maxPlaintext, frame, plain, prefix, received, decoder.fed, decoder.decoded,
                 file, input);
      ghost var p := PushSpec(decoder.step, decoder.fed, decoder.decoded, decoder.maxPlaintext, input);
      ghost var s := received + input;
      var progress := decoder.Push(input);
      if progress.Rejected? {
        return Some(if progress.error == PlaintextLimit then UploadOverflow else DecodeError);
      }
      assert decoder.Pending() == [] + p.out == p.out;
      StateLength(IsLawful(), frame, plain, prefix, s, decoder.fed, decoder.decoded, p, file + p.out, input);
      var fits := DrainDecoded();
      if !fits {
        return Some(UploadOverflow);
      }
      received := s;
      if progress.frameComplete {
        if remaining > 0 {
          return Some(DecodeError);
        }
        assert [] + input[progress.consumed..] == input[progress.consumed..];
        refusal := AppendTrailer(input[progress.consumed..]);
        return;
      }
      if progress.consumed < |input| {
        return Some(DecodeError);
      }
      return None;
    }
  }

  /** Once the frame is complete, the trailer is what followed it. */
  lemma TailLength(lawful: bool, frame: seq<Byte>, plain: seq<Byte>, prefix: seq<Byte>, received: seq<Byte>,
                   fed: seq<Byte>, decoded: nat, file: seq<Byte>, trailer: seq<Byte>, input: seq<Byte>)
    requires G.ZstdState(lawful, frame, plain, prefix, received, fed, decoded, true, file, trailer)
    ensures lawful && Compatible(received + input, frame) ==>
              |frame| + |trailer| == |received| && |frame| + |trailer| + |input| == |received + input|
  {
    if Compatible(received + input, frame) {
      G.CompatiblePrefix(received, input, frame);
    }
  }

  /** What a push says of the lengths: the plaintext so far fits, and a complete frame is all of it. */
  lemma StateLength(lawful: bool, frame: seq<Byte>, plain: seq<Byte>, prefix: seq<Byte>, s: seq<Byte>,
                    fed: seq<Byte>, decoded: nat, p: Pushed, file: seq<Byte>, input: seq<Byte>)
    requires p.Progress? && p.consumed <= |input|
    requires p.complete || p.consumed == |input| ==>
               G.ZstdState(lawful, frame, plain, prefix, s, fed, decoded, p.complete, file,
                           if p.complete then input[p.consumed..] else [])
    ensures lawful && Compatible(s, frame) && (p.complete || p.consumed == |input|) ==>
              && decoded <= |plain|
              && (if p.complete then decoded == |plain| && |s| == |frame| + |input[p.consumed..]| else |s| <= |frame|)
  {
  }

  // ---- the receive loop -------------------------------------------------

  /** What one read of the stream gives. */
  datatype Arrival = Arrival(data: seq<Byte>, fin: bool)

  datatype PutEnd = Waiting | Denied(code: ErrorCode) | Committed(content: seq<Byte>)

  function Datas(arrivals: seq<Arrival>): (r: seq<seq<Byte>>)
    ensures |r| == |arrivals| && forall i :: 0 <= i < |r| ==> r[i] == arrivals[i].data
  {
    seq(|arrivals|, i requires 0 <= i < |arrivals| => arrivals[i].data)
  }

  /** Everything that follows the request. */
  function Stream(leftover: seq<Byte>, arrivals: seq<Arrival>): seq<Byte> {
    leftover + Flatten(Datas(arrivals))
  }

  /** Nothing is read after the end of the stream, which may come along with the request. */
  predicate EndsOnce(early: bool, arrivals: seq<Arrival>) {
    (early ==> arrivals == []) && forall i :: 0 <= i < |arrivals| - 1 ==> !arrivals[i].fin
  }

  function Ended(early: bool, arrivals: seq<Arrival>): bool {
    if arrivals == [] then early else arrivals[|arrivals| - 1].fin
  }

  /** The digest decides. */
  function Decide(hash: Hash, content: seq<Byte>, expected: Option<seq<Byte>>): PutEnd {
    if expected.Some? && hash(content) != expected.value then Denied(ChecksumMismatch) else Committed(content)
  }

  /**
   * How an upload of a lawful frame ends when no more than was announced
   * arrives. A stream that ended within the frame is cut off; if its end came
   * along with the request, the next read fails instead.
   */
  function EndOf(hash: Hash, checksumTrailer: bool, header: Option<seq<Byte>>, frame: seq<Byte>, content: seq<Byte>,
                 s: seq<Byte>, early: bool, ended: bool): PutEnd
  {
    if |s| < |frame| + (if checksumTrailer then TRAILER_LEN else 0) then
      if early && |s| < |frame| then Denied(Internal) else if ended then Denied(UploadTruncated) else Waiting
    else Decide(hash, content, if checksumTrailer then Some(s[|frame|..]) else header)
  }

  lemma StreamNext(leftover: seq<Byte>, arrivals: seq<Arrival>, i: nat)
    requires i < |arrivals|
    ensures Stream(leftover, arrivals[..i + 1]) == Stream(leftover, arrivals[..i]) + arrivals[i].data
    ensures Stream(leftover, arrivals[..i + 1]) <= Stream(leftover, arrivals)
  {
    hide Flatten;
    var ds := Datas(arrivals);
    assert Datas(arrivals[..i]) == ds[..i] && Datas(arrivals[..i + 1]) == ds[..i + 1];
    FlattenTake(ds, i);
    G.FlattenPrefix(ds, i + 1);
  }

  lemma StreamOfNone(leftover: seq<Byte>, arrivals: seq<Arrival>)
    ensures Stream(leftover, arrivals[..0]) == leftover && arrivals[..|arrivals|] == arrivals
  {
    assert Datas(arrivals[..0]) == [];
  }

  /** What a lawful stream has come to. */
  lemma StateSays(frame: seq<Byte>, plain: seq<Byte>, prefix: seq<Byte>, received: seq<Byte>,
                  fed: seq<Byte>, decoded: nat, complete: bool, file: seq<Byte>, trailer: seq<Byte>)
    requires G.ZstdState(true, frame, plain, prefix, received, fed, decoded, complete, file, trailer)
    requires Compatible(received, frame)
    ensures if complete then
              file == prefix + plain && |received| == |frame| + |trailer| && trailer == received[|frame|..]
            else |received| < |frame|
  {
    assert plain[..|plain|] == plain;
  }

  lemma StateHasTail(lawful: bool, frame: seq<Byte>, plain: seq<Byte>, prefix: seq<Byte>, received: seq<Byte>,
                     fed: seq<Byte>, decoded: nat, complete: bool, file: seq<Byte>, trailer: seq<Byte>)
    requires G.ZstdState(lawful, frame, plain, prefix, received, fed, decoded, complete, file, trailer)
    ensures G.IsTail(trailer, received)
  {
  }

  /** After `taken` reads of a stream that brings no more than was announced, the reads so far are acceptable. */
  ghost predicate Reading(put: CompressedPut, s: seq<Byte>, leftover: seq<Byte>, early: bool,
                          arrivals: seq<Arrival>, taken: nat, finSeen: bool)
    reads put, put.Repr()
  {
    && put.Valid() && taken <= |arrivals| && put.received == Stream(leftover, arrivals[..taken])
    && s == Stream(leftover, arrivals) && put.received <= s
    && finSeen == Ended(early, arrivals[..taken])
  }

  /** The whole stream is a lawful frame of the declared size, and what was announced to follow it. */
  ghost predicate Announced(put: CompressedPut, s: seq<Byte>, early: bool, arrivals: seq<Arrival>) {
    put.Promised(s) && |s| <= |put.frame| + put.Room() && EndsOnce(early, arrivals)
  }

  /** What came along with the request. */
  method FirstRead(put: CompressedPut, ghost s: seq<Byte>, leftover: seq<Byte>, ghost early: bool,
                   ghost arrivals: seq<Arrival>)
      returns (refusal: Option<ErrorCode>)
    requires put.Valid() && put.received == [] && s == Stream(leftover, arrivals)
    modifies put.Repr()
    ensures refusal.None? ==> Reading(put, s, leftover, early, arrivals, 0, early)
    ensures Announced(put, s, early, arrivals) ==> refusal.None?
  {
    hide G.Lawful, Compatible, CompressedPut.Valid, Flatten;
    StreamOfNone(leftover, arrivals);
    if put.Promised(s) {
      G.WholeFrame(leftover, s, put.frame);
    }
    assert [] + leftover == leftover;
    refusal := None;
    if leftover != [] {
      refusal := put.Feed(leftover);
    }
  }

  /** One more read. */
  method ReadMore(put: CompressedPut, ghost s: seq<Byte>, ghost leftover: seq<Byte>, ghost early: bool,
                  arrivals: seq<Arrival>, taken: nat, ghost finSeen: bool)
      returns (refusal: Option<ErrorCode>)
    requires Reading(put, s, leftover, early, arrivals, taken, finSeen) && taken < |arrivals|
    modifies put.Repr()
    ensures refusal.None? ==> Reading(put, s, leftover, early, arrivals, taken + 1, arrivals[taken].fin)
    ensures Announced(put, s, early, arrivals) ==> refusal.None?
    ensures old(put.decoder.frameComplete) ==> put.decoder.frameComplete
  {
    hide G.Lawful, Stream, Compatible, CompressedPut.Valid;
    StreamNext(leftover, arrivals, taken);
    ghost var r := Stream(leftover, arrivals[..taken + 1]);
    if put.Promised(s) {
      G.WholeFrame(r, s, put.frame);
    }
    refusal := put.Feed(arrivals[taken].data);
  }

  /** Where an announced stream stands between two reads. */
  lemma Standing(put: CompressedPut, s: seq<Byte>, leftover: seq<Byte>, early: bool, arrivals: seq<Arrival>,
                 taken: nat, finSeen: bool)
    requires Reading(put, s, leftover, early, arrivals, taken, finSeen) && Announced(put, s, early, arrivals)
    ensures (finSeen ==> taken == |arrivals|) && (early ==> arrivals == [])
    ensures taken == |arrivals| ==> put.received == s && finSeen == Ended(early, arrivals)
    ensures if put.decoder.frameComplete then
              && put.file == put.prefix + put.plain && |put.received| == |put.frame| + |put.Trailer()|
              && put.Trailer() == put.received[|put.frame|..]
            else |put.received| < |put.frame|
    ensures put.trailer != null && !put.trailer.IsFull() ==> |put.Trailer()| < TRAILER_LEN
  {
    hide G.Lawful, Stream, Compatible, G.ZstdState, EndsOnce;
    StreamOfNone(leftover, arrivals);
    G.WholeFrame(put.received, s, put.frame);
    StateSays(put.frame, put.plain, put.prefix, put.received, put.decoder.fed, put.decoder.decoded,
              put.decoder.frameComplete, put.file, put.Trailer());
    EarlyIsAll(early, arrivals);
    if finSeen && taken < |arrivals| {
      EndedEarly(early, arrivals, taken);
    }
  }

  /** Frame and trailer are complete. */
  lemma Settled(put: CompressedPut, hash: Hash, s: seq<Byte>, leftover: seq<Byte>, early: bool,
                arrivals: seq<Arrival>, taken: nat, finSeen: bool)
    requires Reading(put, s, leftover, early, arrivals, taken, finSeen) && put.decoder.frameComplete
    requires put.trailer != null ==> put.trailer.IsFull()
    ensures put.trailer != null ==> put.Trailer() == put.trailer.bytes[..] && |put.trailer.bytes[..]| == TRAILER_LEN
    ensures Announced(put, s, early, arrivals) ==>
              && put.file == put.prefix + put.plain && |s| == |put.frame| + put.Room()
              && put.Trailer() == s[|put.frame|..]
    ensures put.trailer != null && hash(put.file) == put.Trailer() ==> G.Verified(hash, put.file, s)
  {
    hide G.Lawful, Stream, Compatible, G.ZstdState, EndsOnce, G.Verified;
    if put.trailer != null {
      assert put.Trailer() == put.trailer.bytes[..];
      StateHasTail(put.IsLawful(), put.frame, put.plain, put.prefix, put.received, put.decoder.fed,
                   put.decoder.decoded, true, put.file, put.Trailer());
      if hash(put.file) == put.Trailer() {
        assert put.Trailer()[..32] == put.Trailer();
        G.TailVerifies(hash, put.file, put.Trailer(), put.received, s);
      }
    }
    if Announced(put, s, early, arrivals) {
      Standing(put, s, leftover, early, arrivals, taken, finSeen);
      assert put.received == s;
    }
  }

  lemma EarlyIsAll(early: bool, arrivals: seq<Arrival>)
    requires EndsOnce(early, arrivals)
    ensures early ==> arrivals == []
  {
  }

  lemma EndedEarly(early: bool, arrivals: seq<Arrival>, taken: nat)
    requires EndsOnce(early, arrivals) && taken < |arrivals|
    ensures !Ended(early, arrivals[..taken])
  {
  }

  /**
   * Phase A of `drive_put`: reads until the frame is complete. Phase B: reads
   * until the trailer is. A stream that ends before is an error; one that only
   * pauses is waited for. `early` says that the end of the stream came along
   * with the request, so that the first read finds no stream any more.
   */
  method ReceiveCompressed(hash: Hash, step: DecoderStep, prefix: seq<Byte>, size: nat, checksumTrailer: bool,
                           header: Option<seq<Byte>>, leftover: seq<Byte>, early: bool, arrivals: seq<Arrival>,
                           ghost frame: seq<Byte>, ghost plain: seq<Byte>)
      returns (end: PutEnd)
    ensures end.Committed? && checksumTrailer ==> G.Verified(hash, end.content, Stream(leftover, arrivals))
    ensures end.Committed? && !checksumTrailer && header.Some? ==> hash(end.content) == header.value
    ensures var s := Stream(leftover, arrivals);
            G.Lawful(step, Min(size, MAX_FILE_SIZE), frame, plain) && |plain| == size && EndsOnce(early, arrivals)
            && Compatible(s, frame) && |s| <= |frame| + (if checksumTrailer then TRAILER_LEN else 0) ==>
              end == EndOf(hash, checksumTrailer, header, frame, prefix + plain, s, early, Ended(early, arrivals))
  {
    hide G.Lawful, Stream, Compatible, Reading, EndsOnce, G.Verified, G.ZstdState;
    var put := new CompressedPut(step, prefix, size, checksumTrailer, frame, plain);
    ghost var s := Stream(leftover, arrivals);
    var refusal := FirstRead(put, s, leftover, early, arrivals);
    if refusal.Some? {
      return Denied(refusal.value);
    }
    var taken, finSeen := 0, early;
    while !put.decoder.frameComplete
      invariant Reading(put, s, leftover, early, arrivals, taken, finSeen) && taken <= |arrivals| && fresh(put.Repr())
      invariant !put.decoder.frameComplete && finSeen ==> early && taken == 0
      decreases |arrivals| - taken
    {
      if Announced(put, s, early, arrivals) {
        Standing(put, s, leftover, early, arrivals, taken, finSeen);
      }
      if finSeen {
        return Denied(Internal);
      }
      if taken == |arrivals| {
        return Waiting;
      }
      refusal := ReadMore(put, s, leftover, early, arrivals, taken, finSeen);
      if refusal.Some? {
        return Denied(refusal.value);
      }
      finSeen := arrivals[taken].fin;
      taken := taken + 1;
      if finSeen && !put.decoder.frameComplete {
        if Announced(put, s, early, arrivals) {
          Standing(put, s, leftover, early, arrivals, taken, finSeen);
        }
        return Denied(UploadTruncated);
      }
    }
    if put.trailer != null {
      while !put.trailer.IsFull()
        invariant Reading(put, s, leftover, early, arrivals, taken, finSeen) && taken <= |arrivals| && fresh(put.Repr())
        invariant put.decoder.frameComplete
        decreases |arrivals| - taken
      {
        if Announced(put, s, early, arrivals) {
          Standing(put, s, leftover, early, arrivals, taken, finSeen);
        }
        if finSeen {
          return Denied(UploadTruncated);
        }
        if taken == |arrivals| {
          return Waiting;
        }
        refusal := ReadMore(put, s, leftover, early, arrivals, taken, finSeen);
        if refusal.Some? {
          return Denied(refusal.value);
        }
        finSeen := arrivals[taken].fin;
        taken := taken + 1;
      }
    }
    Settled(put, hash, s, leftover, early, arrivals, taken, finSeen);
    var expected := header;
    if put.trailer != null {
      expected := ResolvePutChecksum(true, put.trailer.bytes[..], header);
    }
    end := Decide(hash, put.file, expected);
  }

  // ---- end to end -------------------------------------------------------

  /** What the client sends after the request: the frame of the bytes to upload, and the digest of the whole file. */
  function Upload(hash: Hash, codec: Codec, content: seq<Byte>, chunks: seq<seq<Byte>>): seq<Byte>
    requires Compress.Frame(codec, chunks).Some?
  {
    Compress.Frame(codec, chunks).value + hash(content)
  }

  lemma PartIsAcceptable(s: seq<Byte>, frame: seq<Byte>, digest: seq<Byte>)
    requires s <= frame + digest
    ensures Compatible(s, frame) && (|s| == |frame| + |digest| ==> s == frame + digest && s[|frame|..] == digest)
  {
    assert (frame + digest)[..|frame|] == frame && (frame + digest)[|frame|..] == digest;
    if |s| <= |frame| {
      assert s == (frame + digest)[..|s|] == frame[..|s|];
    } else {
      assert s[..|frame|] == (frame + digest)[..|frame|];
    }
  }

  /**
   * A compressed upload, however it was pushed into the encoder and wherever
   * the stream is cut: while it is incomplete nothing is committed, and once
   * it is whole the file is committed exactly if, behind the prefix the server
   * has, it has the client's digest.
   */
  method ReceiveUpload(hash: Hash, codec: Codec, ghost content: seq<Byte>, prefix: seq<Byte>, size: nat,
                       ghost chunks: seq<seq<Byte>>, leftover: seq<Byte>, early: bool, arrivals: seq<Arrival>)
      returns (end: PutEnd)
    requires Lossless(codec) && |prefix| + size == |content| <= MAX_FILE_SIZE
    requires Flatten(chunks) == content[|prefix|..] && EndsOnce(early, arrivals)
    requires Stream(leftover, arrivals) <= Upload(hash, codec, content, chunks)
    ensures var whole := prefix + content[|prefix|..];
            end == if Stream(leftover, arrivals) != Upload(hash, codec, content, chunks) then
                     if early && |Stream(leftover, arrivals)| < |Compress.Frame(codec, chunks).value|
                     then Denied(Internal)
                     else if Ended(early, arrivals) then Denied(UploadTruncated)
                     else Waiting
                   else if hash(whole) == hash(content) then Committed(whole)
                   else Denied(ChecksumMismatch)
    ensures prefix <= content && Stream(leftover, arrivals) == Upload(hash, codec, content, chunks) ==>
              end == Committed(content)
  {
    hide Flatten, Compress.Frame, Decodes, Stream;
    ghost var frame, plain := Compress.Frame(codec, chunks).value, Flatten(chunks);
    PartIsAcceptable(Stream(leftover, arrivals), frame, hash(content));
    end := ReceiveCompressed(hash, codec.decoder, prefix, size, true, None, leftover, early, arrivals, frame, plain);
    assert prefix <= content ==> prefix + content[|prefix|..] == content;
  }
}
