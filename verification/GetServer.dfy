/**
 * The server's half of a download: the range arithmetic of a Get, and the
 * three-phase sender (prefix re-hash, body, trailer and FIN) driven against
 * a transport that may take any number of bytes at any call.
 */
module GetServer {
  import opened Bytes
  import opened Codes
  import opened Compress

  const SEND_CHUNK_SIZE: nat := 256 * 1024

  type Digest = s: seq<Byte> | |s| == 32 witness seq(32, i => 0)
  type Hash = seq<Byte> -> Digest

  /** A reply to Get; `Unexpected` is any other kind of response. */
  datatype GetReply =
    | Refused(error: ErrorCode)
    | Unexpected
    | FileReady(size: nat, totalSize: nat, checksumFollows: bool, encoding: Encoding, plaintextSize: nat)

  /** `start_get` on a regular file: what is announced, and so what will be streamed. */
  function StartGet(fileLen: nat, offset: nat, length: Option<nat>, acceptZstd: bool,
                    incompressible: bool): (r: GetReply)
    ensures r.FileReady? ==> offset + r.size <= fileLen == r.totalSize <= MAX_FILE_SIZE && r.checksumFollows
    ensures r.FileReady? <==> fileLen <= MAX_FILE_SIZE && offset <= fileLen
    ensures r.FileReady? && length.None? ==> offset + r.size == fileLen
    ensures r.FileReady? && length.Some? ==> r.size == Min(length.value, fileLen - offset)
    ensures r.FileReady? ==> (r.encoding == Zstd <==> acceptZstd && !incompressible && r.size >= 1024)
    ensures r.FileReady? ==> r.plaintextSize == (if r.encoding == Zstd then r.size else 0)
    ensures r.FileReady? && r.encoding != Zstd ==> r.encoding == Identity
    ensures r == Refused(InvalidRange) <==> fileLen <= MAX_FILE_SIZE && offset > fileLen
  {
    if fileLen > MAX_FILE_SIZE then Refused(FileTooLarge)
    else if offset > fileLen then Refused(InvalidRange)
    else
      var remaining := fileLen - offset;
      var bytesToSend := match length { case Some(n) => Min(n, remaining) case None => remaining };
      var encoding := if bytesToSend >= 1024 && acceptZstd && !incompressible then Zstd else Identity;
      FileReady(bytesToSend, fileLen, true, encoding, if encoding == Zstd then bytesToSend else 0)
  }

  // ---- the transport ----------------------------------------------------

  /** What the connection will answer to one coming `stream_send`. */
  datatype Answer = Take(limit: nat) | Blocked | Closed

  datatype Accepted = Wrote(n: nat) | WouldBlock | Error

  /** Any answers at all; once they run out every call would block. */
  function Next(answers: seq<Answer>): Answer {
    if answers == [] then Blocked else answers[0]
  }

  function Later(answers: seq<Answer>): seq<Answer> {
    if answers == [] then [] else answers[1..]
  }

  /** The connection stays open; it may block as often as it likes. */
  predicate Willing(answers: seq<Answer>) {
    forall i :: 0 <= i < |answers| ==> !answers[i].Closed?
  }

  /** How many of the answers take at least a byte. */
  function Takes(answers: seq<Answer>): (n: nat)
    ensures n <= |answers|
  {
    if answers == [] then 0 else (if answers[0].Take? && answers[0].limit > 0 then 1 else 0) + Takes(answers[1..])
  }

  /** What the answer takes of so many bytes. */
  function Takable(answer: Answer, offered: nat): nat {
    match answer
    case Take(limit) => Min(limit, offered)
    case _ => 0
  }

  lemma WillingNext(answers: seq<Answer>)
    requires Willing(answers)
    ensures !Next(answers).Closed? && Willing(Later(answers))
    ensures Takes(answers) == Takes(Later(answers)) + if Next(answers).Take? && Next(answers).limit > 0 then 1 else 0
  {
  }

  class QuicStream {
    var wire: seq<Byte>
    var fin: bool
    var answers: seq<Answer>
    /** What the connection answered to the latest call that asked for a FIN. */
    var finAnswer: Option<Answer>

    constructor (answers: seq<Answer>)
      ensures wire == [] && !fin && this.answers == answers && finAnswer == None
    {
      wire, fin, this.answers, finAnswer := [], false, answers, None;
    }

    method Send(data: seq<Byte>, last: bool) returns (r: Accepted)
      modifies this
      ensures r == match Next(old(answers))
                   case Take(limit) => Wrote(Min(limit, |data|))
                   case Blocked => WouldBlock
                   case Closed => Error
      ensures wire == old(wire) + (if r.Wrote? then data[..r.n] else [])
      ensures fin == (old(fin) || (last && r == Wrote(|data|)))
      ensures answers == Later(old(answers))
      ensures finAnswer == if last then Some(Next(old(answers))) else old(finAnswer)
    {
      var answer := Next(answers);
      answers := Later(answers);
      if last {
        finAnswer := Some(answer);
      }
      match answer {
        case Take(limit) =>
          var n := Min(limit, |data|);
          wire := wire + data[..n];
          fin := fin || (last && n == |data|);
          r := Wrote(n);
        case Blocked =>
          r := WouldBlock;
        case Closed =>
          r := Error;
      }
    }
  }

  /** The answer takes all of the trailer from `done` on. */
  predicate TakesTrailer(answer: Answer, done: nat) {
    answer.Take? && done + answer.limit >= 32
  }

  /** How the transfer ends by the answer to its FIN: only a closed connection fails it. */
  function FinOutcome(answers: seq<Answer>): SendOutcome {
    if Next(answers).Closed? then Aborted else Finished
  }

  // ---- the sender -------------------------------------------------------

  /** The body pieces the compressed sender reads: whole send chunks, the last one shorter. */
  function Pieces(body: seq<Byte>): seq<seq<Byte>> {
    if |body| <= SEND_CHUNK_SIZE then (if body == [] then [] else [body])
    else [body[..SEND_CHUNK_SIZE]] + Pieces(body[SEND_CHUNK_SIZE..])
  }

  lemma {:induction false} PiecesFlatten(body: seq<Byte>)
    ensures Flatten(Pieces(body)) == body
  {
    if |body| <= SEND_CHUNK_SIZE {
      if body != [] {
        FlattenOne(body);
      }
    } else {
      PiecesFlatten(body[SEND_CHUNK_SIZE..]);
      assert Pieces(body)[1..] == Pieces(body[SEND_CHUNK_SIZE..]);
    }
  }

  /** Reading one more piece of a body that is whole pieces so far. */
  lemma {:induction false} PiecesStep(body: seq<Byte>, sent: nat, want: nat)
    requires sent < |body| && sent % SEND_CHUNK_SIZE == 0 && want == Min(|body| - sent, SEND_CHUNK_SIZE)
    ensures Pieces(body[..sent + want]) == Pieces(body[..sent]) + [body[sent..sent + want]]
    decreases sent
  {
    if sent == 0 {
      assert body[..0] == [] && body[..want] == body[0..want];
    } else {
      var rest := body[SEND_CHUNK_SIZE..];
      PiecesStep(rest, sent - SEND_CHUNK_SIZE, want);
      assert rest[..sent - SEND_CHUNK_SIZE + want] == body[..sent + want][SEND_CHUNK_SIZE..];
      assert rest[sent - SEND_CHUNK_SIZE..sent - SEND_CHUNK_SIZE + want] == body[sent..sent + want];
      assert body[..sent + want][..SEND_CHUNK_SIZE] == body[..SEND_CHUNK_SIZE] == body[..sent][..SEND_CHUNK_SIZE];
      if sent == SEND_CHUNK_SIZE {
        assert body[..sent][SEND_CHUNK_SIZE..] == [] == rest[..0];
        assert Pieces(body[..sent]) == [body[..sent]];
      } else {
        assert rest[..sent - SEND_CHUNK_SIZE] == body[..sent][SEND_CHUNK_SIZE..];
      }
    }
  }

  datatype SendEncoding = Plain | Compressed(encoder: ZstdEncoder)

  datatype SendOutcome = Stalled | Finished | Aborted

  class Sender {
    const hash: Hash
    const codec: Codec
    const encoding: SendEncoding
    const stream: QuicStream
    /** The open file; positions in `unreadable` make a read fail. */
    const file: seq<Byte>
    const unreadable: set<nat>
    const seekFails: bool
    const offset: nat
    const totalSize: nat
    var pos: nat
    var sent: nat
    /** What the incremental hasher has absorbed. */
    var hashed: seq<Byte>
    var trailer: Option<Digest>
    var trailerOffset: nat
    var finished: bool
    var prefixRemaining: nat
    var frameFinished: bool

    ghost function Footprint(): set<object> {
      {this, stream} + (match encoding case Plain => {} case Compressed(e) => {e})
    }

    ghost predicate Shaped() {
      && offset + totalSize <= |file|
      && (encoding.Compressed? ==> encoding.encoder.codec == codec)
    }

    /** The plaintext this transfer delivers. */
    function Body(): seq<Byte>
      requires Shaped()
    {
      file[offset..offset + totalSize]
    }

    ghost predicate Ranged()
      reads this
    {
      Shaped() && prefixRemaining <= offset && sent <= totalSize && (prefixRemaining > 0 ==> sent == 0)
    }

    /** The reader stands behind what was handled, and the hasher has seen exactly the file up to there. */
    ghost predicate Positioned()
      reads this
    {
      Ranged() && pos == offset - prefixRemaining + sent && hashed == file[..pos]
    }

    /** The body bytes already on the wire. */
    ghost function BodyOnWire(): seq<Byte>
      requires Ranged()
      reads this, Footprint()
    {
      match encoding
      case Plain => file[offset..offset + sent]
      case Compressed(e) => e.drained
    }

    ghost predicate BodyDone()
      reads this, Footprint()
    {
      && prefixRemaining == 0 && sent == totalSize
      && (encoding.Compressed? ==>
            frameFinished && encoding.encoder.Valid() && encoding.encoder.Pending() == [])
    }

    ghost predicate EncoderInStep()
      reads this, Footprint()
      requires Ranged()
    {
      encoding.Compressed? ==>
        var e := encoding.encoder;
        && e.Sound() && e.finished == frameFinished
        && e.chunks == Pieces(Body()[..sent])
        && (sent == totalSize || sent % SEND_CHUNK_SIZE == 0)
        && (frameFinished ==> sent == totalSize)
        && (prefixRemaining > 0 ==> e.drained == [])
    }

    /** What has been accepted is right; this survives even a failure. */
    ghost predicate WireRight()
      reads this, Footprint()
    {
      && Ranged() && EncoderInStep()
      && (match trailer
          case None => trailerOffset == 0 && stream.wire == BodyOnWire()
          case Some(t) =>
            && BodyDone() && t == hash(file[..offset + totalSize])
            && trailerOffset <= 32 && stream.wire == BodyOnWire() + t[..trailerOffset])
    }

    /** Holds whenever a call returns with anything but `Aborted`. */
    ghost predicate Valid()
      reads this, Footprint()
    {
      && Positioned() && WireRight() && (encoding.Compressed? ==> encoding.encoder.Valid())
      && (finished <==> stream.finAnswer.Some?)
      && (finished ==> trailer.Some? && trailerOffset == 32 && !stream.finAnswer.value.Closed?)
      && (stream.fin <==> finished && stream.finAnswer.value.Take?)
    }

    constructor (hash: Hash, codec: Codec, encoding: SendEncoding, stream: QuicStream, file: seq<Byte>,
                 unreadable: set<nat>, seekFails: bool, offset: nat, totalSize: nat)
      requires offset + totalSize <= |file|
      requires stream.wire == [] && !stream.fin && stream.finAnswer == None
      requires encoding.Compressed? ==>
                 var e := encoding.encoder;
                 e.Valid() && e.codec == codec && e.chunks == [] && !e.finished && e.drained == []
      ensures Valid() && Footprint() == {this, stream} + (if encoding.Compressed? then {encoding.encoder} else {})
      ensures this.hash == hash && this.codec == codec && this.encoding == encoding && this.stream == stream
      ensures this.file == file && this.offset == offset && this.totalSize == totalSize
      ensures this.unreadable == unreadable && this.seekFails == seekFails
      ensures !finished && prefixRemaining == offset && sent == 0 && trailer == None
    {
      this.hash, this.codec, this.encoding, this.stream := hash, codec, encoding, stream;
      this.file, this.unreadable, this.seekFails := file, unreadable, seekFails;
      this.offset, this.totalSize := offset, totalSize;
      pos, sent, hashed := 0, 0, [];
      trailer, trailerOffset, finished := None, 0, false;
      prefixRemaining, frameFinished := offset, false;
    }

    function Coding(): Encoding {
      if encoding.Plain? then Identity else Zstd
    }

    /** Nothing fails but perhaps the connection: the file can be read, and the codec works. */
    ghost predicate Unhindered() {
      && offset + totalSize <= |file| && !seekFails && (forall i :: i in unreadable ==> offset + totalSize <= i)
      && Advances(codec) && FullStream(hash, codec, Coding(), file, offset, totalSize).Some?
    }

    /** The bytes of the stream that are not on the wire yet. */
    ghost function Due(): int
      requires Unhindered()
      reads stream`wire
    {
      |FullStream(hash, codec, Coding(), file, offset, totalSize).value| - |stream.wire|
    }

    /** And the connection will take bytes often enough for all that is left. */
    ghost predicate Served()
      reads stream
    {
      Unhindered() && Willing(stream.answers) && 0 <= Due() <= Takes(stream.answers)
    }

    /** The transport has not been called, and the transfer is where it was. */
    twostate predicate Untouched()
      reads this, stream
    {
      && stream.answers == old(stream.answers) && stream.finAnswer == old(stream.finAnswer)
      && stream.wire == old(stream.wire)
      && trailer == old(trailer) && prefixRemaining == old(prefixRemaining) && sent == old(sent)
    }

    /** `read_exact`: all of `want` bytes, or an error. */
    method ReadExact(want: nat) returns (ok: bool, data: seq<Byte>)
      modifies this`pos
      ensures ok <==> old(pos) + want <= |file| && forall i | old(pos) <= i < old(pos) + want :: i !in unreadable
      ensures ok ==> data == file[old(pos)..old(pos) + want] && pos == old(pos) + want
    {
      ok := pos + want <= |file| && forall i | pos <= i < pos + want :: i !in unreadable;
      data := [];
      if ok {
        data := file[pos..pos + want];
        pos := pos + want;
      }
    }

    /** `seek_relative` by `-back`. */
    method SeekBack(back: nat) returns (ok: bool)
      requires back <= pos
      modifies this`pos
      ensures ok == !seekFails && (ok ==> pos == old(pos) - back)
    {
      ok := !seekFails;
      if ok {
        pos := pos - back;
      }
    }

    /** Phase 0: hash one chunk of the resumed prefix. */
    method PrefixRehash() returns (o: Option<SendOutcome>)
      requires Valid()
      modifies this`pos, this`hashed, this`prefixRemaining, stream
      ensures WireRight() && (o != Some(Aborted) ==> Valid() && o != Some(Finished))
      ensures o.None? ==> prefixRemaining == 0
      ensures old(prefixRemaining) == 0 ==> o.None? && Untouched()
      ensures old(Served()) ==>
                && o != Some(Aborted) && Served() && stream.answers == old(stream.answers)
                && (o == Some(Stalled) ==> prefixRemaining < old(prefixRemaining))
    {
      hide Pieces, ZstdEncoder.Valid, FullStream, Willing, Takes;
      if prefixRemaining > 0 {
        var want := Min(prefixRemaining, SEND_CHUNK_SIZE);
        var ok, data := ReadExact(want);
        if !ok {
          var _ := stream.Send([], true);
          return Some(Aborted);
        }
        hashed := hashed + data;
        prefixRemaining := prefixRemaining - want;
        assert hashed == file[..pos];
        if prefixRemaining > 0 {
          return Some(Stalled);
        }
      }
      return None;
    }

    /** Offer `data`, the next plaintext bytes; hash and count what the transport takes of it. */
    method Offer(data: seq<Byte>) returns (ok: bool, n: nat)
      requires WireRight() && encoding.Plain? && prefixRemaining == 0 && trailer.None?
      requires sent + |data| <= totalSize && data == file[offset + sent..offset + sent + |data|]
      requires hashed == file[..offset + sent]
      modifies this`hashed, this`sent, stream
      ensures WireRight() && hashed == file[..offset + sent] && stream.fin == old(stream.fin)
      ensures stream.finAnswer == old(stream.finAnswer) && sent == old(sent) + n && n <= |data|
      ensures ok == !Next(old(stream.answers)).Closed? && stream.answers == Later(old(stream.answers))
      ensures |stream.wire| == old(|stream.wire|) + Takable(Next(old(stream.answers)), |data|)
      ensures n == Takable(Next(old(stream.answers)), |data|)
    {
      hide Pieces, ZstdEncoder.Valid;
      var start := offset + sent;
      var answer := stream.Send(data, false);
      ok := !answer.Error?;
      n := if answer.Wrote? then answer.n else 0;
      SliceTake(file, start, start + |data|, n);
      SliceJoin(file, 0, start, start + n);
      SliceJoin(file, offset, start, start + n);
      assert n == 0 ==> file[offset..start + n] == file[offset..start];
      hashed := hashed + data[..n];
      sent := sent + n;
      assert stream.wire == file[offset..offset + sent];
    }

    /** One turn of phase A without a codec: a short write rewinds the reader to the first unsent byte. */
    method SendPiece() returns (o: Option<SendOutcome>)
      requires Valid() && prefixRemaining == 0 && encoding.Plain? && sent < totalSize && trailer.None?
      modifies this`pos, this`hashed, this`sent, stream
      ensures WireRight() && (o != Some(Aborted) ==> Valid() && o != Some(Finished))
      ensures o.None? ==> sent > old(sent)
      ensures old(Served()) ==> o != Some(Aborted) && Served() && |stream.answers| < old(|stream.answers|)
    {
      hide Pieces, ZstdEncoder.Valid, FullStream, Willing, Takes;
      MoreIsDue(this);
      ServedReads(this);
      var want := Min(totalSize - sent, SEND_CHUNK_SIZE);
      var ok, data := ReadExact(want);
      if !ok {
        var _ := stream.Send([], true);
        return Some(Aborted);
      }
      var sendOk, n := Offer(data);
      if old(Served()) {
        StillServed(this, old(stream.answers), old(Due()), want);
      }
      if !sendOk {
        return Some(Aborted);
      }
      if n < want {
        var back := SeekBack(want - n);
        return Some(if back then Stalled else Aborted);
      }
      return None;
    }

    /** Phase A without a codec. */
    method BodyIdentity() returns (o: Option<SendOutcome>)
      requires Valid() && prefixRemaining == 0 && encoding.Plain?
      modifies this`pos, this`hashed, this`sent, stream
      ensures WireRight() && (o != Some(Aborted) ==> Valid() && o != Some(Finished))
      ensures o.None? ==> BodyDone()
      ensures old(sent) == totalSize ==> o.None? && Untouched()
      ensures old(Served()) ==>
                && o != Some(Aborted) && Served() && |stream.answers| <= old(|stream.answers|)
                && (o == Some(Stalled) ==> |stream.answers| < old(|stream.answers|))
    {
      hide FullStream, Willing, Takes;
      while sent < totalSize && trailer.None?
        invariant Valid() && (old(sent) == totalSize ==> Untouched())
        invariant old(Served()) ==> Served() && |stream.answers| <= old(|stream.answers|)
        decreases totalSize - sent
      {
        o := SendPiece();
        if o.Some? {
          return;
        }
      }
      return None;
    }

    /** One turn of the compressed body: hand pending output to the transport. */
    method SendPending() returns (o: Option<SendOutcome>)
      requires Valid() && prefixRemaining == 0 && encoding.Compressed? && trailer.None?
      requires encoding.encoder.Pending() != []
      modifies encoding.encoder`pending, encoding.encoder`pendingPos, encoding.encoder`drained, stream
      ensures WireRight() && (o != Some(Aborted) ==> Valid() && o != Some(Finished))
      ensures o.None? ==> encoding.encoder.Pending() == []
      ensures old(Served()) ==> o != Some(Aborted) && Served() && |stream.answers| < old(|stream.answers|)
    {
      hide Pieces, Produced, Frame, FullStream, Willing, Takes;
      var encoder := encoding.encoder;
      if Served() {
        WillingNext(stream.answers);
        MoreIsDue(this);
      }
      var answer := stream.Send(encoder.Pending(), false);
      if answer.Error? {
        return Some(Aborted);
      }
      if answer.WouldBlock? || answer.n == 0 {
        if answer.Wrote? {
          assert stream.wire == old(stream.wire);
        }
        return Some(Stalled);
      }
      encoder.Consume(answer.n);
      StillDue(this);
      return if encoder.Pending() != [] then Some(Stalled) else None;
    }

    /** One turn of the compressed body: read, hash and compress the next piece. */
    method CompressPiece() returns (o: Option<SendOutcome>)
      requires Valid() && prefixRemaining == 0 && encoding.Compressed? && trailer.None?
      requires encoding.encoder.Pending() == [] && sent < totalSize
      modifies this`pos, this`hashed, this`sent, stream, encoding.encoder`chunks, encoding.encoder`pending
      ensures WireRight() && (o.Some? ==> o == Some(Aborted))
      ensures o.None? ==> Valid() && sent > old(sent)
      ensures old(Served()) ==> o.None? && Served() && stream.answers == old(stream.answers)
    {
      hide Pieces, Produced, Frame, FullStream, Willing, Takes, Advances;
      if Served() {
        PieceCompresses(hash, codec, file, offset, totalSize, sent);
      }
      var encoder := encoding.encoder;
      var want := Min(totalSize - sent, SEND_CHUNK_SIZE);
      var ok, data := ReadExact(want);
      if !ok {
        var _ := stream.Send([], true);
        return Some(Aborted);
      }
      hashed := hashed + data;
      var pushed := encoder.Push(data);
      if !pushed {
        var _ := stream.Send([], true);
        return Some(Aborted);
      }
      NextPiece(file, offset, totalSize, sent, want);
      sent := sent + want;
      return None;
    }

    /** One turn of the compressed body: close the frame. */
    method FinishFrame() returns (o: Option<SendOutcome>)
      requires Valid() && prefixRemaining == 0 && encoding.Compressed? && trailer.None?
      requires sent == totalSize && !frameFinished
      modifies this`frameFinished, stream, encoding.encoder`pending, encoding.encoder`finished
      ensures WireRight() && (o.Some? ==> o == Some(Aborted))
      ensures o.None? ==> Valid() && frameFinished
      ensures old(Served()) ==> o.None? && Served() && stream.answers == old(stream.answers)
    {
      hide Pieces, Produced, Frame, FullStream, Willing, Takes, Advances;
      if Served() {
        FrameCloses(hash, codec, file, offset, totalSize);
        assert Body()[..sent] == Body();
      }
      var ok := encoding.encoder.Finish();
      if !ok {
        var _ := stream.Send([], true);
        return Some(Aborted);
      }
      frameFinished := true;
      return None;
    }

    /** Phase A with the codec. */
    method BodyCompressed() returns (o: Option<SendOutcome>)
      requires Valid() && prefixRemaining == 0 && encoding.Compressed?
      modifies this`pos, this`hashed, this`sent, this`frameFinished, stream, encoding.encoder
      ensures WireRight() && (o != Some(Aborted) ==> Valid() && o != Some(Finished))
      ensures o.None? ==> BodyDone()
      ensures old(Served()) ==>
                && o != Some(Aborted) && Served() && |stream.answers| <= old(|stream.answers|)
                && (o == Some(Stalled) ==> |stream.answers| < old(|stream.answers|))
    {
      hide FullStream, Willing, Takes;
      var encoder := encoding.encoder;
      while (sent < totalSize || !frameFinished || encoder.Pending() != []) && trailer.None?
        invariant Valid() && (old(Served()) ==> Served() && |stream.answers| <= old(|stream.answers|))
        decreases totalSize - sent, !frameFinished, |encoder.Pending()|
      {
        if encoder.Pending() != [] {
          o := SendPending();
        } else if sent < totalSize {
          o := CompressPiece();
        } else {
          o := FinishFrame();
        }
        if o.Some? {
          return;
        }
      }
      return None;
    }

    /** The body is out: finalize the hash once. */
    method Seal()
      requires Valid() && BodyDone() && trailer.None?
      modifies this`trailer, this`trailerOffset
      ensures Valid() && BodyDone() && trailer.Some? && trailerOffset == 0
    {
      hide Pieces, ZstdEncoder.Valid;
      assert hashed == file[..offset + totalSize];
      trailer := Some(hash(hashed));
      trailerOffset := 0;
      assert stream.wire == BodyOnWire() + trailer.value[..0];
    }

    /** One turn of phase B: offer what is left of the trailer, without FIN. */
    method SendTrailer() returns (o: Option<SendOutcome>)
      requires Valid() && trailer.Some? && trailerOffset < 32
      modifies this`trailerOffset, stream
      ensures WireRight() && (o != Some(Aborted) ==> Valid() && o != Some(Finished))
      ensures o.None? ==> trailerOffset > old(trailerOffset)
      ensures stream.answers == Later(old(stream.answers)) && stream.finAnswer == old(stream.finAnswer)
      ensures TakesTrailer(Next(old(stream.answers)), old(trailerOffset)) ==> o.None? && trailerOffset == 32
      ensures old(Served()) ==> o != Some(Aborted) && Served() && |stream.answers| < old(|stream.answers|)
    {
      hide Pieces, ZstdEncoder.Valid, FullStream, Willing, Takes;
      if Served() {
        WillingNext(stream.answers);
        MoreIsDue(this);
      }
      var bytes := trailer.value;
      ghost var body := BodyOnWire();
      var answer := stream.Send(bytes[trailerOffset..], false);
      if answer.Error? {
        return Some(Aborted);
      }
      var n := if answer.Wrote? then answer.n else 0;
      TrailerJoin(body, bytes, trailerOffset, n);
      trailerOffset := trailerOffset + n;
      assert BodyOnWire() == body && stream.wire == body + bytes[..trailerOffset];
      StillDue(this);
      return if n == 0 then Some(Stalled) else None;
    }

    /** The FIN, in an empty frame of its own. */
    method SendFin() returns (o: SendOutcome)
      requires Valid() && trailer.Some? && trailerOffset == 32 && !finished
      modifies this`finished, stream
      ensures WireRight() && (o != Aborted ==> Valid() && o == Finished && finished)
      ensures o == if Next(old(stream.answers)).Closed? then Aborted else Finished
      ensures stream.finAnswer == Some(Next(old(stream.answers)))
      ensures old(Served()) ==> o == Finished
    {
      hide Pieces, ZstdEncoder.Valid, FullStream, Willing, Takes;
      if Served() {
        WillingNext(stream.answers);
      }
      var answer := stream.Send([], true);
      if answer.Error? {
        return Aborted;
      }
      finished := true;
      o := Finished;
    }

    /** Phase B: the 32 digest bytes, and only then the FIN. */
    method Trailer() returns (o: SendOutcome)
      requires Valid() && BodyDone() && !finished
      modifies this`trailer, this`trailerOffset, this`finished, stream
      ensures WireRight() && (o != Aborted ==> Valid())
      ensures o == Finished ==> finished
      ensures o == Stalled ==> !finished
      ensures old(trailer).None? && TakesTrailer(Next(old(stream.answers)), 0) ==>
                o == FinOutcome(Later(old(stream.answers)))
                && stream.finAnswer == Some(Next(Later(old(stream.answers))))
      ensures old(Served()) ==>
                o == Finished || (o == Stalled && Served() && |stream.answers| < old(|stream.answers|))
    {
      hide FullStream, Willing, Takes;
      if trailer.None? {
        Seal();
      }
      while trailerOffset < 32
        invariant Valid() && trailer.Some? && !finished && (old(Served()) ==> Served())
        invariant |stream.answers| <= old(|stream.answers|)
        invariant old(trailer).None? && TakesTrailer(Next(old(stream.answers)), 0) ==>
                    if trailerOffset == 32 then stream.answers == Later(old(stream.answers))
                    else trailerOffset == 0 && stream.answers == old(stream.answers)
        decreases 32 - trailerOffset
      {
        var turn := SendTrailer();
        if turn.Some? {
          return turn.value;
        }
      }
      o := SendFin();
    }

    /** `drive_one_sender`: one visit of the event loop. */
    method DriveOne() returns (o: SendOutcome)
      requires Valid()
      modifies Footprint()
      ensures WireRight() && (o != Aborted ==> Valid())
      ensures o == Finished ==> finished
      ensures old(!finished && prefixRemaining == 0 && encoding.Plain? && sent == totalSize && trailer.None?
                  && TakesTrailer(Next(stream.answers), 0)) ==>
                o == FinOutcome(Later(old(stream.answers)))
                && stream.finAnswer == Some(Next(Later(old(stream.answers))))
      ensures o == Stalled ==> !finished
      ensures old(Served() && !finished) ==>
                || o == Finished
                || (&& o == Stalled && Served()
                    && prefixRemaining + |stream.answers| < old(prefixRemaining + |stream.answers|))
    {
      hide FullStream, Willing, Takes;
      if finished {
        return Finished;
      }
      var early := PrefixRehash();
      if early.Some? {
        return early.value;
      }
      if encoding.Plain? {
        early := BodyIdentity();
      } else {
        early := BodyCompressed();
      }
      if early.Some? {
        return early.value;
      }
      o := Trailer();
    }
  }

  /** The wire never has more than the stream. */
  lemma StillDue(s: Sender)
    requires s.WireRight()
    ensures s.Unhindered() ==> s.Due() >= 0
  {
    hide FullStream;
    if s.Unhindered() {
      WireIsPrefix(s);
    }
  }

  lemma ServedReads(s: Sender)
    ensures s.Served() ==>
              s.Unhindered() && !Next(s.stream.answers).Closed? && !s.seekFails
              && forall i :: i in s.unreadable ==> s.offset + s.totalSize <= i
  {
    if s.Served() {
      WillingNext(s.stream.answers);
    }
  }

  /** After one call that offered something while `due` bytes were due and these were the answers to come. */
  lemma StillServed(s: Sender, answers: seq<Answer>, due: int, offered: nat)
    requires s.Unhindered() && s.WireRight() && Willing(answers) && 0 < due <= Takes(answers) && offered > 0
    requires s.stream.answers == Later(answers) && s.Due() == due - Takable(Next(answers), offered)
    ensures s.Served() && |s.stream.answers| < |answers| && !Next(answers).Closed?
  {
    hide FullStream, Willing;
    WillingNext(answers);
    StillDue(s);
  }

  /** As long as the trailer is not out, something is due. */
  lemma MoreIsDue(s: Sender)
    requires s.WireRight() && (s.trailer.None? || s.trailerOffset < 32)
    ensures s.Unhindered() ==> s.Due() > 0
  {
    hide Frame, Produced, Pieces;
    if s.Unhindered() {
      StillDue(s);
      var body := s.Body();
      assert body[..s.totalSize] == body;
      match s.encoding {
        case Plain =>
        case Compressed(e) =>
          if !s.frameFinished {
            ProducedIsPrefix(s.codec, body, s.sent);
          }
      }
    }
  }

  /** A codec that finishes the frame of a body compresses every piece of it. */
  lemma PieceCompresses(hash: Hash, codec: Codec, file: seq<Byte>, offset: nat, size: nat, sent: nat)
    requires offset + size <= |file| && FullStream(hash, codec, Zstd, file, offset, size).Some?
    requires sent < size && sent % SEND_CHUNK_SIZE == 0
    ensures var want := Min(size - sent, SEND_CHUNK_SIZE);
            codec.compress(Pieces(file[offset..offset + size][..sent]), file[offset + sent..offset + sent + want]).Some?
  {
    hide Pieces, Frame;
    var body, want := file[offset..offset + size], Min(size - sent, SEND_CHUNK_SIZE);
    NextPiece(file, offset, size, sent, want);
    ProducedIsPrefix(codec, body, sent + want);
    var before, piece := Pieces(body[..sent]), file[offset + sent..offset + sent + want];
    assert (before + [piece])[..|before|] == before;
  }

  lemma FrameCloses(hash: Hash, codec: Codec, file: seq<Byte>, offset: nat, size: nat)
    requires offset + size <= |file| && FullStream(hash, codec, Zstd, file, offset, size).Some?
    ensures codec.flush(Pieces(file[offset..offset + size])).Some?
  {
    hide Pieces;
  }

  lemma SliceJoin<T>(s: seq<T>, a: nat, b: nat, c: nat)
    requires a <= b <= c <= |s|
    ensures s[a..b] + s[b..c] == s[a..c]
  {
  }

  lemma TrailerJoin(w: seq<Byte>, t: seq<Byte>, k: nat, n: nat)
    requires k + n <= |t|
    ensures w + t[..k] + t[k..][..n] == w + t[..k + n]
    ensures n == 0 ==> w + t[..k] == w + t[..k + n]
  {
  }

  lemma SliceSlice<T>(s: seq<T>, a: nat, b: nat, i: nat, j: nat)
    requires a <= b <= |s| && i <= j <= b - a
    ensures s[a..b][i..j] == s[a + i..a + j]
  {
    var t := s[a..b];
    forall k | 0 <= k < j - i
      ensures t[i..j][k] == s[a + i..a + j][k]
    {
      assert t[i..j][k] == t[i + k] == s[a + (i + k)];
    }
  }

  lemma SliceTake<T>(s: seq<T>, a: nat, b: nat, n: nat)
    requires a <= b <= |s| && n <= b - a
    ensures s[a..b][..n] == s[a..a + n]
  {
  }

  /** Reading the next piece extends both the hashed range and the list of pieces. */
  lemma NextPiece(file: seq<Byte>, offset: nat, size: nat, sent: nat, want: nat)
    requires offset + size <= |file| && sent < size && sent % SEND_CHUNK_SIZE == 0
    requires want == Min(size - sent, SEND_CHUNK_SIZE)
    ensures var start, body := offset + sent, file[offset..offset + size];
            && file[..start] + file[start..start + want] == file[..start + want]
            && Pieces(body[..sent + want]) == Pieces(body[..sent]) + [file[start..start + want]]
            && (sent + want == size || (sent + want) % SEND_CHUNK_SIZE == 0)
  {
    hide Pieces;
    PiecesStep(file[offset..offset + size], sent, want);
    SliceSlice(file, offset, offset + size, sent, sent + want);
  }

  // ---- the byte stream of a download ------------------------------------

  /** The body as it travels: the plaintext, or one finished frame. */
  function WireBody(codec: Codec, encoding: Encoding, body: seq<Byte>): Option<seq<Byte>> {
    if encoding == Zstd then Frame(codec, Pieces(body)) else Some(body)
  }

  /** Everything the peer is meant to receive after the reply. */
  function FullStream(hash: Hash, codec: Codec, encoding: Encoding, file: seq<Byte>, offset: nat, size: nat)
    : Option<seq<Byte>>
    requires offset + size <= |file|
  {
    match WireBody(codec, encoding, file[offset..offset + size])
    case None => None
    case Some(w) => Some(w + hash(file[..offset + size]))
  }

  lemma {:induction false} PiecesPrefix(body: seq<Byte>, sent: nat) returns (k: nat)
    requires sent <= |body| && (sent == |body| || sent % SEND_CHUNK_SIZE == 0)
    ensures k <= |Pieces(body)| && Pieces(body[..sent]) == Pieces(body)[..k]
    decreases |body| - sent
  {
    if sent == |body| {
      k := |Pieces(body)|;
      assert body[..sent] == body;
    } else {
      var want := Min(|body| - sent, SEND_CHUNK_SIZE);
      k := PiecesPrefix(body, sent + want);
      PiecesStep(body, sent, want);
      k := k - 1;
    }
  }

  /** Compressed output so far is a prefix of the finished frame, wherever the sender stands. */
  lemma ProducedIsPrefix(codec: Codec, body: seq<Byte>, sent: nat)
    requires sent <= |body| && (sent == |body| || sent % SEND_CHUNK_SIZE == 0)
    requires Frame(codec, Pieces(body)).Some?
    ensures Produced(codec, Pieces(body[..sent])).Some?
    ensures Produced(codec, Pieces(body[..sent])).value <= Frame(codec, Pieces(body)).value
  {
    var k := PiecesPrefix(body, sent);
    ProducedGrows(codec, Pieces(body), k);
    var part, all, tail := Produced(codec, Pieces(body)[..k]).value, Produced(codec, Pieces(body)).value,
                           codec.flush(Pieces(body)).value;
    assert part == all[..|part|] == (all + tail)[..|part|];
  }

  /**
   * Wherever a call left off, the accepted bytes are a prefix of the one
   * stream the download consists of; FIN or completion mean all of it.
   */
  lemma WireIsPrefix(s: Sender)
    requires s.WireRight()
    requires FullStream(s.hash, s.codec, if s.encoding.Plain? then Identity else Zstd,
                        s.file, s.offset, s.totalSize).Some?
    ensures var full := FullStream(s.hash, s.codec, if s.encoding.Plain? then Identity else Zstd,
                                   s.file, s.offset, s.totalSize).value;
            && s.stream.wire <= full
            && (s.Valid() && (s.stream.fin || s.finished) ==> s.stream.wire == full)
  {
    hide Frame, Produced, Pieces;
    var body := s.Body();
    assert body[..s.totalSize] == body;
    match s.encoding {
      case Plain =>
        SliceTake(s.file, s.offset, s.offset + s.totalSize, s.sent);
        assert s.BodyOnWire() == body[..s.sent];
      case Compressed(e) =>
        if !s.frameFinished {
          ProducedIsPrefix(s.codec, body, s.sent);
        }
    }
  }

  /** A finished transfer has a stream: the codec failed nowhere. */
  lemma FinishedHasStream(s: Sender)
    requires s.WireRight() && s.trailer.Some?
    ensures FullStream(s.hash, s.codec, if s.encoding.Plain? then Identity else Zstd,
                       s.file, s.offset, s.totalSize).Some?
  {
    hide Frame, Produced, Pieces;
    var body := s.Body();
    assert body[..s.totalSize] == body;
  }

  /** An encoding the server does not know is sent as it is. */
  lemma SameStream(hash: Hash, codec: Codec, encoding: Encoding, file: seq<Byte>, offset: nat, size: nat)
    requires offset + size <= |file|
    ensures FullStream(hash, codec, encoding, file, offset, size)
         == FullStream(hash, codec, if encoding == Zstd then Zstd else Identity, file, offset, size)
  {
  }

  /**
   * Everything a download needs: the file can be read, the codec works, the
   * connection is not closed and takes something as often as there are bytes
   * to send, blocking in between as it likes, and there are turns enough for
   * all its answers and the bytes of the prefix.
   */
  ghost predicate Obliging(hash: Hash, codec: Codec, encoding: Encoding, file: seq<Byte>, unreadable: set<nat>,
                           seekFails: bool, offset: nat, size: nat, answers: seq<Answer>, visits: nat)
    requires offset + size <= |file|
  {
    && !seekFails && (forall i :: i in unreadable ==> offset + size <= i) && Advances(codec)
    && var full := FullStream(hash, codec, encoding, file, offset, size);
    && full.Some? && Willing(answers) && Takes(answers) >= |full.value| && visits > offset + |answers|
  }

  /**
   * A whole download served in `visits` turns of the event loop, against
   * any transport answers: what was accepted is a prefix of the stream, even
   * if a read, a seek or the connection fails; it is all of it once the
   * sender reports completion. A finished transfer has sent its FIN exactly
   * if the connection took it: an answer that would block counts as well.
   */
  method ServeGet(hash: Hash, codec: Codec, encoding: Encoding, file: seq<Byte>, unreadable: set<nat>,
                  seekFails: bool, offset: nat, size: nat, answers: seq<Answer>, visits: nat)
      returns (outcome: SendOutcome, wire: seq<Byte>, fin: bool, finAnswer: Option<Answer>)
    requires offset + size <= |file|
    ensures var full := FullStream(hash, codec, encoding, file, offset, size);
            && (full.Some? ==> wire <= full.value && (outcome != Aborted && fin ==> wire == full.value))
            && (outcome == Finished ==> full.Some? && wire == full.value)
    ensures outcome != Aborted ==> (fin <==> finAnswer.Some? && finAnswer.value.Take?)
    ensures outcome == Finished ==> finAnswer.Some? && !finAnswer.value.Closed?
    ensures Obliging(hash, codec, encoding, file, unreadable, seekFails, offset, size, answers, visits) ==>
              outcome == Finished
  {
    hide FullStream, Willing, Takes, Advances;
    var stream := new QuicStream(answers);
    var sendEncoding := Plain;
    if encoding == Zstd {
      var encoder := new ZstdEncoder(codec);
      sendEncoding := Compressed(encoder);
    }
    var sender := new Sender(hash, codec, sendEncoding, stream, file, unreadable, seekFails, offset, size);
    outcome := Stalled;
    ghost var obliging := Obliging(hash, codec, encoding, file, unreadable, seekFails, offset, size, answers, visits);
    SameStream(hash, codec, encoding, file, offset, size);
    StillDue(sender);
    var i := 0;
    while i < visits && outcome == Stalled
      invariant sender.stream == stream && sender.offset == offset
      invariant outcome == Stalled ==> !sender.finished
      invariant obliging && outcome != Finished ==>
                  outcome == Stalled && sender.Served() && i + sender.prefixRemaining + |stream.answers| < visits
      invariant sender.WireRight() && (outcome != Aborted ==> sender.Valid())
      invariant outcome == Finished ==> sender.finished
      invariant fresh(sender.Footprint())
    {
      outcome := sender.DriveOne();
      i := i + 1;
    }
    wire, fin, finAnswer := stream.wire, stream.fin, stream.finAnswer;
    if sender.trailer.Some? {
      FinishedHasStream(sender);
    }
    if FullStream(hash, codec, encoding, file, offset, size).Some? {
      WireIsPrefix(sender);
    }
  }

  /**
   * One visit that ends `Finished` although no FIN was sent: an empty file, and a connection that
   * is full after the trailer.
   */
  method FinishedWithoutFin(hash: Hash, codec: Codec) returns (outcome: SendOutcome, wire: seq<Byte>, fin: bool)
    ensures outcome == Finished && wire == hash([]) && !fin
  {
    var stream := new QuicStream([Take(32), Blocked]);
    var sender := new Sender(hash, codec, Plain, stream, [], {}, false, 0, 0);
    outcome := sender.DriveOne();
    wire, fin := stream.wire, stream.fin;
    FinishedHasStream(sender);
    WireIsPrefix(sender);
    assert FullStream(hash, codec, Identity, [], 0, 0) == Some([] + hash([][..0]));
  }
}
