/**
 * The client's half of a download: resume offset, size checks, splitting
 * whatever the network delivers into body and trailer, and verification of
 * the whole-file digest. `local` is the content of the destination file.
 */
module GetClient {
  import opened Bytes
  import opened Codes
  import opened Compress
  import opened GetServer

  const FILE_CHUNK_SIZE: nat := 64 * 1024

  datatype DownloadBody = IdentityBody(received: nat, size: nat) | ZstdBody(decoder: ZstdDecoder)

  /** `hash_prefix`: what the hasher absorbs from the first `len` bytes of the local file. */
  method HashPrefix(content: seq<Byte>, len: nat) returns (hashed: seq<Byte>)
    requires len <= |content|
    ensures hashed == content[..len]
  {
    hashed := [];
    var left: nat := len;
    while left > 0
      invariant left <= len && hashed == content[..len - left]
    {
      var want := Min(left, FILE_CHUNK_SIZE);
      hashed := hashed + content[len - left..len - left + want];
      left := left - want;
    }
  }

  /** The trailer buffer is a tail of what was received. */
  predicate IsTail(t: seq<Byte>, s: seq<Byte>) {
    |t| <= |s| && t == s[|s| - |t|..]
  }

  /** After `received`: the first `size` bytes are in the file, the rest in the trailer. */
  ghost predicate IdentityState(prefix: seq<Byte>, received: seq<Byte>, n: nat, size: nat,
                                file: seq<Byte>, trailer: seq<Byte>)
  {
    n == Min(|received|, size) && file == prefix + received[..n] && trailer == received[n..]
  }

  lemma IdentityStep(prefix: seq<Byte>, received: seq<Byte>, n: nat, size: nat,
                     file: seq<Byte>, trailer: seq<Byte>, input: seq<Byte>)
    requires IdentityState(prefix, received, n, size, file, trailer)
    ensures var take := Min(size - n, |input|);
            IdentityState(prefix, received + input, n + take, size, file + input[..take], trailer + input[take..])
  {
    var take := Min(size - n, |input|);
    if n < size {
      assert (received + input)[..n + take] == received + input[..take] == received[..n] + input[..take];
      assert (received + input)[n + take..] == input[take..];
    } else {
      assert (received + input)[..n] == received[..n] && (received + input)[n..] == received[n..] + input;
    }
  }

  /** The codec keeps its promise for this frame, and the cap leaves room for its plaintext. */
  ghost predicate Lawful(step: DecoderStep, max: nat, frame: seq<Byte>, plain: seq<Byte>) {
    Decodes(step, frame, plain) && |plain| <= max && |frame| > 0
  }

  /**
   * After `received`, of a stream that starts with `frame` if the codec is
   * lawful: the decoded plaintext is in the file, what follows the frame in
   * the trailer.
   */
  ghost predicate ZstdState(lawful: bool, frame: seq<Byte>, plain: seq<Byte>, prefix: seq<Byte>, received: seq<Byte>,
                            fed: seq<Byte>, decoded: nat, complete: bool, file: seq<Byte>, trailer: seq<Byte>)
  {
    && decoded + |prefix| == |file| && IsTail(trailer, received)
    && (!complete ==> trailer == [])
    && (lawful && Compatible(received, frame) ==>
          && decoded <= |plain| && file == prefix + plain[..decoded]
          && (complete <==> frame <= received)
          && (if complete then decoded == |plain| && trailer == received[|frame|..] else fed == received))
  }

  lemma CompatiblePrefix(s: seq<Byte>, t: seq<Byte>, frame: seq<Byte>)
    requires Compatible(s + t, frame)
    ensures Compatible(s, frame) && (frame <= s ==> frame <= s + t && (s + t)[|frame|..] == s[|frame|..] + t)
  {
    if s + t <= frame {
      assert s == (s + t)[..|s|] == frame[..|s|];
    } else if |s| <= |frame| {
      assert s == (s + t)[..|s|] == frame[..|s|];
    } else {
      assert frame == (s + t)[..|frame|] == s[..|frame|];
    }
  }

  /** The lawful case of one push: bytes before the frame's end are decoded, bytes after it left over. */
  lemma ZstdStepLawful(step: DecoderStep, max: nat, frame: seq<Byte>, plain: seq<Byte>,
                       received: seq<Byte>, decoded: nat, input: seq<Byte>)
    requires Lawful(step, max, frame, plain) && Compatible(received + input, frame)
    requires decoded <= |plain| && received <= frame && received != frame
    ensures var p := PushSpec(step, received, decoded, max, input);
            && p.Progress? && decoded + |p.out| <= |plain|
            && plain[..decoded] + p.out == plain[..decoded + |p.out|]
            && (p.complete <==> frame <= received + input)
            && (if p.complete then decoded + |p.out| == |plain| && input[p.consumed..] == (received + input)[|frame|..]
                else p.consumed == |input| && received + input[..p.consumed] == received + input)
  {
    hide PushSpec, Decodes;
    PushDecodes(step, frame, plain, received, decoded, max, input);
  }

  lemma ZstdStep(step: DecoderStep, max: nat, frame: seq<Byte>, plain: seq<Byte>, prefix: seq<Byte>,
                 received: seq<Byte>, fed: seq<Byte>, decoded: nat, file: seq<Byte>, input: seq<Byte>)
    requires decoded <= max
    requires ZstdState(Lawful(step, max, frame, plain), frame, plain, prefix, received, fed, decoded, false, file, [])
    ensures var p := PushSpec(step, fed, decoded, max, input);
            var lawful := Lawful(step, max, frame, plain);
            && (lawful && Compatible(received + input, frame) ==>
                  p.Progress? && (p.complete || p.consumed == |input|))
            && (p.Progress? && (p.complete || p.consumed == |input|) ==>
                  ZstdState(lawful, frame, plain, prefix, received + input, fed + input[..p.consumed],
                            decoded + |p.out|, p.complete, file + p.out,
                            if p.complete then input[p.consumed..] else []))
  {
    hide PushSpec, Lawful;
    var p := PushSpec(step, fed, decoded, max, input);
    if p.Progress? {
      TailOf(received, input, p.consumed);
    }
    if Lawful(step, max, frame, plain) && Compatible(received + input, frame) {
      CompatiblePrefix(received, input, frame);
      StrictPrefix(received, frame);
      ZstdStepLawful(step, max, frame, plain, received, decoded, input);
      assert prefix + plain[..decoded] + p.out == prefix + (plain[..decoded] + p.out);
    }
  }

  lemma StrictPrefix(s: seq<Byte>, frame: seq<Byte>)
    requires Compatible(s, frame) && !(frame <= s)
    ensures s <= frame && s != frame
  {
  }

  lemma TailOf(s: seq<Byte>, t: seq<Byte>, c: nat)
    requires c <= |t|
    ensures IsTail(t[c..], s + t) && IsTail([], s + t)
  {
  }

  lemma TailGrows(tail: seq<Byte>, s: seq<Byte>, t: seq<Byte>)
    requires IsTail(tail, s)
    ensures IsTail(tail + t, s + t)
  {
  }

  class Download {
    var body: DownloadBody
    /** Content of the local file; every write appends. */
    var file: seq<Byte>
    var hashed: seq<Byte>
    var trailer: seq<Byte>

    ghost const prefix: seq<Byte>
    /** A frame and the plaintext it encodes, if the server sends one. */
    ghost const frame: seq<Byte>
    ghost const plain: seq<Byte>
    /** Every byte received after the reply. */
    ghost var received: seq<Byte>

    ghost predicate Valid()
      reads this, if body.ZstdBody? then {body.decoder} else {}
    {
      && hashed == file
      && (match body
          case IdentityBody(n, size) => IdentityState(prefix, received, n, size, file, trailer)
          case ZstdBody(d) =>
            && d.Valid() && d.Pending() == []
            && ZstdState(Lawful(d.step, d.maxPlaintext, frame, plain), frame, plain, prefix, received,
                         d.fed, d.decoded, d.frameComplete, file, trailer))
    }

    constructor (body: DownloadBody, prefix: seq<Byte>, hashed: seq<Byte>, ghost frame: seq<Byte>,
                 ghost plain: seq<Byte>)
      requires hashed == prefix
      requires body.IdentityBody? ==> body.received == 0
      requires body.ZstdBody? ==>
                 var d := body.decoder;
                 d.Valid() && d.Pending() == [] && d.decoded == 0 && d.fed == [] && !d.frameComplete
      ensures Valid() && this.body == body && file == prefix && received == [] && this.prefix == prefix
      ensures this.frame == frame && this.plain == plain
    {
      this.body, this.file, this.hashed, this.trailer := body, prefix, hashed, [];
      this.prefix, this.frame, this.plain, this.received := prefix, frame, plain, [];
    }

    predicate IsComplete()
      reads this, if body.ZstdBody? then {body.decoder} else {}
    {
      match body
      case IdentityBody(n, size) => n >= size
      case ZstdBody(d) => d.frameComplete
    }

    /** `drain_decoded_plaintext`: write and hash what the decoder holds. */
    method DrainDecoded(decoder: ZstdDecoder)
      requires decoder.Valid()
      modifies this`file, this`hashed, decoder`pending, decoder`pendingPos
      ensures decoder.Valid() && decoder.Pending() == []
      ensures file == old(file) + old(decoder.Pending()) && hashed == old(hashed) + old(decoder.Pending())
    {
      while decoder.Pending() != []
        invariant decoder.Valid()
        invariant file + decoder.Pending() == old(file) + old(decoder.Pending())
        invariant hashed + decoder.Pending() == old(hashed) + old(decoder.Pending())
        decreases |decoder.Pending()|
      {
        var n := |decoder.Pending()|;
        file := file + decoder.Pending();
        hashed := hashed + decoder.Pending();
        decoder.Consume(n);
      }
    }

    /** The identity branch of `accept_download_bytes`. */
    method AcceptIdentity(input: seq<Byte>)
      requires Valid() && body.IdentityBody?
      modifies this
      ensures Valid() && body.IdentityBody? && body.size == old(body.size) && received == old(received) + input
    {
      hide IdentityState;
      var n, size := body.received, body.size;
      IdentityBound(prefix, received, n, size, file, trailer);
      IdentityStep(prefix, received, n, size, file, trailer, input);
      assert file + input[..0] == file && trailer + input[|input|..] == trailer && input[0..] == input;
      if n < size {
        var take := Min(size - n, |input|);
        if take > 0 {
          file := file + input[..take];
          hashed := hashed + input[..take];
          body := IdentityBody(n + take, size);
        }
        if take < |input| {
          trailer := trailer + input[take..];
        }
      } else {
        trailer := trailer + input;
      }
      received := received + input;
    }

    /** The compressed branch: only the bytes after the frame's end reach the trailer. */
    method AcceptZstd(input: seq<Byte>) returns (ok: bool)
      requires Valid() && body.ZstdBody?
      modifies this`file, this`hashed, this`trailer, this`received, body.decoder
      ensures body == old(body) && hashed == file
      ensures ok ==> Valid() && received == old(received) + input
      ensures (Lawful(body.decoder.step, body.decoder.maxPlaintext, frame, plain)
               && Compatible(old(received) + input, frame)) ==> ok
    {
      hide PushSpec, Lawful, Decodes, ZstdState, Compatible;
      var decoder := body.decoder;
      if decoder.frameComplete {
        ZstdTail(Lawful(decoder.step, decoder.maxPlaintext, frame, plain), frame, plain, prefix, received,
                 decoder.fed, decoder.decoded, file, trailer, input);
        trailer := trailer + input;
        received := received + input;
        return true;
      }
      ZstdNoTrailer(Lawful(decoder.step, decoder.maxPlaintext, frame, plain), frame, plain, prefix, received,
                    decoder.fed, decoder.decoded, file, trailer);
      ZstdStep(decoder.step, decoder.maxPlaintext, frame, plain, prefix, received,
               decoder.fed, decoder.decoded, file, input);
      ghost var p := PushSpec(decoder.step, decoder.fed, decoder.decoded, decoder.maxPlaintext, input);
      var progress := decoder.Push(input);
      if progress.Rejected? {
        return false;
      }
      assert decoder.Pending() == [] + p.out == p.out;
      DrainDecoded(decoder);
      received := received + input;
      if progress.frameComplete {
        assert trailer + input[progress.consumed..] == input[progress.consumed..];
        trailer := trailer + input[progress.consumed..];
      } else if progress.consumed < |input| {
        return false;
      }
      return true;
    }

    /** `accept_download_bytes`. */
    method Accept(input: seq<Byte>) returns (ok: bool)
      requires Valid()
      modifies this, if body.ZstdBody? then {body.decoder} else {}
      ensures hashed == file
      ensures body.IdentityBody? == old(body.IdentityBody?)
      ensures body.IdentityBody? ==> ok && body.size == old(body.size)
      ensures body.ZstdBody? ==> body == old(body)
      ensures ok ==> Valid() && received == old(received) + input
      ensures (body.ZstdBody? && Lawful(body.decoder.step, body.decoder.maxPlaintext, frame, plain)
               && Compatible(old(received) + input, frame)) ==> ok
    {
      if body.IdentityBody? {
        AcceptIdentity(input);
        ok := true;
      } else {
        ok := AcceptZstd(input);
      }
    }
  }

  lemma IdentityBound(prefix: seq<Byte>, received: seq<Byte>, n: nat, size: nat, file: seq<Byte>, trailer: seq<Byte>)
    requires IdentityState(prefix, received, n, size, file, trailer)
    ensures n <= size
  {
  }

  /** Before the frame's end nothing has reached the trailer. */
  lemma ZstdNoTrailer(lawful: bool, frame: seq<Byte>, plain: seq<Byte>, prefix: seq<Byte>, received: seq<Byte>,
                      fed: seq<Byte>, decoded: nat, file: seq<Byte>, trailer: seq<Byte>)
    requires ZstdState(lawful, frame, plain, prefix, received, fed, decoded, false, file, trailer)
    ensures trailer == []
  {
  }

  /** After the frame's end every byte goes to the trailer. */
  lemma ZstdTail(lawful: bool, frame: seq<Byte>, plain: seq<Byte>, prefix: seq<Byte>, received: seq<Byte>,
                 fed: seq<Byte>, decoded: nat, file: seq<Byte>, trailer: seq<Byte>, input: seq<Byte>)
    requires ZstdState(lawful, frame, plain, prefix, received, fed, decoded, true, file, trailer)
    ensures ZstdState(lawful, frame, plain, prefix, received + input, fed, decoded, true, file, trailer + input)
  {
    TailGrows(trailer, received, input);
    if Compatible(received + input, frame) {
      CompatiblePrefix(received, input, frame);
    }
  }

  // ---- one attempt ------------------------------------------------------

  datatype GetResult =
    | Downloaded | StalePartial | ServerRefused | UnexpectedReply | UnsupportedEncoding
    | InconsistentSizes | PlaintextTooLarge | CorruptFrame | EarlyClose | ConnectionClosed
    | SizeMismatch | FlushFailed | ChecksumMismatch

  /** The checks between the reply and the first write; `None` lets the transfer start. */
  function CheckReply(resumeOffset: nat, reply: GetReply): Option<GetResult> {
    match reply
    case Refused(e) => if e == InvalidRange && resumeOffset > 0 then Some(StalePartial) else Some(ServerRefused)
    case Unexpected => Some(UnexpectedReply)
    case FileReady(size, total, _, encoding, plaintextSize) =>
      if encoding.UnknownEncoding? then Some(UnsupportedEncoding)
      else if encoding == Zstd && size != plaintextSize then Some(InconsistentSizes)
      else if encoding == Zstd && plaintextSize > MAX_FILE_SIZE then Some(PlaintextTooLarge)
      else if resumeOffset + size >= U64 || resumeOffset + size != total then Some(InconsistentSizes)
      else None
  }

  function WantTrailer(reply: GetReply): nat {
    if reply.FileReady? && reply.checksumFollows then 32 else 0
  }

  /** Body and trailer are complete: keep the file, or tear it down if the digest disagrees. */
  function Conclude(hash: Hash, content: seq<Byte>, rest: seq<Byte>, checksum: bool, flushOk: bool)
    : (r: (GetResult, Option<seq<Byte>>))
    requires checksum ==> |rest| >= 32
  {
    if !flushOk then (FlushFailed, Some(content))
    else if checksum && hash(content) != rest[..32] then (GetResult.ChecksumMismatch, None)
    else (Downloaded, Some(content))
  }

  function Window(s: seq<Byte>, i: nat): seq<Byte>
    requires i + 32 <= |s|
  {
    s[i..i + 32]
  }

  /** The digest of the kept file arrived as 32 consecutive bytes. */
  ghost predicate Verified(hash: Hash, content: seq<Byte>, stream: seq<Byte>) {
    exists i: nat :: i + 32 <= |stream| && hash(content) == Window(stream, i)
  }

  lemma TailVerifies(hash: Hash, content: seq<Byte>, trailer: seq<Byte>, received: seq<Byte>, stream: seq<Byte>)
    requires IsTail(trailer, received) && received <= stream && |trailer| >= 32
    requires hash(content) == trailer[..32]
    ensures Verified(hash, content, stream)
  {
    var i := |received| - |trailer|;
    assert Window(stream, i) == received[i..i + 32] == trailer[..32];
  }

  /** Having read past `n` bytes, only a prefix of the stream matters. */
  lemma Landed(received: seq<Byte>, s: seq<Byte>, n: nat, want: nat)
    requires received <= s && |received| >= n + want
    ensures received[..n] == s[..n] && received[n..][..want] == s[n..][..want]
  {
  }

  lemma WholeFrame(received: seq<Byte>, s: seq<Byte>, frame: seq<Byte>)
    requires received <= s
    ensures Compatible(s, frame) ==> Compatible(received, frame)
  {
    if Compatible(s, frame) {
      assert s == received + s[|received|..];
      CompatiblePrefix(received, s[|received|..], frame);
    }
  }

  lemma FlattenPrefix<T>(chunks: seq<seq<T>>, i: nat)
    requires i <= |chunks|
    ensures Flatten(chunks[..i]) <= Flatten(chunks)
  {
    FlattenAppend(chunks[..i], chunks[i..]);
    assert chunks[..i] + chunks[i..] == chunks;
  }

  datatype Reception = Complete | Ended | Corrupt

  /**
   * The receive loop: until body and trailer are in, or the chunks run out.
   * Each pass drains whatever is available, `passes[k]` chunks after its
   * first one, before it looks whether the download is complete.
   */
  method Receive(d: Download, want: nat, chunks: seq<seq<Byte>>, passes: seq<nat>) returns (r: Reception)
    requires d.Valid() && d.received == []
    modifies d, if d.body.ZstdBody? then {d.body.decoder} else {}
    ensures if old(d.body).ZstdBody? then d.body == old(d.body)
            else d.body.IdentityBody? && d.body.size == old(d.body).size
    ensures d.hashed == d.file
    ensures !r.Corrupt? ==> d.Valid() && d.received <= Flatten(chunks)
    ensures r.Complete? ==> d.IsComplete() && |d.trailer| >= want
    ensures r.Ended? ==> d.received == Flatten(chunks) && !(d.IsComplete() && |d.trailer| >= want)
    ensures r.Corrupt? ==>
              && d.body.ZstdBody?
              && !(Lawful(d.body.decoder.step, d.body.decoder.maxPlaintext, d.frame, d.plain)
                   && Compatible(Flatten(chunks), d.frame))
  {
    hide Lawful, Compatible, ZstdState, IdentityState;
    var i, pass := 0, 0;
    while !d.IsComplete() || |d.trailer| < want
      invariant i <= |chunks| && d.Valid() && d.received == Flatten(chunks[..i])
      invariant if old(d.body).ZstdBody? then d.body == old(d.body)
                else d.body.IdentityBody? && d.body.size == old(d.body).size
      decreases |chunks| - i
    {
      if i == |chunks| {
        assert chunks[..i] == chunks;
        return Ended;
      }
      var end := i + 1 + Min(if pass < |passes| then passes[pass] else 0, |chunks| - i - 1);
      while i < end
        invariant i <= end <= |chunks| && d.Valid() && d.received == Flatten(chunks[..i])
        invariant if old(d.body).ZstdBody? then d.body == old(d.body)
                  else d.body.IdentityBody? && d.body.size == old(d.body).size
      {
        FlattenTake(chunks, i);
        FlattenPrefix(chunks, i + 1);
        WholeFrame(Flatten(chunks[..i + 1]), Flatten(chunks), d.frame);
        var ok := d.Accept(chunks[i]);
        if !ok {
          return Corrupt;
        }
        i := i + 1;
      }
      pass := pass + 1;
    }
    FlattenPrefix(chunks, i);
    r := Complete;
  }

  /** What the receive loop amounts to for an identity body of `n` bytes out of the stream `s`. */
  lemma IdentityReceived(d: Download, s: seq<Byte>, want: nat, r: Reception)
    requires d.Valid() && d.body.IdentityBody? && d.received <= s
    requires r.Complete? ==> d.IsComplete() && |d.trailer| >= want
    requires r.Ended? ==> d.received == s && !(d.IsComplete() && |d.trailer| >= want)
    ensures var n := d.body.size;
            && (r.Complete? ==>
                  |s| >= n + want && d.file == d.prefix + s[..n] && d.trailer[..want] == s[n..][..want])
            && (r.Ended? ==> |s| < n + want && d.file == d.prefix + s[..Min(n, |s|)])
  {
    if r.Complete? {
      Landed(d.received, s, d.body.size, want);
    }
  }

  /** The same for a compressed body. */
  lemma ZstdReceived(d: Download, s: seq<Byte>, want: nat, r: Reception)
    requires d.Valid() && d.body.ZstdBody? && d.received <= s
    requires Lawful(d.body.decoder.step, d.body.decoder.maxPlaintext, d.frame, d.plain) && Compatible(s, d.frame)
    requires r.Complete? ==> d.IsComplete() && |d.trailer| >= want
    requires r.Ended? ==> d.received == s && !(d.IsComplete() && |d.trailer| >= want)
    ensures var n := |d.frame|;
            && (r.Complete? ==>
                  && |s| >= n + want && d.body.decoder.decoded == |d.plain|
                  && d.file == d.prefix + d.plain && d.trailer[..want] == s[n..][..want])
            && (r.Ended? ==> |s| < n + want)
  {
    hide Lawful;
    WholeFrame(d.received, s, d.frame);
    if r.Complete? {
      Landed(d.received, s, |d.frame|, want);
      assert d.plain[..|d.plain|] == d.plain;
    }
  }

  /** After the loop: size, flush and digest decide what becomes of the file. */
  method Settle(hash: Hash, d: Download, reply: GetReply, flushOk: bool, ghost s: seq<Byte>)
      returns (result: GetResult, local': Option<seq<Byte>>)
    requires d.Valid() && reply.FileReady? && |d.trailer| >= WantTrailer(reply) && d.received <= s
    ensures var fits := d.body.IdentityBody? || d.body.decoder.decoded == reply.plaintextSize;
            (result, local') == if fits then Conclude(hash, d.file, d.trailer, reply.checksumFollows, flushOk)
                                else (SizeMismatch, None)
    ensures result == Downloaded && reply.checksumFollows ==> local'.Some? && Verified(hash, local'.value, s)
  {
    hide IdentityState, Verified;
    if d.body.ZstdBody? && d.body.decoder.decoded != reply.plaintextSize {
      return SizeMismatch, None;
    }
    if !flushOk {
      return FlushFailed, Some(d.file);
    }
    if reply.checksumFollows {
      if hash(d.hashed) != d.trailer[..32] {
        return GetResult.ChecksumMismatch, None;
      }
      TrailerIsTail(d);
      TailVerifies(hash, d.file, d.trailer, d.received, s);
    }
    return Downloaded, Some(d.file);
  }

  lemma TrailerIsTail(d: Download)
    requires d.Valid()
    ensures IsTail(d.trailer, d.received)
  {
  }

  /** The promise of one attempt on the stream `s`. */
  ghost predicate Attempted(hash: Hash, step: DecoderStep, local: Option<seq<Byte>>, reply: GetReply, s: seq<Byte>,
                            fin: bool, flushOk: bool, frame: seq<Byte>, plain: seq<Byte>,
                            result: GetResult, local': Option<seq<Byte>>)
  {
    var prefix := if local.Some? then local.value else [];
    var early := CheckReply(|prefix|, reply);
    // refused before anything is written: only a stale partial is deleted
    && (early.Some? ==> result == early.value && local' == if result == StalePartial then None else local)
    && (early.None? && reply.encoding == Identity ==>
          var n := reply.size;
          if |s| >= n + WantTrailer(reply)
          then (result, local') == Conclude(hash, prefix + s[..n], s[n..], reply.checksumFollows, flushOk)
          else if fin then result == EarlyClose && local' == None
          else result == ConnectionClosed && local' == Some(prefix + s[..Min(n, |s|)]))
    && (early.None? && reply.encoding == Zstd
        && Lawful(step, reply.plaintextSize, frame, plain) && |plain| == reply.plaintextSize
        && Compatible(s, frame) ==>
          if |s| >= |frame| + WantTrailer(reply)
          then (result, local') == Conclude(hash, prefix + plain, s[|frame|..], reply.checksumFollows, flushOk)
          else if fin then result == EarlyClose && local' == None
          else result == ConnectionClosed)
    // whatever the server sends, an unverified file is never reported as verified
    && (result == Downloaded && reply.FileReady? && reply.checksumFollows ==>
          local'.Some? && Verified(hash, local'.value, s))
  }

  /**
   * `do_get_inner`. `chunks` is what the stream delivers, cut anywhere and
   * drained in any passes; then
   * it is finished (`fin`) or the connection is gone. `frame` and `plain`
   * only serve the statement about compressed bodies.
   */
  method DoGetInner(hash: Hash, step: DecoderStep, local: Option<seq<Byte>>, reply: GetReply,
                    chunks: seq<seq<Byte>>, passes: seq<nat>, fin: bool, flushOk: bool,
                    ghost frame: seq<Byte>, ghost plain: seq<Byte>)
      returns (result: GetResult, local': Option<seq<Byte>>)
    ensures Attempted(hash, step, local, reply, Flatten(chunks), fin, flushOk, frame, plain, result, local')
  {
    hide Lawful, Compatible, Verified, ZstdState, IdentityState;
    var content := if local.Some? then local.value else [];
    var resumeOffset := |content|;
    var early := CheckReply(resumeOffset, reply);
    if early.Some? {
      return early.value, if early.value == StalePartial then None else local;
    }
    var hashed := HashPrefix(content, resumeOffset);
    assert hashed == content;
    var body := IdentityBody(0, reply.size);
    if reply.encoding == Zstd {
      var decoder := new ZstdDecoder(step, Min(reply.plaintextSize, MAX_FILE_SIZE));
      body := ZstdBody(decoder);
    }
    var d := new Download(body, content, hashed, frame, plain);
    var want := WantTrailer(reply);
    ghost var s := Flatten(chunks);
    var reception := Receive(d, want, chunks, passes);
    if reception.Corrupt? {
      return CorruptFrame, Some(d.file);
    }
    if reply.encoding == Identity {
      IdentityReceived(d, s, want, reception);
    } else if Lawful(step, reply.plaintextSize, frame, plain) && |plain| == reply.plaintextSize
        && Compatible(s, frame) {
      ZstdReceived(d, s, want, reception);
    }
    if reception.Ended? {
      return if fin then EarlyClose else ConnectionClosed, if fin then None else Some(d.file);
    }
    result, local' := Settle(hash, d, reply, flushOk, s);
  }
}
