/**
 * A resumed download end to end: the server's reply and stream, delivered in
 * arbitrary pieces, and the client's one retry after a stale partial.
 */
module GetEndToEnd {
  import opened Bytes
  import opened Codes
  import opened Compress
  import opened GetServer
  import opened GetClient

  /** Everything one attempt depends on besides the two files. */
  datatype Attempt = Attempt(
    incompressible: bool, unreadable: set<nat>, seekFails: bool,   // the server's file
    answers: seq<Answer>, visits: nat,                              // its transport and event loop
    cuts: seq<nat>, passes: seq<nat>, delivered: nat, flushOk: bool)  // the network and the client's disk

  /** Cut a stream at the given sizes; what is left over arrives in one piece. */
  function Chop(s: seq<Byte>, cuts: seq<nat>): (chunks: seq<seq<Byte>>)
    ensures Flatten(chunks) == s
  {
    if cuts == [] then
      FlattenOne(s);
      [s]
    else
      var n := Min(cuts[0], |s|);
      var rest := Chop(s[n..], cuts[1..]);
      assert ([s[..n]] + rest)[1..] == rest;
      assert s[..n] + s[n..] == s;
      [s[..n]] + rest
  }

  /** The attempt reached its end: the server completed, and the network delivered all of it. */
  predicate Undisturbed(outcome: SendOutcome, wire: seq<Byte>, a: Attempt) {
    outcome == Finished && a.delivered >= |wire| && a.flushOk
  }

  /**
   * Nothing goes wrong in this attempt: the server can read the file, its codec
   * works, its connection takes bytes often enough, there are turns enough,
   * and network and disk take everything.
   */
  ghost predicate Smooth(hash: Hash, codec: Codec, remote: seq<Byte>, offset: nat, acceptZstd: bool, a: Attempt)
    requires Lossless(codec) && offset <= |remote|
  {
    var reply := StartGet(|remote|, offset, None, acceptZstd, a.incompressible);
    && reply.FileReady?
    && Obliging(hash, codec, reply.encoding, remote, a.unreadable, a.seekFails, offset, |remote| - offset, a.answers,
                a.visits)
    && a.delivered >= |FullStreamTo(hash, codec, reply.encoding, remote, offset)| && a.flushOk
  }

  lemma {:induction false} EachTakes(n: nat)
    ensures Takes(seq(n, _ => Take(1))) == n && Willing(seq(n, _ => Take(1)))
  {
    if n > 0 {
      EachTakes(n - 1);
      assert seq(n, _ => Take(1))[1..] == seq(n - 1, _ => Take(1));
    }
  }

  /** There are such attempts, even with a connection that takes one byte at a time. */
  lemma SmoothIsPossible(hash: Hash, codec: Codec, remote: seq<Byte>, offset: nat, acceptZstd: bool)
      returns (a: Attempt)
    requires Lossless(codec) && Advances(codec) && offset <= |remote| <= MAX_FILE_SIZE
    ensures Smooth(hash, codec, remote, offset, acceptZstd, a)
  {
    hide Lossless, FullStream, Takes, Willing;
    var full := FullStreamTo(hash, codec, Identity, remote, offset);
    StreamToEnd(hash, codec, Identity, remote, offset);
    EachTakes(|full|);
    a := Attempt(true, {}, false, seq(|full|, _ => Take(1)), offset + |full| + 1, [], [], |full|, true);
  }

  /** The partial really is the beginning of the remote file. */
  predicate MatchingPrefix(local: Option<seq<Byte>>, remote: seq<Byte>) {
    local.None? || local.value <= remote
  }

  /** The file the client would hold after a complete resume. */
  function Completed(local: Option<seq<Byte>>, remote: seq<Byte>): seq<Byte>
    requires Offset(local) <= |remote|
  {
    Content(local) + remote[Offset(local)..]
  }

  function Content(local: Option<seq<Byte>>): seq<Byte> {
    if local.Some? then local.value else []
  }

  function Offset(local: Option<seq<Byte>>): nat {
    |Content(local)|
  }

  /** The server's stream for "from `offset` to the end": body, then the digest of the whole file. */
  lemma StreamToEnd(hash: Hash, codec: Codec, encoding: Encoding, remote: seq<Byte>, offset: nat)
    requires offset <= |remote| && (encoding == Zstd ==> Lossless(codec))
    ensures var body := remote[offset..];
            var full := FullStream(hash, codec, encoding, remote, offset, |remote| - offset);
            && remote[offset..offset + (|remote| - offset)] == body
            && full.Some? && WireBody(codec, encoding, body).Some?
            && full.value == WireBody(codec, encoding, body).value + hash(remote)
  {
    hide Frame;
    assert remote[offset..offset + (|remote| - offset)] == remote[offset..];
    assert remote[..offset + (|remote| - offset)] == remote;
  }

  lemma PrefixOfWhole(s: seq<Byte>, w: seq<Byte>, t: seq<Byte>)
    requires s <= w + t
    ensures Compatible(s, w)
    ensures |s| >= |w| ==> s[..|w|] == w && s[|w|..] <= t
    ensures |s| < |w| + |t| || s == w + t
  {
    if |s| <= |w| {
      assert s == (w + t)[..|s|] == w[..|s|];
    } else {
      assert s[..|w|] == (w + t)[..|w|] == w;
      assert s[|w|..] == (w + t)[|w|..|s|] == t[..|s| - |w|];
    }
  }

  /**
   * What an accepted transfer ends in, for any part `s` of the server's
   * stream: success only with equal digests; and on the whole stream, success
   * exactly if the digests are equal.
   */
  lemma AttemptEnds(hash: Hash, codec: Codec, remote: seq<Byte>, local: Option<seq<Byte>>, reply: GetReply,
                    s: seq<Byte>, fin: bool, flushOk: bool, frame: seq<Byte>, result: GetResult,
                    local': Option<seq<Byte>>)
    requires Lossless(codec) && Offset(local) <= |remote| <= MAX_FILE_SIZE
    requires reply.FileReady? && reply.size == |remote| - Offset(local) && reply.totalSize == |remote|
    requires reply.checksumFollows && !reply.encoding.UnknownEncoding?
    requires reply.encoding == Zstd ==> reply.plaintextSize == reply.size
    requires reply.encoding == Zstd ==> Some(frame) == WireBody(codec, Zstd, remote[Offset(local)..])
    requires s <= FullStreamTo(hash, codec, reply.encoding, remote, Offset(local))
    requires Attempted(hash, codec.decoder, local, reply, s, fin, flushOk, frame, remote[Offset(local)..], result,
                       local')
    ensures result != StalePartial
    ensures result == Downloaded ==> local'.Some? && hash(local'.value) == hash(remote)
    ensures s == FullStreamTo(hash, codec, reply.encoding, remote, Offset(local)) && flushOk ==>
              (result, local') == if hash(Completed(local, remote)) == hash(remote)
                                  then (Downloaded, Some(Completed(local, remote)))
                                  else (GetResult.ChecksumMismatch, None)
  {
    hide Frame, Verified;
    var body := remote[Offset(local)..];
    StreamToEnd(hash, codec, reply.encoding, remote, Offset(local));
    var w := WireBody(codec, reply.encoding, body).value;
    var t: seq<Byte> := hash(remote);
    PrefixOfWhole(s, w, t);
    if reply.encoding == Zstd {
      LosslessBody(codec, body, frame, reply.plaintextSize);
    }
    if |s| >= |w| + 32 {
      assert s[|w|..][..32] == t;
    }
  }

  lemma LosslessBody(codec: Codec, body: seq<Byte>, frame: seq<Byte>, max: nat)
    requires Lossless(codec) && |body| <= max && Some(frame) == WireBody(codec, Zstd, body)
    ensures Lawful(codec.decoder, max, frame, body)
  {
    PiecesFlatten(body);
    assert Decodes(codec.decoder, Frame(codec, Pieces(body)).value, Flatten(Pieces(body)));
  }

  ghost function FullStreamTo(hash: Hash, codec: Codec, encoding: Encoding, remote: seq<Byte>, offset: nat): seq<Byte>
    requires offset <= |remote| && Lossless(codec)
  {
    StreamToEnd(hash, codec, encoding, remote, offset);
    FullStream(hash, codec, encoding, remote, offset, |remote| - offset).value
  }

  /**
   * One request against an unchanging remote file; `undisturbed` tells that
   * the server completed, the network delivered everything and the disk took it.
   */
  method GetOnce(hash: Hash, codec: Codec, remote: seq<Byte>, local: Option<seq<Byte>>, acceptZstd: bool, a: Attempt)
      returns (result: GetResult, local': Option<seq<Byte>>, undisturbed: bool)
    requires Lossless(codec) && |remote| <= MAX_FILE_SIZE
    // a partial longer than the remote file is deleted, and nothing else is stale
    ensures result == StalePartial <==> Offset(local) > |remote|
    ensures result == StalePartial ==> local' == None
    // success means the digests agree
    ensures result == Downloaded ==> local'.Some? && hash(local'.value) == hash(remote)
    // if nothing goes wrong, the attempt is undisturbed
    ensures Offset(local) <= |remote| && Smooth(hash, codec, remote, Offset(local), acceptZstd, a) ==> undisturbed
    // an undisturbed attempt succeeds exactly if the completed file has the remote's digest
    ensures undisturbed ==>
              && Offset(local) <= |remote|
              && (result, local') == if hash(Completed(local, remote)) == hash(remote)
                                     then (Downloaded, Some(Completed(local, remote)))
                                     else (GetResult.ChecksumMismatch, None)
  {
    hide Lossless, FullStream, WireBody, Attempted, Obliging;
    var offset := Offset(local);
    undisturbed := false;
    var reply := StartGet(|remote|, offset, None, acceptZstd, a.incompressible);
    if !reply.FileReady? {
      result, local' := DoGetInner(hash, codec.decoder, local, reply, [], [], false, a.flushOk, [], []);
      RefusedEnds(hash, codec.decoder, local, reply, [], false, a.flushOk, [], [], result, local');
      return;
    }
    var outcome, wire, fin, _ := ServeGet(hash, codec, reply.encoding, remote, a.unreadable, a.seekFails,
                                       offset, reply.size, a.answers, a.visits);
    StreamToEnd(hash, codec, reply.encoding, remote, offset);
    var arrived := wire[..Min(a.delivered, |wire|)];
    var chunks := Chop(arrived, a.cuts);
    undisturbed := Undisturbed(outcome, wire, a);
    assert undisturbed ==> arrived == wire;
    ghost var body := remote[offset..];
    ghost var frame := WireBody(codec, reply.encoding, body).value;
    result, local' := DoGetInner(hash, codec.decoder, local, reply, chunks, a.passes,
                                 fin && |arrived| == |wire|, a.flushOk,
                                 frame, body);
    AttemptEnds(hash, codec, remote, local, reply, arrived, fin && |arrived| == |wire|, a.flushOk, frame,
                result, local');
  }

  lemma RefusedEnds(hash: Hash, step: DecoderStep, local: Option<seq<Byte>>, reply: GetReply, s: seq<Byte>, fin: bool,
                    flushOk: bool, frame: seq<Byte>, plain: seq<Byte>, result: GetResult, local': Option<seq<Byte>>)
    requires Attempted(hash, step, local, reply, s, fin, flushOk, frame, plain, result, local') && reply.Refused?
    ensures result == StalePartial <==> reply.error == InvalidRange && Offset(local) > 0
    ensures result == StalePartial ==> local' == None
    ensures result == StalePartial || result == ServerRefused
  {
  }

  /**
   * `do_get`: at most one retry, from scratch. Success implies equal digests;
   * an undisturbed transfer of a matching (or stale) partial succeeds with
   * the remote's exact content; one whose completed file has another digest
   * is refused and deleted.
   */
  method DoGet(hash: Hash, codec: Codec, remote: seq<Byte>, local: Option<seq<Byte>>, acceptZstd: bool,
               first: Attempt, second: Attempt)
      returns (result: GetResult, local': Option<seq<Byte>>, undisturbed: bool, retried: bool)
    requires Lossless(codec) && |remote| <= MAX_FILE_SIZE
    ensures retried <==> Offset(local) > |remote|
    ensures result != StalePartial
    ensures result == Downloaded ==> local'.Some? && hash(local'.value) == hash(remote)
    ensures undisturbed && (retried || MatchingPrefix(local, remote)) ==>
              result == Downloaded && local' == Some(remote)
    // a matching partial, or one that is too long, always ends as the remote file if nothing goes wrong
    ensures MatchingPrefix(local, remote) && Smooth(hash, codec, remote, Offset(local), acceptZstd, first) ==>
              result == Downloaded && local' == Some(remote)
    ensures Offset(local) > |remote| && Smooth(hash, codec, remote, 0, acceptZstd, second) ==>
              result == Downloaded && local' == Some(remote)
    ensures undisturbed && !retried && hash(Completed(local, remote)) != hash(remote) ==>
              result == GetResult.ChecksumMismatch && local' == None
  {
    hide Smooth;
    result, local', undisturbed := GetOnce(hash, codec, remote, local, acceptZstd, first);
    retried := result == StalePartial;
    if retried {
      result, local', undisturbed := GetOnce(hash, codec, remote, local', acceptZstd, second);
      assert Completed(None, remote) == remote;
    } else if MatchingPrefix(local, remote) {
      assert Completed(local, remote) == remote;
    }
  }
}
