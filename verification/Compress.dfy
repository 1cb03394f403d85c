/**
 * The chunk-oriented codec wrappers around zstd. The library itself is a
 * parameter: `DecoderStep` is one call of its raw decoder, `Codec` one of
 * its encoder. What the library promises is the predicate `Decodes`.
 */
module Compress {
  import opened Bytes

  const CODEC_CHUNK: nat := 64 * 1024

  // ---- the raw decoder --------------------------------------------------

  datatype StepAnswer = Broken | Ran(consumed: nat, out: seq<Byte>, remaining: nat)

  /** frame bytes consumed so far, plaintext emitted so far, input, output capacity */
  type DecoderStep = (seq<Byte>, nat, seq<Byte>, nat) -> StepAnswer

  /** The in- and out-buffers bound what one call can consume and produce. */
  function Run(step: DecoderStep, fed: seq<Byte>, emitted: nat, input: seq<Byte>, capacity: nat): (a: StepAnswer)
    ensures a.Ran? ==> a.consumed <= |input| && |a.out| <= capacity
  {
    match step(fed, emitted, input, capacity)
    case Broken => Broken
    case Ran(c, out, r) => Ran(Min(c, |input|), out[..Min(|out|, capacity)], r)
  }

  /** One stream begins with the other, so nothing read so far contradicts the frame. */
  predicate Compatible(s: seq<Byte>, frame: seq<Byte>) {
    s <= frame || frame <= s
  }

  /** What a single call promises while the frame is not finished. */
  predicate StepDecodes(step: DecoderStep, frame: seq<Byte>, plain: seq<Byte>,
                        fed: seq<Byte>, emitted: nat, input: seq<Byte>, capacity: nat)
  {
    var a := Run(step, fed, emitted, input, capacity);
    && a.Ran?
    // never reads past the frame, and emits the next plaintext bytes
    && |fed| + a.consumed <= |frame|
    && emitted + |a.out| <= |plain|
    && a.out == plain[emitted..emitted + |a.out|]
    && (a.remaining == 0 <==> |fed| + a.consumed == |frame| && emitted + |a.out| == |plain|)
    // it stops early only for want of input, and holds nothing back while there is room
    && (a.remaining != 0 && |a.out| < capacity ==> a.consumed == |input|)
    && (|fed| + a.consumed == |frame| && |a.out| < capacity ==> emitted + |a.out| == |plain|)
  }

  /** `frame` is a self-delimiting encoding of `plain`. */
  ghost predicate Decodes(step: DecoderStep, frame: seq<Byte>, plain: seq<Byte>) {
    forall fed: seq<Byte>, emitted: nat, input: seq<Byte>, capacity: nat ::
      fed <= frame && emitted <= |plain| && !(fed == frame && emitted == |plain|)
      && Compatible(fed + input, frame) && capacity > 0
      ==> StepDecodes(step, frame, plain, fed, emitted, input, capacity)
  }

  // ---- pushing a chunk --------------------------------------------------

  datatype CodecError = CodecFailure | PlaintextLimit | NoProgress

  datatype Pushed = Failed(error: CodecError) | Progress(consumed: nat, out: seq<Byte>, complete: bool)

  /** What the caller of `push` gets to see: the plaintext waits in the decoder. */
  datatype DecodeProgress = Rejected(error: CodecError) | Moved(consumed: nat, frameComplete: bool)

  function Reported(p: Pushed): DecodeProgress {
    match p
    case Failed(e) => Rejected(e)
    case Progress(c, _, done) => Moved(c, done)
  }

  function Room(decoded: nat, max: nat): nat {
    if decoded <= max then max - decoded else 0
  }

  function Capacity(room: nat): (c: nat)
    ensures c > 0
  {
    if room == 0 then 1 else Min(CODEC_CHUNK, room)
  }

  /** One `push`: terminates because every further turn uses input or plaintext room. */
  function PushSpec(step: DecoderStep, fed: seq<Byte>, decoded: nat, max: nat, input: seq<Byte>): (r: Pushed)
    requires decoded <= max
    ensures r.Progress? ==> r.consumed <= |input| && decoded + |r.out| <= max
    decreases |input| + (max - decoded)
  {
    var room := Room(decoded, max);
    match Run(step, fed, decoded, input, Capacity(room))
    case Broken => Failed(CodecFailure)
    case Ran(c, out, remaining) =>
      if |out| > room then Failed(PlaintextLimit)
      else if remaining == 0 then Progress(c, out, true)
      else if c == |input| && |out| < Capacity(room) then Progress(c, out, false)
      else if c == 0 && |out| == 0 then Failed(NoProgress)
      else
        After(c, out, PushSpec(step, fed + input[..c], decoded + |out|, max, input[c..]))
  }

  /** Progress made after `consumed` bytes of the same chunk had already yielded `out`. */
  function After(consumed: nat, out: seq<Byte>, rest: Pushed): Pushed {
    match rest
    case Failed(e) => Failed(e)
    case Progress(c, out', done) => Progress(consumed + c, out + out', done)
  }

  /** A push that ends in this turn ends the whole push. */
  lemma AfterEnd(consumed: nat, out: seq<Byte>, p: Pushed)
    ensures p.Failed? ==> After(consumed, out, p) == p
    ensures p.Progress? ==> After(consumed, out, p) == Progress(consumed + p.consumed, out + p.out, p.complete)
  {
  }

  lemma AfterNothing(p: Pushed)
    ensures After(0, [], p) == p
  {
  }

  lemma AfterAfter(c1: nat, out1: seq<Byte>, c2: nat, out2: seq<Byte>, rest: Pushed)
    ensures After(c1, out1, After(c2, out2, rest)) == After(c1 + c2, out1 + out2, rest)
  {
    if rest.Progress? {
      assert out1 + (out2 + rest.out) == out1 + out2 + rest.out;
    }
  }

  /** One turn of `push`. */
  lemma PushTurn(step: DecoderStep, fed: seq<Byte>, decoded: nat, max: nat, input: seq<Byte>)
    requires decoded <= max
    ensures var room := Room(decoded, max);
            var a := Run(step, fed, decoded, input, Capacity(room));
            var r := PushSpec(step, fed, decoded, max, input);
            if a.Broken? then r == Failed(CodecFailure)
            else if |a.out| > room then r == Failed(PlaintextLimit)
            else if a.remaining == 0 then r == Progress(a.consumed, a.out, true)
            else if a.consumed == |input| && |a.out| < Capacity(room) then r == Progress(a.consumed, a.out, false)
            else if a.consumed == 0 && |a.out| == 0 then r == Failed(NoProgress)
            else r == After(a.consumed, a.out,
                            PushSpec(step, fed + input[..a.consumed], decoded + |a.out|, max, input[a.consumed..]))
  {
  }

  lemma CompatibleTake(fed: seq<Byte>, input: seq<Byte>, c: nat, frame: seq<Byte>)
    requires Compatible(fed + input, frame) && c <= |input| && |fed| + c <= |frame|
    ensures fed + input[..c] <= frame && fed + input[..c] + input[c..] == fed + input
  {
    assert fed + input[..c] == (fed + input)[..|fed| + c];
    if fed + input <= frame {
      assert (fed + input)[..|fed| + c] == frame[..|fed| + c];
    } else {
      assert (fed + input)[..|fed| + c] == frame[..|fed| + c];
    }
  }

  /**
   * On a self-delimiting frame with at least the plaintext's room, a push
   * never fails, yields the next plaintext bytes, completes exactly when the
   * whole frame has been fed, and then leaves every later byte unconsumed.
   */
  lemma {:induction false} PushDecodes(step: DecoderStep, frame: seq<Byte>, plain: seq<Byte>,
                                       fed: seq<Byte>, decoded: nat, max: nat, input: seq<Byte>)
    requires Decodes(step, frame, plain) && |plain| <= max
    requires fed <= frame && decoded <= |plain| && !(fed == frame && decoded == |plain|)
    requires Compatible(fed + input, frame)
    ensures var r := PushSpec(step, fed, decoded, max, input);
            && r.Progress?
            && decoded + |r.out| <= |plain| && r.out == plain[decoded..decoded + |r.out|]
            && (r.complete <==> frame <= fed + input)
            && (if r.complete then |fed| + r.consumed == |frame| && decoded + |r.out| == |plain|
                else r.consumed == |input|)
    decreases |input| + (max - decoded)
  {
    hide PushSpec, Run, Capacity, Compatible;
    var room := Room(decoded, max);
    PushTurn(step, fed, decoded, max, input);
    assert StepDecodes(step, frame, plain, fed, decoded, input, Capacity(room));
    var a := Run(step, fed, decoded, input, Capacity(room));
    CompatibleTake(fed, input, a.consumed, frame);
    if a.remaining != 0 && !(a.consumed == |input| && |a.out| < Capacity(room)) {
      var fed', decoded' := fed + input[..a.consumed], decoded + |a.out|;
      PushDecodes(step, frame, plain, fed', decoded', max, input[a.consumed..]);
      var r := PushSpec(step, fed', decoded', max, input[a.consumed..]);
      assert plain[decoded..decoded' + |r.out|] == a.out + r.out;
    }
  }

  lemma CutFurther(s: seq<Byte>, pos: nat, n: nat)
    requires pos + n <= |s|
    ensures s[..pos + n] == s[..pos] + s[pos..][..n] && s[pos + n..] == s[pos..][n..]
  {
  }

  class ZstdDecoder {
    const step: DecoderStep
    const maxPlaintext: nat
    /** Frame bytes the raw decoder has consumed: its whole state. */
    var fed: seq<Byte>
    var pending: seq<Byte>
    var pendingPos: nat
    var decoded: nat
    var frameComplete: bool

    /** The plaintext cap is never exceeded. */
    ghost predicate Valid()
      reads this
    {
      decoded <= maxPlaintext && pendingPos <= |pending|
    }

    constructor (step: DecoderStep, maxPlaintext: nat)
      ensures Valid() && this.step == step && this.maxPlaintext == maxPlaintext
      ensures fed == [] && decoded == 0 && !frameComplete && Pending() == []
    {
      this.step := step;
      this.maxPlaintext := maxPlaintext;
      fed, pending, pendingPos, decoded, frameComplete := [], [], 0, 0, false;
    }

    function Pending(): seq<Byte>
      requires pendingPos <= |pending|
      reads this`pending, this`pendingPos
    {
      pending[pendingPos..]
    }

    /** `run_decoder_step`: one call of the raw decoder, its output moved to `pending`. */
    method RunDecoderStep(input: seq<Byte>, capacity: nat) returns (answer: StepAnswer)
      requires Valid() && !frameComplete
      modifies this`fed, this`pending, this`decoded
      ensures Valid() && answer == Run(step, old(fed), old(decoded), input, capacity)
      ensures answer.Ran? && |answer.out| <= Room(old(decoded), maxPlaintext) ==>
                && fed == old(fed) + input[..answer.consumed]
                && decoded == old(decoded) + |answer.out|
                && Pending() == old(Pending()) + answer.out
    {
      answer := Run(step, fed, decoded, input, capacity);
      if answer.Ran? && |answer.out| <= Room(decoded, maxPlaintext) {
        fed := fed + input[..answer.consumed];
        decoded := decoded + |answer.out|;
        pending := pending + answer.out;
      }
    }

    method Push(compressed: seq<Byte>) returns (r: DecodeProgress)
      requires Valid()
      modifies this
      ensures Valid()
      ensures old(frameComplete) ==>
                && r == Moved(0, true) && frameComplete
                && Pending() == old(Pending()) && decoded == old(decoded) && fed == old(fed)
      ensures !old(frameComplete) ==>
                var p := PushSpec(step, old(fed), old(decoded), maxPlaintext, compressed);
                && r == Reported(p)
                && (p.Progress? ==>
                      && fed == old(fed) + compressed[..p.consumed]
                      && decoded == old(decoded) + |p.out|
                      && Pending() == old(Pending()) + p.out
                      && frameComplete == p.complete)
    {
      hide PushSpec, Run, After, ZstdDecoder.Pending;
      if frameComplete {
        return Moved(0, true);
      }
      var pos := 0;
      ghost var out: seq<Byte> := [];
      assert compressed[0..] == compressed;
      AfterNothing(PushSpec(step, fed, decoded, maxPlaintext, compressed));
      while true
        invariant pos <= |compressed| && Valid() && !frameComplete
        invariant fed == old(fed) + compressed[..pos]
        invariant decoded == old(decoded) + |out| && Pending() == old(Pending()) + out
        invariant PushSpec(step, old(fed), old(decoded), maxPlaintext, compressed)
               == After(pos, out, PushSpec(step, fed, decoded, maxPlaintext, compressed[pos..]))
        decreases |compressed| - pos + (maxPlaintext - decoded)
      {
        var room := Room(decoded, maxPlaintext);
        var capacity := Capacity(room);
        var input := compressed[pos..];
        PushTurn(step, fed, decoded, maxPlaintext, input);
        AfterEnd(pos, out, PushSpec(step, fed, decoded, maxPlaintext, input));
        var answer := RunDecoderStep(input, capacity);
        if answer.Broken? {
          return Rejected(CodecFailure);
        }
        var consumed, written := answer.consumed, |answer.out|;
        if written > room {
          return Rejected(PlaintextLimit);
        }
        CutFurther(compressed, pos, consumed);
        AfterAfter(pos, out, consumed, answer.out, PushSpec(step, fed, decoded, maxPlaintext, input[consumed..]));
        out := out + answer.out;
        pos := pos + consumed;
        if answer.remaining == 0 {
          frameComplete := true;
          return Moved(pos, true);
        }
        if pos == |compressed| && written < capacity {
          return Moved(pos, false);
        }
        if consumed == 0 && written == 0 {
          return Rejected(NoProgress);
        }
      }
    }

    method Consume(len: nat)
      requires Valid() && len <= |Pending()|
      modifies this`pending, this`pendingPos
      ensures Valid() && Pending() == old(Pending())[len..]
    {
      pendingPos := pendingPos + len;
      if pendingPos == |pending| {
        pending, pendingPos := [], 0;
      }
    }
  }

  // ---- the encoder ------------------------------------------------------

  /**
   * The compressor, as a function of the chunks pushed before: what a push,
   * or the final flush, adds to its output. `None` is a codec error. Each of
   * its calls takes some input and writes some output: `pace` says how much.
   */
  datatype Codec = Codec(
    compress: (seq<seq<Byte>>, seq<Byte>) -> Option<seq<Byte>>,
    flush: seq<seq<Byte>> -> Option<seq<Byte>>,
    pace: (seq<seq<Byte>>, nat) -> (nat, nat),
    decoder: DecoderStep)

  /**
   * What the call numbered `turn` takes of `input` bytes and writes of the
   * `output` bytes still due. With all the input it holds back only what has
   * no room.
   */
  function EncoderRun(codec: Codec, chunks: seq<seq<Byte>>, turn: nat, input: nat, output: nat): (r: (nat, nat))
    ensures r.0 <= input && r.1 <= output && r.1 <= CODEC_CHUNK
    ensures r.0 == input && r.1 < CODEC_CHUNK ==> r.1 == output
  {
    var take := Min(codec.pace(chunks, turn).0, input);
    var room := Min(output, CODEC_CHUNK);
    (take, if take == input then room else Min(codec.pace(chunks, turn).1, room))
  }

  /** What the flush call numbered `turn` writes; it may stop short of what there is room for. */
  function FlushRun(codec: Codec, chunks: seq<seq<Byte>>, turn: nat, output: nat): (wrote: nat)
    ensures wrote <= output && wrote <= CODEC_CHUNK
  {
    Min(codec.pace(chunks, turn).1, Min(output, CODEC_CHUNK))
  }

  /** No call of the library comes back empty-handed while it has something to do. */
  ghost predicate Advances(codec: Codec) {
    forall chunks: seq<seq<Byte>>, turn: nat :: codec.pace(chunks, turn).0 > 0 && codec.pace(chunks, turn).1 > 0
  }

  /** Everything the encoder has produced after `chunks` were pushed; `None` once a push has failed. */
  function Produced(codec: Codec, chunks: seq<seq<Byte>>): Option<seq<Byte>> {
    if chunks == [] then Some([])
    else
      var before := chunks[..|chunks| - 1];
      var rest := Produced(codec, before);
      var last := codec.compress(before, chunks[|chunks| - 1]);
      if rest.None? || last.None? then None else Some(rest.value + last.value)
  }

  /** The finished frame. */
  function Frame(codec: Codec, chunks: seq<seq<Byte>>): Option<seq<Byte>> {
    var body := Produced(codec, chunks);
    var tail := codec.flush(chunks);
    if body.None? || tail.None? then None else Some(body.value + tail.value)
  }

  /** The library's round-trip promise: it finishes every frame, and the frame decodes to what was pushed. */
  ghost predicate Lossless(codec: Codec) {
    forall chunks: seq<seq<Byte>> ::
      && Frame(codec, chunks).Some? && |Frame(codec, chunks).value| > 0
      && Decodes(codec.decoder, Frame(codec, chunks).value, Flatten(chunks))
  }

  lemma {:induction false} ProducedGrows(codec: Codec, chunks: seq<seq<Byte>>, k: nat)
    requires k <= |chunks| && Produced(codec, chunks).Some?
    ensures Produced(codec, chunks[..k]).Some?
    ensures Produced(codec, chunks[..k]).value <= Produced(codec, chunks).value
  {
    if k == |chunks| {
      assert chunks[..k] == chunks;
    } else {
      var before := chunks[..|chunks| - 1];
      assert before[..k] == chunks[..k];
      ProducedGrows(codec, before, k);
    }
  }

  /** Streaming encoder with drainable output: `pending` starts at `pendingPos`. */
  class ZstdEncoder {
    const codec: Codec
    /** Chunks pushed so far: the whole state of the raw encoder. */
    var chunks: seq<seq<Byte>>
    var pending: seq<Byte>
    var pendingPos: nat
    var finished: bool
    /** Output already handed to the transport. */
    ghost var drained: seq<Byte>

    /** What was drained and what is pending are, in this order, all the output so far. */
    ghost predicate Valid()
      reads this
    {
      && pendingPos <= |pending|
      && (if finished then Frame(codec, chunks).Some? && drained + Pending() == Frame(codec, chunks).value
          else Produced(codec, chunks).Some? && drained + Pending() == Produced(codec, chunks).value)
    }

    /** What was drained is output of the chunks pushed; this survives a failed call. */
    ghost predicate Sound()
      reads this
    {
      if finished then Frame(codec, chunks).Some? && drained <= Frame(codec, chunks).value
      else Produced(codec, chunks).Some? && drained <= Produced(codec, chunks).value
    }

    constructor (codec: Codec)
      ensures Valid() && this.codec == codec && chunks == [] && !finished && drained == [] && Pending() == []
    {
      this.codec := codec;
      chunks, pending, pendingPos, finished, drained := [], [], 0, false, [];
    }

    function Pending(): seq<Byte>
      requires pendingPos <= |pending|
      reads this`pending, this`pendingPos
    {
      pending[pendingPos..]
    }

    method Push(plaintext: seq<Byte>) returns (ok: bool)
      requires Valid() && !finished
      modifies this`chunks, this`pending
      ensures ok ==> codec.compress(old(chunks), plaintext).Some?
      ensures ok ==> Valid() && chunks == old(chunks) + [plaintext]
      ensures !ok ==> Sound() && chunks == old(chunks) && (codec.compress(chunks, plaintext).None? || !Advances(codec))
    {
      var out := codec.compress(chunks, plaintext);
      if out.None? {
        return false;
      }
      var pos, written, turn := 0, 0, 0;
      while true
        invariant pos <= |plaintext| && written <= |out.value| && chunks == old(chunks)
        invariant pending == old(pending) + out.value[..written]
        decreases |plaintext| - pos + (|out.value| - written)
      {
        var (take, wrote) := EncoderRun(codec, chunks, turn, |plaintext| - pos, |out.value| - written);
        pending := pending + out.value[written..written + wrote];
        pos, written, turn := pos + take, written + wrote, turn + 1;
        if pos == |plaintext| && wrote < CODEC_CHUNK {
          break;
        }
        if take == 0 && wrote == 0 {
          return false;
        }
      }
      assert (chunks + [plaintext])[..|chunks|] == chunks;
      chunks := chunks + [plaintext];
      ok := true;
    }

    method Finish() returns (ok: bool)
      requires Valid()
      modifies this`pending, this`finished
      ensures ok ==> old(finished) || codec.flush(chunks).Some?
      ensures ok ==> Valid() && finished
      ensures !ok ==> Sound() && !finished && (codec.flush(chunks).None? || !Advances(codec))
    {
      if finished {
        return true;
      }
      var out := codec.flush(chunks);
      if out.None? {
        return false;
      }
      var written, turn := 0, 0;
      while true
        invariant written <= |out.value| && !finished
        invariant pending == old(pending) + out.value[..written]
        decreases |out.value| - written
      {
        var wrote := FlushRun(codec, chunks, turn, |out.value| - written);
        pending := pending + out.value[written..written + wrote];
        written, turn := written + wrote, turn + 1;
        if written == |out.value| {
          break;
        }
        if wrote == 0 {
          return false;
        }
      }
      finished := true;
      ok := true;
    }

    method Consume(len: nat)
      requires Valid() && len <= |Pending()|
      modifies this`pending, this`pendingPos, this`drained
      ensures Valid() && Pending() == old(Pending())[len..]
      ensures drained == old(drained) + old(Pending())[..len]
    {
      drained := drained + Pending()[..len];
      pendingPos := pendingPos + len;
      if pendingPos == |pending| {
        pending, pendingPos := [], 0;
      }
    }
  }
}
