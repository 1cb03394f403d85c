/**
 * A codec that keeps every promise asked of the compression library, so that
 * results about lossless codecs are about something: each byte is sent behind
 * a 1, and a 0 ends the frame.
 */
module EscapeCodec {
  import opened Bytes
  import opened Compress

  function Escaped(plain: seq<Byte>): (r: seq<Byte>)
    ensures |r| == 2 * |plain|
  {
    if plain == [] then [] else [1, plain[0]] + Escaped(plain[1..])
  }

  /** What a stream says: its plaintext, how much of it belongs to the frame, and whether the frame has ended. */
  datatype Reading = Reading(plain: seq<Byte>, used: nat, done: bool)

  function Read(stream: seq<Byte>): (r: Reading)
    ensures r.used <= |stream|
  {
    if stream == [] then Reading([], 0, false)
    else if stream[0] == 0 || |stream| == 1 then Reading([], 1, stream[0] == 0)
    else
      var rest := Read(stream[2..]);
      Reading([stream[1]] + rest.plain, 2 + rest.used, rest.done)
  }

  /** The decoder takes all of the frame it is given and emits what there is room for. */
  function Step(fed: seq<Byte>, emitted: nat, input: seq<Byte>, capacity: nat): StepAnswer {
    var r := Read(fed + input);
    var upTo := Min(|r.plain|, emitted + capacity);
    var out := if emitted <= upTo then r.plain[emitted..upTo] else [];
    Ran(if |fed| <= r.used then r.used - |fed| else 0, out, if r.done && |r.plain| <= emitted + |out| then 0 else 1)
  }

  function EscapeCodec(): Codec {
    Codec((before, chunk) => Some(Escaped(chunk)), before => Some([0]), (before, turn) => (1, 1), Step)
  }

  lemma {:induction false} EscapedAppend(a: seq<Byte>, b: seq<Byte>)
    ensures Escaped(a + b) == Escaped(a) + Escaped(b)
  {
    if a == [] {
      assert a + b == b;
    } else {
      assert (a + b)[1..] == a[1..] + b;
      EscapedAppend(a[1..], b);
    }
  }

  /** A stream that agrees with a frame reads as that frame, or as a part of it. */
  lemma {:induction false} ReadsFrame(plain: seq<Byte>, stream: seq<Byte>)
    requires Compatible(stream, Escaped(plain) + [0])
    ensures var frame := Escaped(plain) + [0];
            Read(stream) == if frame <= stream then Reading(plain, |frame|, true)
                            else Reading(plain[..|stream| / 2], |stream|, false)
  {
    var frame := Escaped(plain) + [0];
    if |stream| >= 1 {
      assert stream[0] == frame[0];
    }
    if |stream| >= 2 && plain != [] {
      var rest := Escaped(plain[1..]) + [0];
      assert frame == [1, plain[0]] + rest;
      assert stream[1] == frame[1];
      assert stream == [1, plain[0]] + stream[2..];
      assert stream <= frame ==> stream[2..] == frame[2..|stream|];
      assert frame <= stream ==> rest == stream[2..][..|rest|];
      ReadsFrame(plain[1..], stream[2..]);
      assert frame <= stream <==> rest <= stream[2..];
      assert [plain[0]] + plain[1..] == plain;
      if stream < frame {
        assert [plain[0]] + plain[1..][..|stream[2..]| / 2] == plain[..|stream| / 2];
      }
    }
  }

  /**
   * The answer takes all that belongs to the frame, and emits what is known of the plaintext, as
   * far as there is room.
   */
  predicate Gives(a: StepAnswer, r: Reading, plain: seq<Byte>, taken: nat, emitted: nat, capacity: nat) {
    var n := if emitted <= |r.plain| then Min(|r.plain| - emitted, capacity) else 0;
    && a.Ran? && |a.out| == n && taken + a.consumed == r.used
    && emitted + n <= |plain| && a.out == plain[emitted..emitted + n]
    && (a.remaining == 0 <==> r.done && |r.plain| <= emitted + n)
  }

  lemma StepGives(plain: seq<Byte>, fed: seq<Byte>, emitted: nat, input: seq<Byte>, capacity: nat)
    requires Read(fed + input).plain <= plain && emitted <= |plain| && |fed| <= Read(fed + input).used && capacity > 0
    ensures Gives(Run(Step, fed, emitted, input, capacity), Read(fed + input), plain, |fed|, emitted, capacity)
  {
    hide Read;
  }

  lemma GivesDecodes(plain: seq<Byte>, frame: seq<Byte>, fed: seq<Byte>, emitted: nat, input: seq<Byte>, capacity: nat,
                     r: Reading)
    requires Gives(Run(Step, fed, emitted, input, capacity), r, plain, |fed|, emitted, capacity)
    requires if frame <= fed + input then r == Reading(plain, |frame|, true)
             else r.used == |fed + input| < |frame| && !r.done
    requires emitted <= |plain| && capacity > 0
    ensures StepDecodes(Step, frame, plain, fed, emitted, input, capacity)
  {
    hide Run, Step;
  }

  lemma StepIsRight(plain: seq<Byte>, frame: seq<Byte>, fed: seq<Byte>, emitted: nat, input: seq<Byte>, capacity: nat)
    requires frame == Escaped(plain) + [0] && fed <= frame && emitted <= |plain|
    requires Compatible(fed + input, frame) && capacity > 0
    ensures StepDecodes(Step, frame, plain, fed, emitted, input, capacity)
  {
    hide Read, Escaped, StepDecodes, Step, Run, Gives;
    ReadsFrame(plain, fed + input);
    StepGives(plain, fed, emitted, input, capacity);
    GivesDecodes(plain, frame, fed, emitted, input, capacity, Read(fed + input));
  }

  lemma {:induction false} ProducedIsEscaped(chunks: seq<seq<Byte>>)
    ensures Produced(EscapeCodec(), chunks) == Some(Escaped(Flatten(chunks)))
    decreases |chunks|
  {
    hide Flatten;
    if chunks == [] {
      FlattenNothing();
    } else {
      var n := |chunks| - 1;
      ProducedIsEscaped(chunks[..n]);
      FlattenTake(chunks, n);
      assert chunks[..n + 1] == chunks;
      EscapedAppend(Flatten(chunks[..n]), chunks[n]);
    }
  }

  lemma FlattenNothing()
    ensures Flatten<Byte>([]) == []
  {
  }

  /** The codec finishes every frame, and its frames decode to what was pushed. */
  lemma EscapeCodecIsLossless()
    ensures Lossless(EscapeCodec()) && Advances(EscapeCodec())
  {
    hide StepDecodes, Flatten, Escaped, Step;
    var codec := EscapeCodec();
    forall chunks: seq<seq<Byte>>
      ensures Frame(codec, chunks) == Some(Escaped(Flatten(chunks)) + [0])
      ensures Decodes(codec.decoder, Frame(codec, chunks).value, Flatten(chunks))
    {
      ProducedIsEscaped(chunks);
      var plain := Flatten(chunks);
      forall fed: seq<Byte>, emitted: nat, input: seq<Byte>, capacity: nat
        | && fed <= Escaped(plain) + [0] && emitted <= |plain|
          && Compatible(fed + input, Escaped(plain) + [0]) && capacity > 0
        ensures StepDecodes(Step, Escaped(plain) + [0], plain, fed, emitted, input, capacity)
      {
        StepIsRight(plain, Escaped(plain) + [0], fed, emitted, input, capacity);
      }
    }
  }
}
