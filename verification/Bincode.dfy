/**
 * The bincode encoding both peers use (fixed-width little-endian integers,
 * `u32` variant tags, `u64` lengths), over the values a message is made of.
 */
module Bincode {
  import opened Bytes
  import opened Integers

  datatype Ty =
    | TBool
    | TU8
    | TU32
    | TU64
    | TStr
    | TOption(some: Ty)
    | TSeq(elem: Ty)
    | TTuple(fields: seq<Ty>)
    | TEnum(variants: seq<Ty>)

  datatype Val =
    | VBool(b: bool)
    | VU8(byte: Byte)
    | VU32(w: nat)
    | VU64(l: nat)
    | VStr(text: seq<Byte>)
    | VNone
    | VSome(inner: Val)
    | VSeq(elems: seq<Val>)
    | VTuple(vals: seq<Val>)
    | VEnum(tag: nat, payload: Val)

  predicate Continues(b: seq<Byte>, n: nat) {
    n <= |b| && forall i :: 1 <= i < n ==> 0x80 <= b[i] <= 0xBF
  }

  /** The length of the UTF-8 sequence at the head of `b` (section 4 of RFC 3629), or 0. */
  function Utf8Head(b: seq<Byte>): (n: nat)
    requires b != []
    ensures n <= |b|
  {
    var c := b[0];
    if c < 0x80 then 1
    else if 0xC2 <= c <= 0xDF && Continues(b, 2) then 2
    else if 0xE0 <= c <= 0xEF && Continues(b, 3) && (c == 0xE0 ==> b[1] >= 0xA0) && (c == 0xED ==> b[1] <= 0x9F) then 3
    else if 0xF0 <= c <= 0xF4 && Continues(b, 4) && (c == 0xF0 ==> b[1] >= 0x90) && (c == 0xF4 ==> b[1] <= 0x8F) then 4
    else 0
  }

  predicate IsUtf8(b: seq<Byte>) {
    b == [] || (Utf8Head(b) > 0 && IsUtf8(b[Utf8Head(b)..]))
  }

  /** Values of a type, in the range of their integers. */
  predicate Typed(t: Ty, v: Val)
    decreases v
  {
    match (t, v)
    case (TBool, VBool(_)) => true
    case (TU8, VU8(_)) => true
    case (TU32, VU32(n)) => n < U32
    case (TU64, VU64(n)) => n < U64
    case (TStr, VStr(s)) => |s| < U64 && IsUtf8(s)
    case (TOption(_), VNone) => true
    case (TOption(e), VSome(x)) => Typed(e, x)
    case (TSeq(e), VSeq(xs)) => |xs| < U64 && forall i :: 0 <= i < |xs| ==> Typed(e, xs[i])
    case (TTuple(ts), VTuple(xs)) => |ts| == |xs| && forall i :: 0 <= i < |xs| ==> Typed(ts[i], xs[i])
    case (TEnum(ts), VEnum(tag, x)) => tag < |ts| && tag < U32 && Typed(ts[tag], x)
    case _ => false
  }

  function Encode(v: Val): seq<Byte>
    decreases v
  {
    match v
    case VBool(b) => [if b then 1 else 0]
    case VU8(b) => [b]
    case VU32(n) => LittleEndian(n, 4)
    case VU64(n) => LittleEndian(n, 8)
    case VStr(s) => LittleEndian(|s|, 8) + s
    case VNone => [0]
    case VSome(x) => [1] + Encode(x)
    case VSeq(xs) => LittleEndian(|xs|, 8) + EncodeAll(xs)
    case VTuple(xs) => EncodeAll(xs)
    case VEnum(tag, x) => LittleEndian(tag, 4) + Encode(x)
  }

  function EncodeAll(vs: seq<Val>): seq<Byte>
    decreases vs
  {
    if vs == [] then [] else Encode(vs[0]) + EncodeAll(vs[1..])
  }

  type Parsed<T> = Option<(T, seq<Byte>)>

  function TakeInt(b: seq<Byte>, w: nat): Parsed<nat> {
    if |b| < w then None else Some((FromLittleEndian(b[..w]), b[w..]))
  }

  /** Decode a value of the type from the front; the bytes after it are left. */
  function Decode(t: Ty, b: seq<Byte>): Parsed<Val>
    decreases t, 0
  {
    match t
    case TBool => if b == [] || b[0] > 1 then None else Some((VBool(b[0] == 1), b[1..]))
    case TU8 => if b == [] then None else Some((VU8(b[0]), b[1..]))
    case TU32 => (match TakeInt(b, 4) case None => None case Some((n, rest)) => Some((VU32(n), rest)))
    case TU64 => (match TakeInt(b, 8) case None => None case Some((n, rest)) => Some((VU64(n), rest)))
    case TStr =>
      (match TakeInt(b, 8)
       case None => None
       case Some((n, rest)) => if n <= |rest| && IsUtf8(rest[..n]) then Some((VStr(rest[..n]), rest[n..])) else None)
    case TOption(e) =>
      if b == [] || b[0] > 1 then None
      else if b[0] == 0 then Some((VNone, b[1..]))
      else (match Decode(e, b[1..]) case None => None case Some((x, rest)) => Some((VSome(x), rest)))
    case TSeq(e) =>
      (match TakeInt(b, 8)
       case None => None
       case Some((n, rest)) =>
         match DecodeMany(e, n, rest) case None => None case Some((xs, after)) => Some((VSeq(xs), after)))
    case TTuple(ts) =>
      (match DecodeAll(ts, b) case None => None case Some((xs, rest)) => Some((VTuple(xs), rest)))
    case TEnum(ts) =>
      (match TakeInt(b, 4)
       case None => None
       case Some((tag, rest)) =>
         if tag < |ts| then
           match Decode(ts[tag], rest) case None => None case Some((x, after)) => Some((VEnum(tag, x), after))
         else None)
  }

  function DecodeMany(e: Ty, n: nat, b: seq<Byte>): Parsed<seq<Val>>
    decreases e, 1, n
  {
    if n == 0 then Some(([], b))
    else
      match Decode(e, b)
      case None => None
      case Some((x, rest)) =>
        match DecodeMany(e, n - 1, rest) case None => None case Some((xs, after)) => Some(([x] + xs, after))
  }

  function DecodeAll(ts: seq<Ty>, b: seq<Byte>): Parsed<seq<Val>>
    decreases ts, 0
  {
    if ts == [] then Some(([], b))
    else
      match Decode(ts[0], b)
      case None => None
      case Some((x, rest)) =>
        match DecodeAll(ts[1..], rest) case None => None case Some((xs, after)) => Some(([x] + xs, after))
  }

  // ---- decoding undoes encoding -----------------------------------------

  lemma WidthOfRange()
    ensures Range(4) == U32 && Range(8) == U64
  {
    assert Range(2) == 0x1_0000;
    assert Range(4) == 256 * (256 * Range(2));
    assert Range(6) == 256 * (256 * Range(4));
    assert Range(8) == 256 * (256 * Range(6));
  }

  lemma TakesBack(n: nat, w: nat, rest: seq<Byte>)
    requires n < Range(w)
    ensures TakeInt(LittleEndian(n, w) + rest, w) == Some((n, rest))
  {
    LittleEndianReads(n, w);
    var b := LittleEndian(n, w) + rest;
    assert b[..w] == LittleEndian(n, w) && b[w..] == rest;
  }

  lemma DecodeEncodeFlat(t: Ty, v: Val, rest: seq<Byte>)
    requires Typed(t, v) && !(v.VSome? || v.VSeq? || v.VTuple? || v.VEnum?)
    ensures Decode(t, Encode(v) + rest) == Some((v, rest))
  {
    hide LittleEndian, FromLittleEndian, Range, IsUtf8, TakeInt;
    WidthOfRange();
    match v
    case VBool(_) =>
    case VU8(_) =>
    case VU32(n) => TakesBack(n, 4, rest);
    case VU64(n) => TakesBack(n, 8, rest);
    case VStr(s) =>
      TakesBack(|s|, 8, s + rest);
      assert Encode(v) + rest == LittleEndian(|s|, 8) + (s + rest);
      assert (s + rest)[..|s|] == s && (s + rest)[|s|..] == rest;
    case VNone =>
  }

  /** Decoding an encoding gives the value back, and leaves what follows it. */
  lemma {:induction false} DecodeEncode(t: Ty, v: Val, rest: seq<Byte>)
    requires Typed(t, v)
    ensures Decode(t, Encode(v) + rest) == Some((v, rest))
    decreases v, 0
  {
    hide LittleEndian, IsUtf8, TakeInt;
    if v.VSome? {
      DecodeEncode(t.some, v.inner, rest);
      assert (Encode(v) + rest)[1..] == Encode(v.inner) + rest;
    } else if v.VSeq? {
      DecodeEncodeSeq(t.elem, v.elems, rest);
    } else if v.VTuple? {
      DecodeEncodeAll(t.fields, v.vals, rest);
    } else if v.VEnum? {
      DecodeEncodeEnum(t.variants, v.tag, v.payload, rest);
    } else {
      DecodeEncodeFlat(t, v, rest);
    }
  }

  lemma {:induction false} DecodeEncodeSeq(e: Ty, xs: seq<Val>, rest: seq<Byte>)
    requires Typed(TSeq(e), VSeq(xs))
    ensures Decode(TSeq(e), Encode(VSeq(xs)) + rest) == Some((VSeq(xs), rest))
    decreases xs, 2
  {
    hide LittleEndian, FromLittleEndian, Range, TakeInt;
    WidthOfRange();
    TakesBack(|xs|, 8, EncodeAll(xs) + rest);
    assert Encode(VSeq(xs)) + rest == LittleEndian(|xs|, 8) + (EncodeAll(xs) + rest);
    DecodeEncodeMany(e, xs, rest);
  }

  lemma {:induction false} DecodeEncodeEnum(ts: seq<Ty>, tag: nat, x: Val, rest: seq<Byte>)
    requires Typed(TEnum(ts), VEnum(tag, x))
    ensures Decode(TEnum(ts), Encode(VEnum(tag, x)) + rest) == Some((VEnum(tag, x), rest))
    decreases x, 1
  {
    hide LittleEndian, FromLittleEndian, Range, TakeInt;
    WidthOfRange();
    TakesBack(tag, 4, Encode(x) + rest);
    assert Encode(VEnum(tag, x)) + rest == LittleEndian(tag, 4) + (Encode(x) + rest);
    DecodeEncode(ts[tag], x, rest);
  }

  lemma {:induction false} DecodeEncodeMany(e: Ty, xs: seq<Val>, rest: seq<Byte>)
    requires forall i :: 0 <= i < |xs| ==> Typed(e, xs[i])
    ensures DecodeMany(e, |xs|, EncodeAll(xs) + rest) == Some((xs, rest))
    decreases xs, 1
  {
    hide Decode, Encode;
    if xs == [] {
      assert EncodeAll(xs) + rest == rest;
    } else {
      DecodeEncode(e, xs[0], EncodeAll(xs[1..]) + rest);
      DecodeEncodeMany(e, xs[1..], rest);
      assert EncodeAll(xs) + rest == Encode(xs[0]) + (EncodeAll(xs[1..]) + rest);
      assert [xs[0]] + xs[1..] == xs;
    }
  }

  lemma {:induction false} DecodeEncodeAll(ts: seq<Ty>, xs: seq<Val>, rest: seq<Byte>)
    requires |ts| == |xs| && forall i :: 0 <= i < |xs| ==> Typed(ts[i], xs[i])
    ensures DecodeAll(ts, EncodeAll(xs) + rest) == Some((xs, rest))
    decreases xs, 1
  {
    hide Decode, Encode;
    if xs == [] {
      assert EncodeAll(xs) + rest == rest;
    } else {
      DecodeEncode(ts[0], xs[0], EncodeAll(xs[1..]) + rest);
      DecodeEncodeAll(ts[1..], xs[1..], rest);
      assert EncodeAll(xs) + rest == Encode(xs[0]) + (EncodeAll(xs[1..]) + rest);
      assert [xs[0]] + xs[1..] == xs;
    }
  }

  // ---- and encoding undoes decoding -------------------------------------

  lemma TakesCanonical(b: seq<Byte>, w: nat)
    requires TakeInt(b, w).Some?
    ensures var (n, rest) := TakeInt(b, w).value; n < Range(w) && b == LittleEndian(n, w) + rest
  {
    LittleEndianWrites(b[..w]);
    assert b == b[..w] + b[w..];
  }

  lemma EncodeDecodeFlat(t: Ty, b: seq<Byte>)
    requires Decode(t, b).Some? && (t.TBool? || t.TU8? || t.TU32? || t.TU64? || t.TStr?)
    ensures var (v, rest) := Decode(t, b).value; Typed(t, v) && b == Encode(v) + rest
  {
    hide LittleEndian, FromLittleEndian, Range, IsUtf8, TakeInt;
    WidthOfRange();
    match t
    case TBool => assert b == [b[0]] + b[1..];
    case TU8 => assert b == [b[0]] + b[1..];
    case TU32 => TakesCanonical(b, 4);
    case TU64 => TakesCanonical(b, 8);
    case TStr =>
      TakesCanonical(b, 8);
      var (n, rest) := TakeInt(b, 8).value;
      assert rest == rest[..n] + rest[n..];
      assert b == (LittleEndian(n, 8) + rest[..n]) + rest[n..];
  }

  /** Whatever decodes is the one encoding of what it decodes to, and bytes after it. */
  lemma {:induction false} EncodeDecode(t: Ty, b: seq<Byte>)
    requires Decode(t, b).Some?
    ensures var (v, rest) := Decode(t, b).value; Typed(t, v) && b == Encode(v) + rest
    decreases t, 0
  {
    hide LittleEndian, FromLittleEndian, Range, IsUtf8, TakeInt;
    WidthOfRange();
    if t.TOption? {
      if b[0] == 1 {
        EncodeDecode(t.some, b[1..]);
      }
      assert b == [b[0]] + b[1..];
    } else if t.TSeq? {
      EncodeDecodeSeq(t.elem, b);
    } else if t.TTuple? {
      EncodeDecodeAll(t.fields, b);
    } else if t.TEnum? {
      EncodeDecodeEnum(t.variants, b);
    } else {
      EncodeDecodeFlat(t, b);
    }
  }

  lemma {:induction false} EncodeDecodeSeq(e: Ty, b: seq<Byte>)
    requires Decode(TSeq(e), b).Some?
    ensures var (v, rest) := Decode(TSeq(e), b).value; Typed(TSeq(e), v) && b == Encode(v) + rest
    decreases e, 2
  {
    hide LittleEndian, FromLittleEndian, Range, TakeInt;
    WidthOfRange();
    TakesCanonical(b, 8);
    var (n, rest) := TakeInt(b, 8).value;
    EncodeDecodeMany(e, n, rest);
  }

  lemma {:induction false} EncodeDecodeEnum(ts: seq<Ty>, b: seq<Byte>)
    requires Decode(TEnum(ts), b).Some?
    ensures var (v, rest) := Decode(TEnum(ts), b).value; Typed(TEnum(ts), v) && b == Encode(v) + rest
    decreases ts, 0
  {
    hide LittleEndian, FromLittleEndian, Range, TakeInt;
    WidthOfRange();
    TakesCanonical(b, 4);
    var (tag, rest) := TakeInt(b, 4).value;
    EncodeDecode(ts[tag], rest);
  }

  lemma {:induction false} EncodeDecodeMany(e: Ty, n: nat, b: seq<Byte>)
    requires DecodeMany(e, n, b).Some?
    ensures var (xs, rest) := DecodeMany(e, n, b).value;
            |xs| == n && (forall i :: 0 <= i < n ==> Typed(e, xs[i])) && b == EncodeAll(xs) + rest
    decreases e, 1, n
  {
    hide Decode, Encode, Typed;
    if n > 0 {
      EncodeDecode(e, b);
      EncodeDecodeMany(e, n - 1, Decode(e, b).value.1);
    }
  }

  lemma {:induction false} EncodeDecodeAll(ts: seq<Ty>, b: seq<Byte>)
    requires DecodeAll(ts, b).Some?
    ensures var (xs, rest) := DecodeAll(ts, b).value;
            |xs| == |ts| && (forall i :: 0 <= i < |ts| ==> Typed(ts[i], xs[i])) && b == EncodeAll(xs) + rest
    decreases ts, 0
  {
    hide Decode, Encode, Typed;
    if ts != [] {
      EncodeDecode(ts[0], b);
      EncodeDecodeAll(ts[1..], Decode(ts[0], b).value.1);
    }
  }
}
