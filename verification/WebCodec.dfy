/**
 * The browser client's codec: its writer and reader, and its agreement with
 * the native encoding. JavaScript strings are the UTF-8 bytes `TextEncoder`
 * makes of them; numbers and BigInts are integers.
 */
module WebCodec {
  import opened Bytes
  import opened Codes
  import opened Integers
  import opened Bincode
  import Framing
  import P = Protocol
  import L = ProtocolLaws

  type Text = seq<Byte>

  // ---- tuples, field by field -------------------------------------------

  lemma {:induction false} EncodeAllAppend(xs: seq<Val>, ys: seq<Val>)
    ensures EncodeAll(xs + ys) == EncodeAll(xs) + EncodeAll(ys)
    decreases |xs|
  {
    hide Encode;
    if xs == [] {
      assert xs + ys == ys;
    } else {
      assert (xs + ys)[1..] == xs[1..] + ys;
      EncodeAllAppend(xs[1..], ys);
    }
  }

  lemma EncodeAllTake(vs: seq<Val>, i: nat)
    requires i < |vs|
    ensures EncodeAll(vs[..i + 1]) == EncodeAll(vs[..i]) + Encode(vs[i])
  {
    hide Encode;
    assert vs[..i + 1] == vs[..i] + [vs[i]];
    EncodeAllAppend(vs[..i], [vs[i]]);
    assert [vs[i]][1..] == [];
    assert EncodeAll([vs[i]]) == Encode(vs[i]) + [];
  }

  lemma EncodeAllDrop(vs: seq<Val>, i: nat, tail: seq<Byte>)
    requires i < |vs|
    ensures EncodeAll(vs[i..]) + tail == Encode(vs[i]) + (EncodeAll(vs[i + 1..]) + tail)
  {
    hide Encode;
    assert vs[i..][1..] == vs[i + 1..];
  }

  lemma EncodeMessage(tag: nat, vs: seq<Val>)
    ensures Encode(VEnum(tag, VTuple(vs))) == LittleEndian(tag, 4) + EncodeAll(vs)
  {
  }

  // ---- the writer -------------------------------------------------------

  class Writer {
    var parts: seq<seq<Byte>>
    var len: nat

    ghost predicate Valid()
      reads this
    {
      len == |Flatten(parts)|
    }

    ghost function Written(): seq<Byte>
      reads this
    {
      Flatten(parts)
    }

    constructor ()
      ensures Valid() && Written() == []
    {
      parts, len := [], 0;
    }

    method Push(arr: seq<Byte>)
      requires Valid()
      modifies this
      ensures Valid() && Written() == old(Written()) + arr
    {
      FlattenSnoc(parts, arr);
      parts, len := parts + [arr], len + |arr|;
    }

    method U8(v: int)
      requires Valid()
      modifies this
      ensures Valid() && Written() == old(Written()) + [v % 256]
    {
      Push([v % 256]);
    }

    method Bool(v: bool)
      requires Valid()
      modifies this
      ensures Valid() && Written() == old(Written()) + Encode(VBool(v))
    {
      U8(if v then 1 else 0);
    }

    /** `v >>> 0`: the number modulo 2^32. */
    method U32(v: int)
      requires Valid()
      modifies this
      ensures Valid() && Written() == old(Written()) + Encode(VU32(v % Bytes.U32))
    {
      Push(LittleEndian(v % Bytes.U32, 4));
    }

    /** `setBigUint64`: the number modulo 2^64. */
    method U64(v: int)
      requires Valid()
      modifies this
      ensures Valid() && Written() == old(Written()) + Encode(VU64(v % Bytes.U64))
    {
      Push(LittleEndian(v % Bytes.U64, 8));
    }

    method Str(s: Text)
      requires Valid() && |s| < Bytes.U64
      modifies this
      ensures Valid() && Written() == old(Written()) + Encode(VStr(s))
    {
      U64(|s|);
      assert |s| % Bytes.U64 == |s|;
      Push(s);
      assert old(Written()) + (LittleEndian(|s|, 8) + s) == (old(Written()) + LittleEndian(|s|, 8)) + s;
    }

    method TextOption(o: Option<Text>)
      requires Valid() && (o.Some? ==> |o.value| < Bytes.U64)
      modifies this
      ensures Valid() && Written() == old(Written()) + Encode(P.TextOption(o))
    {
      match o
      case None => U8(0);
      case Some(s) =>
        U8(1);
        Str(s);
        assert old(Written()) + ([1] + Encode(VStr(s))) == (old(Written()) + [1]) + Encode(VStr(s));
    }

    method U64Option(o: Option<int>)
      requires Valid()
      modifies this
      ensures Valid() && Written() == old(Written()) + Encode(P.U64Option(Mod64Option(o)))
    {
      match o
      case None => U8(0);
      case Some(n) =>
        U8(1);
        U64(n);
        assert old(Written()) + ([1] + Encode(VU64(n % Bytes.U64)))
               == (old(Written()) + [1]) + Encode(VU64(n % Bytes.U64));
    }

    method Finish() returns (out: array<Byte>)
      requires Valid()
      ensures out[..] == Written()
    {
      out := new Byte[len];
      var off := 0;
      var i := 0;
      assert parts[..0] == [];
      while i < |parts|
        invariant 0 <= i <= |parts| && off == |Flatten(parts[..i])| <= len
        invariant out[..off] == Flatten(parts[..i])
      {
        var p := parts[i];
        FlattenTake(parts, i);
        PrefixFits(parts, i + 1);
        forall j | 0 <= j < |p| {
          out[off + j] := p[j];
        }
        assert out[..off + |p|] == out[..off] + p;
        off := off + |p|;
        i := i + 1;
      }
      assert parts[..i] == parts;
    }
  }

  lemma PrefixFits(parts: seq<seq<Byte>>, i: nat)
    requires i <= |parts|
    ensures |Flatten(parts[..i])| <= |Flatten(parts)|
  {
    FlattenAppend(parts[..i], parts[i..]);
    assert parts[..i] + parts[i..] == parts;
  }

  // ---- requests ---------------------------------------------------------

  function Mod64Option(o: Option<int>): Option<nat> {
    match o case None => None case Some(n) => Some(n % Bytes.U64)
  }

  /** A request object of the browser client; absent fields are `None`. */
  datatype JsRequest =
    | JsLs(path: Text, cursor: Option<Text>)
    | JsGet(path: Text, offset: Option<int>, length: Option<int>, acceptEncoding: Option<seq<int>>)
    | JsPut(path: Text, size: int, mode: int, offset: Option<int>, noClobber: Option<bool>,
            checksumTrailer: Option<bool>,
            encoding: Option<int>, plaintextSize: Option<int>)
    | JsCd(path: Text)
    | JsPwd
    | JsMkdir(path: Text)
    | JsRmdir(path: Text)
    | JsRm(path: Text)
    | JsRename(from: Text, to: Text)
    | JsChmod(path: Text, mode: int)
    | JsStat(path: Text)
    | JsQuota
    | JsQuit
    | JsUnknown

  function Or<T>(o: Option<T>, default: T): T {
    if o.Some? then o.value else default
  }

  function Encodings(es: seq<int>): seq<Encoding> {
    seq(|es|, i requires 0 <= i < |es| => P.EncodingFromU32(es[i] % Bytes.U32))
  }

  /** The native request a browser request stands for. */
  function Native(r: JsRequest): P.Request
    requires !r.JsUnknown?
  {
    match r
    case JsLs(path, cursor) => P.Ls(path, cursor)
    case JsGet(path, offset, length, accept) =>
      P.Get(path, Or(offset, 0) % Bytes.U64, Mod64Option(length), Encodings(Or(accept, [])))
    case JsPut(path, size, mode, offset, noClobber, trailer, encoding, plaintext) =>
      P.Put(path, size % Bytes.U64, mode % Bytes.U32, Or(offset, 0) % Bytes.U64, P.Blake3, None,
            Or(noClobber, false),
            Or(trailer, false), P.EncodingFromU32(Or(encoding, 0) % Bytes.U32), Or(plaintext, 0) % Bytes.U64)
    case JsCd(path) => P.Cd(path)
    case JsPwd => P.Pwd
    case JsMkdir(path) => P.Mkdir(path)
    case JsRmdir(path) => P.Rmdir(path)
    case JsRm(path) => P.Rm(path)
    case JsRename(from, to) => P.Rename(from, to)
    case JsChmod(path, mode) => P.Chmod(path, mode % Bytes.U32)
    case JsStat(path) => P.Stat(path)
    case JsQuota => P.Quota
    case JsQuit => P.Quit
  }

  /** What the platform guarantees: strings encode to UTF-8, and lengths fit. */
  predicate Plausible(r: JsRequest) {
    match r
    case JsLs(path, cursor) => P.ValidText(path) && P.ValidTextOption(cursor)
    case JsRename(from, to) => P.ValidText(from) && P.ValidText(to)
    case JsGet(path, _, _, accept) => P.ValidText(path) && |Or(accept, [])| < Bytes.U64
    case JsPwd | JsQuota | JsQuit | JsUnknown => true
    case _ => P.ValidText(r.path)
  }

  lemma NativeIsValid(r: JsRequest)
    requires !r.JsUnknown? && Plausible(r)
    ensures P.ValidRequest(Native(r))
  {
    hide IsUtf8, P.EncodingFromU32;
    if r.JsGet? {
      var es := Or(r.acceptEncoding, []);
      forall i | 0 <= i < |es|
        ensures P.EncodingToU32(Encodings(es)[i]) < Bytes.U32
      {
        P.NumbersSurvive(es[i] % Bytes.U32);
      }
    } else if r.JsPut? {
      P.NumbersSurvive(Or(r.encoding, 0) % Bytes.U32);
    }
  }

  /** The bytes of a message up to its `i`th field. */
  ghost function UpTo(v: Val, i: nat): seq<Byte>
    requires v.VEnum? && v.payload.VTuple? && i <= |v.payload.vals|
  {
    LittleEndian(v.tag, 4) + EncodeAll(v.payload.vals[..i])
  }

  lemma UpToNext(v: Val, i: nat)
    requires v.VEnum? && v.payload.VTuple? && i < |v.payload.vals|
    ensures UpTo(v, i + 1) == UpTo(v, i) + Encode(v.payload.vals[i])
  {
    hide Encode, LittleEndian;
    EncodeAllTake(v.payload.vals, i);
  }

  lemma UpToEnds(v: Val)
    requires v.VEnum? && v.payload.VTuple? && v.tag < Bytes.U32
    ensures UpTo(v, 0) == Encode(VU32(v.tag)) && UpTo(v, |v.payload.vals|) == Encode(v)
  {
    EncodeMessage(v.tag, v.payload.vals);
    assert v.payload.vals[..|v.payload.vals|] == v.payload.vals;
  }

  method WriteGet(w: Writer, path: Text, offset: Option<int>, length: Option<int>, accept: Option<seq<int>>)
    requires w.Valid() && w.Written() == [] && Plausible(JsGet(path, offset, length, accept))
    modifies w
    ensures w.Valid() && w.Written() == Encode(P.RequestVal(Native(JsGet(path, offset, length, accept))))
  {
    hide Flatten, Encode, EncodeAll, UpTo, IsUtf8, P.EncodingVals, P.EncodingFromU32, P.EncodingToU32;
    ghost var v := P.RequestVal(Native(JsGet(path, offset, length, accept)));
    UpToEnds(v);
    w.U32(3);
    w.Str(path);
    UpToNext(v, 0);
    w.U64(Or(offset, 0));
    UpToNext(v, 1);
    w.U64Option(length);
    UpToNext(v, 2);
    WriteEncodings(w, Or(accept, []));
    UpToNext(v, 3);
  }

  method WriteEncodings(w: Writer, es: seq<int>)
    requires w.Valid() && |es| < Bytes.U64
    modifies w
    ensures w.Valid() && w.Written() == old(w.Written()) + Encode(VSeq(P.EncodingVals(Encodings(es))))
  {
    hide Flatten, LittleEndian, P.EncodingFromU32, P.EncodingToU32;
    w.U64(|es|);
    assert |es| % Bytes.U64 == |es|;
    ghost var vs, before := P.EncodingVals(Encodings(es)), w.Written();
    var i := 0;
    assert vs[..0] == [];
    while i < |es|
      invariant 0 <= i <= |es| && w.Valid() && w.Written() == before + EncodeAll(vs[..i])
    {
      w.U32(es[i]);
      P.NumbersSurvive(es[i] % Bytes.U32);
      EncodeAllTake(vs, i);
      assert before + (EncodeAll(vs[..i]) + Encode(vs[i])) == (before + EncodeAll(vs[..i])) + Encode(vs[i]);
      i := i + 1;
    }
    assert vs[..i] == vs;
    assert old(w.Written()) + (LittleEndian(|es|, 8) + EncodeAll(vs))
           == (old(w.Written()) + LittleEndian(|es|, 8)) + EncodeAll(vs);
  }

  lemma PutFields(r: JsRequest) returns (vs: seq<Val>)
    requires r.JsPut?
    ensures P.RequestVal(Native(r)) == VEnum(4, VTuple(vs)) && |vs| == 10
    ensures vs[0] == VStr(r.path) && vs[1] == VU64(r.size % Bytes.U64) && vs[2] == VU32(r.mode % Bytes.U32)
    ensures vs[3] == VU64(Or(r.offset, 0) % Bytes.U64) && vs[4] == VU32(0) && vs[5] == VNone
    ensures vs[6] == VBool(Or(r.noClobber, false)) && vs[7] == VBool(Or(r.checksumTrailer, false))
    ensures vs[8] == VU32(Or(r.encoding, 0) % Bytes.U32) && vs[9] == VU64(Or(r.plaintextSize, 0) % Bytes.U64)
  {
    P.NumbersSurvive(Or(r.encoding, 0) % Bytes.U32);
    hide P.EncodingFromU32, P.EncodingToU32;
    vs := P.RequestVal(Native(r)).payload.vals;
  }

  lemma NoneIsZero()
    ensures Encode(VNone) == [0]
  {
  }

  method WritePut(w: Writer, r: JsRequest)
    requires r.JsPut? && w.Valid() && w.Written() == [] && Plausible(r)
    modifies w
    ensures w.Valid() && w.Written() == Encode(P.RequestVal(Native(r)))
  {
    hide Flatten, Encode, EncodeAll, UpTo, IsUtf8, P.RequestVal, Native;
    ghost var vs := PutFields(r);
    ghost var v := VEnum(4, VTuple(vs));
    UpToEnds(v);
    w.U32(4);
    w.Str(r.path);
    UpToNext(v, 0);
    WritePutSizes(w, r.size, r.mode, Or(r.offset, 0), vs);
    WritePutFlags(w, Or(r.noClobber, false), Or(r.checksumTrailer, false), Or(r.encoding, 0), Or(r.plaintextSize, 0),
                  vs);
  }

  /** Then the sizes, the only hash algorithm there is, and no header checksum. */
  method WritePutSizes(w: Writer, size: int, mode: int, offset: int, ghost vs: seq<Val>)
    requires w.Valid() && |vs| == 10 && w.Written() == UpTo(VEnum(4, VTuple(vs)), 1)
    requires vs[1] == VU64(size % Bytes.U64) && vs[2] == VU32(mode % Bytes.U32)
    requires vs[3] == VU64(offset % Bytes.U64) && vs[4] == VU32(0) && vs[5] == VNone
    modifies w
    ensures w.Valid() && w.Written() == UpTo(VEnum(4, VTuple(vs)), 6)
  {
    hide Flatten, Encode, EncodeAll, UpTo;
    ghost var v := VEnum(4, VTuple(vs));
    w.U64(size);
    UpToNext(v, 1);
    w.U32(mode);
    UpToNext(v, 2);
    w.U64(offset);
    UpToNext(v, 3);
    w.U32(0);
    UpToNext(v, 4);
    NoneIsZero();
    w.U8(0);
    UpToNext(v, 5);
  }

  method WritePutFlags(w: Writer, noClobber: bool, trailer: bool, encoding: int, plaintext: int, ghost vs: seq<Val>)
    requires w.Valid() && |vs| == 10 && w.Written() == UpTo(VEnum(4, VTuple(vs)), 6)
    requires vs[6] == VBool(noClobber) && vs[7] == VBool(trailer)
    requires vs[8] == VU32(encoding % Bytes.U32) && vs[9] == VU64(plaintext % Bytes.U64)
    modifies w
    ensures w.Valid() && w.Written() == Encode(VEnum(4, VTuple(vs)))
  {
    hide Flatten, Encode, EncodeAll, UpTo;
    ghost var v := VEnum(4, VTuple(vs));
    w.Bool(noClobber);
    UpToNext(v, 6);
    w.Bool(trailer);
    UpToNext(v, 7);
    w.U32(encoding);
    UpToNext(v, 8);
    w.U64(plaintext);
    UpToNext(v, 9);
    UpToEnds(v);
  }

  method WriteLs(w: Writer, path: Text, cursor: Option<Text>)
    requires w.Valid() && w.Written() == [] && Plausible(JsLs(path, cursor))
    modifies w
    ensures w.Valid() && w.Written() == Encode(P.RequestVal(Native(JsLs(path, cursor))))
  {
    hide Flatten, Encode, EncodeAll, UpTo, IsUtf8;
    ghost var v := P.RequestVal(Native(JsLs(path, cursor)));
    UpToEnds(v);
    w.U32(0);
    w.Str(path);
    UpToNext(v, 0);
    w.TextOption(cursor);
    UpToNext(v, 1);
  }

  method WriteChmod(w: Writer, path: Text, mode: int)
    requires w.Valid() && w.Written() == [] && Plausible(JsChmod(path, mode))
    modifies w
    ensures w.Valid() && w.Written() == Encode(P.RequestVal(Native(JsChmod(path, mode))))
  {
    hide Flatten, Encode, EncodeAll, UpTo, IsUtf8;
    ghost var v := P.RequestVal(Native(JsChmod(path, mode)));
    UpToEnds(v);
    w.U32(9);
    w.Str(path);
    UpToNext(v, 0);
    w.U32(mode);
    UpToNext(v, 1);
  }

  /** A tag, and the strings that are the message's fields. */
  method WriteTexts(w: Writer, tag: nat, texts: seq<Text>, ghost vs: seq<Val>)
    requires w.Valid() && w.Written() == [] && tag < Bytes.U32 && |vs| == |texts|
    requires forall i :: 0 <= i < |texts| ==> |texts[i]| < Bytes.U64 && vs[i] == VStr(texts[i])
    modifies w
    ensures w.Valid() && w.Written() == Encode(VEnum(tag, VTuple(vs)))
  {
    hide Flatten, Encode, EncodeAll, UpTo;
    ghost var v := VEnum(tag, VTuple(vs));
    UpToEnds(v);
    w.U32(tag);
    var i := 0;
    while i < |texts|
      invariant 0 <= i <= |texts| && w.Valid() && w.Written() == UpTo(v, i)
    {
      w.Str(texts[i]);
      UpToNext(v, i);
      i := i + 1;
    }
  }

  /** The browser's request bytes are the native ones; an unknown request type is an error. */
  method EncodeRequest(r: JsRequest) returns (out: Option<array<Byte>>)
    requires Plausible(r)
    ensures r.JsUnknown? <==> out == None
    ensures out.Some? ==> P.ValidRequest(Native(r)) && out.value[..] == L.EncodeRequest(Native(r))
  {
    hide Flatten, Encode, EncodeAll, UpTo, IsUtf8;
    var w := new Writer();
    if !r.JsUnknown? {
      NativeIsValid(r);
    }
    ghost var v := if r.JsUnknown? then VNone else P.RequestVal(Native(r));
    match r {
      case JsLs(path, cursor) => WriteLs(w, path, cursor);
      case JsCd(path) => WriteTexts(w, 1, [path], v.payload.vals);
      case JsPwd => WriteTexts(w, 2, [], v.payload.vals);
      case JsGet(path, offset, length, accept) => WriteGet(w, path, offset, length, accept);
      case JsPut(_, _, _, _, _, _, _, _) => WritePut(w, r);
      case JsMkdir(path) => WriteTexts(w, 5, [path], v.payload.vals);
      case JsRmdir(path) => WriteTexts(w, 6, [path], v.payload.vals);
      case JsRm(path) => WriteTexts(w, 7, [path], v.payload.vals);
      case JsRename(from, to) => WriteTexts(w, 8, [from, to], v.payload.vals);
      case JsChmod(path, mode) => WriteChmod(w, path, mode);
      case JsStat(path) => WriteTexts(w, 10, [path], v.payload.vals);
      case JsQuota => WriteTexts(w, 11, [], v.payload.vals);
      case JsQuit => WriteTexts(w, 12, [], v.payload.vals);
      case JsUnknown =>
        return None;
    }
    var bytes := w.Finish();
    out := Some(bytes);
  }

  /** Prepend the length to a payload. */
  method FramePayload(payload: array<Byte>) returns (out: array<Byte>)
    requires payload.Length < Bytes.U32
    ensures out[..] == Framing.Frame(payload[..])
  {
    var head := BigEndian(payload.Length, 4);
    out := new Byte[4 + payload.Length];
    forall i | 0 <= i < 4 {
      out[i] := head[i];
    }
    forall i | 0 <= i < payload.Length {
      out[4 + i] := payload[i];
    }
    assert out[..4] == head;
  }

  lemma NativeIsNamed(r: JsRequest)
    requires !r.JsUnknown?
    ensures P.Named(Native(r)) == Native(r)
  {
    hide P.EncodingToU32, P.EncodingFromU32;
    if r.JsGet? {
      var es := Or(r.acceptEncoding, []);
      forall i | 0 <= i < |es|
        ensures P.EncodingFromU32(P.EncodingToU32(Encodings(es)[i])) == Encodings(es)[i]
      {
        P.NumbersSurvive(es[i] % Bytes.U32);
      }
      assert P.Named(Native(r)).acceptEncoding == Encodings(es);
    } else if r.JsPut? {
      P.NumbersSurvive(Or(r.encoding, 0) % Bytes.U32);
    }
  }

  /**
   * A browser request that fits in a frame arrives at the native side as the request it stands for: an upload
   * that names no encoding as one without, from the start unless it says otherwise.
   */
  lemma BrowserRequestArrives(r: JsRequest, tail: seq<Byte>)
    requires !r.JsUnknown? && Plausible(r) && |L.EncodeRequest(Native(r))| <= Framing.MAX_MESSAGE_SIZE
    ensures var got := Framing.DecodeFrame(P.RequestTy, Framing.Frame(L.EncodeRequest(Native(r))) + tail);
            got.Message? && P.RequestOf(got.msg) == Native(r) && got.rest == tail
            && (r.JsPut? && r.encoding == None ==> P.RequestOf(got.msg).encoding == Identity)
            && (r.JsPut? && r.encoding == Some(1) ==> P.RequestOf(got.msg).encoding == Zstd)
            && (r.JsPut? && r.offset == None ==> P.RequestOf(got.msg).offset == 0)
  {
    hide Encode, Typed, Framing.DecodeFrame, Framing.Frame, P.RequestOf, P.RequestVal, Native, P.Named, Plausible;
    NativeIsValid(r);
    L.RequestTyped(Native(r));
    Framing.FrameDecodes(P.RequestTy, P.RequestVal(Native(r)), L.EncodeRequest(Native(r)), tail);
    L.RequestNamed(Native(r));
    NativeIsNamed(r);
    if r.JsPut? {
      NativePut(r);
    }
  }

  lemma NativePut(r: JsRequest)
    requires r.JsPut?
    ensures r.encoding == None ==> Native(r).encoding == Identity
    ensures r.encoding == Some(1) ==> Native(r).encoding == Zstd
    ensures r.offset == None ==> Native(r).offset == 0
  {
  }
}
