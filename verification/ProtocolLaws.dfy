/** Requests and responses cross the wire: exact round trips in both directions. */
module ProtocolLaws {
  import opened Bytes
  import opened Codes
  import opened Bincode
  import opened Protocol

  function EncodeRequest(r: Request): seq<Byte> {
    Encode(RequestVal(r))
  }

  function DecodeRequest(b: seq<Byte>): Parsed<Request> {
    match Decode(RequestTy, b) case None => None case Some((v, rest)) => Some((RequestOf(v), rest))
  }

  function EncodeResponse(r: Response): seq<Byte> {
    Encode(ResponseVal(r))
  }

  function DecodeResponse(b: seq<Byte>): Parsed<Response> {
    match Decode(ResponseTy, b) case None => None case Some((v, rest)) => Some((ResponseOf(v), rest))
  }

  // ---- typing, one layer at a time --------------------------------------

  lemma TypedTuple(ts: seq<Ty>, xs: seq<Val>)
    ensures Typed(TTuple(ts), VTuple(xs)) <==> |ts| == |xs| && forall i :: 0 <= i < |xs| ==> Typed(ts[i], xs[i])
  {
  }

  lemma TypedEnum(ts: seq<Ty>, tag: nat, x: Val)
    ensures Typed(TEnum(ts), VEnum(tag, x)) <==> tag < |ts| && tag < U32 && Typed(ts[tag], x)
  {
  }

  /** A message has at most ten fields; each is of its type. */
  lemma EachFieldTyped(ts: seq<Ty>, xs: seq<Val>)
    requires |ts| == |xs| <= 10
    ensures Typed(TTuple(ts), VTuple(xs))
       <==> && FieldTyped(ts, xs, 0) && FieldTyped(ts, xs, 1) && FieldTyped(ts, xs, 2) && FieldTyped(ts, xs, 3)
            && FieldTyped(ts, xs, 4) && FieldTyped(ts, xs, 5) && FieldTyped(ts, xs, 6) && FieldTyped(ts, xs, 7)
            && FieldTyped(ts, xs, 8) && FieldTyped(ts, xs, 9)
  {
    hide Typed;
    TypedTuple(ts, xs);
    assert forall i :: 0 <= i < |xs| ==> (FieldTyped(ts, xs, i) <==> Typed(ts[i], xs[i]));
  }

  predicate FieldTyped(ts: seq<Ty>, xs: seq<Val>, i: nat)
    requires |ts| == |xs|
  {
    i < |xs| ==> Typed(ts[i], xs[i])
  }

  lemma TypedLeaves(v: Val)
    ensures Typed(TStr, v) <==> v.VStr? && ValidText(v.text)
    ensures Typed(TU32, v) <==> v.VU32? && v.w < U32
    ensures Typed(TU64, v) <==> v.VU64? && v.l < U64
    ensures Typed(TBool, v) <==> v.VBool?
    ensures Typed(TU8, v) <==> v.VU8?
  {
  }

  lemma TypedOption(e: Ty, v: Val)
    ensures Typed(TOption(e), v) <==> v == VNone || (v.VSome? && Typed(e, v.inner))
  {
  }

  lemma TypedSeq(e: Ty, v: Val)
    ensures Typed(TSeq(e), v) <==> v.VSeq? && |v.elems| < U64 && forall i :: 0 <= i < |v.elems| ==> Typed(e, v.elems[i])
  {
  }

  lemma OptionsTyped(t: Option<Text>, n: Option<nat>)
    ensures Typed(TOption(TStr), TextOption(t)) <==> ValidTextOption(t)
    ensures Typed(TOption(TU64), U64Option(n)) <==> (n.Some? ==> n.value < U64)
  {
    hide IsUtf8;
  }

  lemma EncodingsTyped(es: seq<Encoding>)
    ensures Typed(TSeq(TU32), VSeq(EncodingVals(es)))
       <==> |es| < U64 && forall i :: 0 <= i < |es| ==> EncodingToU32(es[i]) < U32
  {
    hide EncodingToU32, Typed;
    var vs := EncodingVals(es);
    TypedSeq(TU32, VSeq(vs));
    forall i | 0 <= i < |es|
      ensures Typed(TU32, vs[i]) <==> EncodingToU32(es[i]) < U32
    {
      TypedLeaves(vs[i]);
    }
    hide EncodingVals;
    if Typed(TSeq(TU32), VSeq(vs)) {
      forall i | 0 <= i < |es|
        ensures EncodingToU32(es[i]) < U32
      {
        assert Typed(TU32, vs[i]);
      }
    }
  }

  lemma ChecksumTyped(bs: Option<seq<Byte>>)
    ensures Typed(TOption(TSeq(TU8)), BytesOption(bs)) <==> (bs.Some? ==> |bs.value| < U64)
  {
    hide Typed;
    TypedOption(TSeq(TU8), BytesOption(bs));
    if bs.Some? {
      var vs := ByteVals(bs.value);
      TypedSeq(TU8, VSeq(vs));
      forall i | 0 <= i < |bs.value|
        ensures Typed(TU8, vs[i])
      {
        TypedLeaves(vs[i]);
      }
    }
  }

  /** A request can be sent exactly when its numbers fit and its strings are UTF-8. */
  lemma RequestTyped(r: Request)
    ensures Typed(RequestTy, RequestVal(r)) <==> ValidRequest(r)
  {
    hide Typed, ValidText, EncodingVals, BytesOption, TextOption, U64Option, EncodingToU32, HashToU32;
    var v := RequestVal(r);
    TypedEnum(RequestTy.variants, v.tag, v.payload);
    match r
    case Ls(path, cursor) =>
      EachFieldTyped([TStr, TOption(TStr)], [VStr(path), TextOption(cursor)]);
      TypedLeaves(VStr(path));
      OptionsTyped(cursor, None);
    case Get(path, offset, length, accept) =>
      EachFieldTyped([TStr, TU64, TOption(TU64), TSeq(TU32)],
                     [VStr(path), VU64(offset), U64Option(length), VSeq(EncodingVals(accept))]);
      TypedLeaves(VStr(path));
      TypedLeaves(VU64(offset));
      OptionsTyped(None, length);
      EncodingsTyped(accept);
    case Put(_, _, _, _, _, _, _, _, _, _) => PutTyped(r);
    case Rename(from, to) =>
      EachFieldTyped([TStr, TStr], [VStr(from), VStr(to)]);
      TypedLeaves(VStr(from));
      TypedLeaves(VStr(to));
    case Chmod(path, mode) =>
      EachFieldTyped([TStr, TU32], [VStr(path), VU32(mode)]);
      TypedLeaves(VStr(path));
      TypedLeaves(VU32(mode));
    case Pwd => TypedTuple([], []);
    case Quota => TypedTuple([], []);
    case Quit => TypedTuple([], []);
    case _ =>
      EachFieldTyped([TStr], [VStr(r.path)]);
      TypedLeaves(VStr(r.path));
  }

  lemma PutTyped(r: Request)
    requires r.Put?
    ensures Typed(RequestTy.variants[4], RequestVal(r).payload) <==> ValidRequest(r)
  {
    hide Typed, ValidText, BytesOption, EncodingToU32, HashToU32;
    var hash, encoding := VU32(HashToU32(r.hashAlgorithm)), VU32(EncodingToU32(r.encoding));
    EachFieldTyped([TStr, TU64, TU32, TU64, TU32, TOption(TSeq(TU8)), TBool, TBool, TU32, TU64],
                   [VStr(r.path), VU64(r.size), VU32(r.mode), VU64(r.offset), hash, BytesOption(r.checksum),
                    VBool(r.noClobber), VBool(r.checksumTrailer), encoding, VU64(r.plaintextSize)]);
    TypedLeaves(VStr(r.path));
    TypedLeaves(VU64(r.size));
    TypedLeaves(VU32(r.mode));
    TypedLeaves(VU64(r.offset));
    TypedLeaves(hash);
    ChecksumTyped(r.checksum);
    TypedLeaves(VBool(r.noClobber));
    TypedLeaves(VBool(r.checksumTrailer));
    TypedLeaves(encoding);
    TypedLeaves(VU64(r.plaintextSize));
  }

  // ---- what the receiver reads back -------------------------------------

  lemma RequestNamed(r: Request)
    ensures RequestOf(RequestVal(r)) == Named(r)
  {
    hide EncodingVals, EncodingsOf, BytesOption, BytesOptionOf;
    match r
    case Get(_, _, _, accept) =>
      assert EncodingsOf(EncodingVals(accept)) == Named(r).acceptEncoding;
    case Put(_, _, _, _, _, checksum, _, _, _, _) => BytesReturn(checksum);
    case _ =>
  }

  lemma BytesReturn(o: Option<seq<Byte>>)
    ensures BytesOptionOf(BytesOption(o)) == o
  {
    if o.Some? {
      assert BytesOf(ByteVals(o.value)) == o.value;
    }
  }

  lemma TextReturns(v: Val)
    requires Typed(TOption(TStr), v)
    ensures TextOption(TextOptionOf(v)) == v
  {
    hide IsUtf8;
  }

  lemma NumberReturns(v: Val)
    requires Typed(TOption(TU64), v)
    ensures U64Option(U64OptionOf(v)) == v
  {
  }

  lemma EncodingsReturn(v: Val)
    requires Typed(TSeq(TU32), v)
    ensures VSeq(EncodingVals(EncodingsOf(ElemsOf(v)))) == v
  {
    var es := EncodingVals(EncodingsOf(v.elems));
    forall i | 0 <= i < |v.elems|
      ensures es[i] == v.elems[i]
    {
      assert Typed(TU32, v.elems[i]);
      NumbersSurvive(v.elems[i].w);
    }
    assert es == v.elems;
  }

  lemma ChecksumReturns(v: Val)
    requires Typed(TOption(TSeq(TU8)), v)
    ensures BytesOption(BytesOptionOf(v)) == v
  {
    if v.VSome? {
      var xs := v.inner.elems;
      forall i | 0 <= i < |xs|
        ensures ByteVals(BytesOf(xs))[i] == xs[i]
      {
        assert Typed(TU8, xs[i]);
      }
      assert ByteVals(BytesOf(xs)) == xs;
    }
  }

  /** Every request value on the wire is some request's. */
  lemma RequestReturns(v: Val)
    requires Typed(RequestTy, v)
    ensures RequestVal(RequestOf(v)) == v
  {
    hide Typed, ValidText, EncodingVals, BytesOption, TextOption, U64Option, EncodingsOf, BytesOptionOf,
         TextOptionOf, U64OptionOf;
    hide EncodingToU32, HashToU32, EncodingFromU32, HashFromU32;
    var xs := TypedFields(RequestTy.variants, v);
    if v.tag == 0 {
      EachFieldTyped([TStr, TOption(TStr)], xs);
      assert xs == [xs[0], xs[1]];
      TypedLeaves(xs[0]);
      TextReturns(xs[1]);
    } else if v.tag == 2 || v.tag == 11 || v.tag == 12 {
    } else if v.tag == 3 {
      assert xs == [xs[0], xs[1], xs[2], xs[3]];
      EachFieldTyped([TStr, TU64, TOption(TU64), TSeq(TU32)], xs);
      TypedLeaves(xs[0]);
      TypedLeaves(xs[1]);
      NumberReturns(xs[2]);
      EncodingsReturn(xs[3]);
    } else if v.tag == 4 {
      PutReturns(v, xs);
    } else if v.tag == 8 {
      assert xs == [xs[0], xs[1]];
      EachFieldTyped([TStr, TStr], xs);
      TypedLeaves(xs[0]);
      TypedLeaves(xs[1]);
    } else if v.tag == 9 {
      assert xs == [xs[0], xs[1]];
      EachFieldTyped([TStr, TU32], xs);
      TypedLeaves(xs[0]);
      TypedLeaves(xs[1]);
    } else {
      assert xs == [xs[0]];
      EachFieldTyped([TStr], xs);
      TypedLeaves(xs[0]);
    }
  }

  /** The fields of a message whose every variant is a tuple. */
  lemma TypedFields(ts: seq<Ty>, v: Val) returns (xs: seq<Val>)
    requires Typed(TEnum(ts), v) && forall i :: 0 <= i < |ts| ==> ts[i].TTuple?
    ensures v.VEnum? && v.tag < |ts| && Typed(ts[v.tag], v.payload) && v.payload == VTuple(xs)
    ensures |xs| == |ts[v.tag].fields|
  {
    xs := v.payload.vals;
  }

  lemma PutReturns(v: Val, xs: seq<Val>)
    requires v == VEnum(4, VTuple(xs)) && Typed(RequestTy.variants[4], VTuple(xs)) && |xs| == 10
    ensures RequestVal(RequestOf(v)) == v
  {
    hide Typed, ValidText, BytesOption, BytesOptionOf, EncodingToU32, HashToU32, EncodingFromU32, HashFromU32;
    assert xs == [xs[0], xs[1], xs[2], xs[3], xs[4], xs[5], xs[6], xs[7], xs[8], xs[9]];
    EachFieldTyped([TStr, TU64, TU32, TU64, TU32, TOption(TSeq(TU8)), TBool, TBool, TU32, TU64], xs);
    TypedLeaves(xs[0]);
    TypedLeaves(xs[1]);
    TypedLeaves(xs[2]);
    TypedLeaves(xs[3]);
    TypedLeaves(xs[4]);
    ChecksumReturns(xs[5]);
    TypedLeaves(xs[6]);
    TypedLeaves(xs[7]);
    TypedLeaves(xs[8]);
    TypedLeaves(xs[9]);
    NumbersSurvive(xs[4].w);
    NumbersSurvive(xs[8].w);
  }

  // ---- responses --------------------------------------------------------

  lemma MetaTyped(m: Meta)
    ensures Typed(TTuple(MetaTys), VTuple(MetaVals(m))) <==> ValidMeta(m)
  {
    hide Typed, TypeToU32;
    var xs := MetaVals(m);
    EachFieldTyped([TU32, TU64, TU64, TU32, TU32, TU32, TU32], xs);
    assert xs == [xs[0], xs[1], xs[2], xs[3], xs[4], xs[5], xs[6]];
    TypedLeaves(xs[0]);
    TypedLeaves(xs[1]);
    TypedLeaves(xs[2]);
    TypedLeaves(xs[3]);
    TypedLeaves(xs[4]);
    TypedLeaves(xs[5]);
    TypedLeaves(xs[6]);
  }

  lemma EntryTyped(e: DirEntry)
    ensures Typed(EntryTy, EntryVal(e)) <==> ValidText(e.name) && ValidMeta(e.meta)
  {
    hide Typed, TypeToU32, ValidText;
    var n, xs := VStr(e.name), MetaVals(e.meta);
    EachFieldTyped([TStr, TU32, TU64, TU64, TU32, TU32, TU32, TU32],
                   [n, xs[0], xs[1], xs[2], xs[3], xs[4], xs[5], xs[6]]);
    EachFieldTyped([TU32, TU64, TU64, TU32, TU32, TU32, TU32], xs);
    assert xs == [xs[0], xs[1], xs[2], xs[3], xs[4], xs[5], xs[6]];
    assert EntryTy.fields == [TStr, TU32, TU64, TU64, TU32, TU32, TU32, TU32];
    assert [n] + xs == [n, xs[0], xs[1], xs[2], xs[3], xs[4], xs[5], xs[6]];
    MetaTyped(e.meta);
    TypedLeaves(n);
  }

  lemma EntriesTyped(es: seq<DirEntry>)
    ensures Typed(TSeq(EntryTy), VSeq(EntryVals(es)))
       <==> |es| < U64 && forall i :: 0 <= i < |es| ==> ValidText(es[i].name) && ValidMeta(es[i].meta)
  {
    hide Typed, ValidText, ValidMeta, EntryVal;
    var vs := EntryVals(es);
    TypedSeq(EntryTy, VSeq(vs));
    forall i | 0 <= i < |es|
      ensures Typed(EntryTy, vs[i]) <==> ValidText(es[i].name) && ValidMeta(es[i].meta)
    {
      EntryTyped(es[i]);
    }
    hide EntryVals;
    if Typed(TSeq(EntryTy), VSeq(vs)) {
      forall i | 0 <= i < |es|
        ensures ValidText(es[i].name) && ValidMeta(es[i].meta)
      {
        assert Typed(EntryTy, vs[i]);
      }
    }
  }

  lemma DetailsTyped(o: Option<ErrorDetails>)
    ensures Typed(TOption(DetailsTy), DetailsOption(o)) <==> (o.Some? ==> ValidDetails(o.value))
  {
    hide Typed;
    TypedOption(DetailsTy, DetailsOption(o));
    if o.Some? {
      var v := DetailsVal(o.value);
      var xs := v.payload.vals;
      TypedEnum(DetailsTy.variants, v.tag, v.payload);
      TypedLeaves(xs[0]);
      if o.value.RetryAfter? {
        assert xs == [xs[0]];
        EachFieldTyped([TU32], xs);
      } else {
        assert xs == [xs[0], xs[1]];
        TypedLeaves(xs[1]);
        EachFieldTyped([TU64, TU64], xs);
      }
    }
  }

  /** A response can be sent exactly when its numbers fit and its strings are UTF-8. */
  lemma ResponseTyped(r: Response)
    ensures Typed(ResponseTy, ResponseVal(r)) <==> ValidResponse(r)
  {
    hide Typed, ValidText, ValidMeta, ValidDetails, TextOption, U64Option, DetailsOption, EntryVals, MetaVals;
    hide EncodingToU32, HashToU32, CodeToU32;
    var v := ResponseVal(r);
    TypedEnum(ResponseTy.variants, v.tag, v.payload);
    match r
    case Ok => TypedTuple([], []);
    case Err(code, message, details) =>
      EachFieldTyped([TU32, TStr, TOption(DetailsTy)], [VU32(CodeToU32(code)), VStr(message), DetailsOption(details)]);
      TypedLeaves(VU32(CodeToU32(code)));
      TypedLeaves(VStr(message));
      DetailsTyped(details);
    case DirListing(entries, next) =>
      EachFieldTyped([TSeq(EntryTy), TOption(TStr)], [VSeq(EntryVals(entries)), TextOption(next)]);
      EntriesTyped(entries);
      OptionsTyped(next, None);
    case Path(path) =>
      EachFieldTyped([TStr], [VStr(path)]);
      TypedLeaves(VStr(path));
    case FileStat(meta) => MetaTyped(meta);
    case FileReady(size, total, follows, hash, encoding, plaintext) =>
      var h, e := VU32(HashToU32(hash)), VU32(EncodingToU32(encoding));
      EachFieldTyped([TU64, TU64, TBool, TU32, TU32, TU64],
                     [VU64(size), VU64(total), VBool(follows), h, e, VU64(plaintext)]);
      TypedLeaves(VU64(size));
      TypedLeaves(VU64(total));
      TypedLeaves(VBool(follows));
      TypedLeaves(h);
      TypedLeaves(e);
      TypedLeaves(VU64(plaintext));
    case QuotaInfo(used, count, limit) =>
      EachFieldTyped([TU64, TU64, TOption(TU64)], [VU64(used), VU64(count), U64Option(limit)]);
      TypedLeaves(VU64(used));
      TypedLeaves(VU64(count));
      OptionsTyped(None, limit);
  }

  lemma ResponseNamed(r: Response)
    ensures ResponseOf(ResponseVal(r)) == NamedResponse(r)
  {
    hide EntryVals, EntriesOf, CodeToU32, CodeFromU32, EntryVal, EntryOf;
    if r.DirListing? {
      var es := EntriesOf(EntryVals(r.entries));
      forall i | 0 <= i < |r.entries|
        ensures es[i] == NamedResponse(r).entries[i]
      {
        EntryNamed(r.entries[i]);
      }
      assert es == NamedResponse(r).entries;
    }
  }

  lemma EntryNamed(e: DirEntry)
    ensures EntryOf(EntryVal(e)) == e.(meta := NamedMeta(e.meta))
  {
    hide TypeToU32, TypeFromU32;
    var xs := [VStr(e.name)] + MetaVals(e.meta);
    assert xs[1..] == MetaVals(e.meta);
  }

  lemma MetaReturns(xs: seq<Val>)
    requires |xs| == 7 && Typed(TTuple(MetaTys), VTuple(xs))
    ensures MetaVals(MetaOf(xs, 0)) == xs
  {
    hide Typed, TypeToU32, TypeFromU32;
    assert xs == [xs[0], xs[1], xs[2], xs[3], xs[4], xs[5], xs[6]];
    EachFieldTyped([TU32, TU64, TU64, TU32, TU32, TU32, TU32], xs);
    TypedLeaves(xs[0]);
    TypedLeaves(xs[1]);
    TypedLeaves(xs[2]);
    TypedLeaves(xs[3]);
    TypedLeaves(xs[4]);
    TypedLeaves(xs[5]);
    TypedLeaves(xs[6]);
    NumbersSurvive(xs[0].w);
  }

  lemma EntryReturns(v: Val)
    requires Typed(EntryTy, v)
    ensures EntryVal(EntryOf(v)) == v
  {
    hide TypeToU32, TypeFromU32, ValidText, MetaOf, MetaVals;
    EntryParts(v);
    hide Typed;
    var xs := v.vals;
    TypedLeaves(xs[0]);
    MetaReturns(xs[1..]);
    MetaShift(xs);
    assert [xs[0]] + xs[1..] == xs;
  }

  lemma MetaShift(xs: seq<Val>)
    requires |xs| == 8
    ensures MetaOf(xs, 1) == MetaOf(xs[1..], 0)
  {
  }

  lemma EntryParts(v: Val)
    requires Typed(EntryTy, v)
    ensures v.VTuple? && |v.vals| == 8 && Typed(TStr, v.vals[0]) && Typed(TTuple(MetaTys), VTuple(v.vals[1..]))
  {
    TypedTuple(EntryTy.fields, v.vals);
    TypedTuple(MetaTys, v.vals[1..]);
    hide Typed;
    var ts := EntryTy.fields;
    forall i | 0 <= i < 7
      ensures Typed(MetaTys[i], v.vals[1..][i])
    {
      assert ts[i + 1] == MetaTys[i] && Typed(ts[i + 1], v.vals[i + 1]);
    }
    assert ts[0] == TStr && Typed(ts[0], v.vals[0]);
  }

  lemma EntriesReturn(v: Val)
    requires Typed(TSeq(EntryTy), v)
    ensures VSeq(EntryVals(EntriesOf(ElemsOf(v)))) == v
  {
    hide EntryVal, EntryOf;
    var es := EntryVals(EntriesOf(v.elems));
    forall i | 0 <= i < |v.elems|
      ensures es[i] == v.elems[i]
    {
      assert Typed(EntryTy, v.elems[i]);
      EntryReturns(v.elems[i]);
    }
    assert es == v.elems;
  }

  lemma DetailsReturn(v: Val)
    requires Typed(TOption(DetailsTy), v)
    ensures DetailsOption(DetailsOptionOf(v)) == v
  {
    hide Typed;
    TypedOption(DetailsTy, v);
    if v.VSome? {
      var xs := TypedFields(DetailsTy.variants, v.inner);
      if v.inner.tag == 2 {
        assert xs == [xs[0]];
        EachFieldTyped([TU32], xs);
        TypedLeaves(xs[0]);
      } else {
        assert xs == [xs[0], xs[1]];
        EachFieldTyped([TU64, TU64], xs);
        TypedLeaves(xs[0]);
        TypedLeaves(xs[1]);
      }
    }
  }

  /** Every response value on the wire is some response's. */
  lemma ResponseReturns(v: Val)
    requires Typed(ResponseTy, v)
    ensures ResponseVal(ResponseOf(v)) == v
  {
    hide Typed, ValidText, TextOption, U64Option, TextOptionOf, U64OptionOf, DetailsOption, DetailsOptionOf;
    hide EncodingToU32, HashToU32, EncodingFromU32, HashFromU32, CodeToU32, CodeFromU32, EntryVals, EntriesOf,
         MetaVals, MetaOf;
    var xs := TypedFields(ResponseTy.variants, v);
    if v.tag == 0 {
    } else if v.tag == 1 {
      assert xs == [xs[0], xs[1], xs[2]];
      EachFieldTyped([TU32, TStr, TOption(DetailsTy)], xs);
      TypedLeaves(xs[0]);
      TypedLeaves(xs[1]);
      DetailsReturn(xs[2]);
      NumbersSurvive(xs[0].w);
    } else if v.tag == 2 {
      assert xs == [xs[0], xs[1]];
      EachFieldTyped([TSeq(EntryTy), TOption(TStr)], xs);
      EntriesReturn(xs[0]);
      TextReturns(xs[1]);
    } else if v.tag == 3 {
      assert xs == [xs[0]];
      EachFieldTyped([TStr], xs);
      TypedLeaves(xs[0]);
    } else if v.tag == 4 {
      MetaReturns(xs);
    } else if v.tag == 5 {
      assert xs == [xs[0], xs[1], xs[2], xs[3], xs[4], xs[5]];
      EachFieldTyped([TU64, TU64, TBool, TU32, TU32, TU64], xs);
      TypedLeaves(xs[0]);
      TypedLeaves(xs[1]);
      TypedLeaves(xs[2]);
      TypedLeaves(xs[3]);
      TypedLeaves(xs[4]);
      TypedLeaves(xs[5]);
      NumbersSurvive(xs[3].w);
      NumbersSurvive(xs[4].w);
    } else {
      assert xs == [xs[0], xs[1], xs[2]];
      EachFieldTyped([TU64, TU64, TOption(TU64)], xs);
      TypedLeaves(xs[0]);
      TypedLeaves(xs[1]);
      NumberReturns(xs[2]);
    }
  }

  // ---- the round trips ---------------------------------------------------

  /** A request crosses the wire, and arrives unchanged exactly when no unknown number in it has a name. */
  lemma RequestRoundTrip(r: Request, rest: seq<Byte>)
    requires ValidRequest(r)
    ensures DecodeRequest(EncodeRequest(r) + rest) == Some((Named(r), rest))
    ensures Named(r) == r <==> !Shadows(r)
  {
    RequestTyped(r);
    DecodeEncode(RequestTy, RequestVal(r), rest);
    RequestNamed(r);
    NamedIff(r);
  }

  /** Whatever decodes to a request is the encoding of that request, and bytes after it. */
  lemma RequestCanonical(b: seq<Byte>)
    requires DecodeRequest(b).Some?
    ensures var (r, rest) := DecodeRequest(b).value; ValidRequest(r) && b == EncodeRequest(r) + rest
  {
    hide Decode, Typed, Encode, RequestVal, RequestOf;
    EncodeDecode(RequestTy, b);
    var (v, _) := Decode(RequestTy, b).value;
    RequestReturns(v);
    RequestTyped(RequestOf(v));
  }

  lemma ResponseRoundTrip(r: Response, rest: seq<Byte>)
    requires ValidResponse(r)
    ensures DecodeResponse(EncodeResponse(r) + rest) == Some((NamedResponse(r), rest))
    ensures NamedResponse(r) == r <==> !ResponseShadows(r)
  {
    ResponseTyped(r);
    DecodeEncode(ResponseTy, ResponseVal(r), rest);
    ResponseNamed(r);
    NamedResponseIff(r);
  }

  lemma ResponseCanonical(b: seq<Byte>)
    requires DecodeResponse(b).Some?
    ensures var (r, rest) := DecodeResponse(b).value; ValidResponse(r) && b == EncodeResponse(r) + rest
  {
    hide Decode, Typed, Encode, ResponseVal, ResponseOf;
    EncodeDecode(ResponseTy, b);
    var (v, _) := Decode(ResponseTy, b).value;
    ResponseReturns(v);
    ResponseTyped(ResponseOf(v));
  }
}
