/**
 * The browser client's reading side: its reader and response decoder, and what
 * they make of any response the native side encodes. Reading past the end of a
 * frame throws, which is `None` here.
 */
module WebReader {
  import opened Bytes
  import opened Integers
  import opened Bincode
  import opened Codes
  import P = Protocol
  import L = ProtocolLaws
  import W = WebCodec

  type Text = seq<Byte>

  /** What `TextDecoder` makes of bytes that are not UTF-8. */
  type Lossy = seq<Byte> -> Text

  const BOM: seq<Byte> := [0xEF, 0xBB, 0xBF]

  function WithoutBom(s: Text): Text {
    if BOM <= s then s[3..] else s
  }

  /** `TextDecoder` drops one leading byte-order mark. */
  function TextDecode(lossy: Lossy, b: seq<Byte>): Text {
    if IsUtf8(b) then WithoutBom(b) else lossy(b)
  }

  // ---- the browser's own table of error names ----------------------------

  const ERROR_CODES: map<nat, string> := map[
    400 := "Malformed",
    401 := "Unauthorized",
    403 := "PermissionDenied",
    404 := "NotFound",
    405 := "Unsupported",
    409 := "AlreadyExists",
    413 := "FileTooLarge",
    416 := "InvalidRange",
    420 := "NotADirectory",
    421 := "IsADirectory",
    422 := "ChecksumMismatch",
    423 := "UploadOverflow",
    424 := "UploadTruncated",
    429 := "RateLimited",
    430 := "QuotaExceeded",
    500 := "Internal"]

  function CodeName(status: nat): string {
    if status in ERROR_CODES then ERROR_CODES[status] else "Unknown"
  }

  /** The name of a native code; the browser's fallback is the name of those that have none. */
  function Spelled(c: ErrorCode): string {
    match c
    case Malformed => "Malformed"
    case Unauthorized => "Unauthorized"
    case PermissionDenied => "PermissionDenied"
    case NotFound => "NotFound"
    case Unsupported => "Unsupported"
    case AlreadyExists => "AlreadyExists"
    case FileTooLarge => "FileTooLarge"
    case InvalidRange => "InvalidRange"
    case NotADirectory => "NotADirectory"
    case IsADirectory => "IsADirectory"
    case ChecksumMismatch => "ChecksumMismatch"
    case UploadOverflow => "UploadOverflow"
    case UploadTruncated => "UploadTruncated"
    case RateLimited => "RateLimited"
    case QuotaExceeded => "QuotaExceeded"
    case DecodeError => "DecodeError"
    case Internal => "Internal"
    case UnknownCode(_) => "Unknown"
  }

  /** The two tables agree on every code but 431, which the browser's lacks. */
  lemma CodesAgreeIff(c: ErrorCode)
    ensures CodeName(P.CodeToU32(c)) == Spelled(c)
       <==> !c.DecodeError? && !(c.UnknownCode? && P.NamedCode(c.n) && c.n != 431)
  {
    hide CodeName, P.CodeToU32;
    NumberKept(c);
    if c.UnknownCode? {
      UnknownNames(c.n);
    } else {
      NamedCodes(c);
    }
  }

  lemma NumberKept(c: ErrorCode)
    ensures c.UnknownCode? ==> P.CodeToU32(c) == c.n
  {
  }

  lemma NamedCodes(c: ErrorCode)
    requires !c.UnknownCode?
    ensures CodeName(P.CodeToU32(c)) == if c.DecodeError? then "Unknown" else Spelled(c)
  {
  }

  lemma UnknownNames(n: nat)
    ensures CodeName(n) == "Unknown" <==> !P.NamedCode(n) || n == 431
  {
  }

  // ---- response objects -------------------------------------------------

  datatype JsMeta = JsMeta(fileType: nat, isDir: bool, size: nat, modified: nat, mtimeNanos: nat, uid: nat, gid: nat,
                           mode: nat)

  datatype JsEntry = JsEntry(name: Text, meta: JsMeta)

  datatype JsResponse =
    | JsOk
    | JsErr(status: nat, code: string, message: Text)
    | JsDirListing(entries: seq<JsEntry>, nextCursor: Option<Text>)
    | JsPath(path: Text)
    | JsFileStat(meta: JsMeta)
    | JsFileReady(size: nat, totalSize: nat, checksumFollows: bool)
    | JsQuotaInfo(usedBytes: nat, fileCount: nat, limitBytes: Option<nat>)

  // ---- decoding, on values ----------------------------------------------

  function ReadByte(b: seq<Byte>): Parsed<Byte> {
    if b == [] then None else Some((b[0], b[1..]))
  }

  function ReadBytes(b: seq<Byte>, n: nat): Parsed<seq<Byte>> {
    if |b| < n then None else Some((b[..n], b[n..]))
  }

  function ReadStr(lossy: Lossy, b: seq<Byte>): Parsed<Text> {
    match TakeInt(b, 8)
    case None => None
    case Some((n, r)) =>
      match ReadBytes(r, n)
      case None => None
      case Some((s, after)) => Some((TextDecode(lossy, s), after))
  }

  function ReadStrOption(lossy: Lossy, b: seq<Byte>): Parsed<Option<Text>> {
    match ReadByte(b)
    case None => None
    case Some((c, r)) =>
      if c == 0 then Some((None, r))
      else match ReadStr(lossy, r) case None => None case Some((s, after)) => Some((Some(s), after))
  }

  function ReadU64Option(b: seq<Byte>): Parsed<Option<nat>> {
    match ReadByte(b)
    case None => None
    case Some((c, r)) =>
      if c == 0 then Some((None, r))
      else match TakeInt(r, 8) case None => None case Some((n, after)) => Some((Some(n), after))
  }

  function ReadTimes(b: seq<Byte>): Parsed<(nat, nat, nat)> {
    match TakeInt(b, 4)
    case None => None
    case Some((t, b1)) =>
      match TakeInt(b1, 8)
      case None => None
      case Some((size, b2)) => match TakeInt(b2, 8) case None => None case Some((m, b3)) => Some(((t, size, m), b3))
  }

  function ReadOwner(b: seq<Byte>): Parsed<(nat, nat, nat, nat)> {
    match TakeInt(b, 4)
    case None => None
    case Some((nanos, b1)) =>
      match TakeInt(b1, 4)
      case None => None
      case Some((uid, b2)) =>
        match TakeInt(b2, 4)
        case None => None
        case Some((gid, b3)) =>
          match TakeInt(b3, 4)
          case None => None
          case Some((mode, b4)) => Some(((nanos, uid, gid, mode), b4))
  }

  function ReadMeta(b: seq<Byte>): Parsed<JsMeta> {
    match ReadTimes(b)
    case None => None
    case Some(((t, size, m), r)) =>
      match ReadOwner(r)
      case None => None
      case Some(((nanos, uid, gid, mode), after)) => Some((JsMeta(t, t == 1, size, m, nanos, uid, gid, mode), after))
  }

  function ReadEntry(lossy: Lossy, b: seq<Byte>): Parsed<JsEntry> {
    match ReadStr(lossy, b)
    case None => None
    case Some((name, r)) =>
      match ReadMeta(r)
      case None => None
      case Some((meta, after)) => Some((JsEntry(name, meta), after))
  }

  function ReadEntries(lossy: Lossy, n: nat, b: seq<Byte>): Parsed<seq<JsEntry>> {
    if n == 0 then Some(([], b))
    else
      match ReadEntry(lossy, b)
      case None => None
      case Some((e, r)) =>
        match ReadEntries(lossy, n - 1, r) case None => None case Some((es, after)) => Some(([e] + es, after))
  }

  function ReadErr(lossy: Lossy, b: seq<Byte>): Option<JsResponse> {
    match TakeInt(b, 4)
    case None => None
    case Some((status, r)) =>
      match ReadStr(lossy, r) case None => None case Some((m, _)) => Some(JsErr(status, CodeName(status), m))
  }

  function ReadListing(lossy: Lossy, b: seq<Byte>): Option<JsResponse> {
    match TakeInt(b, 8)
    case None => None
    case Some((n, r)) =>
      match ReadEntries(lossy, n, r)
      case None => None
      case Some((es, after)) =>
        match ReadStrOption(lossy, after) case None => None case Some((c, _)) => Some(JsDirListing(es, c))
  }

  function ReadReady(b: seq<Byte>): Option<JsResponse> {
    match TakeInt(b, 8)
    case None => None
    case Some((size, r)) =>
      match TakeInt(r, 8)
      case None => None
      case Some((total, after)) =>
        match ReadByte(after)
        case None => None
        case Some((c, _)) => Some(JsFileReady(size, total, c != 0))
  }

  function ReadQuota(b: seq<Byte>): Option<JsResponse> {
    match TakeInt(b, 8)
    case None => None
    case Some((used, r)) =>
      match TakeInt(r, 8)
      case None => None
      case Some((count, after)) =>
        match ReadU64Option(after) case None => None case Some((limit, _)) => Some(JsQuotaInfo(used, count, limit))
  }

  function JsDecode(lossy: Lossy, b: seq<Byte>): Option<JsResponse> {
    match TakeInt(b, 4)
    case None => None
    case Some((tag, r)) =>
      match tag
      case 0 => Some(JsOk)
      case 1 => ReadErr(lossy, r)
      case 2 => ReadListing(lossy, r)
      case 3 => (match ReadStr(lossy, r) case None => None case Some((p, _)) => Some(JsPath(p)))
      case 4 => (match ReadMeta(r) case None => None case Some((m, _)) => Some(JsFileStat(m)))
      case 5 => ReadReady(r)
      case 6 => ReadQuota(r)
      case _ => None
  }

  // ---- what a native response looks like to the browser ------------------

  function ShownMeta(m: P.Meta): JsMeta {
    var t := P.TypeToU32(m.fileType);
    JsMeta(t, t == 1, m.size, m.modified, m.mtimeNanos, m.uid, m.gid, m.mode)
  }

  function ShownEntries(es: seq<P.DirEntry>): (r: seq<JsEntry>)
    ensures |r| == |es| && forall i :: 0 <= i < |es| ==> r[i] == JsEntry(WithoutBom(es[i].name), ShownMeta(es[i].meta))
  {
    if es == [] then [] else [JsEntry(WithoutBom(es[0].name), ShownMeta(es[0].meta))] + ShownEntries(es[1..])
  }

  function ShownCode(c: ErrorCode): string {
    CodeName(P.CodeToU32(c))
  }

  /** The fields the browser reads, and no others. */
  function Shown(r: P.Response): JsResponse {
    match r
    case Ok => JsOk
    case Err(code, message, _) => JsErr(P.CodeToU32(code), ShownCode(code), WithoutBom(message))
    case DirListing(entries, next) =>
      JsDirListing(ShownEntries(entries), match next case None => None case Some(s) => Some(WithoutBom(s)))
    case Path(path) => JsPath(WithoutBom(path))
    case FileStat(meta) => JsFileStat(ShownMeta(meta))
    case FileReady(size, total, follows, _, _, _) => JsFileReady(size, total, follows)
    case QuotaInfo(used, count, limit) => JsQuotaInfo(used, count, limit)
  }

  /** The strings of a response that the browser reads, in order. */
  function TextsSent(r: P.Response): seq<Text> {
    match r
    case Err(_, message, _) => [message]
    case DirListing(entries, next) =>
      Each(entries, (e: P.DirEntry) => e.name) + (match next case None => [] case Some(s) => [s])
    case Path(path) => [path]
    case _ => []
  }

  /** The strings of a response object, in the same order. */
  function TextsRead(j: JsResponse): seq<Text> {
    match j
    case JsErr(_, _, message) => [message]
    case JsDirListing(entries, next) =>
      Each(entries, (e: JsEntry) => e.name) + (match next case None => [] case Some(s) => [s])
    case JsPath(path) => [path]
    case _ => []
  }

  function Each<A, B>(xs: seq<A>, f: A -> B): (r: seq<B>)
    ensures |r| == |xs| && forall i :: 0 <= i < |xs| ==> r[i] == f(xs[i])
  {
    seq(|xs|, i requires 0 <= i < |xs| => f(xs[i]))
  }

  // ---- agreement --------------------------------------------------------

  lemma StrReads(lossy: Lossy, s: Text, tail: seq<Byte>)
    requires P.ValidText(s)
    ensures ReadStr(lossy, Encode(VStr(s)) + tail) == Some((WithoutBom(s), tail))
  {
    hide LittleEndian, FromLittleEndian, TakeInt, IsUtf8, WithoutBom;
    WidthOfRange();
    TakesBack(|s|, 8, s + tail);
    assert Encode(VStr(s)) + tail == LittleEndian(|s|, 8) + (s + tail);
    assert (s + tail)[..|s|] == s && (s + tail)[|s|..] == tail;
  }

  lemma StrOptionReads(lossy: Lossy, o: Option<Text>, tail: seq<Byte>)
    requires P.ValidTextOption(o)
    ensures ReadStrOption(lossy, Encode(P.TextOption(o)) + tail)
         == Some((match o case None => None case Some(s) => Some(WithoutBom(s)), tail))
  {
    hide ReadStr, IsUtf8, WithoutBom;
    var b := Encode(P.TextOption(o)) + tail;
    if o.Some? {
      StrReads(lossy, o.value, tail);
      assert b[1..] == Encode(VStr(o.value)) + tail;
    } else {
      assert b[1..] == tail;
    }
  }

  lemma U64OptionReads(o: Option<nat>, tail: seq<Byte>)
    requires o.Some? ==> o.value < U64
    ensures ReadU64Option(Encode(P.U64Option(o)) + tail) == Some((o, tail))
  {
    hide LittleEndian, FromLittleEndian, TakeInt;
    WidthOfRange();
    var b := Encode(P.U64Option(o)) + tail;
    if o.Some? {
      TakesBack(o.value, 8, tail);
      assert b[1..] == Encode(VU64(o.value)) + tail;
    } else {
      assert b[1..] == tail;
    }
  }

  /** The bytes of the fields from the `i`th on, and what follows. */
  ghost function From(vs: seq<Val>, i: nat, tail: seq<Byte>): seq<Byte>
    requires i <= |vs|
  {
    EncodeAll(vs[i..]) + tail
  }

  lemma FromNext(vs: seq<Val>, i: nat, tail: seq<Byte>)
    requires i < |vs|
    ensures From(vs, i, tail) == Encode(vs[i]) + From(vs, i + 1, tail)
    ensures vs[i].VU32? && vs[i].w < U32 ==> TakeInt(From(vs, i, tail), 4) == Some((vs[i].w, From(vs, i + 1, tail)))
    ensures vs[i].VU64? && vs[i].l < U64 ==> TakeInt(From(vs, i, tail), 8) == Some((vs[i].l, From(vs, i + 1, tail)))
    ensures vs[i].VBool? ==> ReadByte(From(vs, i, tail)) == Some((if vs[i].b then 1 else 0, From(vs, i + 1, tail)))
  {
    W.EncodeAllDrop(vs, i, tail);
    hide EncodeAll, LittleEndian, FromLittleEndian, TakeInt;
    WidthOfRange();
    if vs[i].VU32? && vs[i].w < U32 {
      TakesBack(vs[i].w, 4, From(vs, i + 1, tail));
    } else if vs[i].VU64? && vs[i].l < U64 {
      TakesBack(vs[i].l, 8, From(vs, i + 1, tail));
    }
  }

  lemma FromEnds(vs: seq<Val>, tail: seq<Byte>)
    ensures From(vs, 0, tail) == EncodeAll(vs) + tail && From(vs, |vs|, tail) == tail
  {
    assert vs[0..] == vs && vs[|vs|..] == [];
    assert [] + tail == tail;
  }

  lemma MetaReads(vs: seq<Val>, i: nat, m: P.Meta, tail: seq<Byte>)
    requires i + 7 == |vs| && vs[i..] == P.MetaVals(m) && P.ValidMeta(m)
    ensures ReadMeta(From(vs, i, tail)) == Some((ShownMeta(m), tail))
  {
    hide TakeInt, From, Encode, P.TypeToU32;
    MetaFields(vs, i, m);
    FromNext(vs, i, tail);
    FromNext(vs, i + 1, tail);
    FromNext(vs, i + 2, tail);
    FromNext(vs, i + 3, tail);
    FromNext(vs, i + 4, tail);
    FromNext(vs, i + 5, tail);
    FromNext(vs, i + 6, tail);
    FromEnds(vs, tail);
  }

  lemma MetaFields(vs: seq<Val>, i: nat, m: P.Meta)
    requires i + 7 == |vs| && vs[i..] == P.MetaVals(m)
    ensures vs[i] == VU32(P.TypeToU32(m.fileType)) && vs[i + 1] == VU64(m.size) && vs[i + 2] == VU64(m.modified)
    ensures vs[i + 3] == VU32(m.mtimeNanos) && vs[i + 4] == VU32(m.uid)
    ensures vs[i + 5] == VU32(m.gid) && vs[i + 6] == VU32(m.mode)
  {
    var xs := vs[i..];
    assert xs[0] == vs[i] && xs[1] == vs[i + 1] && xs[2] == vs[i + 2] && xs[3] == vs[i + 3];
    assert xs[4] == vs[i + 4] && xs[5] == vs[i + 5] && xs[6] == vs[i + 6];
  }

  lemma EntryReads(lossy: Lossy, e: P.DirEntry, tail: seq<Byte>)
    requires P.ValidText(e.name) && P.ValidMeta(e.meta)
    ensures ReadEntry(lossy, Encode(P.EntryVal(e)) + tail)
            == Some((JsEntry(WithoutBom(e.name), ShownMeta(e.meta)), tail))
  {
    hide TakeInt, From, ReadStr, ReadMeta, WithoutBom, ShownMeta, IsUtf8, P.MetaVals, P.ValidMeta;
    var vs := [VStr(e.name)] + P.MetaVals(e.meta);
    MetaCount(e.meta);
    EntryBytes(e);
    hide Encode;
    FromEnds(vs, tail);
    FromNext(vs, 0, tail);
    StrReads(lossy, e.name, From(vs, 1, tail));
    assert vs[1..] == P.MetaVals(e.meta);
    MetaReads(vs, 1, e.meta, tail);
  }

  lemma EntryBytes(e: P.DirEntry)
    ensures Encode(P.EntryVal(e)) == EncodeAll([VStr(e.name)] + P.MetaVals(e.meta))
  {
  }

  lemma MetaCount(m: P.Meta)
    ensures |P.MetaVals(m)| == 7
  {
  }

  lemma {:induction false} EntriesRead(lossy: Lossy, es: seq<P.DirEntry>, tail: seq<Byte>)
    requires forall i :: 0 <= i < |es| ==> P.ValidText(es[i].name) && P.ValidMeta(es[i].meta)
    ensures ReadEntries(lossy, |es|, EncodeAll(P.EntryVals(es)) + tail) == Some((ShownEntries(es), tail))
    decreases |es|
  {
    hide ReadEntry, Encode, WithoutBom, ShownMeta, IsUtf8, P.EntryVal, P.ValidMeta, P.ValidText;
    var vs := P.EntryVals(es);
    if es == [] {
      assert EncodeAll(vs) + tail == tail;
    } else {
      FromEnds(vs, tail);
      FromNext(vs, 0, tail);
      assert vs[1..] == P.EntryVals(es[1..]);
      EntryReads(lossy, es[0], EncodeAll(vs[1..]) + tail);
      EntriesRead(lossy, es[1..], tail);
    }
  }

  lemma ListingReads(lossy: Lossy, r: P.Response, tail: seq<Byte>)
    requires r.DirListing? && P.ValidResponse(r)
    ensures ReadListing(lossy, EncodeAll(P.ResponseVal(r).payload.vals) + tail) == Some(Shown(r))
  {
    hide TakeInt, From, ReadStrOption, ReadEntries, Encode, WithoutBom, P.EntryVals, ShownEntries, P.ValidMeta,
         P.ValidText;
    var vs := P.ResponseVal(r).payload.vals;
    FromEnds(vs, tail);
    FromNext(vs, 0, tail);
    FromNext(vs, 1, tail);
    SeqBytes(P.EntryVals(r.entries), From(vs, 1, tail));
    EntriesRead(lossy, r.entries, From(vs, 1, tail));
    StrOptionReads(lossy, r.nextCursor, From(vs, 2, tail));
  }

  lemma SeqBytes(xs: seq<Val>, tail: seq<Byte>)
    requires |xs| < U64
    ensures TakeInt(Encode(VSeq(xs)) + tail, 8) == Some((|xs|, EncodeAll(xs) + tail))
  {
    hide LittleEndian, FromLittleEndian, TakeInt;
    WidthOfRange();
    TakesBack(|xs|, 8, EncodeAll(xs) + tail);
    assert Encode(VSeq(xs)) + tail == LittleEndian(|xs|, 8) + (EncodeAll(xs) + tail);
  }

  lemma FieldsRead(lossy: Lossy, r: P.Response, tail: seq<Byte>)
    requires P.ValidResponse(r) && !r.DirListing?
    ensures var b, tag := EncodeAll(P.ResponseVal(r).payload.vals) + tail, P.ResponseVal(r).tag;
            && (tag == 1 ==> ReadErr(lossy, b) == Some(Shown(r)))
            && (tag == 3 ==> ReadStr(lossy, b).Some? && JsPath(ReadStr(lossy, b).value.0) == Shown(r))
            && (tag == 4 ==> ReadMeta(b).Some? && JsFileStat(ReadMeta(b).value.0) == Shown(r))
            && (tag == 5 ==> ReadReady(b) == Some(Shown(r)))
            && (tag == 6 ==> ReadQuota(b) == Some(Shown(r)))
  {
    hide TakeInt, From, ReadStr, ReadMeta, ReadByte, ReadU64Option, Encode, WithoutBom, ShownMeta, P.MetaVals,
         P.ValidMeta, P.ValidText;
    hide P.CodeToU32, P.HashToU32, P.EncodingToU32, P.U64Option, CodeName;
    var vs := P.ResponseVal(r).payload.vals;
    FromEnds(vs, tail);
    match r
    case Ok =>
    case Err(code, message, details) =>
      FromNext(vs, 0, tail);
      FromNext(vs, 1, tail);
      StrReads(lossy, message, From(vs, 2, tail));
    case Path(path) =>
      FromNext(vs, 0, tail);
      StrReads(lossy, path, From(vs, 1, tail));
    case FileStat(meta) =>
      MetaCount(meta);
      assert vs[0..] == P.MetaVals(meta);
      MetaReads(vs, 0, meta, tail);
    case FileReady(size, total, follows, _, _, _) =>
      FromNext(vs, 0, tail);
      FromNext(vs, 1, tail);
      FromNext(vs, 2, tail);
    case QuotaInfo(used, count, limit) =>
      FromNext(vs, 0, tail);
      FromNext(vs, 1, tail);
      FromNext(vs, 2, tail);
      U64OptionReads(limit, From(vs, 3, tail));
  }

  /** The browser reads any native response right, whatever a newer server appends to it. */
  lemma BrowserReadsNative(lossy: Lossy, r: P.Response, tail: seq<Byte>)
    requires P.ValidResponse(r)
    ensures JsDecode(lossy, L.EncodeResponse(r) + tail) == Some(Shown(r))
  {
    hide LittleEndian, FromLittleEndian, TakeInt, EncodeAll, P.ValidResponse;
    hide ReadErr, ReadListing, ReadStr, ReadMeta, ReadReady, ReadQuota;
    var v := P.ResponseVal(r);
    WidthOfRange();
    W.EncodeMessage(v.tag, v.payload.vals);
    TakesBack(v.tag, 4, EncodeAll(v.payload.vals) + tail);
    assert L.EncodeResponse(r) + tail == LittleEndian(v.tag, 4) + (EncodeAll(v.payload.vals) + tail);
    if r.DirListing? {
      ListingReads(lossy, r, tail);
    } else {
      FieldsRead(lossy, r, tail);
    }
  }

  lemma TextsShown(r: P.Response)
    ensures var (sent, read) := (TextsSent(r), TextsRead(Shown(r)));
            |read| == |sent| && forall i :: 0 <= i < |sent| ==> read[i] == WithoutBom(sent[i])
  {
  }

  /**
   * The browser gets every string of a response as it was sent exactly when
   * none starts with a byte-order mark.
   */
  lemma TextsArriveIff(lossy: Lossy, r: P.Response, tail: seq<Byte>)
    requires P.ValidResponse(r)
    ensures var j := JsDecode(lossy, L.EncodeResponse(r) + tail);
            j.Some? && (TextsRead(j.value) == TextsSent(r) <==> forall s :: s in TextsSent(r) ==> !(BOM <= s))
  {
    hide JsDecode, Shown, TextsSent, TextsRead, P.ValidResponse;
    BrowserReadsNative(lossy, r, tail);
    TextsShown(r);
    var sent, read := TextsSent(r), TextsRead(Shown(r));
    if read == sent {
      forall s | s in sent
        ensures !(BOM <= s)
      {
        var i :| 0 <= i < |sent| && sent[i] == s;
        assert read[i] == s;
      }
    } else {
      var i :| 0 <= i < |sent| && read[i] != sent[i];
      assert sent[i] in sent;
    }
  }

  /**
   * The browser gives an error the name it has on the server exactly if that
   * is no `DecodeError` and no unknown code with a name, and takes for
   * directories exactly what the server sends as one.
   */
  lemma NamesArriveIff(lossy: Lossy, r: P.Response, tail: seq<Byte>)
    requires P.ValidResponse(r)
    ensures var j := JsDecode(lossy, L.EncodeResponse(r) + tail);
            match r
            case Err(c, _, _) =>
              && j.Some? && j.value.JsErr?
              && (j.value.code == Spelled(c)
                  <==> !c.DecodeError? && !(c.UnknownCode? && P.NamedCode(c.n) && c.n != 431))
            case FileStat(m) => j.Some? && j.value.JsFileStat? && (j.value.meta.isDir <==> IsDirectory(m.fileType))
            case DirListing(entries, _) =>
              && j.Some? && j.value.JsDirListing? && |j.value.entries| == |entries|
              && (forall i :: 0 <= i < |entries| ==>
                    (j.value.entries[i].meta.isDir <==> IsDirectory(entries[i].meta.fileType)))
            case _ => true
  {
    hide JsDecode, P.ValidResponse, CodeName, Spelled, P.CodeToU32;
    BrowserReadsNative(lossy, r, tail);
    if r.Err? {
      CodesAgreeIff(r.code);
    }
  }

  /** The type, or the number that is its name. */
  predicate IsDirectory(t: P.FileType) {
    t == P.Directory || t == P.UnknownType(1)
  }

  /** Whatever the native decoder accepts, the browser reads the same. */
  lemma BrowserAgrees(lossy: Lossy, b: seq<Byte>)
    requires L.DecodeResponse(b).Some?
    ensures JsDecode(lossy, b) == Some(Shown(L.DecodeResponse(b).value.0))
  {
    L.ResponseCanonical(b);
    var (r, rest) := L.DecodeResponse(b).value;
    BrowserReadsNative(lossy, r, rest);
  }

  // ---- the reader as it advances ----------------------------------------

  class Reader {
    const u8: seq<Byte>
    const lossy: Lossy
    var pos: nat

    ghost predicate Valid()
      reads this
    {
      pos <= |u8|
    }

    ghost function Rest(): seq<Byte>
      reads this
      requires Valid()
    {
      u8[pos..]
    }

    constructor (u8: seq<Byte>, lossy: Lossy)
      ensures Valid() && Rest() == u8 && this.lossy == lossy
    {
      this.u8, this.lossy, pos := u8, lossy, 0;
    }

    method Bytes(n: nat) returns (b: Option<seq<Byte>>)
      requires Valid()
      modifies this
      ensures Valid()
      ensures match ReadBytes(old(Rest()), n) case None => b == None case Some((s, r)) => b == Some(s) && Rest() == r
    {
      if pos + n > |u8| {
        return None;
      }
      b := Some(u8[pos..pos + n]);
      assert u8[pos..][..n] == u8[pos..pos + n] && u8[pos..][n..] == u8[pos + n..];
      pos := pos + n;
    }

    method U8v() returns (v: Option<Byte>)
      requires Valid()
      modifies this
      ensures Valid()
      ensures match ReadByte(old(Rest())) case None => v == None case Some((c, r)) => v == Some(c) && Rest() == r
    {
      if pos + 1 > |u8| {
        return None;
      }
      v := Some(u8[pos]);
      assert u8[pos..][1..] == u8[pos + 1..];
      pos := pos + 1;
    }

    /** A little-endian integer of `w` bytes: the view's `getUint32` or `getBigUint64`. */
    method Int(w: nat) returns (v: Option<nat>)
      requires Valid()
      modifies this
      ensures Valid()
      ensures match TakeInt(old(Rest()), w) case None => v == None case Some((n, r)) => v == Some(n) && Rest() == r
    {
      var b := Bytes(w);
      v := match b case None => None case Some(s) => Some(FromLittleEndian(s));
    }

    method Str() returns (s: Option<Text>)
      requires Valid()
      modifies this
      ensures Valid()
      ensures match ReadStr(lossy, old(Rest())) case None => s == None case Some((t, r)) => s == Some(t) && Rest() == r
    {
      hide TakeInt, IsUtf8;
      var n := Int(8);
      if n == None {
        return None;
      }
      var b := Bytes(n.value);
      s := match b case None => None case Some(t) => Some(TextDecode(lossy, t));
    }

    method StrOption() returns (s: Option<Option<Text>>)
      requires Valid()
      modifies this
      ensures Valid()
      ensures match ReadStrOption(lossy, old(Rest()))
              case None => s == None
              case Some((t, r)) => s == Some(t) && Rest() == r
    {
      hide ReadStr, ReadByte;
      var c := U8v();
      if c == None {
        return None;
      }
      if c.value == 0 {
        return Some(None);
      }
      var t := Str();
      s := match t case None => None case Some(x) => Some(Some(x));
    }

    method U64Option() returns (n: Option<Option<nat>>)
      requires Valid()
      modifies this
      ensures Valid()
      ensures match ReadU64Option(old(Rest())) case None => n == None case Some((t, r)) => n == Some(t) && Rest() == r
    {
      hide TakeInt, ReadByte;
      var c := U8v();
      if c == None {
        return None;
      }
      if c.value == 0 {
        return Some(None);
      }
      var t := Int(8);
      n := match t case None => None case Some(x) => Some(Some(x));
    }

    method Times() returns (m: Option<(nat, nat, nat)>)
      requires Valid()
      modifies this
      ensures Valid()
      ensures match ReadTimes(old(Rest())) case None => m == None case Some((t, r)) => m == Some(t) && Rest() == r
    {
      hide TakeInt;
      var fileType := Int(4);
      if fileType == None {
        return None;
      }
      var size := Int(8);
      if size == None {
        return None;
      }
      var modified := Int(8);
      m := match modified case None => None case Some(t) => Some((fileType.value, size.value, t));
    }

    method Owner() returns (m: Option<(nat, nat, nat, nat)>)
      requires Valid()
      modifies this
      ensures Valid()
      ensures match ReadOwner(old(Rest())) case None => m == None case Some((t, r)) => m == Some(t) && Rest() == r
    {
      hide TakeInt;
      var nanos := Int(4);
      if nanos == None {
        return None;
      }
      var uid := Int(4);
      if uid == None {
        return None;
      }
      var gid := Int(4);
      if gid == None {
        return None;
      }
      var mode := Int(4);
      m := match mode case None => None case Some(t) => Some((nanos.value, uid.value, gid.value, t));
    }

    method Meta() returns (m: Option<JsMeta>)
      requires Valid()
      modifies this
      ensures Valid()
      ensures match ReadMeta(old(Rest())) case None => m == None case Some((t, r)) => m == Some(t) && Rest() == r
    {
      hide ReadTimes, ReadOwner;
      var times := Times();
      if times == None {
        return None;
      }
      var owner := Owner();
      if owner == None {
        return None;
      }
      var (fileType, size, modified) := times.value;
      var (nanos, uid, gid, mode) := owner.value;
      m := Some(JsMeta(fileType, fileType == 1, size, modified, nanos, uid, gid, mode));
    }

    method Entry() returns (e: Option<JsEntry>)
      requires Valid()
      modifies this
      ensures Valid()
      ensures match ReadEntry(lossy, old(Rest()))
              case None => e == None
              case Some((t, r)) => e == Some(t) && Rest() == r
    {
      hide ReadStr, ReadMeta;
      var name := Str();
      if name == None {
        return None;
      }
      var meta := Meta();
      e := match meta case None => None case Some(m) => Some(JsEntry(name.value, m));
    }

    method Entries(n: nat) returns (es: Option<seq<JsEntry>>)
      requires Valid()
      modifies this
      ensures Valid()
      ensures match ReadEntries(lossy, n, old(Rest()))
              case None => es == None
              case Some((t, r)) => es == Some(t) && Rest() == r
    {
      hide ReadEntry;
      ghost var all := ReadEntries(lossy, n, Rest());
      var read: seq<JsEntry> := [];
      var i := 0;
      assert all.Some? ==> read + all.value.0 == all.value.0;
      while i < n
        invariant 0 <= i <= n && Valid()
        invariant all == (match ReadEntries(lossy, n - i, Rest())
                          case None => None
                          case Some((t, r)) => Some((read + t, r)))
      {
        var e := Entry();
        if e == None {
          return None;
        }
        ghost var later := ReadEntries(lossy, n - i - 1, Rest());
        assert later.Some? ==> (read + [e.value]) + later.value.0 == read + ([e.value] + later.value.0);
        read := read + [e.value];
        i := i + 1;
      }
      assert read + [] == read;
      es := Some(read);
    }

    method Err() returns (r: Option<JsResponse>)
      requires Valid()
      modifies this
      ensures Valid() && r == ReadErr(lossy, old(Rest()))
    {
      hide TakeInt, ReadStr;
      var status := Int(4);
      if status == None {
        return None;
      }
      var message := Str();
      r := match message case None => None case Some(m) => Some(JsErr(status.value, CodeName(status.value), m));
    }

    method Listing() returns (r: Option<JsResponse>)
      requires Valid()
      modifies this
      ensures Valid() && r == ReadListing(lossy, old(Rest()))
    {
      hide TakeInt, ReadEntries, ReadStrOption;
      var n := Int(8);
      if n == None {
        return None;
      }
      var es := Entries(n.value);
      if es == None {
        return None;
      }
      var next := StrOption();
      r := match next case None => None case Some(c) => Some(JsDirListing(es.value, c));
    }

    method Ready() returns (r: Option<JsResponse>)
      requires Valid()
      modifies this
      ensures Valid() && r == ReadReady(old(Rest()))
    {
      hide TakeInt, ReadByte;
      var size := Int(8);
      if size == None {
        return None;
      }
      var total := Int(8);
      if total == None {
        return None;
      }
      var c := U8v();
      r := match c case None => None case Some(f) => Some(JsFileReady(size.value, total.value, f != 0));
    }

    method Quota() returns (r: Option<JsResponse>)
      requires Valid()
      modifies this
      ensures Valid() && r == ReadQuota(old(Rest()))
    {
      hide TakeInt, ReadU64Option;
      var used := Int(8);
      if used == None {
        return None;
      }
      var count := Int(8);
      if count == None {
        return None;
      }
      var limit := U64Option();
      r := match limit case None => None case Some(l) => Some(JsQuotaInfo(used.value, count.value, l));
    }
  }

  method DecodeResponse(u8: seq<Byte>, lossy: Lossy) returns (resp: Option<JsResponse>)
    ensures resp == JsDecode(lossy, u8)
    ensures L.DecodeResponse(u8).Some? ==> resp == Some(Shown(L.DecodeResponse(u8).value.0))
  {
    hide TakeInt, ReadErr, ReadListing, ReadStr, ReadMeta, ReadReady, ReadQuota, L.DecodeResponse, Shown;
    if L.DecodeResponse(u8).Some? {
      BrowserAgrees(lossy, u8);
    }
    var r := new Reader(u8, lossy);
    var tag := r.Int(4);
    if tag == None {
      return None;
    }
    match tag.value {
      case 0 => resp := Some(JsOk);
      case 1 => resp := r.Err();
      case 2 => resp := r.Listing();
      case 3 =>
        var p := r.Str();
        resp := match p case None => None case Some(s) => Some(JsPath(s));
      case 4 =>
        var m := r.Meta();
        resp := match m case None => None case Some(x) => Some(JsFileStat(x));
      case 5 => resp := r.Ready();
      case 6 => resp := r.Quota();
      case _ => resp := None;
    }
  }
}
