/**
 * The protocol's requests and responses, their numeric enums, and their
 * values on the wire. Strings are their UTF-8 bytes.
 */
module Protocol {
  import opened Bytes
  import opened Bincode
  import opened Codes

  type Text = seq<Byte>

  // ---- enums sent as a number -------------------------------------------

  datatype FileType = Regular | Directory | Symlink | Other | UnknownType(n: nat)

  function TypeToU32(t: FileType): nat {
    match t
    case Regular => 0
    case Directory => 1
    case Symlink => 2
    case Other => 3
    case UnknownType(n) => n
  }

  function TypeFromU32(n: nat): FileType {
    match n
    case 0 => Regular
    case 1 => Directory
    case 2 => Symlink
    case 3 => Other
    case _ => UnknownType(n)
  }

  datatype HashAlgorithm = Blake3 | UnknownHash(n: nat)

  function HashToU32(h: HashAlgorithm): nat {
    match h
    case Blake3 => 0
    case UnknownHash(n) => n
  }

  function HashFromU32(n: nat): HashAlgorithm {
    if n == 0 then Blake3 else UnknownHash(n)
  }

  function EncodingToU32(e: Encoding): nat {
    match e
    case Identity => 0
    case Zstd => 1
    case UnknownEncoding(n) => n
  }

  function EncodingFromU32(n: nat): Encoding {
    match n
    case 0 => Identity
    case 1 => Zstd
    case _ => UnknownEncoding(n)
  }

  function CodeToU32(c: ErrorCode): nat {
    match c
    case Malformed => 400
    case Unauthorized => 401
    case PermissionDenied => 403
    case NotFound => 404
    case Unsupported => 405
    case AlreadyExists => 409
    case FileTooLarge => 413
    case InvalidRange => 416
    case NotADirectory => 420
    case IsADirectory => 421
    case ChecksumMismatch => 422
    case UploadOverflow => 423
    case UploadTruncated => 424
    case RateLimited => 429
    case QuotaExceeded => 430
    case DecodeError => 431
    case Internal => 500
    case UnknownCode(n) => n
  }

  function CodeFromU32(n: nat): ErrorCode {
    match n
    case 400 => Malformed
    case 401 => Unauthorized
    case 403 => PermissionDenied
    case 404 => NotFound
    case 405 => Unsupported
    case 409 => AlreadyExists
    case 413 => FileTooLarge
    case 416 => InvalidRange
    case 420 => NotADirectory
    case 421 => IsADirectory
    case 422 => ChecksumMismatch
    case 423 => UploadOverflow
    case 424 => UploadTruncated
    case 429 => RateLimited
    case 430 => QuotaExceeded
    case 431 => DecodeError
    case 500 => Internal
    case _ => UnknownCode(n)
  }

  predicate NamedCode(n: nat) {
    n in {400, 401, 403, 404, 405, 409, 413, 416, 420, 421, 422, 423, 424, 429, 430, 431, 500}
  }

  /** Reading a number and writing it back gives the number; the other way round it may gain a name. */
  lemma NumbersSurvive(n: nat)
    ensures TypeToU32(TypeFromU32(n)) == n && HashToU32(HashFromU32(n)) == n
    ensures EncodingToU32(EncodingFromU32(n)) == n && CodeToU32(CodeFromU32(n)) == n
  {
  }

  /** A value survives the wire unless it is an unknown number that has a name. */
  lemma EnumsSurviveIff(t: FileType, h: HashAlgorithm, e: Encoding, c: ErrorCode)
    ensures TypeFromU32(TypeToU32(t)) == t <==> !(t.UnknownType? && t.n <= 3)
    ensures HashFromU32(HashToU32(h)) == h <==> !(h.UnknownHash? && h.n == 0)
    ensures EncodingFromU32(EncodingToU32(e)) == e <==> !(e.UnknownEncoding? && e.n <= 1)
    ensures CodeFromU32(CodeToU32(c)) == c <==> !(c.UnknownCode? && NamedCode(c.n))
  {
  }

  // ---- messages ---------------------------------------------------------

  datatype Request =
    | Ls(path: Text, cursor: Option<Text>)
    | Cd(path: Text)
    | Pwd
    | Get(path: Text, offset: nat, length: Option<nat>, acceptEncoding: seq<Encoding>)
    | Put(path: Text, size: nat, mode: nat, offset: nat, hashAlgorithm: HashAlgorithm, checksum: Option<seq<Byte>>,
          noClobber: bool, checksumTrailer: bool, encoding: Encoding, plaintextSize: nat)
    | Mkdir(path: Text)
    | Rmdir(path: Text)
    | Rm(path: Text)
    | Rename(from: Text, to: Text)
    | Chmod(path: Text, mode: nat)
    | Stat(path: Text)
    | Quota
    | Quit

  datatype ErrorDetails =
    | Range(offset: nat, fileSize: nat)
    | Upload(received: nat, declared: nat)
    | RetryAfter(millis: nat)

  datatype Meta = Meta(fileType: FileType, size: nat, modified: nat, mtimeNanos: nat, uid: nat, gid: nat, mode: nat)

  datatype DirEntry = DirEntry(name: Text, meta: Meta)

  datatype Response =
    | Ok
    | Err(code: ErrorCode, message: Text, details: Option<ErrorDetails>)
    | DirListing(entries: seq<DirEntry>, nextCursor: Option<Text>)
    | Path(path: Text)
    | FileStat(meta: Meta)
    | FileReady(size: nat, totalSize: nat, checksumFollows: bool, hashAlgorithm: HashAlgorithm, encoding: Encoding,
                plaintextSize: nat)
    | QuotaInfo(usedBytes: nat, fileCount: nat, limitBytes: Option<nat>)

  // ---- as values on the wire --------------------------------------------

  function OptionVal(o: Option<Val>): Val {
    match o case None => VNone case Some(x) => VSome(x)
  }

  function TextOption(o: Option<Text>): Val {
    OptionVal(match o case None => None case Some(s) => Some(VStr(s)))
  }

  function U64Option(o: Option<nat>): Val {
    OptionVal(match o case None => None case Some(n) => Some(VU64(n)))
  }

  function EncodingVals(es: seq<Encoding>): (vs: seq<Val>)
    ensures |vs| == |es| && forall i :: 0 <= i < |es| ==> vs[i] == VU32(EncodingToU32(es[i]))
  {
    if es == [] then [] else [VU32(EncodingToU32(es[0]))] + EncodingVals(es[1..])
  }

  function ByteVals(bs: seq<Byte>): (vs: seq<Val>)
    ensures |vs| == |bs| && forall i :: 0 <= i < |bs| ==> vs[i] == VU8(bs[i])
  {
    if bs == [] then [] else [VU8(bs[0])] + ByteVals(bs[1..])
  }

  function BytesOption(o: Option<seq<Byte>>): Val {
    OptionVal(match o case None => None case Some(bs) => Some(VSeq(ByteVals(bs))))
  }

  function RequestVal(r: Request): Val {
    match r
    case Ls(path, cursor) => VEnum(0, VTuple([VStr(path), TextOption(cursor)]))
    case Cd(path) => VEnum(1, VTuple([VStr(path)]))
    case Pwd => VEnum(2, VTuple([]))
    case Get(path, offset, length, accept) =>
      VEnum(3, VTuple([VStr(path), VU64(offset), U64Option(length), VSeq(EncodingVals(accept))]))
    case Put(path, size, mode, offset, hash, checksum, noClobber, trailer, encoding, plaintext) =>
      VEnum(4, VTuple([VStr(path), VU64(size), VU32(mode), VU64(offset), VU32(HashToU32(hash)), BytesOption(checksum),
                       VBool(noClobber), VBool(trailer), VU32(EncodingToU32(encoding)), VU64(plaintext)]))
    case Mkdir(path) => VEnum(5, VTuple([VStr(path)]))
    case Rmdir(path) => VEnum(6, VTuple([VStr(path)]))
    case Rm(path) => VEnum(7, VTuple([VStr(path)]))
    case Rename(from, to) => VEnum(8, VTuple([VStr(from), VStr(to)]))
    case Chmod(path, mode) => VEnum(9, VTuple([VStr(path), VU32(mode)]))
    case Stat(path) => VEnum(10, VTuple([VStr(path)]))
    case Quota => VEnum(11, VTuple([]))
    case Quit => VEnum(12, VTuple([]))
  }

  const TU64Pair: Ty := TTuple([TU64, TU64])
  const MetaTys: seq<Ty> := [TU32, TU64, TU64, TU32, TU32, TU32, TU32]
  const EntryTy: Ty := TTuple([TStr] + MetaTys)
  const DetailsTy: Ty := TEnum([TU64Pair, TU64Pair, TTuple([TU32])])

  const RequestTy: Ty := TEnum([
    TTuple([TStr, TOption(TStr)]),
    TTuple([TStr]),
    TTuple([]),
    TTuple([TStr, TU64, TOption(TU64), TSeq(TU32)]),
    TTuple([TStr, TU64, TU32, TU64, TU32, TOption(TSeq(TU8)), TBool, TBool, TU32, TU64]),
    TTuple([TStr]),
    TTuple([TStr]),
    TTuple([TStr]),
    TTuple([TStr, TStr]),
    TTuple([TStr, TU32]),
    TTuple([TStr]),
    TTuple([]),
    TTuple([])])

  const ResponseTy: Ty := TEnum([
    TTuple([]),
    TTuple([TU32, TStr, TOption(DetailsTy)]),
    TTuple([TSeq(EntryTy), TOption(TStr)]),
    TTuple([TStr]),
    TTuple(MetaTys),
    TTuple([TU64, TU64, TBool, TU32, TU32, TU64]),
    TTuple([TU64, TU64, TOption(TU64)])])

  function DetailsVal(d: ErrorDetails): Val {
    match d
    case Range(offset, size) => VEnum(0, VTuple([VU64(offset), VU64(size)]))
    case Upload(received, declared) => VEnum(1, VTuple([VU64(received), VU64(declared)]))
    case RetryAfter(millis) => VEnum(2, VTuple([VU32(millis)]))
  }

  function DetailsOption(o: Option<ErrorDetails>): Val {
    OptionVal(match o case None => None case Some(d) => Some(DetailsVal(d)))
  }

  function MetaVals(m: Meta): seq<Val> {
    [VU32(TypeToU32(m.fileType)), VU64(m.size), VU64(m.modified), VU32(m.mtimeNanos), VU32(m.uid), VU32(m.gid),
     VU32(m.mode)]
  }

  function EntryVal(e: DirEntry): Val {
    VTuple([VStr(e.name)] + MetaVals(e.meta))
  }

  function EntryVals(es: seq<DirEntry>): (vs: seq<Val>)
    ensures |vs| == |es| && forall i :: 0 <= i < |es| ==> vs[i] == EntryVal(es[i])
  {
    if es == [] then [] else [EntryVal(es[0])] + EntryVals(es[1..])
  }

  function ResponseVal(r: Response): Val {
    match r
    case Ok => VEnum(0, VTuple([]))
    case Err(code, message, details) => VEnum(1, VTuple([VU32(CodeToU32(code)), VStr(message), DetailsOption(details)]))
    case DirListing(entries, next) => VEnum(2, VTuple([VSeq(EntryVals(entries)), TextOption(next)]))
    case Path(path) => VEnum(3, VTuple([VStr(path)]))
    case FileStat(meta) => VEnum(4, VTuple(MetaVals(meta)))
    case FileReady(size, total, follows, hash, encoding, plaintext) =>
      VEnum(5, VTuple([VU64(size), VU64(total), VBool(follows), VU32(HashToU32(hash)), VU32(EncodingToU32(encoding)),
                       VU64(plaintext)]))
    case QuotaInfo(used, count, limit) => VEnum(6, VTuple([VU64(used), VU64(count), U64Option(limit)]))
  }

  // ---- and back ---------------------------------------------------------

  function StrOf(v: Val): Text {
    if v.VStr? then v.text else []
  }

  function NatOf(v: Val): nat {
    if v.VU32? then v.w else if v.VU64? then v.l else 0
  }

  function BoolOf(v: Val): bool {
    v.VBool? && v.b
  }

  function ElemsOf(v: Val): seq<Val> {
    if v.VSeq? then v.elems else if v.VTuple? then v.vals else []
  }

  function At(vs: seq<Val>, i: nat): Val {
    if i < |vs| then vs[i] else VNone
  }

  function TextOptionOf(v: Val): Option<Text> {
    if v.VSome? then Some(StrOf(v.inner)) else None
  }

  function U64OptionOf(v: Val): Option<nat> {
    if v.VSome? then Some(NatOf(v.inner)) else None
  }

  function EncodingsOf(vs: seq<Val>): (es: seq<Encoding>)
    ensures |es| == |vs| && forall i :: 0 <= i < |vs| ==> es[i] == EncodingFromU32(NatOf(vs[i]))
  {
    if vs == [] then [] else [EncodingFromU32(NatOf(vs[0]))] + EncodingsOf(vs[1..])
  }

  function BytesOf(vs: seq<Val>): (bs: seq<Byte>)
    ensures |bs| == |vs| && forall i :: 0 <= i < |vs| && vs[i].VU8? ==> bs[i] == vs[i].byte
  {
    if vs == [] then [] else [if vs[0].VU8? then vs[0].byte else 0] + BytesOf(vs[1..])
  }

  function BytesOptionOf(v: Val): Option<seq<Byte>> {
    if v.VSome? then Some(BytesOf(ElemsOf(v.inner))) else None
  }

  function RequestOf(v: Val): Request {
    var fs := if v.VEnum? then ElemsOf(v.payload) else [];
    match if v.VEnum? then v.tag else 0
    case 0 => Ls(StrOf(At(fs, 0)), TextOptionOf(At(fs, 1)))
    case 1 => Cd(StrOf(At(fs, 0)))
    case 2 => Pwd
    case 3 => Get(StrOf(At(fs, 0)), NatOf(At(fs, 1)), U64OptionOf(At(fs, 2)), EncodingsOf(ElemsOf(At(fs, 3))))
    case 4 => Put(StrOf(At(fs, 0)), NatOf(At(fs, 1)), NatOf(At(fs, 2)), NatOf(At(fs, 3)), HashFromU32(NatOf(At(fs, 4))),
                  BytesOptionOf(At(fs, 5)), BoolOf(At(fs, 6)), BoolOf(At(fs, 7)), EncodingFromU32(NatOf(At(fs, 8))),
                  NatOf(At(fs, 9)))
    case 5 => Mkdir(StrOf(At(fs, 0)))
    case 6 => Rmdir(StrOf(At(fs, 0)))
    case 7 => Rm(StrOf(At(fs, 0)))
    case 8 => Rename(StrOf(At(fs, 0)), StrOf(At(fs, 1)))
    case 9 => Chmod(StrOf(At(fs, 0)), NatOf(At(fs, 1)))
    case 10 => Stat(StrOf(At(fs, 0)))
    case 11 => Quota
    case _ => Quit
  }

  function DetailsOf(v: Val): ErrorDetails {
    var fs := if v.VEnum? then ElemsOf(v.payload) else [];
    match if v.VEnum? then v.tag else 0
    case 0 => Range(NatOf(At(fs, 0)), NatOf(At(fs, 1)))
    case 1 => Upload(NatOf(At(fs, 0)), NatOf(At(fs, 1)))
    case _ => RetryAfter(NatOf(At(fs, 0)))
  }

  function DetailsOptionOf(v: Val): Option<ErrorDetails> {
    if v.VSome? then Some(DetailsOf(v.inner)) else None
  }

  function MetaOf(fs: seq<Val>, i: nat): Meta {
    Meta(TypeFromU32(NatOf(At(fs, i))), NatOf(At(fs, i + 1)), NatOf(At(fs, i + 2)), NatOf(At(fs, i + 3)),
         NatOf(At(fs, i + 4)), NatOf(At(fs, i + 5)), NatOf(At(fs, i + 6)))
  }

  function EntryOf(v: Val): DirEntry {
    DirEntry(StrOf(At(ElemsOf(v), 0)), MetaOf(ElemsOf(v), 1))
  }

  function EntriesOf(vs: seq<Val>): (es: seq<DirEntry>)
    ensures |es| == |vs| && forall i :: 0 <= i < |vs| ==> es[i] == EntryOf(vs[i])
  {
    if vs == [] then [] else [EntryOf(vs[0])] + EntriesOf(vs[1..])
  }

  function ResponseOf(v: Val): Response {
    var fs := if v.VEnum? then ElemsOf(v.payload) else [];
    match if v.VEnum? then v.tag else 0
    case 0 => Ok
    case 1 => Err(CodeFromU32(NatOf(At(fs, 0))), StrOf(At(fs, 1)), DetailsOptionOf(At(fs, 2)))
    case 2 => DirListing(EntriesOf(ElemsOf(At(fs, 0))), TextOptionOf(At(fs, 1)))
    case 3 => Path(StrOf(At(fs, 0)))
    case 4 => FileStat(MetaOf(fs, 0))
    case 5 => FileReady(NatOf(At(fs, 0)), NatOf(At(fs, 1)), BoolOf(At(fs, 2)), HashFromU32(NatOf(At(fs, 3))),
                        EncodingFromU32(NatOf(At(fs, 4))), NatOf(At(fs, 5)))
    case _ => QuotaInfo(NatOf(At(fs, 0)), NatOf(At(fs, 1)), U64OptionOf(At(fs, 2)))
  }

  // ---- messages a peer can build ----------------------------------------

  predicate ValidText(s: Text) {
    |s| < U64 && IsUtf8(s)
  }

  predicate ValidTextOption(o: Option<Text>) {
    o.Some? ==> ValidText(o.value)
  }

  predicate ValidRequest(r: Request) {
    match r
    case Ls(path, cursor) => ValidText(path) && ValidTextOption(cursor)
    case Get(path, offset, length, accept) =>
      && ValidText(path) && offset < U64 && (length.Some? ==> length.value < U64) && |accept| < U64
      && forall i :: 0 <= i < |accept| ==> EncodingToU32(accept[i]) < U32
    case Put(path, size, mode, offset, hash, checksum, _, _, encoding, plaintext) =>
      && ValidText(path) && size < U64 && mode < U32 && offset < U64 && HashToU32(hash) < U32
      && (checksum.Some? ==> |checksum.value| < U64) && EncodingToU32(encoding) < U32 && plaintext < U64
    case Rename(from, to) => ValidText(from) && ValidText(to)
    case Chmod(path, mode) => ValidText(path) && mode < U32
    case Pwd | Quota | Quit => true
    case Cd(path) => ValidText(path)
    case Mkdir(path) => ValidText(path)
    case Rmdir(path) => ValidText(path)
    case Rm(path) => ValidText(path)
    case Stat(path) => ValidText(path)
  }

  predicate ValidMeta(m: Meta) {
    && TypeToU32(m.fileType) < U32 && m.size < U64 && m.modified < U64 && m.mtimeNanos < U32
    && m.uid < U32 && m.gid < U32 && m.mode < U32
  }

  predicate ValidDetails(d: ErrorDetails) {
    match d
    case Range(offset, size) => offset < U64 && size < U64
    case Upload(received, declared) => received < U64 && declared < U64
    case RetryAfter(millis) => millis < U32
  }

  predicate ValidResponse(r: Response) {
    match r
    case Ok => true
    case Err(code, message, details) =>
      CodeToU32(code) < U32 && ValidText(message) && (details.Some? ==> ValidDetails(details.value))
    case DirListing(entries, next) =>
      && |entries| < U64 && ValidTextOption(next)
      && forall i :: 0 <= i < |entries| ==> ValidText(entries[i].name) && ValidMeta(entries[i].meta)
    case Path(path) => ValidText(path)
    case FileStat(meta) => ValidMeta(meta)
    case FileReady(size, total, _, hash, encoding, plaintext) =>
      size < U64 && total < U64 && HashToU32(hash) < U32 && EncodingToU32(encoding) < U32 && plaintext < U64
    case QuotaInfo(used, count, limit) => used < U64 && count < U64 && (limit.Some? ==> limit.value < U64)
  }

  // ---- what the receiver makes of a message ------------------------------

  function Named(r: Request): Request {
    match r
    case Get(path, offset, length, accept) =>
      Get(path, offset, length,
          seq(|accept|, i requires 0 <= i < |accept| => EncodingFromU32(EncodingToU32(accept[i]))))
    case Put(path, size, mode, offset, hash, checksum, noClobber, trailer, encoding, plaintext) =>
      Put(path, size, mode, offset, HashFromU32(HashToU32(hash)), checksum, noClobber, trailer,
          EncodingFromU32(EncodingToU32(encoding)), plaintext)
    case _ => r
  }

  function NamedMeta(m: Meta): Meta {
    m.(fileType := TypeFromU32(TypeToU32(m.fileType)))
  }

  function NamedResponse(r: Response): Response {
    match r
    case Err(code, message, details) => Err(CodeFromU32(CodeToU32(code)), message, details)
    case DirListing(entries, next) =>
      DirListing(seq(|entries|, i requires 0 <= i < |entries| => entries[i].(meta := NamedMeta(entries[i].meta))), next)
    case FileStat(meta) => FileStat(NamedMeta(meta))
    case FileReady(size, total, follows, hash, encoding, plaintext) =>
      FileReady(size, total, follows, HashFromU32(HashToU32(hash)), EncodingFromU32(EncodingToU32(encoding)), plaintext)
    case _ => r
  }

  /** Some unknown number in the request has a name. */
  predicate Shadows(r: Request) {
    match r
    case Get(_, _, _, accept) => exists i :: 0 <= i < |accept| && accept[i].UnknownEncoding? && accept[i].n <= 1
    case Put(_, _, _, _, hash, _, _, _, encoding, _) =>
      (hash.UnknownHash? && hash.n == 0) || (encoding.UnknownEncoding? && encoding.n <= 1)
    case _ => false
  }

  predicate ShadowsType(t: FileType) {
    t.UnknownType? && t.n <= 3
  }

  predicate ResponseShadows(r: Response) {
    match r
    case Err(code, _, _) => code.UnknownCode? && NamedCode(code.n)
    case DirListing(entries, _) => exists i :: 0 <= i < |entries| && ShadowsType(entries[i].meta.fileType)
    case FileStat(meta) => ShadowsType(meta.fileType)
    case FileReady(_, _, _, hash, encoding, _) =>
      (hash.UnknownHash? && hash.n == 0) || (encoding.UnknownEncoding? && encoding.n <= 1)
    case _ => false
  }

  lemma NamedIff(r: Request)
    ensures Named(r) == r <==> !Shadows(r)
  {
    if r.Get? {
      var named := Named(r).acceptEncoding;
      if i :| 0 <= i < |r.acceptEncoding| && r.acceptEncoding[i].UnknownEncoding? && r.acceptEncoding[i].n <= 1 {
        assert named[i] != r.acceptEncoding[i];
      }
      if !Shadows(r) {
        assert named == r.acceptEncoding;
      }
    }
  }

  lemma NamedResponseIff(r: Response)
    ensures NamedResponse(r) == r <==> !ResponseShadows(r)
  {
    if r.DirListing? {
      var named := NamedResponse(r).entries;
      if i :| 0 <= i < |r.entries| && ShadowsType(r.entries[i].meta.fileType) {
        assert named[i] != r.entries[i];
      }
      if !ResponseShadows(r) {
        assert named == r.entries;
      }
    }
  }
}
