/** Codes that name the same things to every component. */
module Codes {

  datatype Encoding = Identity | Zstd | UnknownEncoding(n: nat)

  datatype ErrorCode =
    | Malformed | Unauthorized | PermissionDenied | NotFound | Unsupported | AlreadyExists | FileTooLarge
    | InvalidRange | NotADirectory | IsADirectory | ChecksumMismatch | UploadOverflow | UploadTruncated
    | RateLimited | QuotaExceeded | DecodeError | Internal | UnknownCode(n: nat)
}
