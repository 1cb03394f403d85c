# A model of qftp in Dafny

qftp transfers files over QUIC: a Rust server and client, a WebTransport bridge and a browser client. This project models
the parts of it whose correctness is hard to see from any one function, and proves what they promise for every input, every
chunking, every run or every interleaving. `dafny verify dfyconfig.toml` checks all of it.

| file | what it models |
|---|---|
| `Blake3Tree`, `Blake3Collisions`, `Blake3` | the recursive tree hash of section 2.1 of the BLAKE3 specification and what tells two inputs apart; the browser's streaming hasher with its lazily merged stack |
| `Compress`, `EscapeCodec`, `GetServer`, `GetClient`, `GetEndToEnd` | the codec wrappers, and a codec that meets what is asked of the library; the download protocol: the server's three-phase sender over a transport that takes any number of bytes, the client's splitting of arbitrary chunks, and a resumed download end to end |
| `Transport` | datagram egress with and without segmentation offload |
| `FileSystem`, `Handler`, `Confinement`, `Quota`, `Session` | a tree with symbolic links and the kernel's lookup over it; path resolution, requests, confinement to the root, and the cached byte count |
| `Uploads`, `UploadBudget`, `UploadState`, `UploadRuns`, `UploadLosses` | upload accounting and claims, one atomic step at a time, for any number of interleaved uploads and the same user's removals and renames; the quota; the objects that take those steps; runs in which quota or count fail |
| `PutSplit`, `PutZstd` | how an upload's stream is cut into body and checksum trailer; the native server's receiving side of a compressed upload |
| `Integers`, `Bincode`, `Protocol`, `ProtocolLaws`, `Framing` | the wire: fixed-width integers, the bincode data model, messages, frames |
| `WebCodec`, `WebReader` | the browser's codec and its agreement with the native one |
| `Retry` | stateless retry tokens and their exact acceptance set |
| `Limits`, `Pacer` | the request rate limiter and the upload throttle, over the reals |
| `Sync` | the pruned local walk, the exclusion test, and the plan built on both |
| `Bytes`, `Codes`, `Sums`, `Reals` | shared definitions: chunked streams, codes, sums over maps, facts about reals |

Code that updates state in place is a class or a method with loops, proved equal to a function of its old state; the
properties are then lemmas about those functions. Hash, compression, signature, glob matching and link targets are function
parameters, so that every result holds whatever they compute; what a result needs of them (a signature of 16 bytes, a
lossless codec) is stated where it is needed, and `EscapeCodec` is a codec that has it.

## Where the code does not do what one would expect

Each of these is proved, with its exact condition where there is one.

- A commit that replaces a file never takes that file's bytes out of `used_bytes`: once all uploads have ended, the cached
  count exceeds the disk by exactly what commits have overwritten and requests have removed without a refund, and equals it
  exactly when that is nothing (`Uploads.QuietRunBalances`; a run that does it: `UploadLosses.OverwriteStaysCounted`).
- Of the steps modelled these break the count, exactly under the condition given, and no others do (`Uploads.StepKeeps`):
  - truncating a stale partial fails after its refund: if the partial is not empty, it stays uncounted
    (`UploadLosses.RefundedPartialStays`);
  - the length of a stale partial cannot be told, which reads as 0: if it is not empty, its bytes stay counted once it is
    truncated (`UploadLosses.UnmeasuredPartialStaysCounted`);
  - the partial of a rejected upload cannot be removed: if it is not empty, it stays uncounted
    (`UploadLosses.RejectedPartialStays`);
  - an aborted upload could not write or flush all it received: it is charged for what it received, so the count is off if
    the disk holds anything else (`UploadLosses.SpoiledAbortIsCharged`);
  - a refund is more than `used_bytes` holds, and saturates. Uploads alone never get there; nor do requests that leave files
    alone until they are charged and refund what went (`Uploads.OrderlyRunKeepsCount`). But a file removed by another
    thread between the rename and the charge of its commit stays in the count for good
    (`UploadLosses.EarlyRemovalStaysCounted`).
- A commit releases its reservation and then charges `used_bytes`; a quota check loads `used_bytes` and then
  `in_flight_bytes`. For every quota a check admits only what fits exactly when the reservations nobody has decided on yet
  cover the upload's own bytes, those charged between the two loads, and those released but not charged at the second
  (`UploadBudget.AdmitsOnlyFittingIff`). The web bridge runs on a multi-threaded runtime and can miss either: from an empty
  home, twice the quota is admitted by a check between the two updates (`UploadRuns.GapAdmitsTooMuch`) and by one whose
  loads are before and after both (`UploadRuns.OldLoadAdmitsTooMuch`). The native server does all of this on its one
  event-loop thread, beside worker threads that remove and rename files and can only lower the count
  (crates/qftp-server/src/server.rs:118-125, 369-376); there every run stays within the quota, whatever fails
  (`UploadBudget.EventLoopStaysWithinQuota`).
- An upload completes exactly when some of its reads add up to what was declared (`PutSplit.CompletesIff`): every stream
  with surplus bytes completes if a read ends where the upload does, and is refused if one spans that mark, however little a
  read brings (`PutSplit.SurplusDependsOnChunks`), although the classifier's own verdict depends on the total alone
  (`PutSplit.ChunkingDoesNotMatter`).
- The idle sweep of the rate limiter is invisible to sources exactly when 300 seconds refill a bucket
  (`Limits.SweepInvisibleIff`). Over whole runs, no source is admitted more than burst + rps t times in any window exactly
  when 300 seconds refill a bucket or a bucket cannot hold a token at all (`Limits.WindowsBoundedIff`); when two bursts
  are more than the bound allows, they fit in 300 seconds (`Limits.SweepGrantsSecondBurst`).
- The back-off hint is enough, for every state of the table, every refused source and any calls of others in between, exactly
  when the burst is at least one and the rate is positive (`Limits.RetryHintSufficesIff`). A rate so low that the hint is cut
  to 2^32 - 1 ms is no exception: by then the idle bucket has been swept, and the source starts over with a full one. Neither
  number is validated: a smaller burst refuses for good (`Limits.SmallBurstFails`), and without a positive rate the hint is a
  second after which an empty bucket is still empty (`Limits.NoRateFails`).
- The token layout has no address-family label, so the claim of a 20-byte DCID over IPv4, or of an 8-byte one over IPv6, can
  have a second reading. A token serves nobody but the peer it was minted for exactly when the byte a peer of the other
  family would read as the length does not agree (`Retry.ServesOnlyItsPeerIff`). The comment in retry.rs calls the tag
  `hmac32`; it has 16 bytes.
- `TextDecoder` drops a leading byte-order mark: the browser gets every string of a response as it was sent exactly when
  none starts with one (`WebReader.TextsArriveIff`).
- If the QUIC connection fails to write, a segmented flush drops the batch it was filling, at most 31 datagrams that a
  per-packet flush would have sent already (`Transport.FlushEgress`, `Transport.OpenIsLatest`).
- The startup walk skips what it cannot read, so the cached count falls short by exactly the files below it
  (`Session.UndercountIsMissed`); it is exact only if those are empty (`Session.Session.constructor`).
- With `/` as the root, `Chmod` of the root itself does change the root (`Confinement.ChmodReachesTop`); below any other
  root changes stay strictly below (`Confinement.RunStaysStrictlyBelow`).
- With `--delete`, a file that is present locally and not excluded still loses its remote copy exactly if it is the root
  `.qftpignore`, or a directory above it could not be listed, or its own entry or that of a directory above it could not be
  read (`Sync.PlanSync`, `Sync.LosesRemoteCopy`). A file that cannot be looked up is compared, and uploaded, as an empty one
  of time 0.
- An upload does not carry the file's time. So a second sync of an unchanged tree deletes nothing, but without
  `--checksum` uploads again exactly the files whose first upload was more than two seconds from their own time
  (`Sync.SecondSync`).
- The browser's table of error names lacks 431: it shows that error as `Unknown`, and every other by the name it has on the
  server (`WebReader.NamesArriveIff`).
- After the body and trailer, a `Done` answer to the FIN call still counts as finished: a finished transfer has sent its FIN
  exactly when the transport took that last call (`GetServer.Sender.SendFin`, `GetServer.ServeGet`), and one can end
  without (`GetServer.FinishedWithoutFin`).

## Model

| member | source | states |
|---|---|---|
| Blake3Tree.LeftChunksIsLargest | web/blake3.js:172-182 | the left subtree of n > 1 chunks has the largest power of two of them that leaves the right side non-empty |
| Blake3Tree.LeftChunksUnique | web/blake3.js:172-182 | no other power of two does |
| Blake3Collisions.CollisionFree | web/blake3.js:92-215 | two inputs with one digest yield two different calls of the compression function with one chaining value: flags, counters, block lengths and padding keep all trees apart |
| Blake3Collisions.OneBlock | web/blake3.js:150-215 | the digest of at most 64 bytes is one call with counter 0, their number and flags 11 |
| Blake3Collisions.FourBytes | web/blake3.js:92-98 | words go in and come out lowest byte first |
| Blake3Collisions.TwoChunks | web/blake3.js:105-215 | the digest of a chunk and a block is a call with flags 12 on the first chunk's chaining value, then the second's, made with counters 0 and 1 |
| Blake3.ChunkState.Update | web/blake3.js:131-148 | a chunk fed in any pieces holds the compression of all full blocks but the last, which stays buffered |
| Blake3.MergeSubtrees | web/blake3.js:172-182 | the parent of the two halves' chaining values is the chaining value of the joined subtree |
| Blake3.StackIsBinary | web/blake3.js:166-182 | after k chunks the stack holds one complete-subtree value per set bit of k, largest first |
| Blake3.OddUnit | web/blake3.js:200-215 | a complete subtree of u chunks and the at most u chunks after it are the two sides of one parent |
| Blake3.FoldIsTree | web/blake3.js:200-215 | folding the stack from the right over the pending output gives the unique tree over the remaining chunks |
| Blake3.FoldIsWholeTree | web/blake3.js:200-215 | at the end the fold is the tree output of the whole input |
| Blake3.Hasher.AddChunkChainingValue | web/blake3.js:172-182 | the merge loop terminates, never pops an empty stack, and leaves the stack of one more chunk |
| Blake3.Hasher.Update | web/blake3.js:184-198 | one more piece of input, whatever its length, with the last 1 to 1024 bytes still unflushed |
| Blake3.Hasher.Digest | web/blake3.js:200-215 | the digest is the recursive tree hash of everything absorbed, ROOT flag only at the top |
| Blake3.HashPieces | web/blake3.js:184-215 | for every split of every input into update calls the digest is that of the whole input |
| Compress.PushDecodes | crates/qftp-protocol/src/compress.rs:183-211 | on a self-delimiting frame a push yields the next plaintext, completes exactly with the frame and consumes nothing after it |
| Compress.ZstdDecoder.Push | crates/qftp-protocol/src/compress.rs:183-211 | the push loop terminates on input and room left and does what its specification says; decoded never exceeds the cap |
| Compress.ZstdDecoder.Consume | crates/qftp-protocol/src/compress.rs:217-225 | consuming drops exactly that many pending bytes |
| Compress.ZstdEncoder.Push | crates/qftp-protocol/src/compress.rs:86-100 | however the library divides its work, the loop terminates and pending grows by all frame bytes of the chunk; it fails only if the library does or comes back empty-handed |
| Compress.ZstdEncoder.Finish | crates/qftp-protocol/src/compress.rs:102-121 | the same for the end of the frame |
| Compress.ProducedGrows | crates/qftp-protocol/src/compress.rs:86-135 | what an encoder has produced is a prefix of all it will produce |
| EscapeCodec.EscapeCodecIsLossless | crates/qftp-protocol/src/compress.rs:86-211 | the promises asked of the library can be kept: a codec that keeps them |
| GetServer.StartGet | crates/qftp-server/src/transfer_get.rs:82-168 | a Get is accepted iff the file is no longer than the limit and the offset within it; what it announces is the rest of the file or the part asked for, compressed iff that is accepted, at least 1024 bytes and likely to shrink |
| GetServer.Sender.PrefixRehash | crates/qftp-server/src/transfer_get.rs:354-385 | the hasher has seen exactly the file up to the reader position after every slice |
| GetServer.Sender.SendPiece | crates/qftp-server/src/transfer_get.rs:422-470 | a partly accepted piece advances wire, hash and reader by what was accepted and the rewind restores the position; unless file or connection fails, it takes an answer and the wire grows if that does |
| GetServer.Sender.BodyCompressed | crates/qftp-server/src/transfer_get.rs:473-534 | compressed output on the wire is a prefix of the one frame of the body, hash and reader in step |
| GetServer.Sender.SendTrailer | crates/qftp-server/src/transfer_get.rs:539-586 | the trailer goes out in order, any number of bytes at a time, after the whole body |
| GetServer.Sender.SendFin | crates/qftp-server/src/transfer_get.rs:539-586 | FIN follows all 32 trailer bytes; the call fails exactly if the stream is closed, and the FIN is sent exactly if the transport took it |
| GetServer.Sender.DriveOne | crates/qftp-server/src/transfer_get.rs:294-352 | every return leaves the wire a prefix of the stream and Finished means all of it; unless file, codec or connection fails, a turn finishes, re-hashes a slice of the prefix, or takes an answer, losing none that takes a byte |
| GetServer.WireIsPrefix | crates/qftp-server/src/transfer_get.rs:294-586 | wherever a call left off, the accepted bytes are a prefix of body then H(file[0..offset+size]) |
| GetServer.FinishedHasStream | crates/qftp-server/src/transfer_get.rs:539-586 | a sealed transfer has a complete stream |
| GetServer.ServeGet | crates/qftp-server/src/transfer_get.rs:203-233 | over any number of event-loop turns and any transport answers, the wire is a prefix of the stream and a finished one is all of it, with the FIN exactly if the transport took its last call; it does finish if file and codec work, as many answers take a byte as the stream is long, and there is a turn for each answer and prefix byte |
| GetServer.FinishedWithoutFin | crates/qftp-server/src/transfer_get.rs:539-586 | one transfer that ends finished without FIN |
| GetClient.HashPrefix | crates/qftp-client/src/transfer.rs:200-215 | the hash input is exactly the local prefix |
| GetClient.IdentityStep | crates/qftp-client/src/transfer.rs:253-300 | a chunk of an identity body is split into file bytes and trailer bytes as the whole stream would be |
| GetClient.ZstdStep | crates/qftp-client/src/transfer.rs:238-300 | a chunk of a compressed body writes exactly the plaintext and hands the bytes after the frame to the trailer |
| GetClient.Download.Accept | crates/qftp-client/src/transfer.rs:253-300 | file, hash input and trailer after a chunk are those of the longer stream |
| GetClient.Receive | crates/qftp-client/src/transfer.rs:463-600 | whatever the chunking and however many chunks one turn drains, what was received is a prefix of the stream and completion means body and trailer are there |
| GetClient.Settle | crates/qftp-client/src/transfer.rs:600-664 | a reported success has the digest the trailer carried; a mismatch deletes the local file |
| GetClient.DoGetInner | crates/qftp-client/src/transfer.rs:326-664 | one attempt on any stream, cut anywhere: its outcome and the file left behind |
| GetEndToEnd.StreamToEnd | crates/qftp-server/src/transfer_get.rs:94-182 | the stream from an offset is the rest of the file, encoded, and the digest of all of it |
| GetEndToEnd.AttemptEnds | crates/qftp-client/src/transfer.rs:326-664 | on any part of the server's stream success implies equal digests, and on all of it success is exactly that |
| GetEndToEnd.GetOnce | crates/qftp-client/src/transfer.rs:326-664 | a partial longer than the remote, and nothing else, is stale and deleted; an attempt in which nothing fails is undisturbed, and an undisturbed one succeeds exactly if the completed file has the remote's digest |
| GetEndToEnd.DoGet | crates/qftp-client/src/transfer.rs:302-324 | at most one retry; success implies H(local) = H(remote); if nothing fails, a matching prefix, and likewise a partial that is too long, ends as the remote's content; a mismatched one is deleted |
| GetEndToEnd.SmoothIsPossible | crates/qftp-server/src/transfer_get.rs:203-233 | for every remote file and offset there is such an attempt, over a connection that takes a byte at a time |
| Transport.CutBatch | crates/qftp-common/src/transport.rs:376-446 | a batch cut by the kernel at the segment size is the datagrams it was filled with |
| Transport.ReplayBatch | crates/qftp-common/src/transport.rs:315-369 | replaying a batch per packet sends the same datagrams in order, and stops short exactly at the first `send_to` that is refused |
| Transport.SendBatch | crates/qftp-common/src/transport.rs:334-369 | segmented or replayed after a refusal, the batch goes out once and in order; it fails exactly if the kernel refuses the segmented send, or there is none, and one of the `send_to` calls, and segmentation ends exactly with a refused one |
| Transport.NoRefusalNoFailure | crates/qftp-common/src/transport.rs:334-369 | a kernel that refuses no `send_to` fails no flush, whatever it does to segmented sends |
| Transport.StepKeepsBatch | crates/qftp-common/src/transport.rs:189-226 | a datagram may join an open batch exactly when the kernel can still cut it right |
| Transport.FillBatch | crates/qftp-common/src/transport.rs:228-300 | the buffer never overflows, the segment size fits, and the batch is the next datagrams in order |
| Transport.FlushEgressPerPacket | crates/qftp-common/src/transport.rs:142-167 | all pending datagrams to their destinations in order; if the connection fails, all it wrote before; the socket fails exactly if a `send_to` is refused |
| Transport.OpenIsLatest | crates/qftp-common/src/transport.rs:210-294 | the open batch is the latest datagrams, fewer than 32, of one length and one destination |
| Transport.FlushEgressGso | crates/qftp-common/src/transport.rs:228-313 | all pending datagrams in order; if the connection fails, all it wrote before but the open batch; the socket fails exactly if a `send_to` is refused |
| Transport.FlushEgress | crates/qftp-common/src/transport.rs:128-187 | both paths send the same datagrams if nothing fails, differ by exactly the open batch if the connection does, and by a prefix if a `send_to` is refused; a refused segmented send loses nothing |
| FileSystem.LocateLiteral | crates/qftp-protocol/src/handler.rs:226-286 | a path whose ancestors are real directories denotes itself |
| FileSystem.RenameKeepsTree | crates/qftp-protocol/src/handler.rs:685-710 | a rename leaves a tree |
| Handler.WalkStaysUnder | crates/qftp-protocol/src/handler.rs:123-182 | whatever components a client sends, a successful walk stays lexically under the root |
| Handler.WalkDenotes | crates/qftp-protocol/src/handler.rs:123-182 | a path denotes the place where a kernel lookup of it arrives that is confined to the root and follows no links, with the directory's own `..`, from the root or the working directory |
| Handler.WalkIsLookup | crates/qftp-protocol/src/handler.rs:134-182 | so does each rest of a path, from wherever the walk has come |
| Handler.WalkAppend | crates/qftp-protocol/src/handler.rs:134-182 | a walk goes on from where its beginning leads, absent directories included |
| Handler.DetoursDoNotMatter | crates/qftp-protocol/src/handler.rs:136-145 | a `.` anywhere changes nothing, nor does a name that is no link and is left again by `..` |
| Handler.NamesAreLiteral | crates/qftp-protocol/src/handler.rs:146-175 | names that meet no link lead to themselves below the start |
| Handler.AbsoluteIgnoresCwd | crates/qftp-protocol/src/handler.rs:124-133 | an absolute path does not depend on the working directory |
| Handler.RefusedIff | crates/qftp-protocol/src/handler.rs:134-182 | a path is refused exactly if some component is: a name that is a link or cannot be looked up, a `..` at the root, a prefix |
| Handler.RecheckClears | crates/qftp-protocol/src/handler.rs:232-286 | the ancestor re-check passes iff every ancestor from the root down is there and no link, and all but the immediate parent are directories, whatever was resolved before |
| Handler.ClearMeansLiteral | crates/qftp-protocol/src/handler.rs:232-286 | after the re-check the kernel's lookup of the target is the target itself, or fails with ENOTDIR if its parent is no directory |
| Confinement.PerformIsLiteral | crates/qftp-protocol/src/handler.rs:486-787 | a successful request changes the tree at the location it names and nowhere else |
| Confinement.PerformSucceedsIff | crates/qftp-protocol/src/handler.rs:486-787 | and it succeeds exactly if such a change is possible, no upload's temporary file is named, and the source is no dangling link |
| Confinement.ChangeDirIff | crates/qftp-protocol/src/handler.rs:494-510 | the working directory changes exactly if the path leads to the root or, past clear ancestors, to a real directory, and then to that |
| Confinement.StepIsConfined | crates/qftp-protocol/src/handler.rs:486-787 | one request keeps the root a real directory and the cwd under it, and changes only what is below |
| Confinement.RunIsConfined | crates/qftp-protocol/src/handler.rs:123-286 | for every run of requests by any connections on any tree with links: the same, and every change is behind real directories |
| Confinement.RunStaysStrictlyBelow | crates/qftp-protocol/src/handler.rs:486-787 | below a root other than the top there is no exception |
| Confinement.ChmodReachesTop | crates/qftp-protocol/src/handler.rs:66-92 | the one exception happens |
| Confinement.StaleCwdIsCaught | crates/qftp-protocol/src/handler.rs:215-286 | from a cwd that became a link, the lexical walk alone would leave the root; the re-check refuses |
| Quota.GraftSum | crates/qftp-protocol/src/handler.rs:459-484 | moving a tree moves every byte to exactly one new place |
| Quota.RenameCounts | crates/qftp-protocol/src/handler.rs:459-484 | a rename frees exactly the entry it replaces |
| Quota.WrappersOnlyCount | crates/qftp-protocol/src/handler.rs:409-484 | the quota-aware wrappers change the tree as the plain handler does |
| Quota.StepKeepsCount | crates/qftp-protocol/src/handler.rs:409-484 | one request keeps the cached count equal to a full walk |
| Quota.RunKeepsCount | crates/qftp-protocol/src/user.rs:166-171 | so does every sequential run, including overwriting renames, moved directories and a file renamed onto itself |
| Session.WalkSafeLoop | crates/qftp-protocol/src/handler.rs:123-182 | the component loop computes the walk, which stays under the root |
| Session.RecheckLoop | crates/qftp-protocol/src/handler.rs:232-286 | collecting ancestors upwards and checking them root first computes the re-check |
| Session.VisitDirectory | crates/qftp-protocol/src/user.rs:286-336 | one directory's files are counted, its directories stacked, its links and whatever cannot be listed or looked up skipped |
| Session.WalkSize | crates/qftp-protocol/src/user.rs:391-410 | the stack walk terminates and counts once every regular file below the home that it can reach, and no other |
| Session.UndercountIsMissed | crates/qftp-protocol/src/user.rs:391-402 | it falls short by exactly the bytes it cannot reach |
| Session.Session.constructor | crates/qftp-protocol/src/user.rs:391-410 | the primed counter is exact if and only if all that the walk missed is empty |
| Session.Session.Serve | crates/qftp-protocol/src/handler.rs:486-787 | a connection's cwd, tree and counter after a request, with the counter exact |
| Uploads.MoveKeeps | crates/qftp-protocol/src/stream.rs:416-478 | a step that moves one upload on, and counters and disk with it, keeps the whole accounting |
| Uploads.RequestKeeps | crates/qftp-protocol/src/handler.rs:409-484 | so does a step that removes, renames or refunds a finished file, unless the refund saturates |
| Uploads.AheadIsOnDisk | crates/qftp-protocol/src/stream.rs:309-322 | what uploads have on disk beyond the count is on disk, since no two share a destination |
| Uploads.StaleIsCounted | crates/qftp-server/src/transfer_put.rs:337-352 | the refund of a stale partial does not saturate, as long as the files just renamed into place are there and no request refunded more than went |
| Uploads.PrefixIsCounted | crates/qftp-server/src/transfer_put.rs:60-79 | nor does, under the same condition, the refund of a deleted resume prefix |
| Uploads.StepKeeps | crates/qftp-protocol/src/stream.rs:294-478 | every step keeps claims, reservations and count consistent, but for the failing calls and saturating refunds listed, which always break them |
| Uploads.RunKeepsAccounting | crates/qftp-protocol/src/stream.rs:294-478 | under every interleaving of such steps `in_flight_bytes` is the sum held, `active_uploads` exactly the live claims, one per path, and the count differs from the disk by what uploads are ahead or owe and what has gone without a refund |
| Uploads.OrderlyRunKeepsCount | crates/qftp-protocol/src/handler.rs:424-447 | if no call fails, and requests leave uncharged files alone and refund at most what went, no refund saturates and no step of the run loses count |
| Uploads.QuietRunBalances | crates/qftp-server/src/transfer_put.rs:969-981 | with no upload left nothing is reserved or claimed, and the count is the disk plus what commits and requests took without a refund, so equal to it iff that is nothing |
| UploadLosses.OverwriteStaysCounted | crates/qftp-server/src/transfer_put.rs:969-981 | a run that replaces a file of m bytes by n leaves n on disk and m + n in the count |
| Uploads.AbortCountsReceived | crates/qftp-protocol/src/stream.rs:416-478 | an abort adds to the count exactly the bytes this upload left on disk |
| UploadLosses.RefundedPartialStays | crates/qftp-server/src/transfer_put.rs:337-354 | a reachable world whose count misses the partial |
| UploadLosses.UnmeasuredPartialStaysCounted | crates/qftp-server/src/transfer_put.rs:337-354 | a reachable world whose count has bytes that are on no disk, after a failed length lookup |
| UploadLosses.RejectedPartialStays | crates/qftp-server/src/transfer_put.rs:60-79 | a reachable world whose count misses a rejected partial |
| UploadLosses.SpoiledAbortIsCharged | crates/qftp-protocol/src/stream.rs:416-478 | a reachable world in which an aborted upload is charged whatever landed on disk |
| UploadLosses.EarlyRemovalStaysCounted | crates/qftp-protocol/src/handler.rs:424-447 | a reachable world that counts a file removed between the rename and the charge of its commit |
| UploadBudget.StepKeepsBooked | crates/qftp-protocol/src/user.rs:250-258 | `in_flight_bytes` is the sum held after every step of every run, whatever fails |
| UploadBudget.ReleaseNeverUnderflows | crates/qftp-protocol/src/user.rs:250-258 | a release finds its bytes in the counter |
| UploadBudget.OnlyAdmissionRaises | crates/qftp-server/src/transfer_put.rs:437-466 | no step but an admission raises what the user has or may still add |
| UploadBudget.AdmitsOnlyFittingIff | crates/qftp-server/src/transfer_put.rs:437-466 | whatever the quota, a check admits only what fits iff the undecided reservations cover its own bytes, what was charged since it loaded `used_bytes`, and what is released but not charged when it loads `in_flight_bytes` |
| UploadBudget.AdmissionFits | crates/qftp-server/src/transfer_put.rs:437-466 | such a check keeps the budget, whoever asks |
| UploadBudget.RunStaysWithinQuota | crates/qftp-protocol/src/user.rs:195-203 | every interleaving of such checks with any other steps stays within the quota |
| UploadBudget.EventLoopStaysWithinQuota | crates/qftp-server/src/server.rs:118-125 | on one event loop, where an upload between two accesses to the counters goes on before any other does, with removals and renames by other threads at any moment, every run stays within the quota |
| UploadRuns.GapAdmitsTooMuch | crates/qftp-web-bridge/src/transfer.rs:476-525 | from an empty home a run with a check between release and charge admits twice the quota |
| UploadRuns.OldLoadAdmitsTooMuch | crates/qftp-web-bridge/src/transfer.rs:476-481 | so does one with a check whose two loads are before and after a commit's two updates |
| UploadState.UploadClaim.TryClaim | crates/qftp-protocol/src/stream.rs:309-316 | a claim succeeds exactly on a free path |
| UploadState.UploadClaim.Drop | crates/qftp-protocol/src/stream.rs:318-322 | dropping a claim frees its path and no other |
| UploadState.InFlightReservation.Drop | crates/qftp-protocol/src/user.rs:250-258 | an armed guard releases its bytes, a disarmed one nothing |
| UploadState.ReadingFileData.Receive | crates/qftp-server/src/transfer_put.rs:757-800 | received bytes reach the partial and leave `remaining` |
| UploadState.ReadingFileData.CleanupRejected | crates/qftp-server/src/transfer_put.rs:60-79 | takes exactly the reject, release and settle steps, the first with or without the partial removed |
| UploadState.ReadingFileData.Commit | crates/qftp-server/src/transfer_put.rs:930-981 | takes the rename, release and settle steps, or those of a rejection if the destination must not be replaced, or none if the rename fails |
| UploadState.ReadingFileData.Drop | crates/qftp-protocol/src/stream.rs:416-478 | an abort moves exactly the bytes received into the count, whatever reached the disk; a settled state only drops its claim |
| UploadState.PreparePartial | crates/qftp-server/src/transfer_put.rs:322-395 | a fresh upload refunds and clears a stale partial; a resumed one needs a partial of exactly its offset; what is left if opening, asking for the length or truncating fails |
| UploadState.Admit | crates/qftp-server/src/transfer_put.rs:437-486 | reserves, then checks: the reservation is handed over, or reservation and claim are given back and a fresh partial deleted if it can be |
| UploadState.StartPut | crates/qftp-server/src/transfer_put.rs:255-510 | takes the claim, open, refund, truncate, reserve, load and check steps, undone by the guards if refused or if the file system fails at any of them |
| UploadState.StartsIff | crates/qftp-server/src/transfer_put.rs:255-510 | a Put starts exactly if its file is not too large, its destination free, the file system willing, a partial to resume as long as its offset, and the account then within the quota; what it then holds, and that a refused one leaves claims and reservations alone |
| PutSplit.ChunkExtends | crates/qftp-protocol/src/stream.rs:224-248 | classifying a chunk after a stream is cutting the longer stream |
| PutSplit.ChunkingDoesNotMatter | crates/qftp-protocol/src/stream.rs:224-248 | body, trailer and verdict of any chunking are those of the whole stream |
| PutSplit.TrailerBuf.Extend | crates/qftp-protocol/src/stream.rs:153-160 | appends what fits; never more than 32 bytes |
| PutSplit.PutReceiver.RoutePutChunk | crates/qftp-web-bridge/src/transfer.rs:837-869 | a chunk goes where the classifier says; an overflow leaves what was received before it |
| PutSplit.ReceivePut | crates/qftp-web-bridge/src/transfer.rs:690-749 | the outcome after any arrivals, with the header checksum used exactly when there is no trailer |
| PutSplit.CompletesIff | crates/qftp-web-bridge/src/transfer.rs:705-749 | an upload completes exactly when some of its reads add up to what was declared |
| PutSplit.SurplusEnds | crates/qftp-web-bridge/src/transfer.rs:690-749 | a stream with surplus bytes completes if a read ends at the mark, and is refused otherwise |
| PutSplit.SurplusDependsOnChunks | crates/qftp-web-bridge/src/transfer.rs:690-749 | every stream with surplus bytes completes in one chunking and is refused in another, both of reads no longer than any limit from two bytes up |
| PutZstd.CompressedPut.AppendTrailer | crates/qftp-server/src/transfer_put.rs:142-161 | takes what follows the frame, and refuses what does not fit or was not announced |
| PutZstd.CompressedPut.Feed | crates/qftp-server/src/transfer_put.rs:94-140 | one chunk of a compressed body: the plaintext behind the prefix, hashed and within the declared size, and the rest in the trailer; a lawful stream is refused exactly for surplus bytes |
| PutZstd.ReceiveCompressed | crates/qftp-server/src/transfer_put.rs:612-925 | nothing is committed whose digest the client did not send; however a lawful stream is cut, and whether its end comes with the request, with a read or not yet, it is waited for, cut off, failed, committed or refused by its digest according to what arrived |
| PutZstd.ReceiveUpload | crates/qftp-server/src/transfer_put.rs:612-925 | for every lossless codec, pushes and cuts: an incomplete upload is never committed, and a whole one is committed iff the digest of prefix and body is the client's |
| Bincode.DecodeEncode | crates/qftp-common/src/transport.rs:584-590 | decoding an encoding gives the value back and leaves what follows |
| Bincode.EncodeDecode | crates/qftp-common/src/transport.rs:584-590 | whatever decodes is the one encoding of what it decodes to, and bytes after it |
| Protocol.NumbersSurvive | crates/qftp-common/src/protocol.rs:247-488 | `to_u32(from_u32(n))` is n for all four enums |
| Protocol.EnumsSurviveIff | crates/qftp-common/src/protocol.rs:247-488 | the other way round a value survives unless it is an unknown number that has a name |
| ProtocolLaws.RequestTyped | crates/qftp-common/src/protocol.rs:554-662 | a request can be sent exactly when its numbers fit and its strings are UTF-8 |
| ProtocolLaws.ResponseTyped | crates/qftp-common/src/protocol.rs:667-756 | the same for responses |
| ProtocolLaws.RequestRoundTrip | crates/qftp-common/src/protocol.rs:554-662 | a request arrives, unchanged exactly when no unknown number in it has a name |
| ProtocolLaws.RequestCanonical | crates/qftp-common/src/protocol.rs:554-662 | bytes that decode to a request are that request's encoding |
| ProtocolLaws.ResponseRoundTrip | crates/qftp-common/src/protocol.rs:667-756 | a response arrives, unchanged exactly when no unknown number in it has a name |
| ProtocolLaws.ResponseCanonical | crates/qftp-common/src/protocol.rs:667-756 | bytes that decode to a response are that response's encoding |
| Framing.FramedRoundTrip | crates/qftp-common/src/transport.rs:482-497 | what is framed decodes to the message, whatever follows; a message that is not framed is what no buffer decodes to |
| Framing.FrameDecodes | crates/qftp-common/src/transport.rs:603-638 | a whole frame decodes to its message, fields of a newer sender ignored, and leaves what follows |
| Framing.PrefixIsIncomplete | crates/qftp-common/src/transport.rs:603-622 | a strict prefix of a frame decodes to nothing yet |
| Framing.StreamBuf.DecodeFramedMessage | crates/qftp-common/src/transport.rs:603-638 | a frame is drained on success only; otherwise the buffer is unchanged |
| Framing.ReceiveAll | crates/qftp-common/src/transport.rs:548-638 | for every list of messages and every chunking of their frames, exactly that list comes out and nothing is left |
| WebCodec.Writer.Finish | web/app.js:43-48 | the copied parts are the written bytes |
| WebCodec.EncodeRequest | web/app.js:95-138 | every request the browser encodes has the bytes of the native request it stands for, numbers reduced to their width |
| WebCodec.FramePayload | web/app.js:214-220 | the browser's frame is the native frame |
| WebCodec.BrowserRequestArrives | web/app.js:95-138 | a framed browser request decodes natively to what it stands for, an upload without encoding or offset as identity from the start |
| WebReader.BrowserReadsNative | web/app.js:140-201 | the browser reads any native response right in every field it reads, whatever a newer server appends |
| WebReader.BrowserAgrees | web/app.js:140-201 | whatever the native decoder accepts, the browser reads the same |
| WebReader.NamesArriveIff | web/app.js:72-93 | errors get the name they have on the server iff that is not 431 or an unknown number with a name, and `isDir` holds iff the native type is a directory |
| WebReader.TextsArriveIff | web/app.js:65-65 | from the bytes of any response the browser gets every string as sent iff none starts with a byte-order mark |
| WebReader.DecodeResponse | web/app.js:51-201 | the advancing reader decodes as specified, on malformed frames too |
| Retry.AcceptsExactlyMinted | crates/qftp-server/src/retry.rs:76-187 | `verify` accepts exactly the tokens `mint` makes for that peer within the window |
| Retry.VerifyMinted | crates/qftp-server/src/retry.rs:112-187 | what any peer gets from a minted token |
| Retry.SameFamilyAcceptance | crates/qftp-server/src/retry.rs:76-187 | within a family the DCID comes back iff address and port are equal and clocks differ by at most 60 s; minting needs 8 to 20 bytes |
| Retry.OtherFamilyReadsIff | crates/qftp-server/src/retry.rs:83-92 | some peer of the other family reads a claim as its own iff 20-byte DCID and its byte 11 is 8 (IPv4), or 8-byte DCID and address byte 6 is 20 (IPv6) |
| Retry.ServesOnlyItsPeerIff | crates/qftp-server/src/retry.rs:76-187 | within its window a token serves nobody but its peer iff its claim has no second reading |
| Retry.CrossFamilyCoincidence | crates/qftp-server/src/retry.rs:83-92 | for every IPv4 peer there is such a claim |
| Limits.SharedBucket | crates/qftp-server/src/limits.rs:20-31 | two sources share a bucket iff they are the same IPv4 address or the same IPv6 /64 |
| Limits.SweepInvisibleIff | crates/qftp-server/src/limits.rs:138-146 | sweeping changes no source's tokens, in any table, iff 300 rps >= burst |
| Limits.DrawSpendsOne | crates/qftp-server/src/limits.rs:119-132 | an admission costs its source one token and nobody else anything |
| Limits.MakeRoomFits | crates/qftp-server/src/limits.rs:158-175 | a full table gives up one bucket for a new source, whatever the enumeration |
| Limits.AdmittedAtMost | crates/qftp-server/src/limits.rs:115-146 | a source never evicted is admitted at most burst + rps (t - s) times in any window |
| Limits.TableStaysBounded | crates/qftp-server/src/limits.rs:158-175 | the table never outgrows its cap in any run |
| Limits.WindowsBoundedIff | crates/qftp-server/src/limits.rs:115-146 | over all runs and windows the bound burst + rps t holds iff 300 seconds refill a bucket or none holds a token |
| Limits.SweepGrantsSecondBurst | crates/qftp-server/src/limits.rs:138-146 | whenever twice the whole tokens of a burst exceed burst + 300 rps, a source gets both within 300 seconds |
| Limits.RetryHintSufficesIff | crates/qftp-server/src/limits.rs:108-146 | over all states, sources and calls of others in between, a refused source that waits as hinted is admitted iff burst >= 1 and the rate is positive |
| Limits.HintIsLeast | crates/qftp-server/src/limits.rs:108-113 | it is the least whole number of milliseconds after which an empty bucket admits |
| Limits.SmallBurstFails | crates/qftp-server/src/limits.rs:115-133 | with a burst below one token no call is admitted in any state |
| Limits.NoRateFails | crates/qftp-server/src/limits.rs:108-133 | without a positive rate a source short of a token is still refused after the hint |
| Limits.RateLimiter.FindOldest | crates/qftp-server/src/limits.rs:165-171 | the sample's scan finds its least recently used bucket |
| Limits.RateLimiter.TryConsume | crates/qftp-server/src/limits.rs:115-133 | sweep, make room, refill and draw, as one step on the table |
| Pacer.WaitIsExact | crates/qftp-client/src/transfer.rs:107-147 | no wait when there is credit; otherwise the wait ends exactly when there would be |
| Pacer.Pacer.Consume | crates/qftp-client/src/transfer.rs:107-128 | the bucket's fields after a request, and the wait |
| Pacer.CreditIsLeast | crates/qftp-client/src/transfer.rs:130-137 | when a chunk is read, the credit is the least that any stretch has left |
| Pacer.WaitIsEarliest | crates/qftp-client/src/transfer.rs:107-147 | the end of the wait is the earliest moment at which every stretch allows the chunk |
| Pacer.PaceUpload | crates/qftp-client/src/transfer.rs:801-829 | for every sequence of chunk sizes, gaps and late wake-ups each chunk is due at the earliest moment, once it is read, at which no stretch that holds it exceeds its allowance and the rate over its time |
| Pacer.PromptIsPaced | crates/qftp-client/src/transfer.rs:71-75 | hence between any two chunks no more is sent than a burst, or at the start a second's worth, and the rate over the time |
| Pacer.SentByAtMost | crates/qftp-client/src/transfer.rs:71-148 | by any time t at most rate (1 + t) bytes have been sent |
| Sync.SyncExcludes | crates/qftp-client/src/sync.rs:583-598 | the loop over parents decides exclusion |
| Sync.RuleExcludes | crates/qftp-client/src/sync.rs:381-420 | for every glob, what a rule excludes by path and by name, anchored or not, for directories or not |
| Sync.RulesAddUp | crates/qftp-client/src/sync.rs:381-598 | every rule excludes by itself |
| Sync.NameRule | crates/qftp-client/src/sync.rs:313-420 | a plain name excludes itself anywhere, and all below |
| Sync.DirectoryRule | crates/qftp-client/src/sync.rs:313-420 | a rule for directories excludes what is below one, and no file of that name |
| Sync.AnchoredRule | crates/qftp-client/src/sync.rs:313-420 | an anchored rule excludes at the root alone |
| Sync.KeptIffNotExcluded | crates/qftp-client/src/sync.rs:257-311 | the pruned walk keeps a regular file iff it is not excluded, not the root `.qftpignore`, and every directory above it can be listed and its entry and theirs be read |
| Sync.VisitLocal | crates/qftp-client/src/sync.rs:262-306 | one directory's kept files are indexed and its unpruned directories stacked, entries that cannot be read skipped |
| Sync.WalkLocal | crates/qftp-client/src/sync.rs:257-311 | the walk terminates with exactly the kept files, each with its size and time, or zeros if it cannot be looked up |
| Sync.Plan | crates/qftp-client/src/sync.rs:114-156 | a kept file is left out of the uploads exactly if the remote has one of its size, its time is within two seconds, and checksums are not asked for; deletions are what the rules call for; each once |
| Sync.PlanSync | crates/qftp-client/src/sync.rs:83-156 | the same of the whole plan from the walk to the deletions; no kept and no excluded file is planned for deletion, and exactly which local files lose their remote copy |
| Sync.SyncMirrors | crates/qftp-client/src/sync.rs:83-156 | carried out, a plan leaves every kept file on the remote with its size, and its time unless just uploaded; with `--delete` nothing else but excluded files, without it all that was there |
| Sync.SecondSync | crates/qftp-client/src/sync.rs:114-140 | a second sync deletes nothing and, comparing sizes and times, uploads again exactly what was uploaded more than two seconds from its own time |
| Sync.LosesRemoteCopy | crates/qftp-client/src/sync.rs:270-275 | one file in a directory that can be listed loses its remote copy |

## Left out

- The compression function of BLAKE3, HMAC, the zstd and glob libraries: function parameters of every result.
- QUIC, TLS, sockets and event loops: a connection accepts any number of bytes at any call and yields the next datagram; other failures of a send end the model's flush.
- Why a kernel refuses a send: its verdicts on coming `send_to` calls and on coming segmented sends are two lists, any at all.
- A sender after it failed: nothing is claimed about its later calls.
- The race between a path check and the system call it guards: requests are atomic here; the code says it narrows that window without closing it.
- Hard links, devices and other special files, permissions of the local system: the tree has files, directories and symbolic links.
- Link targets as text: where a link leads is any function of its place and text, which covers `..` and absolute targets.
- Contents and pagination of listings, `Stat` fields, and the `Quota` reply.
- Compress.ZstdEncoder.Push: what the library makes of a chunk is one function of all chunks so far, in any pieces; an error of the library comes at the first call of a push.
- I/O errors of the client's own disk other than a failed flush; a local path that is a symbolic link.
- Uploads.RunKeepsAccounting: `used_bytes` is unbounded, so a count of 2^64 bytes is not modelled; `in_flight_bytes` wraps as in the code.
- Uploads: renames of directories while uploads are active below them; the order in which threads see relaxed atomics, which is program order here; the re-hash of a resumed prefix; the deletion of abandoned partials at startup.
- The checks of `start_put` before the claim (permissions, checksum and encoding requirements): they refuse without touching any state.
- UploadBudget.RunStaysWithinQuota: needs a limit below `u64::MAX - 1` and live reservations that fit their `u64` (fewer than 2^34 uploads do).
- UploadBudget.EventLoopStaysWithinQuota: needs the same limit, and finds fewer than 2^34 live uploads at each step.
- UploadRuns.GapAdmitsTooMuch: the bridge's reserve, check, release and charge, inside the native server's order of claim, open and reserve; the bridge reserves and checks before it claims.
- The bridge's own accounting of aborts and partials.
- PutSplit: the native server's own receive loop for uncompressed bodies; the bridge's loop is the one modelled.
- PutZstd.ReceiveCompressed: failing writes to the partial, and the re-hash of a resumed prefix before the first chunk.
- Field-length limits applied after decoding (`validate_request`, `validate_response`).
- JavaScript strings before `TextEncoder`, and numbers beyond 2^53 where a length is converted to a number.
- Limits.AdmittedAtMost: a source the full table has evicted starts over with a full bucket; floating-point rounding, infinities and NaN are not modelled.
- Pacer.SentByAtMost: floating-point rounding and the nanosecond granularity of waits are not modelled.
- Sync.SyncMirrors: all transfers and deletions of the plan succeed, and nobody else changes the remote.
- Sync: reading `.qftpignore` into rules, the remote walk, names that are not Unicode, the order of transfers, and skipping deletion after a failed upload.
- Configuration, sessions, certificates, connection counting, metrics, the command line and the browser's pages: small or plumbing.
