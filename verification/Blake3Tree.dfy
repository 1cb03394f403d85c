/**
 * The BLAKE3 tree hash as section 2.1 ("Tree Structure") of the BLAKE3
 * specification defines it: a recursion over the whole input. Every
 * definition takes the compression function as a parameter, so what is
 * proved holds for any compression function.
 */
module Blake3Tree {
  import opened Bytes

  const OUT_LEN: nat := 32
  const BLOCK_LEN: nat := 64
  const CHUNK_LEN: nat := 1024

  const CHUNK_START: bv8 := 1
  const CHUNK_END: bv8 := 2
  const PARENT: bv8 := 4
  const ROOT: bv8 := 8

  type Cv = s: seq<Word> | |s| == 8 witness [0, 0, 0, 0, 0, 0, 0, 0]
  type Words16 = s: seq<Word> | |s| == 16
    witness [0, 0, 0, 0, 0, 0, 0, 0, 0, 0, 0, 0, 0, 0, 0, 0]

  /** chaining value, block words, counter, block length, flags -> output state */
  type Compress = (Cv, Words16, nat, nat, bv8) -> Words16

  const IV: Cv := [
    0x6a09e667, 0xbb67ae85, 0x3c6ef372, 0xa54ff53a,
    0x510e527f, 0x9b05688c, 0x1f83d9ab, 0x5be0cd19
  ]

  /** A node whose last compression is still pending. */
  datatype Output = Node(icv: Cv, blockWords: Words16, counter: nat, blockLen: nat, flags: bv8)

  function WordAt(block: seq<Byte>, i: nat): Word
    requires i + 4 <= |block|
  {
    var b0: int, b1: int, b2: int, b3: int := block[i], block[i + 1], block[i + 2], block[i + 3];
    b0 + 0x100 * b1 + 0x1_0000 * b2 + 0x100_0000 * b3
  }

  function WordsFromBlock(block: seq<Byte>): Words16
    requires |block| == BLOCK_LEN
  {
    seq(16, i requires 0 <= i < 16 => WordAt(block, 4 * i))
  }

  function WordBytes(w: Word): (r: seq<Byte>)
    ensures |r| == 4 && WordAt(r, 0) == w
  {
    var w1 := w / 0x100;
    var w2 := w1 / 0x100;
    [w % 0x100, w1 % 0x100, w2 % 0x100, w2 / 0x100]
  }

  function WordsBytes(ws: seq<Word>): (r: seq<Byte>)
    ensures |r| == 4 * |ws|
  {
    if ws == [] then [] else WordBytes(ws[0]) + WordsBytes(ws[1..])
  }

  function OutputChainingValue(f: Compress, o: Output): Cv {
    f(o.icv, o.blockWords, o.counter, o.blockLen, o.flags)[..8]
  }

  function ParentOutput(left: Cv, right: Cv): Output {
    Node(IV, left + right, 0, BLOCK_LEN, PARENT)
  }

  /** The root node, compressed with counter 0 and the ROOT flag. */
  function RootBytes(f: Compress, o: Output): (r: seq<Byte>)
    ensures |r| == OUT_LEN
  {
    WordsBytes(f(o.icv, o.blockWords, 0, o.blockLen, o.flags | ROOT)[..8])
  }

  // ---- leaves -----------------------------------------------------------

  function StartFlag(blocksBefore: nat): bv8 {
    if blocksBefore == 0 then CHUNK_START else 0
  }

  /** The chaining value after the first `k` whole blocks of a chunk. */
  function ChunkCv(f: Compress, chunk: seq<Byte>, counter: nat, k: nat): Cv
    requires BLOCK_LEN * k <= |chunk|
  {
    if k == 0 then IV
    else
      f(ChunkCv(f, chunk, counter, k - 1),
        WordsFromBlock(chunk[BLOCK_LEN * (k - 1)..BLOCK_LEN * k]),
        counter, BLOCK_LEN, StartFlag(k - 1))[..8]
  }

  /** The block that is compressed last: the final 1 to 64 bytes, or no byte at all. */
  function BlocksBeforeLast(len: nat): (k: nat)
    ensures BLOCK_LEN * k <= len <= BLOCK_LEN * (k + 1)
    ensures len > 0 ==> BLOCK_LEN * k < len
  {
    if len == 0 then 0 else (len - 1) / BLOCK_LEN
  }

  function Padded(bytes: seq<Byte>): (r: seq<Byte>)
    requires |bytes| <= BLOCK_LEN
    ensures |r| == BLOCK_LEN
  {
    bytes + seq(BLOCK_LEN - |bytes|, i => 0)
  }

  function ChunkOutput(f: Compress, chunk: seq<Byte>, counter: nat): Output {
    var k := BlocksBeforeLast(|chunk|);
    Node(ChunkCv(f, chunk, counter, k), WordsFromBlock(Padded(chunk[BLOCK_LEN * k..])),
           counter, |chunk| - BLOCK_LEN * k, StartFlag(k) | CHUNK_END)
  }

  // ---- shape of the tree ------------------------------------------------

  predicate IsPow2(n: nat) {
    n == 1 || (n > 1 && n % 2 == 0 && IsPow2(n / 2))
  }

  function Pow2Floor(n: nat): (p: nat)
    requires n > 0
    ensures IsPow2(p) && p <= n < 2 * p
  {
    if n == 1 then 1 else 2 * Pow2Floor(n / 2)
  }

  /** Chunks in the left subtree of an input that does not fit one chunk. */
  function LeftChunks(len: nat): (p: nat)
    requires len > CHUNK_LEN
    ensures 0 < p && CHUNK_LEN * p < len
  {
    Pow2Floor((len - 1) / CHUNK_LEN)
  }

  lemma {:induction false} Pow2Unique(p: nat, q: nat, n: nat)
    requires IsPow2(p) && IsPow2(q)
    requires p <= n < 2 * p && q <= n < 2 * q
    ensures p == q
  {
    if p == 1 || q == 1 {
    } else {
      Pow2Unique(p / 2, q / 2, n / 2);
    }
  }

  lemma {:induction false} Pow2Doubles(p: nat, q: nat)
    requires IsPow2(p) && IsPow2(q) && p < q
    ensures 2 * p <= q
  {
    if p != 1 {
      Pow2Doubles(p / 2, q / 2);
    }
  }

  /** The specification's wording: the largest power of two of chunks that leaves the right side non-empty. */
  lemma LeftChunksIsLargest(len: nat, q: nat)
    requires len > CHUNK_LEN
    ensures IsPow2(LeftChunks(len)) && CHUNK_LEN * LeftChunks(len) < len
    ensures IsPow2(q) && CHUNK_LEN * q < len ==> q <= LeftChunks(len)
  {
    if IsPow2(q) && CHUNK_LEN * q < len && q > LeftChunks(len) {
      Pow2Doubles(LeftChunks(len), q);
    }
  }

  lemma LeftChunksUnique(len: nat, u: nat)
    requires IsPow2(u) && CHUNK_LEN * u < len <= 2 * CHUNK_LEN * u
    ensures len > CHUNK_LEN && LeftChunks(len) == u
  {
    Pow2Unique(LeftChunks(len), u, (len - 1) / CHUNK_LEN);
  }

  /** The tree over `input`, whose first chunk is chunk number `first` of the whole message. */
  function TreeOutput(f: Compress, input: seq<Byte>, first: nat): Output
    decreases |input|
  {
    if |input| <= CHUNK_LEN then ChunkOutput(f, input, first)
    else
      var p := LeftChunks(|input|);
      ParentOutput(
        OutputChainingValue(f, TreeOutput(f, input[..CHUNK_LEN * p], first)),
        OutputChainingValue(f, TreeOutput(f, input[CHUNK_LEN * p..], first + p)))
  }

  /** BLAKE3 in hash mode. */
  function TreeHash(f: Compress, input: seq<Byte>): (r: seq<Byte>)
    ensures |r| == OUT_LEN
  {
    RootBytes(f, TreeOutput(f, input, 0))
  }
}
