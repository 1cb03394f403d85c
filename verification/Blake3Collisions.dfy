/**
 * What the tree hash is worth: two inputs with the same digest give two calls
 * of the compression function that collide. And what it computes, spelled out
 * for the smallest inputs, where order and counters show.
 */
module Blake3Collisions {
  import opened Bytes
  import opened Blake3Tree

  /** The arguments of one compression. */
  datatype Call = Call(cv: Cv, words: Words16, counter: nat, len: nat, flags: bv8)

  function Eight(f: Compress, c: Call): Cv {
    f(c.cv, c.words, c.counter, c.len, c.flags)[..8]
  }

  predicate Collide(f: Compress, x: Call, y: Call) {
    x != y && Eight(f, x) == Eight(f, y)
  }

  function CallOf(o: Output): Call {
    Call(o.icv, o.blockWords, o.counter, o.blockLen, o.flags)
  }

  function RootCall(o: Output): Call {
    Call(o.icv, o.blockWords, 0, o.blockLen, o.flags | ROOT)
  }

  // ---- words and bytes --------------------------------------------------

  lemma WordAtInjective(p: seq<Byte>, q: seq<Byte>, i: nat)
    requires i + 4 <= |p| && i + 4 <= |q| && WordAt(p, i) == WordAt(q, i)
    ensures p[i] == q[i] && p[i + 1] == q[i + 1] && p[i + 2] == q[i + 2] && p[i + 3] == q[i + 3]
  {
    var p1: int, p2: int, p3: int := p[i + 1], p[i + 2], p[i + 3];
    var q1: int, q2: int, q3: int := q[i + 1], q[i + 2], q[i + 3];
    LowByte(p[i], p1 + 0x100 * p2 + 0x1_0000 * p3, q[i], q1 + 0x100 * q2 + 0x1_0000 * q3);
    LowByte(p1, p2 + 0x100 * p3, q1, q2 + 0x100 * q3);
    LowByte(p2, p3, q2, q3);
  }

  lemma LowByte(b: int, x: int, c: int, y: int)
    requires 0 <= b < 0x100 && 0 <= c < 0x100 && b + 0x100 * x == c + 0x100 * y
    ensures b == c && x == y
  {
  }

  lemma WordsInjective(p: seq<Byte>, q: seq<Byte>)
    requires |p| == |q| == BLOCK_LEN && WordsFromBlock(p) == WordsFromBlock(q)
    ensures p == q
  {
    hide WordAt;
    forall j | 0 <= j < BLOCK_LEN
      ensures p[j] == q[j]
    {
      var i := j / 4;
      assert WordsFromBlock(p)[i] == WordAt(p, 4 * i) && WordsFromBlock(q)[i] == WordAt(q, 4 * i);
      WordAtInjective(p, q, 4 * i);
    }
  }

  lemma PaddedInjective(u: seq<Byte>, v: seq<Byte>)
    requires |u| == |v| <= BLOCK_LEN && Padded(u) == Padded(v)
    ensures u == v
  {
    assert u == Padded(u)[..|u|] && v == Padded(v)[..|v|];
  }

  lemma {:induction false} WordsBytesInjective(s: seq<Word>, t: seq<Word>)
    requires |s| == |t| && WordsBytes(s) == WordsBytes(t)
    ensures s == t
  {
    hide WordBytes;
    if s != [] {
      assert WordBytes(s[0]) == WordsBytes(s)[..4] && WordBytes(t[0]) == WordsBytes(t)[..4];
      assert WordAt(WordBytes(s[0]), 0) == s[0] && WordAt(WordBytes(t[0]), 0) == t[0];
      assert WordsBytes(s[1..]) == WordsBytes(s)[4..] && WordsBytes(t[1..]) == WordsBytes(t)[4..];
      WordsBytesInjective(s[1..], t[1..]);
    }
  }

  // ---- one chunk --------------------------------------------------------

  /** The compression of whole block number `k` of a chunk. */
  function BlockCall(f: Compress, chunk: seq<Byte>, counter: nat, k: nat): Call
    requires BLOCK_LEN * (k + 1) <= |chunk|
  {
    Call(ChunkCv(f, chunk, counter, k), WordsFromBlock(chunk[BLOCK_LEN * k..BLOCK_LEN * (k + 1)]), counter, BLOCK_LEN,
         StartFlag(k))
  }

  /** Two chains of blocks that end alike collide somewhere, or are of the same blocks. */
  lemma {:induction false} SameChain(f: Compress, a: seq<Byte>, ca: nat, ka: nat, b: seq<Byte>, cb: nat, kb: nat)
      returns (x: Call, y: Call)
    requires 0 < ka && BLOCK_LEN * ka <= |a| && 0 < kb && BLOCK_LEN * kb <= |b|
    requires ChunkCv(f, a, ca, ka) == ChunkCv(f, b, cb, kb)
    ensures Collide(f, x, y) || (ka == kb && a[..BLOCK_LEN * ka] == b[..BLOCK_LEN * kb])
    decreases ka
  {
    hide WordsFromBlock;
    x, y := BlockCall(f, a, ca, ka - 1), BlockCall(f, b, cb, kb - 1);
    if x == y {
      SameStart(ka - 1, kb - 1);
      var p, q := a[BLOCK_LEN * (ka - 1)..BLOCK_LEN * ka], b[BLOCK_LEN * (kb - 1)..BLOCK_LEN * kb];
      WordsInjective(p, q);
      if ka > 1 {
        x, y := SameChain(f, a, ca, ka - 1, b, cb, kb - 1);
      }
      assert a[..BLOCK_LEN * ka] == a[..BLOCK_LEN * (ka - 1)] + p;
      assert b[..BLOCK_LEN * kb] == b[..BLOCK_LEN * (kb - 1)] + q;
    }
  }

  lemma SameStart(j: nat, k: nat)
    ensures StartFlag(j) == StartFlag(k) <==> (j == 0 <==> k == 0)
    ensures StartFlag(j) | CHUNK_END == StartFlag(k) | CHUNK_END <==> (j == 0 <==> k == 0)
  {
    assert CHUNK_START | CHUNK_END == 3 && (0 as bv8) | CHUNK_END == 2;
  }

  /** The nodes are compressed from the same chaining value, block, length and flags. */
  predicate Alike(o: Output, p: Output) {
    o.icv == p.icv && o.blockWords == p.blockWords && o.blockLen == p.blockLen && o.flags == p.flags
  }

  lemma SameChunk(f: Compress, a: seq<Byte>, ca: nat, b: seq<Byte>, cb: nat) returns (x: Call, y: Call)
    requires Alike(ChunkOutput(f, a, ca), ChunkOutput(f, b, cb))
    ensures Collide(f, x, y) || a == b
  {
    hide ChunkCv, WordsFromBlock, Padded;
    var ka, kb := BlocksBeforeLast(|a|), BlocksBeforeLast(|b|);
    var u, v := a[BLOCK_LEN * ka..], b[BLOCK_LEN * kb..];
    SameStart(ka, kb);
    WordsInjective(Padded(u), Padded(v));
    PaddedInjective(u, v);
    x, y := Call(IV, WordsFromBlock(Padded([])), 0, 0, 0), Call(IV, WordsFromBlock(Padded([])), 0, 0, 0);
    if ka > 0 {
      x, y := SameChain(f, a, ca, ka, b, cb, kb);
    }
    assert a == a[..BLOCK_LEN * ka] + u && b == b[..BLOCK_LEN * kb] + v;
  }

  // ---- the tree ---------------------------------------------------------

  lemma FlagsOf(f: Compress, a: seq<Byte>, first: nat)
    ensures TreeOutput(f, a, first).flags == if |a| > CHUNK_LEN then 4 else if |a| > BLOCK_LEN then 2 else 3
  {
    assert CHUNK_START | CHUNK_END == 3 && (0 as bv8) | CHUNK_END == 2;
  }

  lemma RootFlagKeeps(p: bv8, q: bv8)
    requires (p == 2 || p == 3 || p == 4) && (q == 2 || q == 3 || q == 4) && p | ROOT == q | ROOT
    ensures p == q
  {
    assert (2 as bv8) | 8 == 10 && (3 as bv8) | 8 == 11 && (4 as bv8) | 8 == 12;
  }

  /** One level of the tree. */
  lemma Level(f: Compress, a: seq<Byte>, first: nat)
    ensures if |a| <= CHUNK_LEN then TreeOutput(f, a, first) == ChunkOutput(f, a, first)
            else (TreeOutput(f, a, first)
               == ParentOutput(OutputChainingValue(f, LeftOf(f, a, first)),
                               OutputChainingValue(f, RightOf(f, a, first))))
  {
  }

  function LeftOf(f: Compress, a: seq<Byte>, first: nat): Output
    requires |a| > CHUNK_LEN
  {
    TreeOutput(f, a[..CHUNK_LEN * LeftChunks(|a|)], first)
  }

  function RightOf(f: Compress, a: seq<Byte>, first: nat): Output
    requires |a| > CHUNK_LEN
  {
    TreeOutput(f, a[CHUNK_LEN * LeftChunks(|a|)..], first + LeftChunks(|a|))
  }

  /** Two trees whose top nodes are alike collide somewhere, or are over the same input. */
  lemma {:induction false} SameTree(f: Compress, a: seq<Byte>, fa: nat, b: seq<Byte>, fb: nat)
      returns (x: Call, y: Call)
    requires Alike(TreeOutput(f, a, fa), TreeOutput(f, b, fb))
    ensures Collide(f, x, y) || a == b
    decreases |a|, 0
  {
    hide TreeOutput, ChunkOutput, ParentOutput, OutputChainingValue, Eight, Alike;
    SameFlags(f, a, fa, b, fb);
    Level(f, a, fa);
    Level(f, b, fb);
    if |a| <= CHUNK_LEN {
      x, y := SameChunk(f, a, fa, b, fb);
    } else {
      SameParent(OutputChainingValue(f, LeftOf(f, a, fa)), OutputChainingValue(f, RightOf(f, a, fa)),
                 OutputChainingValue(f, LeftOf(f, b, fb)), OutputChainingValue(f, RightOf(f, b, fb)));
      x, y := SameHalf(f, a[..CHUNK_LEN * LeftChunks(|a|)], fa, b[..CHUNK_LEN * LeftChunks(|b|)], fb);
      var x', y' := SameHalf(f, a[CHUNK_LEN * LeftChunks(|a|)..], fa + LeftChunks(|a|),
                             b[CHUNK_LEN * LeftChunks(|b|)..], fb + LeftChunks(|b|));
      if !Collide(f, x, y) {
        x, y := x', y';
        if !Collide(f, x, y) {
          Joined(a, CHUNK_LEN * LeftChunks(|a|), b, CHUNK_LEN * LeftChunks(|b|));
        }
      }
    }
  }

  /** Two subtrees with the same chaining value collide somewhere, or are over the same input. */
  lemma {:induction false} SameHalf(f: Compress, a: seq<Byte>, fa: nat, b: seq<Byte>, fb: nat)
      returns (x: Call, y: Call)
    requires OutputChainingValue(f, TreeOutput(f, a, fa)) == OutputChainingValue(f, TreeOutput(f, b, fb))
    ensures Collide(f, x, y) || a == b
    decreases |a|, 1
  {
    hide TreeOutput;
    x, y := CallOf(TreeOutput(f, a, fa)), CallOf(TreeOutput(f, b, fb));
    if x == y {
      x, y := SameTree(f, a, fa, b, fb);
    }
  }

  lemma SameFlags(f: Compress, a: seq<Byte>, fa: nat, b: seq<Byte>, fb: nat)
    requires Alike(TreeOutput(f, a, fa), TreeOutput(f, b, fb))
    ensures |a| <= CHUNK_LEN <==> |b| <= CHUNK_LEN
  {
    hide TreeOutput;
    FlagsOf(f, a, fa);
    FlagsOf(f, b, fb);
  }

  lemma Joined(a: seq<Byte>, p: nat, b: seq<Byte>, q: nat)
    requires p <= |a| && q <= |b| && a[..p] == b[..q] && a[p..] == b[q..]
    ensures a == b
  {
    assert a == a[..p] + a[p..] && b == b[..q] + b[q..];
  }

  lemma SameParent(l: Cv, r: Cv, l': Cv, r': Cv)
    requires Alike(ParentOutput(l, r), ParentOutput(l', r'))
    ensures l == l' && r == r'
  {
    Halves(l, r);
    Halves(l', r');
  }

  lemma Halves(left: seq<Word>, right: seq<Word>)
    requires |left| == 8
    ensures (left + right)[..8] == left && (left + right)[8..] == right
  {
  }

  /** The tree hash is as collision-free as its compression function. */
  lemma CollisionFree(f: Compress, a: seq<Byte>, b: seq<Byte>) returns (x: Call, y: Call)
    requires a != b && TreeHash(f, a) == TreeHash(f, b)
    ensures Collide(f, x, y)
  {
    hide TreeOutput;
    var o, p := TreeOutput(f, a, 0), TreeOutput(f, b, 0);
    x, y := RootCall(o), RootCall(p);
    WordsBytesInjective(Eight(f, x), Eight(f, y));
    if x == y {
      FlagsOf(f, a, 0);
      FlagsOf(f, b, 0);
      RootFlagKeeps(o.flags, p.flags);
      x, y := SameTree(f, a, 0, b, 0);
    }
  }

  // ---- spelled out ------------------------------------------------------

  function Zeros(n: nat): seq<Byte> {
    seq(n, i => 0)
  }

  /** At most one block: one compression, as the first, the last and the root. */
  lemma OneBlock(f: Compress, m: seq<Byte>)
    requires |m| <= 64
    ensures TreeHash(f, m) == WordsBytes(f(IV, WordsFromBlock(m + Zeros(64 - |m|)), 0, |m|, 11)[..8])
  {
    assert m[0..] == m && Padded(m) == m + Zeros(64 - |m|);
    assert CHUNK_START | CHUNK_END | ROOT == 11;
  }

  function Number(b0: int, b1: int, b2: int, b3: int): int {
    b0 + 0x100 * b1 + 0x1_0000 * b2 + 0x100_0000 * b3
  }

  /** The bytes of a word go in and come out lowest first. */
  lemma FourBytes(f: Compress, b0: Byte, b1: Byte, b2: Byte, b3: Byte)
    ensures var out := f(IV, [Number(b0, b1, b2, b3)] + seq(15, _ => 0), 0, 4, 11);
            var d := TreeHash(f, [b0, b1, b2, b3]);
            |d| == 32 && Number(d[0], d[1], d[2], d[3]) == out[0] && Number(d[28], d[29], d[30], d[31]) == out[7]
  {
    var m := [b0, b1, b2, b3];
    OneBlock(f, m);
    var words := WordsFromBlock(m + Zeros(60));
    assert words == [Number(b0, b1, b2, b3)] + seq(15, _ => 0);
    var ws := f(IV, words, 0, 4, 11)[..8];
    WordsAt(ws, 0);
    WordsAt(ws, 7);
  }

  lemma {:induction false} WordsAt(ws: seq<Word>, i: nat)
    requires i < |ws|
    ensures WordAt(WordsBytes(ws), 4 * i) == ws[i]
  {
    hide WordBytes;
    if i > 0 {
      WordsAt(ws[1..], i - 1);
      assert WordsBytes(ws)[4..] == WordsBytes(ws[1..]);
      Shifted(WordsBytes(ws), 4 * (i - 1));
    } else {
      assert WordsBytes(ws)[..4] == WordBytes(ws[0]);
      assert WordAt(WordsBytes(ws)[..4], 0) == WordAt(WordsBytes(ws), 0);
    }
  }

  lemma Shifted(bytes: seq<Byte>, i: nat)
    requires i + 8 <= |bytes|
    ensures WordAt(bytes[4..], i) == WordAt(bytes, i + 4)
  {
  }

  /** The chaining values of the 16 blocks of a chunk: the first block is marked 1, the last 2. */
  ghost predicate Chain(f: Compress, chunk: seq<Byte>, counter: nat, cvs: seq<Cv>)
    requires |chunk| == 1024
  {
    && |cvs| == 17 && cvs[0] == IV
    && forall j :: 0 <= j < 16 ==>
         cvs[j + 1] == f(cvs[j], WordsFromBlock(chunk[64 * j..64 * j + 64]), counter, 64,
                         if j == 0 then 1 else if j == 15 then 2 else 0)[..8]
  }

  lemma {:induction false} ChainIs(f: Compress, chunk: seq<Byte>, counter: nat, cvs: seq<Cv>, k: nat)
    requires |chunk| == 1024 && Chain(f, chunk, counter, cvs) && k <= 15
    ensures ChunkCv(f, chunk, counter, k) == cvs[k]
  {
    hide WordsFromBlock;
    if k > 0 {
      ChainIs(f, chunk, counter, cvs, k - 1);
      assert chunk[BLOCK_LEN * (k - 1)..BLOCK_LEN * k] == chunk[64 * (k - 1)..64 * (k - 1) + 64];
    }
  }

  lemma WholeChunk(f: Compress, chunk: seq<Byte>, counter: nat, cvs: seq<Cv>)
    requires |chunk| == 1024 && Chain(f, chunk, counter, cvs)
    ensures OutputChainingValue(f, TreeOutput(f, chunk, counter)) == cvs[16]
  {
    hide WordsFromBlock;
    ChainIs(f, chunk, counter, cvs, 15);
    assert BlocksBeforeLast(1024) == 15 && Padded(chunk[960..]) == chunk[960..1024];
    assert (0 as bv8) | CHUNK_END == 2;
  }

  /** A chunk and a second one of a single block: left before right, counters 0 and 1, and a parent that is the root. */
  lemma TwoChunks(f: Compress, m: seq<Byte>, cvs: seq<Cv>)
    requires 1024 < |m| <= 1088 && |cvs| == 17 && Chain(f, m[..1024], 0, cvs)
    ensures var n := |m| - 1024;
            var right := f(IV, WordsFromBlock(m[1024..] + Zeros(64 - n)), 1, n, 3)[..8];
            TreeHash(f, m) == WordsBytes(f(IV, cvs[16] + right, 0, 64, 12)[..8])
  {
    hide WordsFromBlock, Chain;
    LeftChunksUnique(|m|, 1);
    WholeChunk(f, m[..1024], 0, cvs);
    var last := m[1024..];
    assert last[0..] == last && Padded(last) == last + Zeros(64 - |last|);
    assert CHUNK_START | CHUNK_END == 3 && PARENT | ROOT == 12;
    var right := f(IV, WordsFromBlock(last + Zeros(64 - |last|)), 1, |last|, 3)[..8];
    assert OutputChainingValue(f, TreeOutput(f, last, 1)) == right;
    assert TreeOutput(f, m, 0) == ParentOutput(cvs[16], right);
  }
}
