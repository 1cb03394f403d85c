/**
 * The streaming BLAKE3 hasher of the web client: a chunk state that
 * compresses 64-byte blocks lazily, and a stack of subtree chaining values
 * merged as chunks complete. Both objects carry the bytes absorbed so far
 * as a ghost field; `Valid` ties the real fields to those bytes.
 */
module Blake3 {
  import opened Bytes
  import opened Blake3Tree

  // ---- one chunk --------------------------------------------------------

  lemma {:induction false} ChunkCvPrefix(f: Compress, a: seq<Byte>, b: seq<Byte>, counter: nat, k: nat)
    requires BLOCK_LEN * k <= |a|
    ensures ChunkCv(f, a + b, counter, k) == ChunkCv(f, a, counter, k)
  {
    if k > 0 {
      ChunkCvPrefix(f, a, b, counter, k - 1);
      assert (a + b)[BLOCK_LEN * (k - 1)..BLOCK_LEN * k] == a[BLOCK_LEN * (k - 1)..BLOCK_LEN * k];
    }
  }

  class ChunkState {
    const compress: Compress
    const chunkCounter: nat
    var cv: Cv
    var block: array<Byte>
    var blockLen: nat
    var blocksCompressed: nat
    ghost var content: seq<Byte>

    /** The fields agree with `content`. */
    ghost predicate Consistent()
      reads this, block
    {
      && block.Length == BLOCK_LEN
      && blockLen <= BLOCK_LEN
      && |content| == BLOCK_LEN * blocksCompressed + blockLen
      && block[..] == Padded(content[BLOCK_LEN * blocksCompressed..])
      && cv == ChunkCv(compress, content, chunkCounter, blocksCompressed)
    }

    /** Between calls the last block is never flushed early: it is empty only before the first byte. */
    ghost predicate Valid()
      reads this, block
    {
      Consistent() && (blockLen == 0 ==> content == [])
    }

    constructor (f: Compress, counter: nat)
      ensures Valid() && fresh(block)
      ensures compress == f && chunkCounter == counter && content == []
    {
      compress := f;
      chunkCounter := counter;
      cv := IV;
      block := new Byte[BLOCK_LEN](_ => 0);
      blockLen := 0;
      blocksCompressed := 0;
      content := [];
    }

    function Len(): (n: nat)
      requires Valid()
      reads this, block
      ensures n == |content|
    {
      BLOCK_LEN * blocksCompressed + blockLen
    }

    /** Compress the full block and start an empty one. */
    method FlushBlock()
      requires Consistent() && blockLen == BLOCK_LEN
      modifies this
      ensures Consistent() && fresh(block)
      ensures content == old(content) && blockLen == 0
    {
      ghost var k := blocksCompressed;
      assert block[..] == content[BLOCK_LEN * k..] == content[BLOCK_LEN * k..BLOCK_LEN * (k + 1)];
      cv := compress(cv, WordsFromBlock(block[..]), chunkCounter, BLOCK_LEN, StartFlag(blocksCompressed))[..8];
      blocksCompressed := blocksCompressed + 1;
      block := new Byte[BLOCK_LEN](_ => 0);
      blockLen := 0;
    }

    /** Copy `part` into the free tail of the block. */
    method FillBlock(part: seq<Byte>)
      requires Consistent() && blockLen + |part| <= BLOCK_LEN
      modifies this`blockLen, this`content, block
      ensures Consistent()
      ensures content == old(content) + part && blockLen == old(blockLen) + |part|
    {
      forall i | 0 <= i < |part| {
        block[blockLen + i] := part[i];
      }
      ChunkCvPrefix(compress, content, part, chunkCounter, blocksCompressed);
      ghost var tail := content[BLOCK_LEN * blocksCompressed..];
      content := content + part;
      blockLen := blockLen + |part|;
      assert content[BLOCK_LEN * blocksCompressed..] == tail + part;
    }

    method Update(input: seq<Byte>)
      requires Valid()
      modifies this, block
      ensures Valid() && (block == old(block) || fresh(block))
      ensures content == old(content) + input
    {
      hide ChunkCv, Padded;
      var off := 0;
      while off < |input|
        invariant off <= |input|
        invariant Valid() && (block == old(block) || fresh(block))
        invariant content == old(content) + input[..off]
      {
        if blockLen == BLOCK_LEN {
          FlushBlock();
        }
        var take := Min(BLOCK_LEN - blockLen, |input| - off);
        FillBlock(input[off..off + take]);
        assert input[..off + take] == input[..off] + input[off..off + take];
        off := off + take;
      }
    }

    function AsOutput(): (o: Output)
      requires Valid()
      reads this, block
      ensures o == ChunkOutput(compress, content, chunkCounter)
    {
      assert blocksCompressed == BlocksBeforeLast(|content|);
      Node(cv, WordsFromBlock(block[..]), chunkCounter, blockLen, StartFlag(blocksCompressed) | CHUNK_END)
    }
  }
  // ---- the subtree stack ------------------------------------------------

  /** Chaining value of the complete subtree over chunks `[first, first + u)`. */
  function SubtreeCv(f: Compress, content: seq<Byte>, first: nat, u: nat): Cv
    requires CHUNK_LEN * (first + u) <= |content|
  {
    OutputChainingValue(f, TreeOutput(f, content[CHUNK_LEN * first..CHUNK_LEN * (first + u)], first))
  }

  /** The number of chunks in `n` units of `u` chunks, bit by bit. */
  function Units(n: nat, u: nat): nat
    decreases n
  {
    if n == 0 then 0 else Units(n / 2, 2 * u) + (if n % 2 == 1 then u else 0)
  }

  lemma HalveProduct(n: nat, h: nat, r: nat, u: nat)
    requires n == 2 * h + r
    ensures n * u == h * (2 * u) + r * u
  {
  }

  lemma {:induction false} UnitsIsProduct(n: nat, u: nat)
    ensures Units(n, u) == n * u
    decreases n
  {
    if n > 0 {
      UnitsIsProduct(n / 2, 2 * u);
      HalveProduct(n, n / 2, n % 2, u);
    }
  }

  /**
   * The stack after `n` units of `u` chunks: one complete subtree per set
   * bit of `n`, largest (leftmost) first.
   */
  function StackOf(f: Compress, content: seq<Byte>, n: nat, u: nat): seq<Cv>
    requires CHUNK_LEN * Units(n, u) <= |content|
    decreases n
  {
    if n == 0 then []
    else if n % 2 == 0 then StackOf(f, content, n / 2, 2 * u)
    else StackOf(f, content, n / 2, 2 * u) + [SubtreeCv(f, content, Units(n / 2, 2 * u), u)]
  }

  /** One unfolding of the stack, for proofs that keep the definitions hidden. */
  lemma StackUnfold(f: Compress, content: seq<Byte>, n: nat, u: nat)
    requires n > 0 && CHUNK_LEN * Units(n, u) <= |content|
    ensures Units(n, u) == Units(n / 2, 2 * u) + (if n % 2 == 1 then u else 0)
    ensures n % 2 == 0 ==> StackOf(f, content, n, u) == StackOf(f, content, n / 2, 2 * u)
    ensures n % 2 == 1 ==>
              (StackOf(f, content, n, u)
               == StackOf(f, content, n / 2, 2 * u) + [SubtreeCv(f, content, Units(n / 2, 2 * u), u)])
  {
    hide SubtreeCv;
  }

  lemma SubtreeCvPrefix(f: Compress, a: seq<Byte>, b: seq<Byte>, first: nat, u: nat)
    requires CHUNK_LEN * (first + u) <= |a|
    ensures SubtreeCv(f, a + b, first, u) == SubtreeCv(f, a, first, u)
  {
    var lo, hi := CHUNK_LEN * first, CHUNK_LEN * (first + u);
    assert (a + b)[lo..hi] == a[lo..hi];
  }

  /** Bytes that arrive later leave the stack alone. */
  lemma {:induction false} StackOfPrefix(f: Compress, a: seq<Byte>, b: seq<Byte>, n: nat, u: nat)
    requires CHUNK_LEN * Units(n, u) <= |a|
    ensures StackOf(f, a + b, n, u) == StackOf(f, a, n, u)
    decreases n
  {
    hide SubtreeCv;
    if n > 0 {
      StackOfPrefix(f, a, b, n / 2, 2 * u);
      if n % 2 == 1 {
        SubtreeCvPrefix(f, a, b, Units(n / 2, 2 * u), u);
      }
    }
  }

  /** An input of more than `u` and at most `2 * u` chunks splits after `u` chunks. */
  lemma SplitTree(f: Compress, input: seq<Byte>, first: nat, u: nat)
    requires IsPow2(u) && CHUNK_LEN * u < |input| <= 2 * CHUNK_LEN * u
    ensures TreeOutput(f, input, first)
         == ParentOutput(OutputChainingValue(f, TreeOutput(f, input[..CHUNK_LEN * u], first)),
                         OutputChainingValue(f, TreeOutput(f, input[CHUNK_LEN * u..], first + u)))
  {
    hide ChunkOutput, OutputChainingValue, ParentOutput;
    LeftChunksUnique(|input|, u);
  }

  lemma SliceOfSlice<T>(s: seq<T>, a: nat, b: nat, c: nat)
    requires a <= b <= c <= |s|
    ensures s[a..c][..b - a] == s[a..b] && s[a..c][b - a..] == s[b..c]
  {
  }

  /** Two adjacent complete subtrees of `u` chunks make one of `2 * u`. */
  lemma MergeSubtrees(f: Compress, content: seq<Byte>, first: nat, u: nat)
    requires IsPow2(u) && CHUNK_LEN * (first + 2 * u) <= |content|
    ensures SubtreeCv(f, content, first, 2 * u)
         == OutputChainingValue(f, ParentOutput(SubtreeCv(f, content, first, u), SubtreeCv(f, content, first + u, u)))
  {
    hide TreeOutput, OutputChainingValue, ParentOutput;
    var a, b, c := CHUNK_LEN * first, CHUNK_LEN * (first + u), CHUNK_LEN * (first + 2 * u);
    SplitTree(f, content[a..c], first, u);
    SliceOfSlice(content, a, b, c);
  }

  function FoldRight(f: Compress, stack: seq<Cv>, o: Output): Output {
    if stack == [] then o
    else FoldRight(f, stack[..|stack| - 1], ParentOutput(stack[|stack| - 1], OutputChainingValue(f, o)))
  }

  lemma FoldRightNil(f: Compress, o: Output)
    ensures FoldRight(f, [], o) == o
  {
  }

  lemma FoldRightSnoc(f: Compress, stack: seq<Cv>, cv: Cv, o: Output)
    ensures FoldRight(f, stack + [cv], o) == FoldRight(f, stack, ParentOutput(cv, OutputChainingValue(f, o)))
  {
    assert (stack + [cv])[..|stack|] == stack;
  }

  /** A complete subtree of `u` chunks and what is left, at most another `u` chunks. */
  lemma OddUnit(f: Compress, content: seq<Byte>, first: nat, u: nat)
    requires IsPow2(u)
    requires CHUNK_LEN * (first + u) < |content| <= CHUNK_LEN * (first + 2 * u)
    ensures TreeOutput(f, content[CHUNK_LEN * first..], first)
         == ParentOutput(SubtreeCv(f, content, first, u),
                         OutputChainingValue(f, TreeOutput(f, content[CHUNK_LEN * (first + u)..], first + u)))
  {
    hide TreeOutput, OutputChainingValue, ParentOutput;
    var a, b, c := CHUNK_LEN * first, CHUNK_LEN * (first + u), |content|;
    SplitTree(f, content[a..c], first, u);
    SliceOfSlice(content, a, b, c);
    assert content[a..c] == content[a..] && content[b..c] == content[b..];
  }

  lemma FoldNoUnits(f: Compress, content: seq<Byte>, u: nat)
    ensures Units(0, u) == 0
    ensures FoldRight(f, StackOf(f, content, 0, u), TreeOutput(f, content[0..], 0)) == TreeOutput(f, content, 0)
  {
    hide TreeOutput, OutputChainingValue, ParentOutput;
    assert content[0..] == content;
  }

  /**
   * Folding the stack from the right edge inward rebuilds the tree, as long
   * as something, but no more than one unit, lies to the right of the stack.
   */
  lemma {:induction false} FoldIsTree(f: Compress, content: seq<Byte>, n: nat, u: nat)
    requires IsPow2(u)
    requires CHUNK_LEN * Units(n, u) < |content| <= CHUNK_LEN * (Units(n, u) + u)
    ensures FoldRight(f, StackOf(f, content, n, u), TreeOutput(f, content[CHUNK_LEN * Units(n, u)..], Units(n, u)))
         == TreeOutput(f, content, 0)
    decreases n
  {
    hide TreeOutput, OutputChainingValue, ParentOutput, FoldRight, SubtreeCv, StackOf, Units;
    if n == 0 {
      FoldNoUnits(f, content, u);
    } else {
      StackUnfold(f, content, n, u);
      FoldIsTree(f, content, n / 2, 2 * u);
      if n % 2 == 1 {
        var first := Units(n / 2, 2 * u);
        OddUnit(f, content, first, u);
        FoldRightSnoc(f, StackOf(f, content, n / 2, 2 * u), SubtreeCv(f, content, first, u),
                      TreeOutput(f, content[CHUNK_LEN * (first + u)..], first + u));
      }
    }
  }

  /** The digest's fold, over the stack of `n` whole chunks and the unflushed last chunk. */
  lemma FoldIsWholeTree(f: Compress, content: seq<Byte>, n: nat)
    requires Units(n, 1) == n && CHUNK_LEN * n <= |content| <= CHUNK_LEN * (n + 1)
    requires |content| == CHUNK_LEN * n ==> content == []
    ensures FoldRight(f, StackOf(f, content, n, 1), ChunkOutput(f, content[CHUNK_LEN * n..], n))
         == TreeOutput(f, content, 0)
  {
    hide ChunkOutput, OutputChainingValue, ParentOutput;
    if content == [] {
      assert content[CHUNK_LEN * n..] == content;
    } else {
      FoldIsTree(f, content, n, 1);
    }
  }

  /** Counting `2 * h` or `2 * h - 1` units of `u` chunks in units of `2 * u`. */
  lemma UnitsStep(h: nat, u: nat)
    requires h > 0 && IsPow2(u)
    ensures IsPow2(2 * u)
    ensures Units(2 * h, u) == Units(h, 2 * u)
    ensures Units(2 * h - 1, u) == Units(h - 1, 2 * u) + u
  {
    assert (2 * h - 1) / 2 == h - 1;
  }

  /** What one turn of the merge loop does to the stack: an even count of `u`-chunk units. */
  lemma MergeStep(f: Compress, content: seq<Byte>, h: nat, u: nat)
    requires h > 0 && CHUNK_LEN * Units(2 * h, u) <= |content|
    requires Units(2 * h, u) == Units(h, 2 * u)
    requires Units(2 * h - 1, u) == Units(h - 1, 2 * u) + u <= Units(2 * h, u)
    ensures StackOf(f, content, 2 * h, u) == StackOf(f, content, h, 2 * u)
    ensures StackOf(f, content, 2 * h - 1, u)
         == StackOf(f, content, h - 1, 2 * u) + [SubtreeCv(f, content, Units(h - 1, 2 * u), u)]
  {
    hide SubtreeCv;
    assert (2 * h - 1) / 2 == h - 1;
  }

  /** What the final push does: an odd count of `u`-chunk units. */
  lemma PushStep(f: Compress, content: seq<Byte>, h: nat, u: nat)
    requires CHUNK_LEN * Units(2 * h + 1, u) <= |content|
    ensures Units(2 * h, u) + u == Units(2 * h + 1, u)
    ensures StackOf(f, content, 2 * h + 1, u)
         == StackOf(f, content, 2 * h, u) + [SubtreeCv(f, content, Units(2 * h, u), u)]
  {
    hide SubtreeCv;
    assert (2 * h + 1) / 2 == h == 2 * h / 2;
  }

  // ---- the stack is the binary representation of the chunk count --------

  /** A run of `size` chunks that starts at chunk `first`. */
  datatype Segment = Segment(first: nat, size: nat)

  /**
   * Adjacent runs from chunk 0 to `end`, all powers of two, each at least
   * twice as long as the one after it and the last at least `least` long.
   */
  predicate BinarySegments(segs: seq<Segment>, end: nat, least: nat) {
    if segs == [] then end == 0
    else
      var last := segs[|segs| - 1];
      && IsPow2(last.size) && least <= last.size
      && last.first + last.size == end
      && BinarySegments(segs[..|segs| - 1], last.first, 2 * last.size)
  }

  function PopCount(n: nat): nat {
    if n == 0 then 0 else PopCount(n / 2) + n % 2
  }

  /** `stack` lists the chaining values of the complete subtrees over `segs`. */
  ghost predicate SubtreesOver(f: Compress, content: seq<Byte>, segs: seq<Segment>, stack: seq<Cv>) {
    && |segs| == |stack|
    && forall i :: 0 <= i < |segs| ==>
         && CHUNK_LEN * (segs[i].first + segs[i].size) <= |content|
         && stack[i] == SubtreeCv(f, content, segs[i].first, segs[i].size)
  }

  lemma NoSegments(f: Compress, content: seq<Byte>, u: nat)
    ensures Units(0, u) == 0 && BinarySegments([], 0, u) && SubtreesOver(f, content, [], StackOf(f, content, 0, u))
  {
  }

  lemma Pow2Double(u: nat)
    requires IsPow2(u)
    ensures IsPow2(2 * u)
  {
    assert 2 * u / 2 == u;
  }

  lemma SegmentsSnoc(f: Compress, content: seq<Byte>, upper: seq<Segment>, stack: seq<Cv>, end: nat, u: nat)
    requires IsPow2(u) && CHUNK_LEN * (end + u) <= |content|
    requires BinarySegments(upper, end, 2 * u) && SubtreesOver(f, content, upper, stack)
    ensures BinarySegments(upper + [Segment(end, u)], end + u, u)
    ensures SubtreesOver(f, content, upper + [Segment(end, u)], stack + [SubtreeCv(f, content, end, u)])
  {
    hide SubtreeCv;
    var segs := upper + [Segment(end, u)];
    assert segs[..|segs| - 1] == upper;
  }

  lemma SegmentsWeaken(segs: seq<Segment>, end: nat, u: nat)
    requires BinarySegments(segs, end, 2 * u)
    ensures BinarySegments(segs, end, u)
  {
  }

  /**
   * The stack holds the chaining values of the runs that the binary
   * representation of the count spells out: one per set bit, largest first.
   */
  lemma {:induction false} StackIsBinary(f: Compress, content: seq<Byte>, n: nat, u: nat)
      returns (segs: seq<Segment>)
    requires IsPow2(u) && CHUNK_LEN * Units(n, u) <= |content|
    ensures BinarySegments(segs, Units(n, u), u) && |segs| == PopCount(n)
    ensures SubtreesOver(f, content, segs, StackOf(f, content, n, u))
    decreases n
  {
    hide SubtreeCv, StackOf, Units, SubtreesOver, BinarySegments, IsPow2, TreeOutput;
    segs := [];
    NoSegments(f, content, u);
    if n > 0 {
      Pow2Double(u);
      StackUnfold(f, content, n, u);
      segs := StackIsBinary(f, content, n / 2, 2 * u);
      if n % 2 == 0 {
        SegmentsWeaken(segs, Units(n, u), u);
      } else {
        var end := Units(n / 2, 2 * u);
        SegmentsSnoc(f, content, segs, StackOf(f, content, n / 2, 2 * u), end, u);
        segs := segs + [Segment(end, u)];
      }
    }
  }

  // ---- the hasher -------------------------------------------------------

  class Hasher {
    const compress: Compress
    var chunkState: ChunkState
    var cvStack: seq<Cv>
    ghost var content: seq<Byte>

    /** The fields agree with `content`. */
    ghost predicate Consistent()
      reads this, chunkState, chunkState.block
    {
      var n := chunkState.chunkCounter;
      && chunkState.Valid() && chunkState.compress == compress
      && CHUNK_LEN * n <= |content|
      && content[CHUNK_LEN * n..] == chunkState.content
      && |chunkState.content| <= CHUNK_LEN
      && Units(n, 1) == n
      && cvStack == StackOf(compress, content, n, 1)
    }

    /** Between calls the last 1 to 1024 bytes are still unflushed. */
    ghost predicate Valid()
      reads this, chunkState, chunkState.block
    {
      Consistent() && (chunkState.content == [] ==> content == [])
    }

    constructor (f: Compress)
      ensures Valid() && fresh(chunkState) && fresh(chunkState.block)
      ensures compress == f && content == []
    {
      compress := f;
      chunkState := new ChunkState(f, 0);
      cvStack := [];
      content := [];
    }

    /**
     * `_addChunkChainingValue`: the loop pops exactly as often as
     * `totalChunks` has trailing zero bits, never from an empty stack.
     */
    method AddChunkChainingValue(newCv: Cv, totalChunks: nat)
      requires totalChunks > 0 && CHUNK_LEN * totalChunks <= |content|
      requires newCv == SubtreeCv(compress, content, totalChunks - 1, 1)
      requires Units(totalChunks - 1, 1) == totalChunks - 1
      requires cvStack == StackOf(compress, content, totalChunks - 1, 1)
      modifies this`cvStack
      ensures Units(totalChunks, 1) == totalChunks
      ensures cvStack == StackOf(compress, content, totalChunks, 1)
    {
      hide SubtreeCv, OutputChainingValue, ParentOutput, StackOf, Units, TreeOutput;
      UnitsIsProduct(totalChunks, 1);
      var cv := newCv;
      var t := totalChunks;
      ghost var u: nat := 1;
      while t % 2 == 0
        invariant t > 0 && IsPow2(u) && Units(t, u) == totalChunks == Units(t - 1, u) + u
        invariant cv == SubtreeCv(compress, content, Units(t - 1, u), u)
        invariant cvStack == StackOf(compress, content, t - 1, u)
        invariant StackOf(compress, content, t, u) == StackOf(compress, content, totalChunks, 1)
        decreases t
      {
        UnitsStep(t / 2, u);
        MergeStep(compress, content, t / 2, u);
        MergeSubtrees(compress, content, Units(t / 2 - 1, 2 * u), u);
        cv := OutputChainingValue(compress, ParentOutput(cvStack[|cvStack| - 1], cv));
        cvStack := cvStack[..|cvStack| - 1];
        t := t / 2;
        u := 2 * u;
      }
      PushStep(compress, content, t / 2, u);
      cvStack := cvStack + [cv];
    }

    /** Close the full chunk and start an empty one. */
    method FlushChunk()
      requires Consistent() && |chunkState.content| == CHUNK_LEN
      modifies this`chunkState, this`cvStack
      ensures Consistent() && chunkState.content == []
      ensures fresh(chunkState) && fresh(chunkState.block)
    {
      var chunkCv := OutputChainingValue(compress, chunkState.AsOutput());
      var totalChunks := chunkState.chunkCounter + 1;
      assert content[CHUNK_LEN * (totalChunks - 1)..CHUNK_LEN * totalChunks] == chunkState.content;
      AddChunkChainingValue(chunkCv, totalChunks);
      chunkState := new ChunkState(compress, totalChunks);
    }

    /** Feed `part` to the current chunk, which has room for it. */
    method FillChunk(part: seq<Byte>)
      requires Consistent() && |chunkState.content| + |part| <= CHUNK_LEN
      modifies this`content, chunkState, chunkState.block
      ensures Consistent() && content == old(content) + part
      ensures |chunkState.content| == old(|chunkState.content|) + |part|
      ensures chunkState.block == old(chunkState.block) || fresh(chunkState.block)
    {
      ghost var n := chunkState.chunkCounter;
      chunkState.Update(part);
      StackOfPrefix(compress, content, part, n, 1);
      assert (content + part)[CHUNK_LEN * n..] == content[CHUNK_LEN * n..] + part;
      content := content + part;
    }

    /** One turn of the update loop: flush a full chunk if there is one, then take what fits. */
    method Absorb(input: seq<Byte>) returns (take: nat)
      requires Valid() && input != []
      modifies this, chunkState, chunkState.block
      ensures Valid() && 0 < take <= |input| && content == old(content) + input[..take]
      ensures chunkState == old(chunkState) || fresh(chunkState)
      ensures chunkState.block == old(chunkState.block) || fresh(chunkState.block)
    {
      hide StackOf, Units, ChunkState.Consistent, ChunkState.Valid;
      if chunkState.Len() == CHUNK_LEN {
        FlushChunk();
      }
      take := Min(CHUNK_LEN - chunkState.Len(), |input|);
      FillChunk(input[..take]);
    }

    method Update(input: seq<Byte>)
      requires Valid()
      modifies this, chunkState, chunkState.block
      ensures Valid() && content == old(content) + input
      ensures chunkState == old(chunkState) || fresh(chunkState)
      ensures chunkState.block == old(chunkState.block) || fresh(chunkState.block)
    {
      hide Hasher.Valid, Hasher.Consistent;
      var off := 0;
      while off < |input|
        invariant off <= |input|
        invariant Valid() && content == old(content) + input[..off]
        invariant chunkState == old(chunkState) || fresh(chunkState)
        invariant chunkState.block == old(chunkState.block) || fresh(chunkState.block)
      {
        var take := Absorb(input[off..]);
        assert input[..off + take] == input[..off] + input[off..][..take];
        off := off + take;
      }
    }

    method Digest() returns (out: seq<Byte>)
      requires Valid()
      ensures out == TreeHash(compress, content)
    {
      hide FoldRight, StackOf, Units, OutputChainingValue, ParentOutput, ChunkOutput, TreeOutput, RootBytes;
      hide ChunkState.Consistent;
      var output := chunkState.AsOutput();
      FoldIsWholeTree(compress, content, chunkState.chunkCounter);
      var i := |cvStack|;
      assert cvStack[..i] == cvStack;
      while i > 0
        invariant 0 <= i <= |cvStack|
        invariant FoldRight(compress, cvStack[..i], output) == TreeOutput(compress, content, 0)
      {
        i := i - 1;
        assert cvStack[..i + 1] == cvStack[..i] + [cvStack[i]];
        FoldRightSnoc(compress, cvStack[..i], cvStack[i], output);
        output := ParentOutput(cvStack[i], OutputChainingValue(compress, output));
      }
      assert cvStack[..0] == [];
      FoldRightNil(compress, output);
      out := RootBytes(compress, output);
    }
  }

  /**
   * The hashing loop of a download or an upload: however the bytes are cut
   * into pieces, the digest is the tree hash of their concatenation.
   */
  method HashPieces(f: Compress, pieces: seq<seq<Byte>>) returns (out: seq<Byte>)
    ensures out == TreeHash(f, Flatten(pieces))
  {
    var hasher := new Hasher(f);
    for i := 0 to |pieces|
      invariant fresh(hasher) && fresh(hasher.chunkState) && fresh(hasher.chunkState.block)
      invariant hasher.Valid() && hasher.compress == f && hasher.content == Flatten(pieces[..i])
    {
      FlattenTake(pieces, i);
      hasher.Update(pieces[i]);
    }
    assert pieces[..|pieces|] == pieces;
    out := hasher.Digest();
  }
}
