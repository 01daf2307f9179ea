/**
 * Growing a stream by one block, seen from both sides: the bits written, and the
 * bytes they expand to.
 */
module StreamGrowth {
  import opened Bits
  import opened Lz
  import opened TokenBuffers
  import opened Blocks
  import opened BlockFlush

  /** Everything the block may stand for: the recorded tokens, or their expansion as plain bytes. */
  ghost predicate Represents(b: Block, ts: seq<Token>, data: seq<byte>) {
    BlockOk(b) && (b == Stored(data) || (!b.Stored? && b.ts == ts))
  }

  /** A block that stands for the recorded tokens extends the stream's expansion to the next source bytes. */
  lemma BlockExtends(blocks: seq<Block>, b: Block, done: seq<Token>, ts: seq<Token>, src: seq<byte>, n: nat)
    requires Rebuilds(done + ts, src, n) && TotalLen(done) <= n
    requires StreamOk(blocks, []) && StreamExpand(blocks, []) == src[..TotalLen(done)]
    requires Represents(b, ts, src[TotalLen(done)..n])
    ensures TotalLen(done + ts) == n
    ensures StreamOk(blocks + [b], []) && StreamExpand(blocks + [b], []) == src[..n]
  {
    hide BlockOk, WellFormed, Expand, TotalLen;
    WellFormedSplit(done, ts, 0);
    ExpandAppend(done, ts, []);
    ExpandPrefix(done + ts, |done|, []);
    assert (done + ts)[..|done|] == done;
    var a := TotalLen(done);
    assert Expand(done, []) == src[..a] by { assert src[..n][..a] == src[..a]; }
    assert (blocks + [b])[..|blocks|] == blocks;
    assert src[..a] + src[a..n] == src[..n];
  }

  /** An empty stored block changes nothing. */
  lemma EmptyBlockExtends(blocks: seq<Block>)
    requires StreamOk(blocks, [])
    ensures StreamOk(blocks + [Stored([])], []) && StreamExpand(blocks + [Stored([])], []) == StreamExpand(blocks, [])
  {
    assert (blocks + [Stored([])])[..|blocks|] == blocks;
  }

  lemma BlocksAllOk(blocks: seq<Block>, out: seq<byte>)
    requires StreamOk(blocks, out)
    ensures BlocksOk(blocks)
  {
    if blocks != [] {
      BlocksAllOk(blocks[..|blocks| - 1], out);
    }
  }

  lemma StreamBitsSnoc(blocks: seq<Block>, b: Block, closed: bool, pos: nat)
    requires BlocksOk(blocks) && BlockOk(b)
    ensures BlocksOk(blocks + [b])
    ensures StreamBits(blocks + [b], closed, pos)
      == StreamBits(blocks, false, pos) + BlockBits(b, closed, pos + |StreamBits(blocks, false, pos)|)
  {
    hide BlockOk, BlockBits;
    assert (blocks + [b])[..|blocks|] == blocks;
  }

  /** Only the position within a byte matters to a block. */
  lemma TypedBitsSame(b: Block, p: nat, q: nat)
    requires BlockOk(b) && p % 8 == q % 8
    ensures TypedBits(b, p) == TypedBits(b, q)
  {
    hide BlockOk, ToBits, ContentBits;
    ContentBitsSame(b, p + 2, q + 2);
  }

  lemma ContentBitsSame(b: Block, p: nat, q: nat)
    requires BlockOk(b) && p % 8 == q % 8
    ensures ContentBits(b, p) == ContentBits(b, q)
  {
    assert b.Stored? ==> |b.data| < 65536;
    hide BlockOk, HeaderBits, BodyBits, FixedBodyBits, StoredBits;
    if b.Stored? {
      StoredBitsSame(b.data, p, q);
    }
  }

  lemma StoredBitsSame(data: seq<byte>, p: nat, q: nat)
    requires p % 8 == q % 8
    ensures |data| < 65536 ==> StoredBits(data, p) == StoredBits(data, q)
  {
    hide ToBits, BytesToBits;
    PaddingSame(p, q);
    hide Padding;
  }

  lemma PaddingSame(p: nat, q: nat)
    requires p % 8 == q % 8
    ensures Padding(p) == Padding(q)
  {
  }

  lemma FinalThenTyped(b: Block, final: bool, p: nat)
    requires BlockOk(b)
    ensures BlockBits(b, final, p) == ToBits(if final then 1 else 0, 1) + TypedBits(b, p + 1)
  {
    hide BlockOk, ToBits, ContentBits;
    var f, t, c := ToBits(if final then 1 else 0, 1), ToBits(BlockType(b), 2), ContentBits(b, p + 3);
    assert f + t + c == f + (t + c);
  }

  lemma BlockBitsSame(b: Block, final: bool, p: nat, q: nat)
    requires BlockOk(b) && p % 8 == q % 8
    ensures BlockBits(b, final, p) == BlockBits(b, final, q)
  {
    hide BlockOk, BlockBits, TypedBits;
    FinalThenTyped(b, final, p);
    FinalThenTyped(b, final, q);
    TypedBitsSame(b, p + 1, q + 1);
  }
}
