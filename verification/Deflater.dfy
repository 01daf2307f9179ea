/**
 * The compressor as a whole: parsing, flushing blocks, and the stream they form,
 * over any sequence of calls.
 */
module Deflaters {
  import opened Bits
  import opened BitIO
  import opened Lz
  import opened Window
  import opened TokenBuffers
  import opened Dictionaries
  import opened Compressors
  import opened CodeTables
  import opened Blocks
  import opened BlockWriters
  import opened DynamicHeaders
  import opened FixedBlocks
  import opened BlockFlush
  import opened StreamEnds
  import opened StreamGrowth
  import opened Adlers
  import opened Sinks

  function Prefix(zlib: bool): seq<Bit> {
    if zlib then BytesToBits(ZLIB_HEADER) else []
  }

  /** The bits of a stream with these blocks; the header comes with the first one. */
  ghost function Stream(zlib: bool, blocks: seq<Block>, closed: bool): seq<Bit>
    requires BlocksOk(blocks)
  {
    if blocks == [] then [] else Prefix(zlib) + StreamBits(blocks, closed, |Prefix(zlib)|)
  }

  /** A stream up to and including one more block, which may be the last one. */
  lemma StreamSnoc(zlib: bool, blocks: seq<Block>, b: Block, closed: bool)
    requires BlocksOk(blocks) && BlockOk(b)
    ensures BlocksOk(blocks + [b])
    ensures var head := if blocks == [] then Prefix(zlib) else [];
      Stream(zlib, blocks + [b], closed)
      == Stream(zlib, blocks, false) + head + BlockBits(b, closed, |Stream(zlib, blocks, false) + head|)
  {
    hide BlockBits, BlockOk, StreamBits, Prefix, BlocksOk;
    var pre := Prefix(zlib);
    StreamBitsSnoc(blocks, b, closed, |pre|);
    var s := StreamBits(blocks, false, |pre|);
    NoBlocks(|pre|);
    var s0 := Stream(zlib, blocks, false) + (if blocks == [] then pre else []);
    assert s0 == pre + s;
    assert pre + (s + BlockBits(b, closed, |s0|)) == s0 + BlockBits(b, closed, |s0|);
  }

  lemma NoBlocks(pos: nat)
    ensures BlocksOk([]) && StreamBits([], false, pos) == []
  {
  }

  lemma TailSame(flush: Flush, zlib: bool, adler: uint32, p: nat, q: nat)
    requires p % 8 == q % 8
    ensures TailBits(flush, zlib, adler, p) == TailBits(flush, zlib, adler, q)
  {
    hide BlockBits, AdlerBytes;
    BlockBitsSame(Stored([]), false, p, q);
    assert Padding(p) == Padding(q);
  }

  /** The blocks after a flush that wrote b. */
  function Flushed(blocks: seq<Block>, b: Block, flush: Flush): seq<Block> {
    if flush == SyncFlush || flush == FullFlush then blocks + [b] + [Stored([])] else blocks + [b]
  }

  /** How many blocks a flush writes: a sync or full one adds an empty block. */
  function Added(flush: Flush): nat {
    if flush == SyncFlush || flush == FullFlush then 2 else 1
  }

  lemma FlushedSize(blocks: seq<Block>, b: Block, flush: Flush)
    ensures |Flushed(blocks, b, flush)| == |blocks| + Added(flush)
  {
  }

  /** Behind the last block: padding and checksum. */
  function EndBits(zlib: bool, adler: uint32, pos: nat): seq<Bit> {
    ToBits(0, Padding(pos)) + (if zlib then BytesToBits(AdlerBytes(adler)) else [])
  }

  /** What a flush writes, from bit position at within the stream on. */
  ghost function FlushBits(b: Block, flush: Flush, zlib: bool, first: bool, adler: uint32, at: nat): seq<Bit>
    requires BlockOk(b)
  {
    var body := BodyOf(b, flush == Finish, zlib, first, at);
    body + TailBits(flush, zlib, adler, at + |body|)
  }

  /** A flush continues the stream. */
  lemma FlushExtends(blocks: seq<Block>, b: Block, flush: Flush, zlib: bool, adler: uint32, at: nat)
    requires BlocksOk(blocks) && BlockOk(b) && at % 8 == |Stream(zlib, blocks, false)| % 8
    ensures BlocksOk(Flushed(blocks, b, flush))
    ensures var s := Stream(zlib, Flushed(blocks, b, flush), flush == Finish);
      Stream(zlib, blocks, false) + FlushBits(b, flush, zlib, blocks == [], adler, at)
      == if flush == Finish then s + EndBits(zlib, adler, |s|) else s
  {
    hide BlockBits, BlockOk, AdlerBytes, Stream, Prefix, BlocksOk, TailBits, EndBits, Flushed;
    var s0 := Stream(zlib, blocks, false);
    var body := BodyOf(b, flush == Finish, zlib, blocks == [], at);
    StreamBody(blocks, b, flush == Finish, zlib, at);
    TailExtends(blocks, b, flush, zlib, adler, s0, body, at + |body|);
  }

  /** The zlib header, if this is the first block, and the block. */
  ghost function BodyOf(b: Block, final: bool, zlib: bool, first: bool, at: nat): seq<Bit>
    requires BlockOk(b)
  {
    var head := if first then Prefix(zlib) else [];
    head + BlockBits(b, final, at + |head|)
  }

  lemma StreamBody(blocks: seq<Block>, b: Block, final: bool, zlib: bool, at: nat)
    requires BlocksOk(blocks) && BlockOk(b) && at % 8 == |Stream(zlib, blocks, false)| % 8
    ensures BlocksOk(blocks + [b])
    ensures var s0, body := Stream(zlib, blocks, false), BodyOf(b, final, zlib, blocks == [], at);
      s0 + body == Stream(zlib, blocks + [b], final) && (at + |body|) % 8 == |s0 + body| % 8
  {
    hide BlockBits, BlockOk, Stream, Prefix, BlocksOk;
    var s0 := Stream(zlib, blocks, false);
    var head := if blocks == [] then Prefix(zlib) else [];
    StreamSnoc(zlib, blocks, b, final);
    BlockBitsSame(b, final, at + |head|, |s0 + head|);
    assert s0 + (head + BlockBits(b, final, at + |head|)) == s0 + head + BlockBits(b, final, at + |head|);
  }

  lemma TailExtends(blocks: seq<Block>, b: Block, flush: Flush, zlib: bool, adler: uint32, s0: seq<Bit>, body: seq<Bit>, at: nat)
    requires BlocksOk(blocks + [b]) && at % 8 == |s0 + body| % 8
    requires s0 + body == Stream(zlib, blocks + [b], flush == Finish)
    ensures BlocksOk(Flushed(blocks, b, flush))
    ensures var s := Stream(zlib, Flushed(blocks, b, flush), flush == Finish);
      s0 + (body + TailBits(flush, zlib, adler, at)) == if flush == Finish then s + EndBits(zlib, adler, |s|) else s
  {
    hide BlockBits, BlockOk, AdlerBytes, Stream, BlocksOk;
    var s1 := s0 + body;
    TailSame(flush, zlib, adler, at, |s1|);
    var tail := TailBits(flush, zlib, adler, |s1|);
    assert s0 + (body + tail) == s1 + tail;
    if flush == SyncFlush || flush == FullFlush {
      SyncSnoc(zlib, blocks, b);
    } else {
      assert s1 + [] == s1;
    }
  }

  lemma SyncSnoc(zlib: bool, blocks: seq<Block>, b: Block)
    requires BlocksOk(blocks + [b])
    ensures BlocksOk(blocks + [b] + [Stored([])])
    ensures var s := Stream(zlib, blocks + [b], false);
      Stream(zlib, blocks + [b] + [Stored([])], false) == s + BlockBits(Stored([]), false, |s|)
  {
    hide BlockBits, Stream;
    StreamSnoc(zlib, blocks + [b], Stored([]), false);
    var s := Stream(zlib, blocks + [b], false);
    assert s + [] == s;
  }

  /** Starts on an empty output buffer, keeping the unfinished byte. */
  method Rewind(w: BitWriter) returns (ghost m: Mark)
    requires w.Valid() && w.buf.Length >= OUT_END
    modifies w`pos, w`end
    ensures w.Valid() && m == w.Here() && w.pos == 0 && w.Since(m, [])
    ensures m == Mark(old(ToBits(w.bitBuffer, w.bitsIn)), [], OUT_END, old(w.bitsIn))
  {
    hide ToBits, Pow2;
    w.pos, w.end := 0, OUT_END;
    m := w.Here();
    assert w.buf[..0] == [] && BytesToBits([]) == [];
    assert m.bits == ToBits(w.bitBuffer, w.bitsIn);
    assert m.bits + [] == m.bits;
  }

  /** What follows a block takes few bits. */
  lemma TailShort(flush: Flush, zlib: bool, adler: uint32, pos: nat)
    ensures |TailBits(flush, zlib, adler, pos)| <= 48
  {
    hide ToBits, BytesToBits, AdlerBytes;
  }

  /** The output buffer has room for everything a flush writes. */
  lemma FlushFits(m: Mark, head: seq<Bit>, typed: seq<Bit>, body: seq<Bit>, flush: Flush, zlib: bool, adler: uint32)
    requires m.bytes == [] && m.bitsIn < 8 && m.end == OUT_END && |typed| <= BLOCK_LIMIT && |head| <= 16
    requires |body| == |head| + 1 + |typed|
    ensures Demand(m, body + TailBits(flush, zlib, adler, m.bitsIn + |body|)) < 8 * m.end
  {
    hide TailBits;
    TailShort(flush, zlib, adler, m.bitsIn + |body|);
  }

  lemma HeaderLength(zlib: bool)
    ensures |Prefix(zlib)| <= 16
  {
  }

  /** Writes one block and what the flush wants around it; the output buffer never runs full. */
  method EmitBlock(w: BitWriter, tb: TokenBuffer, lt: CodeTable, dt: CodeTable, ct: CodeTable, dict: array<byte>,
                   start: nat, useRaw: bool, covered: bool, forceStatic: bool, flush: Flush, zlib: bool, first: bool, adler: uint32,
                   ghost ts: seq<Token>, ghost data: seq<byte>) returns (ghost b: Block, ghost coded: Block, ghost m: Mark)
    requires AllApart(w, tb, lt, dt, ct) && ArraysApart(w, tb, lt, dt, ct, dict)
    requires w.Valid() && w.buf.Length >= OUT_END
    requires Counted(tb.litCount[..], tb.distCount[..], ts) && Readable(tb.buf[..], tb.codeEnd, ts)
    requires |ts| < 65535 && End(ts) <= LZ_CODE_BUF_SIZE && tb.totalLzBytes == |data|
    requires useRaw ==> covered
    requires covered ==> |data| <= DICT_SIZE && forall i :: 0 <= i < |data| ==> dict[(start + i) % DICT_SIZE] == data[i]
    modifies w`pos, w`end, w`bitBuffer, w`bitsIn, w.buf
    modifies tb.litCount, lt.sizes, lt.codes, dt.sizes, dt.codes, ct.sizes, ct.codes
    ensures Represents(b, ts, data)
    ensures Picked(b, coded, useRaw, covered, forceStatic || |data| < 48, ts, data, m.bitsIn + |if first then Prefix(zlib) else []| + 1)
    ensures m == Mark(old(ToBits(w.bitBuffer, w.bitsIn)), [], OUT_END, old(w.bitsIn))
    ensures w.Since(m, FlushBits(b, flush, zlib, first, adler, m.bitsIn))
    ensures Demand(m, FlushBits(b, flush, zlib, first, adler, m.bitsIn)) / 8 <= m.end && w.HasRoom()
  {
    hide ToBits, BytesToBits, Pow2, Readable, InRange, Counted, After, BlockOk, BlockBits, TypedBits, TailBits, BitWriter.Here, Prefix,
      End, TablesApart, CodeTable.Shape, Picked, HeaderFor, Pays;
    m := Rewind(w);
    ghost var head := if first then Prefix(zlib) else [];
    HeaderLength(zlib);
    if first && zlib {
      PutZlibHeader(w, m);
      assert head == BytesToBits(ZLIB_HEADER) by { PrefixIs(zlib); }
    } else {
      assert head == [] by { PrefixIs(zlib); }
    }
    PowThree();
    w.PutBits(if flush == Finish then 1 else 0, 1, m, head);
    ghost var h1 := head + ToBits(if flush == Finish then 1 else 0, 1);
    ToBitsLen(if flush == Finish then 1 else 0, 1);
    b, coded := WriteBlock(w, tb, lt, dt, ct, dict, start, useRaw, covered, forceStatic, ts, data, m, h1);
    BlockIsBody(b, flush, head, m.bitsIn);
    ghost var body := head + BlockBits(b, flush == Finish, m.bitsIn + |head|);
    ghost var typed := TypedBits(b, m.bitsIn + |h1|);
    FlushFits(m, head, typed, body, flush, zlib, adler);
    PutTail(w, flush, zlib, adler, m, body);
    RoomAfter(w, m, body + TailBits(flush, zlib, adler, m.bitsIn + |body|));
  }

  lemma PrefixIs(zlib: bool)
    ensures Prefix(zlib) == if zlib then BytesToBits(ZLIB_HEADER) else []
  {
  }

  lemma BlockIsBody(b: Block, flush: Flush, head: seq<Bit>, at: nat)
    requires BlockOk(b)
    ensures var f := ToBits(if flush == Finish then 1 else 0, 1);
      head + f + TypedBits(b, at + |head + f|) == head + BlockBits(b, flush == Finish, at + |head|)
  {
    hide BlockOk, ToBits, TypedBits, BlockBits;
    var f := ToBits(if flush == Finish then 1 else 0, 1);
    FinalThenTyped(b, flush == Finish, at + |head|);
    assert at + |head + f| == at + |head| + 1;
    assert head + f + TypedBits(b, at + |head| + 1) == head + (f + TypedBits(b, at + |head| + 1));
  }

  /** Never more tokens than the packed buffer has bytes for. */
  lemma {:induction false} TokenRoom(ts: seq<Token>)
    ensures End(ts) >= 1 + |ts| + |ts| / 8
  {
    if ts != [] {
      TokenRoom(ts[..|ts| - 1]);
    }
  }

  lemma {:induction false} TotalLenBound(ts: seq<Token>)
    requires AllInRange(ts)
    ensures TotalLen(ts) <= MAX_MATCH_LEN * |ts|
  {
    if ts != [] {
      TotalLenBound(ts[..|ts| - 1]);
      assert InRange(ts[|ts| - 1]);
    }
  }

  lemma WrappedDifference(p: nat, a: nat)
    requires a <= p < a + UINT32_MOD
    ensures (p % UINT32_MOD - a % UINT32_MOD) % UINT32_MOD == p - a
  {
    var q := p / UINT32_MOD - a / UINT32_MOD;
    assert p % UINT32_MOD - a % UINT32_MOD == p - a - q * UINT32_MOD;
  }

  lemma RingPosition(a: nat, i: nat)
    ensures (a % UINT32_MOD + i) % DICT_SIZE == (a + i) % DICT_SIZE
  {
    var k := a / UINT32_MOD;
    assert a % UINT32_MOD + i == a + i - 131072 * k * DICT_SIZE;
  }

  /** The ring holds data from slot start on. */
  ghost predicate InRing(dict: seq<byte>, start: nat, data: seq<byte>) {
    |dict| >= DICT_SIZE && forall i :: 0 <= i < |data| ==> dict[(start + i) % DICT_SIZE] == data[i]
  }

  /** When the dictionary reaches back to the start of the block, it still holds the block's bytes. */
  lemma RawCovers(d: Dictionary, a: nat, total: nat)
    requires d.Valid() && a + total <= d.Pos() <= a + total + 1
    requires total + 1 < UINT32_MOD
    ensures (d.lookaheadPos - a % UINT32_MOD) % UINT32_MOD <= d.dictSize ==>
      total <= DICT_SIZE && InRing(d.dict[..], a % UINT32_MOD, d.source[a..a + total])
  {
    WrappedDifference(d.Pos(), a);
    if d.Pos() - a <= d.dictSize {
      var data := d.source[a..a + total];
      forall i | 0 <= i < |data| ensures d.dict[(a % UINT32_MOD + i) % DICT_SIZE] == data[i] {
        RingPosition(a, i);
        assert Holds(d.dict[..], d.source, a + i);
      }
    }
  }

  /** The output and the unfinished byte, after the buffer was handed out. */
  lemma OutputGrows(output: seq<byte>, bytes: seq<byte>, tail: seq<Bit>, start: seq<Bit>, more: seq<Bit>)
    requires BytesToBits(bytes) + tail == start + more
    ensures BytesToBits(output + bytes) + tail == BytesToBits(output) + start + more
  {
    hide BytesToBits;
    BytesToBitsAppend(output, bytes);
    var o, b := BytesToBits(output), BytesToBits(bytes);
    assert o + b + tail == o + (b + tail);
    assert o + start + more == o + (start + more);
  }

  lemma FlushedCovers(blocks: seq<Block>, b: Block, flush: Flush, done: seq<Token>, ts: seq<Token>, src: seq<byte>, n: nat)
    requires Rebuilds(done + ts, src, n) && TotalLen(done) <= n
    requires StreamOk(blocks, []) && StreamExpand(blocks, []) == src[..TotalLen(done)]
    requires Represents(b, ts, src[TotalLen(done)..n])
    ensures TotalLen(done + ts) == n && Flushed(blocks, b, flush) != []
    ensures StreamOk(Flushed(blocks, b, flush), []) && StreamExpand(Flushed(blocks, b, flush), []) == src[..n]
    ensures BlocksOk(Flushed(blocks, b, flush))
  {
    hide Rebuilds, StreamOk, StreamExpand, Represents, TotalLen, BlocksOk;
    BlockExtends(blocks, b, done, ts, src, n);
    EmptyBlockExtends(blocks + [b]);
    BlocksAllOk(Flushed(blocks, b, flush), []);
  }

  lemma EndsOnByte(zlib: bool, adler: uint32, pos: nat)
    ensures (pos + |EndBits(zlib, adler, pos)|) % 8 == 0
  {
    hide AdlerBytes, BytesToBits;
  }

  /** The output after a flush, bit for bit. */
  lemma FlushWrote(blocks: seq<Block>, b: Block, flush: Flush, zlib: bool, adler: uint32, output: seq<byte>, m: Mark, n: Mark, tail: seq<Bit>)
    requires BlocksOk(blocks) && BlockOk(b) && m.bitsIn == |Stream(zlib, blocks, false)| % 8 && m.bytes == []
    requires After(n, m, FlushBits(b, flush, zlib, blocks == [], adler, m.bitsIn))
    requires n.bits == BytesToBits(n.bytes) + tail && |tail| == n.bitsIn < 8
    requires BytesToBits(output) + m.bits == Stream(zlib, blocks, false)
    requires Demand(m, FlushBits(b, flush, zlib, blocks == [], adler, m.bitsIn)) / 8 <= m.end
    ensures BlocksOk(Flushed(blocks, b, flush))
    ensures var s := Stream(zlib, Flushed(blocks, b, flush), flush == Finish);
      if flush == Finish then n.bitsIn == 0 && BytesToBits(output + n.bytes) == s + EndBits(zlib, adler, |s|)
      else BytesToBits(output + n.bytes) + tail == s
  {
    hide BlockOk, Stream, FlushBits, BytesToBits, BlocksOk, EndBits;
    var more := FlushBits(b, flush, zlib, blocks == [], adler, m.bitsIn);
    FlushExtends(blocks, b, flush, zlib, adler, m.bitsIn);
    OutputGrows(output, n.bytes, tail, m.bits, more);
    WroteOnByte(blocks, b, flush, zlib, adler, m, n);
    if n.bitsIn == 0 {
      assert BytesToBits(output + n.bytes) + tail == BytesToBits(output + n.bytes);
    }
  }

  /** An empty stored block ends on a byte boundary. */
  lemma EmptyBlockAligns(zlib: bool, blocks: seq<Block>)
    requires BlocksOk(blocks)
    ensures BlocksOk(blocks + [Stored([])]) && |Stream(zlib, blocks + [Stored([])], false)| % 8 == 0
  {
    hide ToBits, BytesToBits, StreamBits, Prefix, BlocksOk;
    StreamSnoc(zlib, blocks, Stored([]), false);
    var at := |Stream(zlib, blocks, false) + (if blocks == [] then Prefix(zlib) else [])|;
    hide Stream;
    assert |BlockBits(Stored([]), false, at)| == 3 + Padding(at + 3) + 32;
  }

  /** Where the unfinished byte stands after a flush, room or not. */
  lemma WroteOnByte(blocks: seq<Block>, b: Block, flush: Flush, zlib: bool, adler: uint32, m: Mark, n: Mark)
    requires BlocksOk(blocks) && BlockOk(b) && m.bitsIn == |Stream(zlib, blocks, false)| % 8
    requires n.bitsIn == (m.bitsIn + |FlushBits(b, flush, zlib, blocks == [], adler, m.bitsIn)|) % 8
    ensures BlocksOk(Flushed(blocks, b, flush))
    ensures if flush == Finish then n.bitsIn == 0 else n.bitsIn == |Stream(zlib, Flushed(blocks, b, flush), false)| % 8
  {
    hide BlockOk, Stream, FlushBits, BytesToBits, BlocksOk, EndBits;
    FlushExtends(blocks, b, flush, zlib, adler, m.bitsIn);
    var s := Stream(zlib, Flushed(blocks, b, flush), flush == Finish);
    EndsOnByte(zlib, adler, |s|);
    var more := FlushBits(b, flush, zlib, blocks == [], adler, m.bitsIn);
    assert |Stream(zlib, blocks, false) + more| == |Stream(zlib, blocks, false)| + |more|;
  }

  datatype Status = Okay | Done | BadParam

  class Deflater {
    const p: Compressor
    const w: BitWriter
    const lt: CodeTable
    const dt: CodeTable
    const ct: CodeTable
    const forceStatic: bool
    const zlib: bool
    /** Source position of the first byte not in a block yet, in 32 bits. */
    var dictPos: nat
    var blockIndex: nat
    var adler: uint32
    /** Everything flushed; what became of it is the sink's business. */
    ghost var output: seq<byte>
    const sink: Sink
    var finished: bool
    var wantsToFinish: bool
    var status: Status
    ghost var blocks: seq<Block>

    ghost predicate Separate()
    {
      && AllApart(w, p.codes, lt, dt, ct) && ArraysApart(w, p.codes, lt, dt, ct, p.d.dict)
      && p.Separate()
      && {p.d.dict as object, p.d.next, p.d.hash, p.codes.buf, p.codes.litCount, p.codes.distCount}
         !! {w.buf as object, lt.sizes, lt.codes, dt.sizes, dt.codes, ct.sizes, ct.codes}
    }

    ghost function Repr(): set<object>
    {
      {this, sink, w, w.buf, lt.sizes, lt.codes, dt.sizes, dt.codes, ct.sizes, ct.codes} + p.Repr()
    }

    /** The blocks flushed so far stand for the source bytes they cover. */
    ghost predicate Covered()
      reads this`dictPos, this`blockIndex, this`blocks, p`done, p.d`source
    {
      && dictPos == TotalLen(p.done) % UINT32_MOD
      && (blockIndex == 0 <==> blocks == [])
      && StreamOk(blocks, []) && TotalLen(p.done) <= |p.d.source|
      && StreamExpand(blocks, []) == p.d.source[..TotalLen(p.done)]
    }

    /** Output and unfinished byte are the stream of the blocks so far. */
    ghost predicate OpenWritten()
      reads this`output, this`blocks, w, w.buf
    {
      && w.Valid() && w.buf.Length == OUT_BUF_SIZE && BlocksOk(blocks)
      && w.bitsIn == |Stream(zlib, blocks, false)| % 8
      && BytesToBits(output) + ToBits(w.bitBuffer, w.bitsIn) == Stream(zlib, blocks, false)
    }

    /** The output is the whole stream, padded, with the checksum if there is one. */
    ghost predicate ClosedWritten()
      reads this`output, this`adler, this`blocks, w, w.buf
    {
      && w.Valid() && w.buf.Length == OUT_BUF_SIZE && BlocksOk(blocks)
      && BytesToBits(output) == FinishedBits()
    }

    ghost function FinishedBits(): seq<Bit>
      reads this`adler, this`blocks
      requires BlocksOk(blocks)
    {
      var s := Stream(zlib, blocks, true);
      s + EndBits(zlib, adler, |s|)
    }

    ghost predicate Handed()
      reads this`output, sink
    {
      sink.Valid() && output == sink.All()
    }

    /** What was written when the stream is closed, or still open. */
    ghost predicate Written(closed: bool)
      reads this`output, this`adler, this`blocks, w, w.buf
    {
      if closed then ClosedWritten() else OpenWritten()
    }

    ghost predicate Valid()
      reads Repr()
    {
      && Separate() && p.Valid() && Covered() && Written(finished)
      && (zlib ==> adler == Adler(ADLER_INIT, p.d.source))
      && Handed() && (finished ==> Drained() && wantsToFinish)
      && (status == Okay ==> !Over()) && (status == Done ==> Over())
      && (!sink.buffered && wantsToFinish ==> finished)
    }

    /** The stream is finished and all of it is with the caller. */
    predicate Over()
      reads this`finished, sink`remaining
    {
      finished && sink.remaining == []
    }

    /** Puts the parts of a compressor together; all of them are new and share nothing. */
    constructor (p: Compressor, w: BitWriter, lt: CodeTable, dt: CodeTable, ct: CodeTable, sink: Sink, forceStatic: bool, zlib: bool)
      requires p.Valid() && p.d.source == [] && p.done == []
      requires w.Valid() && w.bitsIn == 0 && w.buf.Length == OUT_BUF_SIZE
      requires sink.Valid() && sink.All() == [] && lt.Shape() && dt.Shape() && ct.Shape()
      requires {lt.sizes, lt.codes, dt.sizes, dt.codes, ct.sizes, ct.codes} !! p.Repr()
      requires w.buf as object !in {lt.sizes, lt.codes, dt.sizes, dt.codes, ct.sizes, ct.codes} + p.Repr()
      requires {lt.sizes, lt.codes} !! {dt.sizes, dt.codes, ct.sizes, ct.codes} && {dt.sizes, dt.codes} !! {ct.sizes, ct.codes}
      ensures Valid() && this.p == p && this.w == w && this.lt == lt && this.dt == dt && this.ct == ct
      ensures this.zlib == zlib && this.forceStatic == forceStatic && this.sink == sink && output == [] && status == Okay && !wantsToFinish
    {
      hide CodeTable.Shape, Valid, OpenWritten, Covered, Separate, Compressor.Valid;
      this.p, this.w, this.lt, this.dt, this.ct := p, w, lt, dt, ct;
      this.sink, this.forceStatic, this.zlib, wantsToFinish := sink, forceStatic, zlib, false;
      dictPos, blockIndex, adler := 0, 0, ADLER_INIT;
      output, finished, status, blocks := [], false, Okay, [];
      new;
      StartsWritten();
      StartsCovered();
      StartsSeparate();
      StartsValid();
    }

    lemma StartsWritten()
      requires output == [] && blocks == [] && w.bitsIn == 0 && w.Valid() && w.buf.Length == OUT_BUF_SIZE
      ensures OpenWritten()
    {
    }

    lemma StartsCovered()
      requires dictPos == 0 && blockIndex == 0 && blocks == [] && p.done == [] && p.d.source == []
      ensures Covered()
    {
    }

    lemma StartsValid()
      requires Separate() && p.Valid() && Covered() && OpenWritten() && adler == ADLER_INIT && p.d.source == [] && !finished
      requires Handed() && sink.remaining == [] && status == Okay && !wantsToFinish
      ensures Valid()
    {
    }

    lemma StartsSeparate()
      requires lt.Shape() && dt.Shape() && ct.Shape() && p.Valid()
      requires w.buf as object !in {lt.sizes, lt.codes, dt.sizes, dt.codes, ct.sizes, ct.codes} + p.Repr()
      requires {lt.sizes, lt.codes, dt.sizes, dt.codes, ct.sizes, ct.codes} !! p.Repr()
      requires {lt.sizes, lt.codes} !! {dt.sizes, dt.codes, ct.sizes, ct.codes} && {dt.sizes, dt.codes} !! {ct.sizes, ct.codes}
      ensures Separate()
    {
    }

    /** Facts about the parser that a flush starts from. */
    lemma FlushFacts()
      requires p.Parsing() && Covered()
      ensures TotalLen(p.done) + TotalLen(p.codes.tokens) == p.Encoded() <= |p.d.source|
      ensures p.codes.totalLzBytes == TotalLen(p.codes.tokens) && |p.codes.tokens| < 65535
      ensures End(p.codes.tokens) <= LZ_CODE_BUF_SIZE
      ensures var covered := (p.d.lookaheadPos - dictPos) % UINT32_MOD <= p.d.dictSize;
        covered ==> p.codes.totalLzBytes <= DICT_SIZE && InRing(p.d.dict[..], dictPos, Unflushed())
    {
      hide Dictionary.Valid, TotalLen, StreamOk, StreamExpand;
      TotalLenAppend(p.done, p.codes.tokens);
      TokenRoom(p.codes.tokens);
      assert AllInRange(p.codes.tokens) by { TokensInRange(); }
      TotalLenBound(p.codes.tokens);
      RawCovers(p.d, TotalLen(p.done), TotalLen(p.codes.tokens));
    }

    lemma TokensInRange()
      requires p.codes.Valid()
      ensures AllInRange(p.codes.tokens)
    {
    }

    /** The source bytes the next block will stand for. */
    ghost function Unflushed(): seq<byte>
      reads this, p, p.d, p.codes
      requires TotalLen(p.done) + TotalLen(p.codes.tokens) <= |p.d.source|
    {
      p.d.source[TotalLen(p.done)..TotalLen(p.done) + TotalLen(p.codes.tokens)]
    }

    /** Writes the pending tokens as one block. */
    method WriteFlush(flush: Flush) returns (ghost b: Block, ghost coded: Block, ghost m: Mark)
      requires Separate() && p.Parsing() && Covered() && w.Valid() && w.buf.Length == OUT_BUF_SIZE
      modifies p.codes`codeEnd, p.codes.buf, p.codes.litCount
      modifies w`pos, w`end, w`bitBuffer, w`bitsIn, w.buf, lt.sizes, lt.codes, dt.sizes, dt.codes, ct.sizes, ct.codes
      ensures TotalLen(p.done) + TotalLen(p.codes.tokens) <= |p.d.source| && Represents(b, p.codes.tokens, Unflushed())
      ensures var covered := (p.d.lookaheadPos - dictPos) % UINT32_MOD <= p.d.dictSize;
        Picked(b, coded, p.rawBlocks && covered, covered, forceStatic || |Unflushed()| < 48, p.codes.tokens, Unflushed(),
               m.bitsIn + |if blockIndex == 0 then Prefix(zlib) else []| + 1)
      ensures m == Mark(old(ToBits(w.bitBuffer, w.bitsIn)), [], OUT_END, old(w.bitsIn))
      ensures w.Since(m, FlushBits(b, flush, zlib, blockIndex == 0, adler, m.bitsIn))
      ensures Demand(m, FlushBits(b, flush, zlib, blockIndex == 0, adler, m.bitsIn)) / 8 <= m.end
    {
      hide TokenBuffer.Valid, Counted, Readable, Rebuilds, StreamOk, StreamExpand, TotalLen, ToBits, BytesToBits, After, Represents,
        FlushBits, End, Dictionary.Valid, TablesApart, CodeTable.Shape, Picked, Prefix, Demand;
      FlushFacts();
      var total := p.codes.totalLzBytes;
      var covered := (p.d.lookaheadPos - dictPos) % UINT32_MOD <= p.d.dictSize;
      var useRaw := p.rawBlocks && covered;
      p.codes.Align();
      b, coded, m := EmitBlock(w, p.codes, lt, dt, ct, p.d.dict, dictPos, useRaw, covered, forceStatic, flush, zlib, blockIndex == 0, adler,
                        p.codes.tokens, Unflushed());
    }

    /** Ends the current block: everything recorded is in the stream's blocks afterwards. */
    method FlushBlock(flush: Flush)
      requires Separate() && p.Parsing() && Covered() && OpenWritten() && !finished && Handed() && sink.remaining == []
      modifies this`dictPos, this`blockIndex, this`output, this`blocks, sink`given, sink`remaining, sink`taken
      modifies p`done, p.codes, p.codes.buf, p.codes.litCount, p.codes.distCount
      modifies w`pos, w`end, w`bitBuffer, w`bitsIn, w.buf, lt.sizes, lt.codes, dt.sizes, dt.codes, ct.sizes, ct.codes
      ensures p.Parsing() && p.codes.tokens == [] && p.codes.codeEnd == 1 && p.done == old(p.done + p.codes.tokens)
      ensures Covered() && Written(flush == Finish) && blocks != [] && Handed() && sink.Full() && old(sink.taken) <= sink.taken
      ensures |blocks| == |old(blocks)| + Added(flush)
      ensures flush == SyncFlush || flush == FullFlush ==> Synced()
    {
      hide TokenBuffer.Valid, Counted, Readable, Rebuilds, TotalLen, ToBits, BytesToBits, Represents, Compressor.Encoded, Compressor.SavedOk,
        FlushBits, Covered, Dictionary.Valid, AllApart, ArraysApart, BitWriter.Since, OpenWritten, ClosedWritten, BlocksOk, Stream,
        Picked, Synced, Sink.All, Sink.Full, Demand;
      FlushFacts();
      CodesShape();
      BeforeFlush();
      var total := p.codes.totalLzBytes;
      ghost var b, coded, m := WriteFlush(flush);
      CloseFlush(flush, total, b, m);
    }

    lemma BeforeFlush()
      requires Separate() && p.Parsing() && OpenWritten() && !finished
      ensures w.Valid() && w.buf.Length == OUT_BUF_SIZE && p.Separate() && p.d.Valid() && p.SavedOk()
      ensures Rebuilds(p.Recorded(), p.d.source, p.Encoded())
      ensures BlocksOk(blocks) && w.bitsIn == |Stream(zlib, blocks, false)| % 8
      ensures BytesToBits(output) + ToBits(w.bitBuffer, w.bitsIn) == Stream(zlib, blocks, false)
    {
      hide TokenBuffer.Valid, Dictionary.Valid, Rebuilds, Stream, BlocksOk, AllApart, ArraysApart, BytesToBits, ToBits, Compressor.SavedOk;
    }

    lemma CodesShape()
      requires p.codes.Valid()
      ensures p.codes.buf.Length == LZ_CODE_BUF_SIZE && p.codes.litCount.Length == 288 && p.codes.distCount.Length == 288
      ensures p.codes.litCount != p.codes.distCount
    {
    }

    /** Books a written block: hands out the buffer and starts the next block. */
    method CloseFlush(flush: Flush, total: nat, ghost b: Block, ghost m: Mark)
      requires Separate() && p.Separate() && p.d.Valid() && p.SavedOk() && Rebuilds(p.Recorded(), p.d.source, p.Encoded())
      requires p.codes.buf.Length == LZ_CODE_BUF_SIZE && p.codes.litCount.Length == 288 && p.codes.distCount.Length == 288
      requires p.codes.litCount != p.codes.distCount
      requires Covered() && TotalLen(p.done) + TotalLen(p.codes.tokens) == p.Encoded() && total == TotalLen(p.codes.tokens)
      requires p.Encoded() <= |p.d.source| && Represents(b, p.codes.tokens, Unflushed())
      requires BlocksOk(blocks) && m.bitsIn == |Stream(zlib, blocks, false)| % 8 && m.bytes == []
      requires BytesToBits(output) + m.bits == Stream(zlib, blocks, false)
      requires w.buf.Length == OUT_BUF_SIZE && w.Since(m, FlushBits(b, flush, zlib, blockIndex == 0, adler, m.bitsIn))
      requires Demand(m, FlushBits(b, flush, zlib, blockIndex == 0, adler, m.bitsIn)) / 8 <= m.end
      requires Handed() && sink.remaining == []
      modifies this`dictPos, this`blockIndex, this`output, this`blocks, sink`given, sink`remaining, sink`taken
      modifies p`done, p.codes, p.codes.litCount, p.codes.distCount
      ensures p.Parsing() && p.codes.tokens == [] && p.codes.codeEnd == 1 && p.done == old(p.done + p.codes.tokens)
      ensures Covered() && Written(flush == Finish) && blocks != [] && Handed() && sink.Full() && old(sink.taken) <= sink.taken
      ensures |blocks| == |old(blocks)| + Added(flush)
      ensures flush == SyncFlush || flush == FullFlush ==> Synced()
    {
      hide TokenBuffer.Valid, Rebuilds, TotalLen, ToBits, BytesToBits, BlockOk, Compressor.SavedOk, StreamOk, StreamExpand, Stream,
        FlushBits, Dictionary.Valid, BlocksOk, AllApart, ArraysApart, Flushed, EndBits, Pow2, BitWriter.Since, OpenWritten, ClosedWritten,
        BitWriter.Valid, Sink.All, Sink.Full, WellFormed, BlockExpand, AdlerBytes, Synced, Written, Handed, Represents, Demand;
      ghost var ts, done := p.codes.tokens, p.done;
      FlushedCovers(blocks, b, flush, done, ts, p.d.source, p.Encoded());
      BlockIsOk(b, ts, Unflushed());
      dictPos := (dictPos + total) % UINT32_MOD;
      HandOut(flush, b, m);
      p.Restart();
    }

    lemma BlockIsOk(b: Block, ts: seq<Token>, data: seq<byte>)
      requires Represents(b, ts, data)
      ensures BlockOk(b)
    {
    }

    /** Hands the buffer to the output function, or puts it into the caller's. */
    method HandOut(flush: Flush, ghost b: Block, ghost m: Mark)
      requires BlockOk(b) && BlocksOk(blocks) && m.bitsIn == |Stream(zlib, blocks, false)| % 8 && m.bytes == []
      requires blockIndex == 0 <==> blocks == []
      requires BytesToBits(output) + m.bits == Stream(zlib, blocks, false)
      requires w.buf.Length == OUT_BUF_SIZE && w.Since(m, FlushBits(b, flush, zlib, blockIndex == 0, adler, m.bitsIn))
      requires Demand(m, FlushBits(b, flush, zlib, blockIndex == 0, adler, m.bitsIn)) / 8 <= m.end
      requires Handed() && sink.remaining == []
      modifies this`blockIndex, this`output, this`blocks, sink`given, sink`remaining, sink`taken
      ensures blocks == Flushed(old(blocks), b, flush) && |blocks| == |old(blocks)| + Added(flush)
      ensures blockIndex == old(blockIndex) + 1 && Written(flush == Finish)
      ensures Handed() && sink.Full() && old(sink.taken) <= sink.taken
      ensures flush == SyncFlush || flush == FullFlush ==> Synced()
    {
      hide ToBits, BytesToBits, BlockOk, Stream, FlushBits, BlocksOk, Flushed, EndBits, Pow2;
      WroteOnByte(blocks, b, flush, zlib, adler, m, w.Here());
      FlushWrote(blocks, b, flush, zlib, adler, output, m, w.Here(), ToBits(w.bitBuffer, w.bitsIn));
      sink.Give(w.buf[..w.pos]);
      output := output + w.buf[..w.pos];
      blockIndex := blockIndex + 1;
      FlushedSize(blocks, b, flush);
      if flush == SyncFlush || flush == FullFlush {
        SyncAligns(blocks, b, flush);
        NoBitsLeft(w.bitBuffer);
      }
      blocks := Flushed(blocks, b, flush);
    }

    lemma NoBitsLeft(v: nat)
      ensures ToBits(v, 0) == []
    {
    }

    lemma SyncAligns(bs: seq<Block>, b: Block, flush: Flush)
      requires BlocksOk(bs) && BlockOk(b) && (flush == SyncFlush || flush == FullFlush)
      ensures BlocksOk(Flushed(bs, b, flush)) && |Stream(zlib, Flushed(bs, b, flush), false)| % 8 == 0
      ensures Flushed(bs, b, flush) != [] && Flushed(bs, b, flush)[|Flushed(bs, b, flush)| - 1] == Stored([])
    {
      hide BlockOk, Stream;
      EmptyBlockAligns(zlib, bs + [b]);
    }

    /** Between two steps of the parser: the stream is open, and room is left for one more step. */
    ghost predicate Running()
      reads Repr()
    {
      Separate() && p.Valid() && Covered() && OpenWritten() && !finished && Handed()
    }

    /**
     * Time to end the block of these tokens: the packed buffer is nearly full, or behind 31 kilobytes of data the
     * packed tokens take about a ninth more than the data, or raw blocks are asked for.
     */
    ghost predicate Due(ts: seq<Token>) {
      End(ts) > 65528 || (TotalLen(ts) > 31744 && (115 * End(ts) / 128 >= TotalLen(ts) || p.rawBlocks))
    }

    method TimeToFlush() returns (now: bool)
      requires p.codes.Valid()
      ensures now == Due(p.codes.tokens) && (p.codes.codeEnd > LZ_CODE_BUF_SIZE - 8 ==> now)
    {
      hide Counted, TotalLen;
      var total := p.codes.totalLzBytes;
      now := p.codes.codeEnd > LZ_CODE_BUF_SIZE - 8
        || (total > 31 * 1024 && (p.codes.codeEnd * 115 / 128 >= total || p.rawBlocks));
    }

    lemma CoveredMore(src: seq<byte>, done: seq<Token>)
      requires TotalLen(done) <= |src| <= |p.d.source| && src <= p.d.source && done == p.done
      requires dictPos == TotalLen(done) % UINT32_MOD && (blockIndex == 0 <==> blocks == [])
      requires StreamOk(blocks, []) && StreamExpand(blocks, []) == src[..TotalLen(done)]
      ensures Covered()
    {
      hide StreamOk, StreamExpand, TotalLen;
    }

    /** Takes input until the lookahead is full. */
    method TakeInput(src: seq<byte>, from: nat) returns (i: nat)
      requires Running() && from <= |src|
      modifies p.d`lookaheadSize, p.d`dictSize, p.d`source, p.d.dict, p.d.next, p.d.hash
      ensures Running() && from <= i <= |src| && p.d.source == old(p.d.source) + src[from..i]
      ensures p.d.Pos() == old(p.d.Pos()) && (i == |src| || p.d.lookaheadSize == MAX_MATCH_LEN)
    {
      hide StreamOk, StreamExpand, TotalLen, Compressor.Parsing, AllApart, ArraysApart, OpenWritten;
      ghost var before := p.d.source;
      i := p.Take(src, from);
      CoveredMore(before, p.done);
    }

    /** The block has ended if and only if it was time to, with the tokens recorded meanwhile. */
    twostate predicate EndedIfDue()
      reads this, p, p.codes
    {
      && |p.done| >= |old(p.done)|
      && if Due(p.Recorded()[|old(p.done)|..]) then |blocks| == |old(blocks)| + 1 && p.codes.tokens == []
         else blocks == old(blocks) && p.done == old(p.done)
    }

    /** One step of the parser, and a flush behind it when it is time. */
    method Step()
      requires Running() && p.d.lookaheadSize > 0 && sink.remaining == []
      modifies this`dictPos, this`blockIndex, this`output, this`blocks, sink`given, sink`remaining, sink`taken
      modifies p`savedMatchLen, p`savedMatchDist, p`savedLit, p`done, p.codes, p.codes.buf, p.codes.litCount, p.codes.distCount
      modifies p.d`lookaheadPos, p.d`lookaheadSize, p.d`dictSize
      modifies w`pos, w`end, w`bitBuffer, w`bitsIn, w.buf, lt.sizes, lt.codes, dt.sizes, dt.codes, ct.sizes, ct.codes
      ensures Running() && p.d.source == old(p.d.source) && p.d.Pos() > old(p.d.Pos())
      ensures sink.Full() && old(sink.taken) <= sink.taken
      ensures EndedIfDue()
    {
      hide StreamOk, StreamExpand, TotalLen, AllApart, ArraysApart, OpenWritten, ClosedWritten, Rebuilds, Dictionary.Valid, TokenBuffer.Valid,
        Compressor.Chosen, Stream, BlocksOk, Due;
      ghost var choice := p.ParseStep();
      ghost var ts := p.codes.tokens;
      assert (p.done + ts)[|p.done|..] == ts;
      var now := TimeToFlush();
      if now {
        FlushBlock(NoFlush);
        assert p.done + [] == p.done;
      }
    }

    /** What parsing leaves alone. */
    ghost function Steady(): (uint32, Status, bool, seq<byte>, nat)
      reads this, sink
    {
      (adler, status, wantsToFinish, sink.earlier, sink.size)
    }

    /** Parses input, all of it unless a flush fills the caller's buffer; when flushing everything is parsed then. */
    method CompressNormal(src: seq<byte>, flush: Flush) returns (used: nat)
      requires Running() && sink.remaining == []
      modifies Repr()
      ensures Running() && used <= |src| && p.d.source == old(p.d.source) + src[..used] && Steady() == old(Steady()) && old(sink.taken) <= sink.taken && sink.Full()
      ensures sink.remaining == [] ==> used == |src| && (flush != NoFlush ==> p.d.lookaheadSize == 0)
      ensures flush != NoFlush ==> Left(src, used) < old(Left(src, 0)) || (Left(src, used) == 0 && sink.remaining == [])
      ensures p.d.floor == old(p.d.floor)
    {
      hide Running, Sink.Valid, Sink.All, Left, Steady;
      used := 0;
      ghost var start, left := p.d.source, Left(src, 0);
      while used < |src| || (flush != NoFlush && p.d.lookaheadSize > 0)
        invariant Running() && used <= |src| && p.d.source == start + src[..used] && Steady() == old(Steady()) && old(sink.taken) <= sink.taken && sink.remaining == []
        invariant p.d.lookaheadSize <= |p.d.source| && p.d.floor == old(p.d.floor)
        invariant Left(src, used) < left || (used == 0 && Left(src, used) == left)
        decreases |start| + |src| - p.d.Pos()
      {
        var stop;
        used, stop := ParseMore(src, used, flush, start);
        if stop {
          break;
        }
      }
      LeftNothing(src, used);
      assert src[..|src|] == src;
    }

    /** Input not parsed yet. */
    ghost function Left(src: seq<byte>, used: nat): int
      reads p.d
    {
      |src| - used + p.d.lookaheadSize
    }

    lemma LeftNothing(src: seq<byte>, used: nat)
      requires used <= |src|
      ensures Left(src, used) == 0 <==> used == |src| && p.d.lookaheadSize == 0
    {
    }

    /** Fills the lookahead and parses one step of it. */
    method ParseMore(src: seq<byte>, used0: nat, flush: Flush, ghost start: seq<byte>) returns (used: nat, stop: bool)
      requires Running() && used0 <= |src| && p.d.source == start + src[..used0] && sink.remaining == []
      requires used0 < |src| || (flush != NoFlush && p.d.lookaheadSize > 0)
      modifies Repr()
      ensures Running() && used0 <= used <= |src| && p.d.source == start + src[..used] && Steady() == old(Steady()) && old(sink.taken) <= sink.taken && sink.Full()
      ensures stop ==> sink.remaining != [] || (flush == NoFlush && used == |src|)
      ensures !stop ==> sink.remaining == [] && p.d.Pos() > old(p.d.Pos()) && Left(src, used) < old(Left(src, used0))
      ensures flush != NoFlush ==> Left(src, used) < old(Left(src, used0))
      ensures p.d.lookaheadSize <= |p.d.source| && p.d.Pos() <= |p.d.source| && p.d.floor == old(p.d.floor)
      ensures flush == NoFlush && old(p.d.lookaheadSize) + |src| - used0 < MAX_MATCH_LEN ==>
        stop && used == |src| && p.d.Pos() == old(p.d.Pos())
    {
      hide Running, Sink.Valid, Sink.All, EndedIfDue;
      used := TakeInput(src, used0);
      assert src[..used0] + src[used0..used] == src[..used];
      if flush == NoFlush && p.d.lookaheadSize < MAX_MATCH_LEN {
        return used, true;
      }
      Step();
      stop := sink.remaining != [];
    }

    /** The stream has just been brought to a byte boundary by an empty block: what is out can be decoded as far as it goes. */
    ghost predicate Synced()
      reads this`output, this`blocks
    {
      && blocks != [] && blocks[|blocks| - 1] == Stored([]) && BlocksOk(blocks)
      && BytesToBits(output) == Stream(zlib, blocks, false)
    }

    /** A flush that leaves nothing over: a reader can decode everything, and behind a full one matches start afresh. */
    ghost predicate Flushing(flush: Flush)
      reads this`output, this`blocks, p.d`dictSize
    {
      (flush == SyncFlush || flush == FullFlush ==> Synced()) && (flush == FullFlush ==> p.d.dictSize == 0)
    }

    /** All input is in the stream's blocks. */
    ghost predicate Drained()
      reads this`blocks, p.d`source
    {
      blocks != [] && StreamOk(blocks, []) && StreamExpand(blocks, []) == p.d.source
    }

    /** Without lookahead no match can be pending. */
    lemma NothingPending()
      requires p.Parsing() && p.d.lookaheadSize == 0
      ensures p.savedMatchLen == 0 && TotalLen(p.Recorded()) == |p.d.source|
    {
      hide Dictionary.Valid, TokenBuffer.Valid, WellFormed;
    }

    /** Continues the checksum over the input of this call. */
    method UpdateAdler(src: seq<byte>, ghost before: seq<byte>)
      requires Running() && p.d.source == before + src && (zlib ==> adler == Adler(ADLER_INIT, before))
      modifies this`adler
      ensures Running() && (if zlib then adler == Adler(ADLER_INIT, p.d.source) else adler == old(adler))
    {
      hide Separate, Adler, OpenWritten, Covered, Compressor.Valid;
      if zlib {
        AdlerCompose(ADLER_INIT, before, src);
        assert this as object !in p.Repr();
        adler := ComputeAdler(adler, src);
      }
    }

    /** The end of a flushing call whose input is all parsed. */
    method EndCall(flush: Flush)
      requires Running() && p.d.lookaheadSize == 0 && flush != NoFlush && sink.remaining == []
      modifies Repr()
      ensures Separate() && p.Valid() && Covered() && Written(finished) && Drained() && finished == (flush == Finish)
      ensures p.d.source == old(p.d.source) && p.d.lookaheadSize == 0 && Flushing(flush) && |blocks| == |old(blocks)| + Added(flush)
      ensures flush != FullFlush ==> p.d.floor == old(p.d.floor)
      ensures Handed() && sink.Full() && Steady() == old(Steady()) && old(sink.taken) <= sink.taken
    {
      hide StreamOk, StreamExpand, TotalLen, AllApart, ArraysApart, Rebuilds, Dictionary.Valid, TokenBuffer.Valid,
        OpenWritten, ClosedWritten, Stream, BlocksOk, BitWriter.Valid, Sink.All, Sink.Full, Handed, Synced;
      NothingPending();
      FlushBlock(flush);
      NothingPending();
      assert p.Recorded() == p.done;
      finished := flush == Finish;
      assert p.d.source[..|p.d.source|] == p.d.source;
      ForgetIfFull(flush);
    }

    /** Behind a full flush no later match may reach back. */
    method ForgetIfFull(flush: Flush)
      requires Separate() && p.Valid() && Covered() && Written(finished) && Drained() && p.d.lookaheadSize == 0
      modifies p.d`dictSize, p.d`floor, p.d.next, p.d.hash
      ensures Separate() && p.Valid() && Covered() && Written(finished) && Drained()
      ensures p.d.lookaheadSize == 0
      ensures if flush == FullFlush then p.d.dictSize == 0 else p.d.dictSize == old(p.d.dictSize) && p.d.floor == old(p.d.floor)
    {
      hide StreamOk, StreamExpand, TotalLen, AllApart, ArraysApart, Rebuilds, Dictionary.Valid, TokenBuffer.Valid,
        Stream, BlocksOk, BitWriter.Valid, BytesToBits, ToBits;
      if flush == FullFlush {
        p.d.Forget();
      }
    }

    /** A call with nothing left over from earlier ones: parsing, the checksum, and the flush. */
    method RunCall(src: seq<byte>, flush: Flush) returns (used: nat)
      requires Running() && sink.remaining == [] && (zlib ==> adler == Adler(ADLER_INIT, p.d.source))
      modifies Repr()
      ensures Separate() && p.Valid() && Covered() && Written(finished) && used <= |src|
      ensures p.d.source == old(p.d.source) + src[..used] && (zlib ==> adler == Adler(ADLER_INIT, p.d.source))
      ensures Handed() && sink.Full() && old(sink.taken) <= sink.taken
      ensures status == old(status) && wantsToFinish == old(wantsToFinish) && sink.earlier == old(sink.earlier) && sink.size == old(sink.size)
      ensures finished ==> flush == Finish && Drained() && used == |src| && Left(src, used) == 0
      ensures !sink.buffered ==> sink.remaining == []
      ensures sink.remaining == [] ==> used == |src| && finished == (flush == Finish) && (flush != NoFlush ==> Drained())
      ensures (sink.remaining == [] ==> Flushing(flush)) && (flush != FullFlush ==> p.d.floor == old(p.d.floor))
      ensures flush == Finish && !finished ==> Left(src, used) < old(Left(src, 0))
    {
      hide Separate, Covered, OpenWritten, ClosedWritten, Drained, Adler, Compressor.Valid, Sink.All, Synced;
      ghost var before := p.d.source;
      used := CompressNormal(src, flush);
      UpdateAdler(src[..used], before);
      if flush != NoFlush && p.d.lookaheadSize == 0 && used == |src| && sink.remaining == [] {
        EndCall(flush);
      }
    }

    /**
     * One call of the compressor. Whatever the calls so far were, what has been flushed is the stream of
     * blocks that expand to a prefix of the input taken; a flushing call that leaves nothing over covers
     * all of it, and one that finishes closes the stream. Output is kept for the next call only when the
     * buffer is full.
     */
    method Compress(src: seq<byte>, size: nat, flush: Flush) returns (st: Status, used: nat)
      requires Valid()
      modifies Repr()
      ensures Valid() && st == status && used <= |src| && p.d.source == old(p.d.source) + src[..used] && old(sink.taken) <= sink.taken
      ensures sink.size == size && sink.earlier == old(sink.taken) && (!old(Refused(flush)) ==> sink.Full())
      ensures flush != FullFlush ==> p.d.floor == old(p.d.floor)
      ensures old(Refused(flush)) ==> st == BadParam && used == 0 && blocks == old(blocks) && finished == old(finished)
      ensures old(Refused(flush)) ==> sink.taken == old(sink.taken) && sink.remaining == old(sink.remaining)
      ensures !old(Refused(flush)) ==>
        && st == (if Over() then Done else Okay) && wantsToFinish == (old(wantsToFinish) || flush == Finish)
        && (old(sink.remaining) == [] && sink.remaining == [] ==>
              used == |src| && finished == (flush == Finish) && (flush != NoFlush ==> Drained()))
        && (old(sink.remaining) == [] && sink.remaining == [] && !old(finished) ==> Flushing(flush) && sink.taken == output)
        && (finished && !old(finished) ==> used == |src| && flush == Finish) && (old(finished) ==> finished)
        && (old(sink.remaining) != [] || old(finished) ==> used == 0 && sink.All() == old(sink.All()))
      ensures !old(Refused(flush)) && flush == Finish && size > 0 && st == Okay ==>
        Measure(src, used) < old(Measure(src, 0)) || (Measure(src, used) == old(Measure(src, 0)) && |sink.remaining| < old(|sink.remaining|))
    {
      hide Valid, Left, Drained, Sink.Full, Flushing;
      BeginCall(size);
      if status != Okay || (wantsToFinish && flush != Finish) {
        Refuse();
        return BadParam, 0;
      }
      used := Proceed(src, flush);
      st := status;
    }

    method BeginCall(size: nat)
      requires Valid()
      modifies sink`size, sink`given, sink`earlier
      ensures Valid() && sink.size == size && sink.given == [] && sink.earlier == sink.taken && sink.All() == old(sink.All())
      ensures sink.taken == old(sink.taken) && sink.remaining == old(sink.remaining)
    {
      hide Separate, Covered, Written, Drained, Adler, Compressor.Valid, Sink.Valid, Sink.All;
      assert sink as object !in p.Repr();
      sink.Begin(size);
    }

    method Refuse()
      requires Valid()
      modifies this`status
      ensures Valid() && status == BadParam
    {
      hide Separate, Covered, Written, Drained, Adler, Compressor.Valid, Handed;
      assert this as object !in p.Repr();
      status := BadParam;
    }

    /** A call that is not refused: first what was left over, and new input only if nothing was. */
    method Proceed(src: seq<byte>, flush: Flush) returns (used: nat)
      requires Valid() && !Refused(flush) && sink.given == []
      modifies Repr()
      ensures Valid() && used <= |src| && p.d.source == old(p.d.source) + src[..used] && old(sink.taken) <= sink.taken
      ensures sink.Full() && sink.earlier == old(sink.earlier) && sink.size == old(sink.size)
      ensures status == (if Over() then Done else Okay) && wantsToFinish == (old(wantsToFinish) || flush == Finish)
      ensures old(sink.remaining) == [] && sink.remaining == [] ==>
        used == |src| && finished == (flush == Finish) && (flush != NoFlush ==> Drained())
      ensures old(sink.remaining) == [] && sink.remaining == [] && !old(finished) ==> Flushing(flush) && sink.taken == output
      ensures flush != FullFlush ==> p.d.floor == old(p.d.floor)
      ensures (finished && !old(finished) ==> used == |src| && flush == Finish) && (old(finished) ==> finished)
      ensures old(sink.remaining) != [] || old(finished) ==> used == 0 && sink.All() == old(sink.All())
      ensures flush == Finish && sink.size > 0 && status == Okay ==>
        Measure(src, used) < old(Measure(src, 0)) || (Measure(src, used) == old(Measure(src, 0)) && |sink.remaining| < old(|sink.remaining|))
    {
      hide Valid, Separate, Covered, Written, Drained, Adler, Compressor.Valid, Sink.Valid, Sink.All, Sink.Full, Running, Flushing;
      used := 0;
      ValidParts();
      if sink.remaining == [] && !finished {
        used := RunCall(src, flush);
      }
      SettleCall(flush);
      TakenAll();
    }

    lemma TakenAll()
      requires Valid()
      ensures sink.remaining == [] ==> sink.taken == output
    {
      hide Separate, Covered, OpenWritten, ClosedWritten, Drained, Adler, Compressor.Valid;
      assert sink.taken + [] == sink.taken;
    }

    lemma ValidParts()
      requires Valid()
      ensures Separate() && p.Valid() && Covered() && Written(finished) && Handed() && (finished ==> Drained() && wantsToFinish)
      ensures (zlib ==> adler == Adler(ADLER_INIT, p.d.source)) && (!finished ==> Running())
      ensures (status == Okay ==> !Over()) && (!sink.buffered ==> sink.remaining == [] && (wantsToFinish ==> finished))
    {
      hide Separate, Covered, OpenWritten, ClosedWritten, Drained, Adler, Compressor.Valid, Sink.All;
    }

    /** The end of a call: what was left over goes into the buffer, as far as it fits. */
    method SettleCall(flush: Flush)
      requires Separate() && p.Valid() && Covered() && Written(finished) && Handed()
      requires (zlib ==> adler == Adler(ADLER_INIT, p.d.source)) && (finished ==> Drained() && (wantsToFinish || flush == Finish))
      requires !sink.buffered ==> finished == (wantsToFinish || flush == Finish)
      modifies this`wantsToFinish, this`status, sink`given, sink`remaining, sink`taken
      ensures Valid() && sink.Full() && status == (if Over() then Done else Okay) && wantsToFinish == (old(wantsToFinish) || flush == Finish)
      ensures sink.All() == old(sink.All()) && old(sink.taken) <= sink.taken && (old(sink.Full()) ==> sink.remaining == old(sink.remaining))
      ensures old(sink.remaining) != [] && old(|sink.given|) < sink.size ==> |sink.remaining| < old(|sink.remaining|)
    {
      hide Separate, Covered, Written, Drained, Adler, Compressor.Valid, Sink.All;
      assert sink as object !in p.Repr() && this as object !in p.Repr();
      wantsToFinish := wantsToFinish || flush == Finish;
      sink.Drain();
      status := if finished && sink.remaining == [] then Done else Okay;
    }

    /** The call is refused. */
    predicate Refused(flush: Flush)
      reads this`status, this`wantsToFinish
    {
      status != Okay || (wantsToFinish && flush != Finish)
    }

    /** What finishing calls still have to do. */
    ghost function Measure(src: seq<byte>, used: nat): int
      reads this`finished, p.d
    {
      Left(src, used) + if finished then 0 else 1
    }
  }

  /** Sets up a compressor. */
  method Create(probes: nat, greedy: bool, filterMatches: bool, rleMatches: bool, rawBlocks: bool, forceStatic: bool, zlib: bool, buffered: bool)
    returns (d: Deflater)
    ensures d.Valid() && d.p.d.source == [] && d.sink.taken == [] && d.sink.remaining == [] && d.sink.buffered == buffered
    ensures d.status == Okay && d.zlib == zlib && d.forceStatic == forceStatic && !d.wantsToFinish
    ensures d.p.greedy == greedy && d.p.filterMatches == filterMatches && d.p.rleMatches == rleMatches && d.p.rawBlocks == rawBlocks
    ensures 3 * (d.p.d.maxProbes0 - 2) < probes % 4096 <= 3 * (d.p.d.maxProbes0 - 1)
    ensures 3 * (d.p.d.maxProbes1 - 2) < probes % 4096 / 4 <= 3 * (d.p.d.maxProbes1 - 1)
    ensures fresh(d) && fresh(d.sink) && fresh(d.w) && fresh(d.w.buf) && fresh(d.p.Repr())
    ensures fresh({d.lt.sizes, d.lt.codes, d.dt.sizes, d.dt.codes, d.ct.sizes, d.ct.codes})
  {
    hide Compressor.Valid, Compressor.Repr, Deflater.Valid, BytesToBits, ToBits;
    var w := new BitWriter(OUT_BUF_SIZE);
    var lt := new CodeTable();
    var dt := new CodeTable();
    var ct := new CodeTable();
    var sink := new Sink(buffered);
    var p := new Compressor(probes, greedy, filterMatches, rleMatches, rawBlocks);
    d := new Deflater(p, w, lt, dt, ct, sink, forceStatic, zlib);
  }
}
