/**
 * Choosing and writing one block: dynamic or fixed codes, or stored bytes when the
 * codes do not pay. The second try with the fixed codes, kept for codes that do not fit
 * the output buffer, is never made: every block fits.
 */
module BlockFlush {
  import opened Bits
  import opened BitIO
  import opened Lz
  import opened Symbols
  import opened TokenBuffers
  import opened Canonical
  import opened CodeTables
  import opened Blocks
  import opened BlockWriters
  import opened DynamicHeaders
  import opened FixedBlocks
  import opened BlockSizes

  const OUT_BUF_SIZE := 85196
  /** The writer keeps sixteen bytes of its buffer in reserve. */
  const OUT_END := OUT_BUF_SIZE - 16

  /** No block takes more bits than this: what follows it still fits the output buffer. */
  const BLOCK_LIMIT := 2 + HEADER_LIMIT + BODY_LIMIT

  /** Block type and contents of a block whose type starts at bit position pos. */
  ghost function TypedBits(b: Block, pos: nat): seq<Bit>
    requires BlockOk(b)
  {
    ToBits(BlockType(b), 2) + ContentBits(b, pos + 2)
  }

  /** Writes the recorded tokens with fixed codes. */
  method CompressFixed(w: BitWriter, tb: TokenBuffer, lt: CodeTable, dt: CodeTable, ct: CodeTable,
                       ghost ts: seq<Token>, ghost m: Mark, ghost bits: seq<Bit>) returns (ok: bool)
    requires AllApart(w, tb, lt, dt, ct) && w.Since(m, bits)
    requires AllInRange(ts) && Readable(tb.buf[..], tb.codeEnd, ts)
    requires tb.buf as object !in {lt.sizes, lt.codes, dt.sizes, dt.codes}
    modifies w`pos, w`bitBuffer, w`bitsIn, w.buf, lt.sizes, lt.codes, dt.sizes, dt.codes
    ensures BlockOk(Fixed(ts)) && w.Since(m, bits + TypedBits(Fixed(ts), m.bitsIn + |bits|)) && ok == w.HasRoom()
  {
    hide ToBits, BytesToBits, Pow2, Readable, InRange, BitWriter.Since, Writes, AllCodable, BodyBits;
    AllFixedCodable(ts);
    StartStaticBlock(w, lt, dt, m, bits);
    EndLength();
    ok := CompressLzCodes(w, tb, lt, dt, FixedLit(), FixedDist(), ts, m, bits + ToBits(1, 2));
    assert bits + ToBits(1, 2) + BodyBits(FixedLit(), FixedDist(), ts) == bits + TypedBits(Fixed(ts), m.bitsIn + |bits|);
  }

  /** Writes the recorded tokens with codes of their own. */
  method CompressDynamic(w: BitWriter, tb: TokenBuffer, lt: CodeTable, dt: CodeTable, ct: CodeTable,
                         ghost ts: seq<Token>, ghost m: Mark, ghost bits: seq<Bit>) returns (ok: bool, ghost h: Header)
    requires AllApart(w, tb, lt, dt, ct) && w.Since(m, bits)
    requires Counted(tb.litCount[..], tb.distCount[..], ts) && |ts| < 65535 && Readable(tb.buf[..], tb.codeEnd, ts)
    requires tb.buf as object !in {tb.litCount, lt.sizes, lt.codes, dt.sizes, dt.codes, ct.sizes, ct.codes}
    modifies w`pos, w`bitBuffer, w`bitsIn, w.buf
    modifies tb.litCount, lt.sizes, lt.codes, dt.sizes, dt.codes, ct.sizes, ct.codes
    ensures HeaderFor(h, ts)
    ensures BlockOk(Dynamic(ts, h)) && w.Since(m, bits + TypedBits(Dynamic(ts, h), m.bitsIn + |bits|)) && ok == w.HasRoom()
    ensures End(ts) <= LZ_CODE_BUF_SIZE ==> |TypedBits(Dynamic(ts, h), m.bitsIn + |bits|)| <= BLOCK_LIMIT
  {
    hide ToBits, BytesToBits, Pow2, Readable, InRange, BitWriter.Since, Writes, AllCodable, BodyBits, HeaderBits, HeaderOk,
      Counted, Used, End, HeaderFor;
    h := StartDynamicBlock(w, tb, lt, dt, ct, ts, m, bits);
    ghost var head := ToBits(2, 2) + HeaderBits(h);
    ok := CompressLzCodes(w, tb, lt, dt, h.lit, h.dist, ts, m, bits + head);
    assert bits + head + BodyBits(h.lit, h.dist, ts) == bits + TypedBits(Dynamic(ts, h), m.bitsIn + |bits|);
    HeaderShort(h);
    ToBitsLen(2, 2);
  }

  /** A writer position to come back to, reached by writing bits since m. */
  datatype Saved = Saved(pos: nat, bitBuffer: nat, bitsIn: nat)

  ghost predicate SavedAt(s: Saved, here: Mark) {
    && s.pos == |here.bytes| <= here.end && s.bitsIn == here.bitsIn < 8 && s.bitBuffer < Pow2(s.bitsIn)
    && here.bits == BytesToBits(here.bytes) + ToBits(s.bitBuffer, s.bitsIn)
  }

  method Save(w: BitWriter) returns (s: Saved)
    requires w.Valid()
    ensures SavedAt(s, w.Here()) && w.Since(w.Here(), []) && s.pos == w.pos
  {
    hide ToBits, BytesToBits, Pow2;
    s := Saved(w.pos, w.bitBuffer, w.bitsIn);
    assert w.Bits() + [] == w.Bits();
  }

  /** Forgets everything written since the position was saved. */
  method Restore(w: BitWriter, s: Saved, ghost here: Mark, ghost later: seq<Bit>)
    requires SavedAt(s, here) && w.Since(here, later)
    modifies w`pos, w`bitBuffer, w`bitsIn
    ensures w.Valid() && w.Here() == here
  {
    hide ToBits, BytesToBits, Pow2;
    w.pos, w.bitBuffer, w.bitsIn := s.pos, s.bitBuffer, s.bitsIn;
    assert w.buf[..s.pos] == here.bytes;
  }

  lemma RoomAfter(w: BitWriter, m: Mark, bits: seq<Bit>)
    requires w.Since(m, bits) && Demand(m, bits) < 8 * m.end
    ensures w.HasRoom()
  {
  }

  lemma TypedBitsLength(ts: seq<Token>, pos: nat)
    requires AllInRange(ts) && End(ts) <= LZ_CODE_BUF_SIZE && BlockOk(Fixed(ts))
    ensures |TypedBits(Fixed(ts), pos)| <= BLOCK_LIMIT
  {
    hide FixedBodyBits, AllCodable;
    FixedFits(ts);
    ToBitsLen(1, 2);
  }

  lemma StoredLength(data: seq<byte>, pos: nat)
    requires |data| <= DICT_SIZE
    ensures BlockOk(Stored(data)) && |TypedBits(Stored(data), pos)| <= BLOCK_LIMIT
  {
    hide ToBits, BytesToBits;
  }

  /**
   * Writes one block behind its final bit: with codes if they pay, as stored bytes if not and the
   * dictionary still has them. The branch for codes that found no room is never taken.
   */
  method WriteBlock(w: BitWriter, tb: TokenBuffer, lt: CodeTable, dt: CodeTable, ct: CodeTable, dict: array<byte>,
                    start: nat, useRaw: bool, covered: bool, forceStatic: bool,
                    ghost ts: seq<Token>, ghost data: seq<byte>, ghost m: Mark, ghost bits: seq<Bit>)
    returns (ghost b: Block, ghost coded: Block)
    requires AllApart(w, tb, lt, dt, ct) && ArraysApart(w, tb, lt, dt, ct, dict) && w.Since(m, bits)
    requires Counted(tb.litCount[..], tb.distCount[..], ts) && Readable(tb.buf[..], tb.codeEnd, ts)
    requires |ts| < 65535 && End(ts) <= LZ_CODE_BUF_SIZE && tb.totalLzBytes == |data|
    requires useRaw ==> covered
    requires covered ==> |data| <= DICT_SIZE && forall i :: 0 <= i < |data| ==> dict[(start + i) % DICT_SIZE] == data[i]
    requires m.end == OUT_END && m.bytes == [] && m.bitsIn < 8 && |bits| <= 17
    modifies w`pos, w`bitBuffer, w`bitsIn, w.buf
    modifies tb.litCount, lt.sizes, lt.codes, dt.sizes, dt.codes, ct.sizes, ct.codes
    ensures Picked(b, coded, useRaw, covered, forceStatic || |data| < 48, ts, data, m.bitsIn + |bits|)
    ensures b == Stored(data) || b == Fixed(ts) || (b.Dynamic? && b.ts == ts)
    ensures BlockOk(b) && w.Since(m, bits + TypedBits(b, m.bitsIn + |bits|)) && |TypedBits(b, m.bitsIn + |bits|)| <= BLOCK_LIMIT
  {
    hide ToBits, BytesToBits, Pow2, Readable, InRange, Counted, After, BitWriter.Valid, BitWriter.Here, TypedBits, BlockOk, Pays, End, AllCodable, HeaderFor;
    var saved := Save(w);
    ghost var here := w.Here();
    assert saved.pos == |here.bytes|;
    hide SavedAt;
    assert AllInRange(ts) by { CountedInRange(tb.litCount[..], tb.distCount[..], ts); }
    ghost var later := [];
    var ok := false;
    coded := Stored([]);
    if !useRaw {
      ok, coded, later := CompressBlock(w, tb, lt, dt, ct, forceStatic || tb.totalLzBytes < 48, ts, here, m.bitsIn + |bits|);
      b := coded;
    }
    if (useRaw || (tb.totalLzBytes != 0 && w.pos - saved.pos + 1 >= tb.totalLzBytes)) && covered {
      if !useRaw {
        CodedSize(w, here, m, bits, coded, later, |data|);
      }
      Restore(w, saved, here, later);
      b := Stored(data);
      StoredLength(data, m.bitsIn + |bits|);
      PutStoredBlock(w, dict, start, tb.totalLzBytes, data, m, bits);
      StoredTyped(data, m.bitsIn + |bits|);
      RoomAfter(w, m, bits + TypedBits(b, m.bitsIn + |bits|));
    } else if !ok {
      ghost var full := w.Here();
      SinceHere(w, here, later);
      Restore(w, saved, here, later);
      ok := CompressFixed(w, tb, lt, dt, ct, ts, m, bits);
      b := Fixed(ts);
      TypedBitsLength(ts, m.bitsIn + |bits|);
      FirstTryFits(full, here, m, bits, later);
    } else {
      CodedSize(w, here, m, bits, coded, later, |data|);
      AfterAfter(w.Here(), here, m, bits, later);
    }
  }

  /** How far the writer has come with the codes says whether they pay. */
  lemma CodedSize(w: BitWriter, here: Mark, m: Mark, bits: seq<Bit>, b: Block, later: seq<Bit>, size: nat)
    requires BlockOk(b) && later == TypedBits(b, m.bitsIn + |bits|) && w.Since(here, later) && After(here, m, bits)
    requires m.end == OUT_END && m.bytes == [] && m.bitsIn < 8 && |bits| <= 17 && |later| <= BLOCK_LIMIT
    ensures w.pos - |here.bytes| + 1 < size <==> Pays(b, m.bitsIn + |bits|, size)
  {
    hide BlockOk, TypedBits, After, Pays;
    SinceHere(w, here, later);
    FirstTryFits(w.Here(), here, m, bits, later);
    BytesWritten(w.Here(), here, m, bits, b, size);
  }

  /**
   * Which block is written: stored bytes if asked for, or if the dictionary has them and the codes do not pay;
   * otherwise the one with codes, which are the fixed ones for little data or if asked for,
   * and made for the tokens in any other case.
   */
  ghost predicate Picked(b: Block, coded: Block, useRaw: bool, covered: bool, fixedCodes: bool, ts: seq<Token>, data: seq<byte>, at: nat) {
    if useRaw then b == Stored(data)
    else
      && BlockOk(coded) && (if fixedCodes then coded == Fixed(ts) else coded.Dynamic? && coded.ts == ts && HeaderFor(coded.header, ts))
      && b == if covered && data != [] && !Pays(coded, at, |data|) then Stored(data) else coded
  }

  lemma SinceHere(w: BitWriter, here: Mark, later: seq<Bit>)
    requires w.Since(here, later)
    ensures w.Valid() && After(w.Here(), here, later) && |w.Here().bytes| == w.pos && w.Here().end == w.end
  {
  }

  /** The block takes fewer whole bytes than it stands for. */
  ghost predicate Pays(b: Block, at: nat, size: nat)
    requires BlockOk(b)
  {
    (at % 8 + |TypedBits(b, at)|) / 8 + 1 < size
  }

  lemma BytesWritten(n: Mark, here: Mark, m: Mark, bits: seq<Bit>, b: Block, size: nat)
    requires BlockOk(b) && After(n, here, TypedBits(b, m.bitsIn + |bits|)) && After(here, m, bits) && |n.bytes| < n.end
    ensures |n.bytes| - |here.bytes| + 1 < size <==> Pays(b, m.bitsIn + |bits|, size)
  {
    hide BlockOk, TypedBits;
  }

  /** Codes never run out of room, so the second try is never made. */
  lemma FirstTryFits(n: Mark, here: Mark, m: Mark, bits: seq<Bit>, later: seq<Bit>)
    requires After(n, here, later) && After(here, m, bits)
    requires m.end == OUT_END && m.bytes == [] && m.bitsIn < 8 && |bits| <= 17
    ensures |later| <= BLOCK_LIMIT ==> |n.bytes| < n.end
  {
    AfterAfter(n, here, m, bits, later);
  }

  lemma StoredTyped(data: seq<byte>, pos: nat)
    requires |data| < 65536
    ensures TypedBits(Stored(data), pos) == ToBits(0, 2) + StoredBits(data, pos + 2)
  {
  }

  lemma CountedInRange(lit: seq<nat>, dist: seq<nat>, ts: seq<Token>)
    requires Counted(lit, dist, ts)
    ensures AllInRange(ts)
  {
  }

  /** Compresses with fixed or with dynamic codes. */
  method CompressBlock(w: BitWriter, tb: TokenBuffer, lt: CodeTable, dt: CodeTable, ct: CodeTable, staticBlock: bool,
                       ghost ts: seq<Token>, ghost here: Mark, ghost at: nat)
    returns (ok: bool, ghost b: Block, ghost later: seq<Bit>)
    requires AllApart(w, tb, lt, dt, ct) && w.Since(here, [])
    requires tb.buf as object !in {tb.litCount, lt.sizes, lt.codes, dt.sizes, dt.codes, ct.sizes, ct.codes}
    requires Counted(tb.litCount[..], tb.distCount[..], ts) && |ts| < 65535 && Readable(tb.buf[..], tb.codeEnd, ts)
    requires End(ts) <= LZ_CODE_BUF_SIZE
    modifies w`pos, w`bitBuffer, w`bitsIn, w.buf
    modifies tb.litCount, lt.sizes, lt.codes, dt.sizes, dt.codes, ct.sizes, ct.codes
    ensures if staticBlock then b == Fixed(ts) else b.Dynamic? && b.ts == ts && HeaderFor(b.header, ts)
    ensures BlockOk(b) && later == TypedBits(b, at) && w.Since(here, later) && ok == w.HasRoom() && |later| <= BLOCK_LIMIT
  {
    hide ToBits, BytesToBits, Pow2, Readable, InRange, Counted, BitWriter.Since, BlockOk, FixedBodyBits, BodyBits, HeaderBits, HeaderFor;
    CountedInRange(tb.litCount[..], tb.distCount[..], ts);
    if staticBlock {
      ok := CompressFixed(w, tb, lt, dt, ct, ts, here, []);
      b := Fixed(ts);
      TypedBitsLength(ts, here.bitsIn);
    } else {
      ghost var h;
      ok, h := CompressDynamic(w, tb, lt, dt, ct, ts, here, []);
      b := Dynamic(ts, h);
    }
    later := TypedBits(b, at);
    assert [] + TypedBits(b, here.bitsIn) == later;
  }

  ghost predicate ArraysApart(w: BitWriter, tb: TokenBuffer, lt: CodeTable, dt: CodeTable, ct: CodeTable, dict: array<byte>) {
    && tb.buf as object !in {tb.litCount, tb.distCount, lt.sizes, lt.codes, dt.sizes, dt.codes, ct.sizes, ct.codes}
    && dict as object !in {tb.litCount, lt.sizes, lt.codes, dt.sizes, dt.codes, ct.sizes, ct.codes}
    && dict != w.buf && dict.Length >= DICT_SIZE
  }
}
