/**
 * Writing one block: its header, the buffered tokens, and the end-of-block symbol.
 */
module BlockWriters {
  import opened Bits
  import opened BitIO
  import opened Lz
  import opened Symbols
  import opened TokenBuffers
  import opened Canonical
  import opened CodeTables
  import opened CodeLengths
  import opened HuffTables
  import opened Blocks

  /** The table writes the canonical codes of these lengths. */
  ghost predicate Writes(table: CodeTable, sizes: seq<nat>)
    reads table.sizes, table.codes
  {
    table.Shape() && |sizes| <= MAX_SYMBOLS && table.sizes[..|sizes|] == sizes && table.AllCoded(|sizes|)
  }

  /** Writes the code of a symbol. */
  method PutSymbol(w: BitWriter, table: CodeTable, s: nat, ghost sizes: seq<nat>, ghost m: Mark, ghost bits: seq<Bit>)
    requires w.Since(m, bits) && Writes(table, sizes) && Used(sizes, s)
    modifies w`pos, w`bitBuffer, w`bitsIn, w.buf
    ensures w.Since(m, bits + CodeBits(sizes, s))
  {
    hide ToBits, CodeBits, BytesToBits, Pow2, BitWriter.Since;
    assert Coded(sizes, table.codes[..|sizes|], s);
    assert table.sizes[s] == sizes[s];
    w.PutBits(table.codes[s], table.sizes[s], m, bits);
  }

  /** Writes the code and the extra bits of one match. */
  method PutMatch(w: BitWriter, litTable: CodeTable, distTable: CodeTable, matchLen: byte, matchDist: nat,
                  ghost lit: seq<nat>, ghost dist: seq<nat>, ghost m: Mark, ghost bits: seq<Bit>)
    requires w.Since(m, bits) && Writes(litTable, lit) && Writes(distTable, dist)
    requires matchDist < DICT_SIZE && Codable(lit, dist, Match(matchLen + 3, matchDist + 1))
    requires w.buf as object !in {litTable.sizes, litTable.codes, distTable.sizes, distTable.codes}
    modifies w`pos, w`bitBuffer, w`bitsIn, w.buf
    ensures w.Since(m, bits + TokenBits(lit, dist, Match(matchLen + 3, matchDist + 1)))
  {
    hide LenSym, DistSym, LenExtra, DistExtra, CodeBits, ToBits, Pow2, Low, BytesToBits, BitWriter.Since, Coded;
    var sym := LenSym(matchLen);
    PutSymbol(w, litTable, sym, lit, m, bits);
    ghost var b1 := bits + CodeBits(lit, sym);
    w.PutBits(Low(matchLen, LenExtra(matchLen)), LenExtra(matchLen), m, b1);
    ghost var b2 := b1 + LenBits(matchLen + 3);
    var dsym := DistSym(matchDist);
    PutSymbol(w, distTable, dsym, dist, m, b2);
    ghost var b3 := b2 + CodeBits(dist, dsym);
    w.PutBits(Low(matchDist, DistExtra(matchDist)), DistExtra(matchDist), m, b3);
    assert b3 + DistBits(matchDist + 1)
      == bits + (CodeBits(lit, sym) + LenBits(matchLen + 3) + CodeBits(dist, dsym) + DistBits(matchDist + 1));
  }

  /** The flag byte with its sentinel bit above: what the reading loop shifts down. */
  lemma FlagBit(b: byte, j: nat)
    requires j < 8
    ensures (High(256 + b, j) % 2 == 1) == ToBits(b, 8)[j]
    ensures High(256 + b, j) > 1 && High(256 + b, j) / 2 == High(256 + b, j + 1)
  {
    hide High, ToBits, Pow2;
    BitAt(256 + b, 9, j);
    ToBitsPrefix(256 + b, 9, 8);
    SentinelLow(b);
    FlagAbove(b, j);
    assert Pow2(8 - j) >= 2 by { Pow2Monotone(1, 8 - j); assert Pow2(1) == 2 by { PowOne(); } }
    HalfHigh(256 + b, j);
  }

  lemma PowOne()
    ensures Pow2(1) == 2
  {
  }

  lemma HalfHigh(v: nat, j: nat)
    ensures High(v, j) / 2 == High(v, j + 1)
  {
    DivideThenHalf(v, j);
  }

  lemma SentinelLow(b: byte)
    ensures ToBits(256 + b, 8) == ToBits(b, 8)
  {
    hide ToBits, Pow2;
    PowEight();
    ToBitsLow(256 + b, 8);
    assert Low(256 + b, 8) == b;
  }

  lemma {:induction false} FlagAbove(b: byte, j: nat)
    requires j <= 8
    ensures High(256 + b, j) >= Pow2(8 - j)
    ensures High(256 + b, 0) == 256 + b && High(256 + b, 8) == 1
  {
    PowEight();
    if j > 0 {
      FlagAbove(b, j - 1);
      DivideThenHalf(256 + b, j - 1);
    } else {
      assert (256 + b) / 1 == 256 + b;
    }
  }

  /** The flag byte of token i's group. */
  function FlagByte(buf: seq<byte>, ts: seq<Token>, i: nat): byte
    requires i <= |ts| && FlagsAt(ts, GroupStart(i)) < |buf|
  {
    buf[FlagsAt(ts, GroupStart(i))]
  }

  /** The reading loop's flag register in front of token i: 1 asks for the next flag byte. */
  ghost predicate FlagsRegister(buf: seq<byte>, ts: seq<Token>, i: nat, flags: nat)
    requires i <= |ts|
  {
    if i % 8 == 0 then flags == 1
    else FlagsAt(ts, GroupStart(i)) < |buf| && flags == High(256 + FlagByte(buf, ts, i), i % 8)
  }

  /** What stands in the buffer in front of and at token i. */
  lemma TokenFacts(buf: seq<byte>, codeEnd: nat, ts: seq<Token>, i: nat)
    requires Readable(buf, codeEnd, ts) && i < |ts|
    ensures var q := ReadAt(ts, i) + (if i % 8 == 0 then 1 else 0);
      q == End(ts[..i]) && TokenAt(buf, q, ts[i]) && ReadAt(ts, i + 1) == q + Size(ts[i])
    ensures FlagsAt(ts, GroupStart(i)) < |buf| && ToBits(FlagByte(buf, ts, i), 8)[i % 8] == ts[i].Match?
    ensures i % 8 == 0 ==> FlagsAt(ts, GroupStart(i)) == ReadAt(ts, i)
  {
    hide ToBits;
    assert TokenReadable(buf, ts, i);
    assert ts[..i + 1][..i] == ts[..i];
  }

  lemma MoreToRead(ts: seq<Token>, i: nat)
    requires i <= |ts|
    ensures ReadAt(ts, i) < ReadAt(ts, |ts|) <==> i < |ts|
  {
    if i < |ts| {
      EndMonotone(ts, i, |ts|);
    }
  }

  /** Shifting the register past token i's flag. */
  lemma RegisterStep(buf: seq<byte>, codeEnd: nat, ts: seq<Token>, i: nat, flags: nat)
    requires Readable(buf, codeEnd, ts) && i < |ts| && FlagsRegister(buf, ts, i, flags)
    ensures FlagsAt(ts, GroupStart(i)) < |buf|
    ensures flags == 1 <==> i % 8 == 0
    ensures var f := if flags == 1 then FlagByte(buf, ts, i) + 256 else flags;
      (f % 2 == 1 <==> ts[i].Match?) && FlagsRegister(buf, ts, i + 1, f / 2)
  {
    hide Readable, ToBits, High, FlagsAt;
    TokenFacts(buf, codeEnd, ts, i);
    var b := FlagByte(buf, ts, i);
    FlagBit(b, i % 8);
    FlagAbove(b, 0);
    if (i + 1) % 8 != 0 {
      assert GroupStart(i + 1) == GroupStart(i) && (i + 1) % 8 == i % 8 + 1;
    }
  }

  lemma TokensBitsSnoc(lit: seq<nat>, dist: seq<nat>, ts: seq<Token>, i: nat)
    requires AllCodable(lit, dist, ts) && i < |ts|
    ensures AllCodable(lit, dist, ts[..i]) && AllCodable(lit, dist, ts[..i + 1]) && Codable(lit, dist, ts[i])
    ensures TokensBits(lit, dist, ts[..i + 1]) == TokensBits(lit, dist, ts[..i]) + TokenBits(lit, dist, ts[i])
  {
    hide Codable;
    assert ts[..i + 1][..i] == ts[..i];
  }

  /** Everything the block writer reads is apart from the output buffer. */
  ghost predicate Apart(w: BitWriter, tb: TokenBuffer, lt: CodeTable, dt: CodeTable) {
    w.buf as object !in {lt.sizes, lt.codes, dt.sizes, dt.codes, tb.litCount, tb.distCount} && w.buf != tb.buf
  }

  /** Finds token i: where it stands and whether it is a match, and what the flag register is behind it. */
  method NextToken(tb: TokenBuffer, p0: nat, flags0: nat, ghost ts: seq<Token>, ghost i: nat)
    returns (p: nat, isMatch: bool, flags: nat)
    requires Readable(tb.buf[..], tb.codeEnd, ts) && i < |ts| && p0 == ReadAt(ts, i) && FlagsRegister(tb.buf[..], ts, i, flags0)
    ensures TokenAt(tb.buf[..], p, ts[i]) && isMatch == ts[i].Match? && p + Size(ts[i]) == ReadAt(ts, i + 1)
    ensures FlagsRegister(tb.buf[..], ts, i + 1, flags)
  {
    hide Readable, FlagsRegister, End, ReadAt, FlagsAt, TokenAt, Size;
    TokenFacts(tb.buf[..], tb.codeEnd, ts, i);
    RegisterStep(tb.buf[..], tb.codeEnd, ts, i, flags0);
    p, flags := p0, flags0;
    if flags == 1 {
      var b: nat := tb.buf[p];
      flags := b + 256;
      p := p + 1;
    }
    isMatch := flags % 2 == 1;
    flags := flags / 2;
  }

  /** Writes token i, read from the packed buffer. */
  method PutToken(w: BitWriter, tb: TokenBuffer, lt: CodeTable, dt: CodeTable, p0: nat, flags0: nat,
                  ghost lit: seq<nat>, ghost dist: seq<nat>, ghost ts: seq<Token>, ghost i: nat, ghost m: Mark, ghost bits: seq<Bit>)
    returns (p: nat, flags: nat)
    requires Apart(w, tb, lt, dt) && w.Since(m, bits) && Writes(lt, lit) && Writes(dt, dist)
    requires Readable(tb.buf[..], tb.codeEnd, ts) && i < |ts| && Codable(lit, dist, ts[i])
    requires p0 == ReadAt(ts, i) && FlagsRegister(tb.buf[..], ts, i, flags0)
    modifies w`pos, w`bitBuffer, w`bitsIn, w.buf
    ensures w.Since(m, bits + TokenBits(lit, dist, ts[i]))
    ensures p == ReadAt(ts, i + 1) && FlagsRegister(tb.buf[..], ts, i + 1, flags)
  {
    hide Readable, FlagsRegister, Writes, TokenBits, ReadAt, FlagsAt, TokenAt, Codable, BitWriter.Since;
    var isMatch;
    p, isMatch, flags := NextToken(tb, p0, flags0, ts, i);
    if isMatch {
      PutPackedMatch(w, tb, lt, dt, p, lit, dist, ts[i], m, bits);
      p := p + 3;
    } else {
      PutPackedLiteral(w, tb, lt, p, lit, dist, ts[i], m, bits);
      p := p + 1;
    }
  }

  method PutPackedMatch(w: BitWriter, tb: TokenBuffer, lt: CodeTable, dt: CodeTable, p: nat,
                        ghost lit: seq<nat>, ghost dist: seq<nat>, ghost t: Token, ghost m: Mark, ghost bits: seq<Bit>)
    requires Apart(w, tb, lt, dt) && w.Since(m, bits) && Writes(lt, lit) && Writes(dt, dist)
    requires t.Match? && Codable(lit, dist, t) && TokenAt(tb.buf[..], p, t)
    modifies w`pos, w`bitBuffer, w`bitsIn, w.buf
    ensures w.Since(m, bits + TokenBits(lit, dist, t))
  {
    hide Writes, TokenBits, LitSymbol, DistSym, BitWriter.Since;
    var matchLen := tb.buf[p];
    var low: nat, high: nat := tb.buf[p + 1], tb.buf[p + 2];
    var matchDist := low + 256 * high;
    assert t.len == matchLen as int + 3 && t.dist == matchDist + 1;
    PutMatch(w, lt, dt, matchLen, matchDist, lit, dist, m, bits);
  }

  method PutPackedLiteral(w: BitWriter, tb: TokenBuffer, lt: CodeTable, p: nat,
                          ghost lit: seq<nat>, ghost dist: seq<nat>, ghost t: Token, ghost m: Mark, ghost bits: seq<Bit>)
    requires w.buf as object !in {lt.sizes, lt.codes} && w.buf != tb.buf && w.Since(m, bits) && Writes(lt, lit)
    requires t.Literal? && Codable(lit, dist, t) && TokenAt(tb.buf[..], p, t)
    modifies w`pos, w`bitBuffer, w`bitsIn, w.buf
    ensures w.Since(m, bits + TokenBits(lit, dist, t))
  {
    hide Writes, CodeBits, BitWriter.Since;
    PutSymbol(w, lt, tb.buf[p], lit, m, bits);
  }

  /** Writes all recorded tokens and the end of the block; fails only for lack of room. */
  method CompressLzCodes(w: BitWriter, tb: TokenBuffer, lt: CodeTable, dt: CodeTable,
                         ghost lit: seq<nat>, ghost dist: seq<nat>, ghost ts: seq<Token>, ghost m: Mark, ghost bits: seq<Bit>)
    returns (ok: bool)
    requires Apart(w, tb, lt, dt) && w.Since(m, bits) && Writes(lt, lit) && Writes(dt, dist)
    requires Readable(tb.buf[..], tb.codeEnd, ts)
    requires AllCodable(lit, dist, ts) && Used(lit, END_OF_BLOCK)
    modifies w`pos, w`bitBuffer, w`bitsIn, w.buf
    ensures w.Since(m, bits + BodyBits(lit, dist, ts)) && ok == w.HasRoom()
  {
    hide Readable, FlagsRegister, Writes, TokenBits, ReadAt, Codable, CodeBits, AllCodable, BitWriter.Since;
    var flags, p := 1, 0;
    ghost var i := 0;
    ghost var body := [];
    StartReading(lit, dist, tb.buf[..], tb.codeEnd, ts);
    assert bits + [] == bits;
    while p < tb.codeEnd
      invariant i <= |ts| && p == ReadAt(ts, i) && FlagsRegister(tb.buf[..], ts, i, flags)
      invariant AllCodable(lit, dist, ts[..i]) && body == TokensBits(lit, dist, ts[..i])
      invariant w.Since(m, bits + body)
      decreases |ts| - i
    {
      MoreToRead(ts, i);
      TokensBitsSnoc(lit, dist, ts, i);
      p, flags := PutToken(w, tb, lt, dt, p, flags, lit, dist, ts, i, m, bits + body);
      assert bits + body + TokenBits(lit, dist, ts[i]) == bits + (body + TokenBits(lit, dist, ts[i]));
      body := body + TokenBits(lit, dist, ts[i]);
      i := i + 1;
    }
    MoreToRead(ts, i);
    assert ts[..|ts|] == ts;
    PutSymbol(w, lt, END_OF_BLOCK, lit, m, bits + body);
    assert bits + body + CodeBits(lit, END_OF_BLOCK) == bits + BodyBits(lit, dist, ts);
    ok := w.pos < w.end;
  }

  lemma StartReading(lit: seq<nat>, dist: seq<nat>, buf: seq<byte>, codeEnd: nat, ts: seq<Token>)
    requires Readable(buf, codeEnd, ts)
    ensures ReadAt(ts, 0) == 0 && FlagsRegister(buf, ts, 0, 1) && codeEnd == ReadAt(ts, |ts|)
    ensures ts[..0] == [] && AllCodable(lit, dist, []) && TokensBits(lit, dist, []) == []
  {
  }
}
