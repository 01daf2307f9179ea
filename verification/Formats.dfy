/**
 * What the compressed format is, in the numbers of RFC 1950 and RFC 1951: compressor and decompressor agree with
 * these numbers and not only with each other.
 */
module Formats {
  import opened Bits
  import opened BitIO
  import opened Lz
  import opened Symbols
  import opened TokenBuffers
  import opened Canonical
  import opened Completeness
  import opened CodeLengths
  import opened HuffTables
  import opened Blocks
  import opened FixedBlocks
  import opened Adlers
  import opened StoredReaders
  import opened StreamEnds
  import opened Deflaters
  import Decoding
  import opened Streams

  /** A block starts with a bit that says whether it is the last one, and two bits for its type, low bit first. */
  lemma BlockStart(b: Block, final: bool, pos: nat)
    requires BlockOk(b)
    ensures var bits := BlockBits(b, final, pos);
      bits[..3] == [final] + match b case Stored(_) => [false, false] case Fixed(_) => [true, false] case Dynamic(_, _) => [false, true]
  {
    hide BlockOk, ContentBits;
    assert ToBits(if final then 1 else 0, 1) == [final];
    assert ToBits(0, 2) == [false, false] && ToBits(1, 2) == [true, false] && ToBits(2, 2) == [false, true];
  }

  /** A stored block byte by byte, behind the padding: its length, low byte first, the complement, and the data. */
  lemma StoredLayout(data: seq<byte>, pos: nat)
    requires |data| < 65536
    ensures StoredBits(data, pos) == ToBits(0, Padding(pos)) + BytesToBits(StoredBytes(data))
  {
    hide BytesToBits, ToBits, Padding;
    LengthBytes(|data|, |data| % 256, |data| / 256, data, StoredBytes(data));
    FourParts(ToBits(0, Padding(pos)), ToBits(|data|, 16), ToBits(65535 - |data|, 16), BytesToBits(data));
  }

  function StoredBytes(data: seq<byte>): seq<byte>
    requires |data| < 65536
  {
    var low: byte, high: byte := |data| % 256, |data| / 256;
    [low, high, 255 - low, 255 - high] + data
  }

  lemma LengthBytes(n: nat, low: byte, high: byte, data: seq<byte>, bytes: seq<byte>)
    requires n == low as int + 256 * high as int && bytes == [low, high, 255 - low, 255 - high] + data
    ensures ToBits(n, 16) + ToBits(65535 - n, 16) + BytesToBits(data) == BytesToBits(bytes)
  {
    hide BytesToBits, ToBits;
    TwoBytes(n, low, high);
    TwoBytes(65535 - n, 255 - low, 255 - high);
    FourThenData(low, high, 255 - low, 255 - high, data);
  }

  lemma FourThenData(a: byte, b: byte, c: byte, d: byte, data: seq<byte>)
    ensures BytesToBits([a, b, c, d] + data) == BytesToBits([a, b]) + BytesToBits([c, d]) + BytesToBits(data)
  {
    hide BytesToBits;
    BytesToBitsAppend([a, b], [c, d]);
    BytesToBitsAppend([a, b] + [c, d], data);
    assert [a, b] + [c, d] == [a, b, c, d];
  }

  lemma FourParts(p: seq<Bit>, a: seq<Bit>, b: seq<Bit>, c: seq<Bit>)
    ensures p + a + b + c == p + (a + b + c)
  {
  }

  lemma TwoBytes(n: nat, low: byte, high: byte)
    requires n == low as int + 256 * high as int
    ensures ToBits(n, 16) == BytesToBits([low, high])
  {
    hide BytesToBits, ToBits;
    assert Pow2(8) == 256;
    ToBitsJoin(low, 8, high, 8);
    BytesSnoc([], low);
    BytesSnoc([low], high);
    assert [] + [low] == [low] && [low] + [high] == [low, high];
    NothingThere();
  }

  lemma NothingThere()
    ensures BytesToBits([]) == []
  {
  }

  /** A dynamic block starts with its three counts, 5, 5 and 4 bits, each less its least value. */
  lemma HeaderCounts(h: Header)
    requires HeaderOk(h)
    ensures var bits := HeaderBits(h);
      |bits| >= 14
      && FromBits(bits[..5]) == |h.lit| - 257 && FromBits(bits[5..10]) == |h.dist| - 1 && FromBits(bits[10..14]) == h.numCl - 4
  {
    hide ToBits, FromBits, ClBits, OpsBits, Sound, Accepted, ExpandOps;
    assert Pow2(5) == 32 && Pow2(4) == 16;
    FromToBits(|h.lit| - 257, 5);
    FromToBits(|h.dist| - 1, 5);
    FromToBits(h.numCl - 4, 4);
    var bits := HeaderBits(h);
    assert bits[..5] == ToBits(|h.lit| - 257, 5);
    assert bits[5..10] == ToBits(|h.dist| - 1, 5);
    assert bits[10..14] == ToBits(h.numCl - 4, 4);
  }

  /** The code-length code is sent for the repeats and 0 first, and then outwards from 8: 8, 7, 9, 6, 10, and so on. */
  lemma SendingOrder()
    ensures |SWIZZLE| == 19 && SWIZZLE[..4] == [16, 17, 18, 0]
    ensures forall k :: 0 <= k < 8 ==> SWIZZLE[4 + 2 * k] == 8 + k
    ensures forall k :: 0 <= k < 7 ==> SWIZZLE[5 + 2 * k] == 7 - k
  {
  }

  /** The symbols of the code-length alphabet: lengths, copies of the last length, and zeros, with their extra bits. */
  lemma LengthSymbols(out: seq<nat>, op: Op)
    requires OpOk(op) && (op.Repeat? ==> out != [])
    ensures var s, x := OpSymbol(op), OpExtra(op);
      if s <= 15 then ExtraWidth(s) == 0 && ApplyOp(out, op) == out + [s]
      else if s == 16 then ExtraWidth(s) == 2 && x <= 3 && ApplyOp(out, op) == out + seq(3 + x, _ => out[|out| - 1])
      else if s == 17 then ExtraWidth(s) == 3 && x <= 7 && ApplyOp(out, op) == out + seq(3 + x, _ => 0)
      else s == 18 && ExtraWidth(s) == 7 && x <= 127 && ApplyOp(out, op) == out + seq(11 + x, _ => 0)
  {
    var s, x := OpSymbol(op), OpExtra(op);
    assert Copies(0, 3 + x) == seq(3 + x, _ => 0) && Copies(0, 11 + x) == seq(11 + x, _ => 0);
    if op.Repeat? {
      assert Copies(out[|out| - 1], 3 + x) == seq(3 + x, _ => out[|out| - 1]);
    }
  }

  /** The lengths that the symbols from 257 on stand for: every base follows from the one before and its extra bits. */
  lemma LengthTable(k: nat)
    requires k < 28
    ensures LENGTH_EXTRA[k] == if k < 4 then 0 else k / 4 - 1
    ensures LENGTH_BASE[0] == 3 && (k < 27 ==> LENGTH_BASE[k + 1] == LENGTH_BASE[k] + Pow2(LENGTH_EXTRA[k]))
    ensures LENGTH_BASE[28] == 258 && LENGTH_EXTRA[28] == 0
  {
    SmallPowers();
    hide Pow2;
    if k < 8 {
    } else if k < 16 {
    } else if k < 24 {
    }
  }

  /** The distances likewise. */
  lemma DistTable(k: nat)
    requires k < 30
    ensures DIST_EXTRA[k] == if k < 2 then 0 else k / 2 - 1
    ensures DIST_BASE[0] == 1 && (k < 29 ==> DIST_BASE[k + 1] == DIST_BASE[k] + Pow2(DIST_EXTRA[k]))
  {
    if k < 10 {
      NearTable(k);
    } else if k < 20 {
      MiddleTable(k);
    } else {
      FarTable(k);
    }
  }

  lemma NearTable(k: nat)
    requires k < 10
    ensures DIST_EXTRA[k] == (if k < 2 then 0 else k / 2 - 1) && DIST_BASE[k + 1] == DIST_BASE[k] + Pow2(DIST_EXTRA[k])
  {
    SmallPowers();
    hide Pow2;
  }

  lemma MiddleTable(k: nat)
    requires 10 <= k < 20
    ensures DIST_EXTRA[k] == k / 2 - 1 && DIST_BASE[k + 1] == DIST_BASE[k] + Pow2(DIST_EXTRA[k])
  {
    SmallPowers();
    hide Pow2;
  }

  lemma FarTable(k: nat)
    requires 20 <= k < 30
    ensures DIST_EXTRA[k] == k / 2 - 1 && (k < 29 ==> DIST_BASE[k + 1] == DIST_BASE[k] + Pow2(DIST_EXTRA[k]))
  {
    SmallPowers();
    hide Pow2;
  }

  /** Codes are in order: shorter ones come first, and among equally long ones those of smaller symbols. */
  lemma CanonicalOrder(sizes: seq<nat>, s: nat, t: nat)
    requires KraftOk(sizes) && Used(sizes, s) && Used(sizes, t)
    requires sizes[s] < sizes[t] || (sizes[s] == sizes[t] && s < t)
    ensures exists k: nat ::
      && k < sizes[s] && CodeBits(sizes, s)[..k] == CodeBits(sizes, t)[..k]
      && !CodeBits(sizes, s)[k] && CodeBits(sizes, t)[k]
  {
    hide CodeBits;
    var l := sizes[s];
    CodeInRange(sizes, s);
    var v: nat;
    if sizes[s] < sizes[t] {
      v := PrefixAbove(sizes, t, l);
    } else {
      v := CodeValue(sizes, t);
      CodeInRange(sizes, t);
      CountPrefix(sizes, s, t, l);
      CodeOf(sizes, t);
    }
    CodeOf(sizes, s);
    var k := FirstDifference(CodeValue(sizes, s), v, l);
    assert CodeBits(sizes, t)[..l][..k] == CodeBits(sizes, t)[..k];
    assert CodeBits(sizes, t)[..l][k] == CodeBits(sizes, t)[k];
  }

  lemma CodeOf(sizes: seq<nat>, s: nat)
    requires Used(sizes, s)
    ensures CodeBits(sizes, s) == MsbBits(CodeValue(sizes, s), sizes[s]) == CodeBits(sizes, s)[..sizes[s]]
  {
  }

  /** Of two numbers the smaller one has the first bit that differs clear. */
  lemma {:induction false} FirstDifference(a: nat, b: nat, n: nat) returns (k: nat)
    requires a < b < Pow2(n)
    ensures k < n && MsbBits(a, n)[..k] == MsbBits(b, n)[..k] && !MsbBits(a, n)[k] && MsbBits(b, n)[k]
  {
    if a / 2 == b / 2 {
      k := n - 1;
    } else {
      k := FirstDifference(a / 2, b / 2, n - 1);
      assert MsbBits(a, n)[..k] == MsbBits(a / 2, n - 1)[..k] && MsbBits(b, n)[..k] == MsbBits(b / 2, n - 1)[..k];
    }
  }

  /** The fixed codes, most significant bit first. */
  lemma FixedCodes(s: nat)
    requires s < 288
    ensures CodeBits(FixedLit(), s) ==
      if s <= 143 then MsbBits(0x30 + s, 8)
      else if s <= 255 then MsbBits(0x190 + s - 144, 9)
      else if s <= 279 then MsbBits(s - 256, 7)
      else MsbBits(0xC0 + s - 280, 8)
    ensures s < 32 ==> CodeBits(FixedDist(), s) == MsbBits(s, 5)
  {
    hide Count, MsbBits;
    var f := FixedLit();
    forall k: nat ensures Count(f, k) == if k == 7 then 24 else if k == 8 then 152 else if k == 9 then 112 else 0 {
      FixedLitCounts(k);
    }
    forall k: nat ensures Count(FixedDist(), k) == if k == 5 then 32 else 0 {
      FixedDistCounts(k);
    }
    NoShorter(f, 7);
    NoShorter(FixedDist(), 5);
    assert FirstCode(f, 8) == 48;
    assert FirstCode(f, 9) == 400;
    RankInFixed(s);
  }

  /** How many symbols before s have a code as long. */
  lemma RankInFixed(s: nat)
    requires s < 288
    ensures Count(FixedLit()[..s], FixedLitSize(s)) ==
      if s <= 143 then s else if s <= 255 then s - 144 else if s <= 279 then s - 256 else s - 136
    ensures s < 32 ==> Count(FixedDist()[..s], 5) == s
  {
    hide Count;
    var f := FixedLit();
    var l := FixedLitSize(s);
    SplitCount(f, 0, if s < 144 then s else 144, 8, l);
    if s > 144 {
      SplitCount(f, 144, if s < 256 then s else 256, 9, l);
    }
    if s > 256 {
      SplitCount(f, 256, if s < 280 then s else 280, 7, l);
    }
    if s > 280 {
      SplitCount(f, 280, s, 8, l);
    }
    if s < 32 {
      SplitCount(FixedDist(), 0, s, 5, 5);
    }
    NoneCounted(l);
  }

  lemma NoneCounted(l: nat)
    ensures Count([], l) == 0
  {
  }

  lemma SplitCount(f: seq<nat>, k: nat, n: nat, v: nat, l: nat)
    requires k <= n <= |f| && forall i :: k <= i < n ==> f[i] == v
    ensures Count(f[..n], l) == Count(f[..k], l) + (if v == l then n - k else 0)
    ensures f[..0] == []
  {
    CountRun(f[..n], k, v, l);
    assert f[..n][..k] == f[..k];
  }

  /** The Adler-32 checksum: one more than the sum of all bytes, and the sum of these sums, modulo 65521. */
  lemma AdlerMeaning(data: seq<byte>)
    ensures Adler(1, data) == S2(1, 0, data) % 65521 * 65536 + S1(1, data) % 65521
    ensures S1(1, data) == 1 + Sum(data) && S2(1, 0, data) == |data| + WeightedSum(data)
  {
    hide S1, S2, A1, A2, Sum, WeightedSum;
    Deferred(1, 0, 1, 0, data);
    NoData();
    assert data != [] ==> A1(1, data) % 65521 == A1(1, data) && A2(1, 0, data) % 65521 == A2(1, 0, data);
    SumsMean(data);
  }

  lemma NoData()
    ensures A1(1, []) == S1(1, []) == 1 && A2(1, 0, []) == S2(1, 0, []) == 0
  {
  }

  function Sum(data: seq<byte>): nat {
    if data == [] then 0 else Sum(data[..|data| - 1]) + data[|data| - 1]
  }

  /** Every byte as often as there are bytes from it on. */
  function WeightedSum(data: seq<byte>): nat {
    if data == [] then 0
    else
      var first: nat := data[0];
      |data| * first + WeightedSum(data[1..])
  }

  lemma {:induction false} WeightedSnoc(data: seq<byte>, c: byte)
    ensures WeightedSum(data + [c]) == WeightedSum(data) + Sum(data + [c])
  {
    assert (data + [c])[..|data|] == data;
    if data == [] {
      assert [c][1..] == [];
    } else {
      WeightedSnoc(data[1..], c);
      SumCons(data + [c]);
      assert (data + [c])[1..] == data[1..] + [c];
    }
  }

  lemma {:induction false} SumCons(data: seq<byte>)
    requires data != []
    ensures Sum(data) == data[0] as int + Sum(data[1..])
  {
    if |data| > 1 {
      SumCons(data[..|data| - 1]);
      assert data[..|data| - 1][1..] == data[1..][..|data| - 2];
    } else {
      assert data[..0] == [] && data[1..] == [];
    }
  }

  lemma {:induction false} SumsMean(data: seq<byte>)
    ensures S1(1, data) == 1 + Sum(data) && S2(1, 0, data) == |data| + WeightedSum(data)
  {
    if data != [] {
      var t := data[..|data| - 1];
      SumsMean(t);
      WeightedSnoc(t, data[|data| - 1]);
      assert t + [data[|data| - 1]] == data;
    }
  }

  /** The checksum goes out most significant byte first. */
  lemma ChecksumOrder(a: uint32)
    ensures var b := AdlerBytes(a);
      a == 0x100_0000 * b[0] as int + 0x1_0000 * b[1] as int + 0x100 * b[2] as int + b[3] as int
  {
    Digits(a);
  }

  /** The headers that zlib writes at its levels are all read; one with a wrong check or a preset dictionary is not. */
  lemma UsualHeaders()
    ensures HeaderFits(0x78, 0x01) && HeaderFits(0x78, 0x5E) && HeaderFits(0x78, 0x9C) && HeaderFits(0x78, 0xDA)
    ensures !HeaderFits(0x78, 0x9D) && !HeaderFits(0x78, 0xBB) && !HeaderFits(0x79, 0x9C)
  {
  }

  /** This compressor announces a window of 32 kilobytes and the fastest level. */
  lemma OwnHeaderBytes(bs: seq<Block>, body: seq<byte>)
    requires WholeStream(true, ZLIB_HEADER, bs, body)
    ensures |body| >= 2 && body[0] == 0x78 && body[1] == 0x01
  {
    hide BytesToBits, EndBits;
    var rest := StreamBits(bs, true, 16) + EndBits(true, Adler(ADLER_INIT, StreamExpand(bs, [])), |Framed(true, ZLIB_HEADER, bs)|);
    assert BytesToBits(body) == BytesToBits(ZLIB_HEADER) + rest;
    BytesAhead(body, ZLIB_HEADER, rest);
  }

  /** Ten times the letter a as zlib itself compresses it, at its default level. */
  const SAMPLE: seq<byte> := [0x78, 0x9C, 0x4B, 0x4C, 0x84, 0x01, 0x00, 0x14, 0xE1, 0x03, 0xCB]
  const SAMPLE_TOKENS: seq<Token> := [Literal(97), Literal(97), Match(8, 1)]

  lemma SampleTokens()
    ensures WellFormed(SAMPLE_TOKENS, 0) && Expand(SAMPLE_TOKENS, []) == seq(10, _ => 97 as byte)
    ensures AllCodable(FixedLit(), FixedDist(), SAMPLE_TOKENS)
  {
    var ts := SAMPLE_TOKENS;
    var a, b := Literal(97), Match(8, 1);
    NoTokens();
    ExpandSnoc([], a, []);
    ExpandSnoc([] + [a], a, []);
    ExpandSnoc([] + [a] + [a], b, []);
    assert [] + [a] + [a] + [b] == ts;
    CopyTimes(97, 2, 8);
    assert [] + [97 as byte] + [97] == seq(2, _ => 97 as byte);
    forall i | 0 <= i < 3 ensures Codable(FixedLit(), FixedDist(), ts[i]) {
      FixedCodable(ts[i]);
    }
  }

  lemma NoTokens()
    ensures WellFormed([], 0) && TotalLen([]) == 0 && Expand([], []) == []
  {
  }

  lemma {:induction false} CopyTimes(c: byte, n: nat, k: nat)
    requires n >= 1
    ensures CopyBack(seq(n, _ => c), 1, k) == seq(n + k, _ => c)
  {
    if k > 0 {
      CopyTimes(c, n, k - 1);
    }
  }

  lemma SampleBits()
    ensures AllCodable(FixedLit(), FixedDist(), SAMPLE_TOKENS)
    ensures ToBits(1, 1) + ToBits(1, 2) + FixedBodyBits(SAMPLE_TOKENS) + ToBits(0, 2) == BytesToBits(SAMPLE[2..7])
  {
    hide FixedLit, FixedDist, CodeBits, BytesToBits, ToBits, FixedBodyBits;
    SampleTokens();
    SampleBody();
    SampleCodes();
    FiveBytes(SAMPLE[2..7]);
    SmallNumbers();
    Regroup([true, false, false, true, false, false, false, true], [true, false, false, true, false, false, false, true],
            [false, false, false, false, true, true, false], [false, false, false, false, false], [false, false, false, false, false, false, false]);
  }

  /** The same bits by codes and by bytes. */
  lemma Regroup(a: seq<Bit>, b: seq<Bit>, c: seq<Bit>, d: seq<Bit>, e: seq<Bit>)
    requires |a| == |b| == 8 && |c| == |e| == 7 && |d| == 5
    ensures [true] + [true, false] + (a + b + c + d + e) + [false, false] ==
      ([true, true, false] + a[..5]) + (a[5..] + b[..5]) + (b[5..] + c[..5]) + (c[5..] + d + e[..1]) + (e[1..] + [false, false])
  {
  }

  lemma SampleCodes()
    ensures CodeBits(FixedLit(), 97) == [true, false, false, true, false, false, false, true]
    ensures CodeBits(FixedLit(), 262) == [false, false, false, false, true, true, false]
    ensures CodeBits(FixedDist(), 0) == [false, false, false, false, false]
    ensures CodeBits(FixedLit(), 256) == [false, false, false, false, false, false, false]
  {
    hide FixedLit, FixedDist, CodeBits, MsbBits;
    FixedCodes(97);
    FixedCodes(262);
    FixedCodes(0);
    FixedCodes(256);
    SampleNumbers();
  }

  lemma SampleNumbers()
    ensures MsbBits(145, 8) == [true, false, false, true, false, false, false, true]
    ensures MsbBits(6, 7) == [false, false, false, false, true, true, false] && MsbBits(0, 7) == [false, false, false, false, false, false, false]
    ensures MsbBits(0, 5) == [false, false, false, false, false]
  {
    assert MsbBits(2, 2) == [true, false] && MsbBits(9, 4) == [true, false, false, true] && MsbBits(0, 4) == [false, false, false, false];
    assert MsbBits(36, 6) == [true, false, false, true, false, false];
    assert MsbBits(1, 5) == [false, false, false, false, true];
  }

  lemma SmallNumbers()
    ensures ToBits(1, 1) == [true] && ToBits(1, 2) == [true, false] && ToBits(0, 2) == [false, false]
    ensures ToBits(0x4B, 8) == [true, true, false, true, false, false, true, false]
    ensures ToBits(0x4C, 8) == [false, false, true, true, false, false, true, false]
    ensures ToBits(0x84, 8) == [false, false, true, false, false, false, false, true]
    ensures ToBits(0x01, 8) == [true, false, false, false, false, false, false, false]
    ensures ToBits(0x00, 8) == [false, false, false, false, false, false, false, false]
  {
    Nibbles();
    hide ToBits;
    TwoNibbles(0xB, 4);
    TwoNibbles(0xC, 4);
    TwoNibbles(4, 8);
    TwoNibbles(1, 0);
    TwoNibbles(0, 0);
  }

  lemma Nibbles()
    ensures ToBits(1, 1) == [true] && ToBits(1, 2) == [true, false] && ToBits(0, 2) == [false, false]
    ensures ToBits(0xB, 4) == [true, true, false, true] && ToBits(0xC, 4) == [false, false, true, true]
    ensures ToBits(8, 4) == [false, false, false, true] && ToBits(4, 4) == [false, false, true, false]
    ensures ToBits(1, 4) == [true, false, false, false] && ToBits(0, 4) == [false, false, false, false]
  {
  }

  lemma TwoNibbles(low: nat, high: nat)
    requires low < 16 && high < 16
    ensures ToBits(low + 16 * high, 8) == ToBits(low, 4) + ToBits(high, 4)
  {
    assert Pow2(4) == 16;
    ToBitsJoin(low, 4, high, 4);
  }

  lemma FiveBytes(b: seq<byte>)
    requires |b| == 5
    ensures BytesToBits(b) == ToBits(b[0], 8) + ToBits(b[1], 8) + ToBits(b[2], 8) + ToBits(b[3], 8) + ToBits(b[4], 8)
  {
    hide ToBits;
    assert b[..4][..3] == b[..3] && b[..3][..2] == b[..2] && b[..2][..1] == b[..1] && b[..1][..0] == [];
    assert BytesToBits(b[..1]) == ToBits(b[0], 8);
    assert BytesToBits(b[..2]) == BytesToBits(b[..1]) + ToBits(b[1], 8);
    assert BytesToBits(b[..3]) == BytesToBits(b[..2]) + ToBits(b[2], 8);
    assert BytesToBits(b[..4]) == BytesToBits(b[..3]) + ToBits(b[3], 8);
  }

  lemma SampleBody()
    requires AllCodable(FixedLit(), FixedDist(), SAMPLE_TOKENS)
    ensures FixedBodyBits(SAMPLE_TOKENS) == CodeBits(FixedLit(), 97) + CodeBits(FixedLit(), 97)
      + CodeBits(FixedLit(), 262) + CodeBits(FixedDist(), 0) + CodeBits(FixedLit(), 256)
  {
    hide CodeBits, FixedLit, FixedDist;
    var ts := SAMPLE_TOKENS;
    assert ts[..3] == ts && ts[..3][..2] == ts[..2] && ts[..2][..1] == ts[..1] && ts[..1][..0] == [];
    var l, d := FixedLit(), FixedDist();
    assert TokensBits(l, d, ts[..1]) == [] + CodeBits(l, 97);
    assert TokensBits(l, d, ts[..2]) == CodeBits(l, 97) + CodeBits(l, 97);
    assert TokenBits(l, d, ts[2]) == CodeBits(l, 262) + [] + CodeBits(d, 0) + [];
  }

  lemma {:induction false} RepeatedSums(c: byte, s: seq<byte>)
    requires forall i :: 0 <= i < |s| ==> s[i] == c
    ensures S1(1, s) == 1 + |s| * c && 2 * S2(1, 0, s) == 2 * |s| + c * |s| * (|s| + 1)
  {
    if s != [] {
      var n := |s| - 1;
      RepeatedSums(c, s[..n]);
      assert S2(1, 0, s) == S2(1, 0, s[..n]) + S1(1, s);
      Triangle(c as nat, n);
    }
  }

  lemma Triangle(c: nat, n: nat)
    ensures c * (n + 1) * (n + 2) == c * n * (n + 1) + 2 * ((n + 1) * c)
    ensures (n + 1) * c == n * c + c
  {
    assert c * (n + 1) * (n + 2) == (c * (n + 1)) * n + (c * (n + 1)) * 2;
    assert (c * (n + 1)) * n == c * n * (n + 1);
  }

  lemma SampleSum()
    ensures AdlerBytes(Adler(1, seq(10, _ => 97 as byte))) == SAMPLE[7..]
  {
    hide S1, S2, A1, A2, Adler, AdlerBytes;
    var s := seq(10, _ => 97 as byte);
    RepeatedSums(97, s);
    AdlerMeaning(s);
    assert Adler(1, s) == 0x14E103CB;
    SampleSumBytes();
  }

  lemma SampleSumBytes()
    ensures AdlerBytes(0x14E103CB) == SAMPLE[7..]
  {
  }

  /** The sample is a stream as this decompressor takes it, and stands for ten times the letter a. */
  lemma SampleStream()
    ensures WholeStream(true, SAMPLE[..2], [Fixed(SAMPLE_TOKENS)], SAMPLE)
    ensures StreamExpand([Fixed(SAMPLE_TOKENS)], []) == seq(10, _ => 97 as byte)
  {
    hide ToBits, BytesToBits, FixedBodyBits, FixedLit, FixedDist, Adler, AdlerBytes, Expand;
    SampleTokens();
    SampleBits();
    SampleSum();
    UsualHeaders();
    var b := Fixed(SAMPLE_TOKENS);
    assert [b][..0] == [];
    var body := ToBits(1, 1) + ToBits(1, 2) + FixedBodyBits(SAMPLE_TOKENS);
    assert StreamBits([b], true, 16) == [] + body;
    assert |body| == 38 && Padding(54) == 2;
    assert StreamExpand([], []) == [] && BlockFits(b, 0) && BlockOk(b);
    assert HeaderGood(true, SAMPLE[..2]);
    assert Framed(true, SAMPLE[..2], [b]) == BytesToBits(SAMPLE[..2]) + body;
    var head, sum := BytesToBits(SAMPLE[..2]), BytesToBits(SAMPLE[7..]);
    BytesToBitsAppend(SAMPLE[..2], SAMPLE[2..7]);
    BytesToBitsAppend(SAMPLE[..7], SAMPLE[7..]);
    assert SAMPLE[..2] + SAMPLE[2..7] == SAMPLE[..7] && SAMPLE[..7] + SAMPLE[7..] == SAMPLE;
    assert StreamExpand([b], []) == seq(10, _ => 97 as byte);
    assert EndBits(true, Adler(1, seq(10, _ => 97 as byte)), 54) == ToBits(0, 2) + sum;
    assert |head + body| == 54;
    assert BytesToBits(SAMPLE) == head + (body + ToBits(0, 2)) + sum;
    assert head + (body + ToBits(0, 2)) + sum == head + body + (ToBits(0, 2) + sum);
    var f := Framed(true, SAMPLE[..2], [b]);
    assert f == head + body;
    assert BytesToBits(SAMPLE) == f + EndBits(true, Adler(ADLER_INIT, StreamExpand([b], [])), |f|);
    assert BlocksOk([b]);
    assert StreamOk([b], []);
    assert WholeStream(true, SAMPLE[..2], [b], SAMPLE);
  }

  /** And the decompressor makes of it what zlib meant. */
  lemma SampleDecompressed()
    ensures Decompressed(true, SAMPLE, 10) == Result(seq(10, _ => 97 as byte), Decoding.Success, 11)
  {
    hide WholeStream, Decompressed, Usual, StreamExpand;
    SampleStream();
    assert SAMPLE + [] == SAMPLE;
    StreamRead(true, SAMPLE[..2], [Fixed(SAMPLE_TOKENS)], SAMPLE, [], SAMPLE, 10);
  }
}
