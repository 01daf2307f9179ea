/**
 * Where the decompressor is more liberal than the format: bits that are no code
 * and symbols without a meaning.
 */
module Strays {
  import opened Bits
  import opened BitIO
  import opened Lz
  import opened Symbols
  import opened Canonical
  import opened Trie
  import opened HuffTables
  import opened HuffDecoders
  import opened Completeness
  import opened Blocks
  import opened Decoding
  import opened TableReaders
  import opened Inflaters
  import opened Usuals
  import opened Readbacks
  import opened Streams
  import opened Conforming
  import opened Formats

  /** The number with these bits, most significant first. */
  function FromMsb(b: seq<Bit>): nat {
    if b == [] then 0 else 2 * FromMsb(b[..|b| - 1]) + (if b[|b| - 1] then 1 else 0)
  }

  lemma {:induction false} MsbFrom(b: seq<Bit>)
    ensures FromMsb(b) < Pow2(|b|) && MsbBits(FromMsb(b), |b|) == b
  {
    if b != [] {
      var n := |b| - 1;
      MsbFrom(b[..n]);
      assert FromMsb(b) / 2 == FromMsb(b[..n]) && (FromMsb(b) % 2 == 1) == b[n];
      assert b == b[..n] + [b[n]];
    }
  }

  /** With a complete code some code starts any fifteen bits. */
  lemma SomeCode(sizes: seq<nat>, bits: seq<Bit>) returns (s: nat)
    requires Complete(sizes) && |bits| == MAX_CODE_SIZE
    ensures Starts(sizes, s, bits)
  {
    hide CodeBits, Complete, Pow2;
    MsbFrom(bits);
    s := ExactlyOneCode(sizes, FromMsb(bits));
  }

  /** With a complete code nothing but codes is read; whatever else is accepted comes from a code of one symbol or none. */
  lemma CompleteNeverStrays(sizes: seq<nat>, ahead: seq<Bit>)
    requires Complete(sizes)
    ensures Symbol(sizes, ahead).Parsed? <==> HasCode(sizes, ahead)
  {
    hide CodeBits, Complete, Leaves;
    if GoesAstray(sizes, ahead) {
      var n: nat :| Leaves(sizes, ahead, n);
      NothingLeft(sizes, ahead, n);
    } else if |ahead| >= MAX_CODE_SIZE {
      var s := SomeCode(sizes, ahead[..MAX_CODE_SIZE]);
      CodeLength(sizes, s);
      CodeShort(sizes, s);
      CodeWithin(sizes, s, ahead[..MAX_CODE_SIZE], ahead, sizes[s]);
    }
  }

  lemma CodeShort(sizes: seq<nat>, s: nat)
    requires Used(sizes, s)
    ensures sizes[s] <= MAX_CODE_SIZE
  {
  }

  /** Bits that leave a complete code have just completed one. */
  lemma NothingLeft(sizes: seq<nat>, ahead: seq<Bit>, n: nat)
    requires Complete(sizes) && Leaves(sizes, ahead, n)
    ensures HasCode(sizes, ahead)
  {
    hide CodeBits, Complete, Inner, KraftOk;
    assert KraftOk(sizes) by { KraftOne(sizes); }
    LeavesSoon(sizes, ahead, n);
    var bits := ahead[..n] + Zeros(MAX_CODE_SIZE - n);
    var s := SomeCode(sizes, bits);
    CodeLength(sizes, s);
    var c := CodeBits(sizes, s);
    assert bits[..n] == ahead[..n];
    LeavesWithin(sizes, n, ahead, bits, n);
    LeavesNoCode(sizes, bits, n, s);
    CodeWithin(sizes, s, bits, ahead, n);
  }

  lemma KraftOne(sizes: seq<nat>)
    requires Complete(sizes)
    ensures KraftOk(sizes)
  {
  }

  function Zeros(n: nat): (z: seq<Bit>)
    ensures |z| == n
  {
    seq(n, _ => false)
  }

  /** A code of one symbol with one bit, as a block with a single distance has it: the other bit is taken for symbol 0, and not used up. */
  lemma OtherBit(sizes: seq<nat>, s: nat, ahead: seq<Bit>)
    requires s < |sizes| && sizes[s] == 1 && forall t :: 0 <= t < |sizes| && t != s ==> sizes[t] == 0
    requires |ahead| >= MAX_CODE_SIZE && ahead[0]
    ensures !HasCode(sizes, ahead) && Symbol(sizes, ahead) == Parsed(0, ahead)
  {
    OnlyBefore(sizes, s);
    assert MsbBits(0, 0) == [] && MsbBits(0, 1) == [false];
    assert FirstCode(sizes, 1) == 0;
    assert CodeBits(sizes, s) == [false];
    forall t: nat ensures !Starts(sizes, t, ahead) {
    }
    forall n: nat ensures !Leaves(sizes, ahead, n) {
    }
  }

  lemma {:induction false} OnlyBefore(sizes: seq<nat>, k: nat)
    requires k <= |sizes| && forall t :: 0 <= t < k ==> sizes[t] == 0
    ensures Count(sizes[..k], 1) == 0
  {
    if k > 0 {
      OnlyBefore(sizes, k - 1);
      assert sizes[..k][..k - 1] == sizes[..k - 1];
    }
  }

  /** A final block with the fixed codes: the letter a, length symbol 286, distance 1, and the end. */
  const RESERVED: seq<byte> := [0x4B, 0x1C, 0x03, 0x00]

  /** Length symbols 286 and 287 are copied as nothing, though no valid data has them. */
  lemma ReservedAccepted()
    ensures Decompressed(false, RESERVED, 1) == Result([97], Success, 4)
    ensures !exists header: seq<byte>, bs: seq<Block>, body: seq<byte>, trailing: seq<byte> ::
      Given(false, header, bs, body, trailing, RESERVED, 1)
  {
    hide AllBlocks, UsualBlocks, Given, BytesToBits;
    ReservedBits();
    ReservedBlocks(BytesToBits(RESERVED));
    assert Start(false, RESERVED) == BytesToBits(RESERVED);
    StreamExact(false, RESERVED, 1);
  }

  const LETTER: seq<Bit> := [true, false, false, true, false, false, false, true]
  const LENGTH: seq<Bit> := [true, true, false, false, false, true, true, false]
  const ZERO5: seq<Bit> := [false, false, false, false, false]
  const ZERO7: seq<Bit> := [false, false, false, false, false, false, false]

  lemma ReservedBits()
    ensures BytesToBits(RESERVED) == [true, true, false] + (LETTER + (LENGTH + (ZERO5 + (ZERO7 + [false]))))
  {
    hide ToBits, BytesToBits;
    SmallNumbers();
    MoreNumbers();
    FourBytes(RESERVED);
    Regrouped(LETTER, LENGTH, ZERO5, ZERO7);
  }

  lemma FourBytes(b: seq<byte>)
    requires |b| == 4
    ensures BytesToBits(b) == ToBits(b[0], 8) + ToBits(b[1], 8) + ToBits(b[2], 8) + ToBits(b[3], 8)
  {
    hide ToBits;
    assert b[..3][..2] == b[..2] && b[..2][..1] == b[..1] && b[..1][..0] == [];
    assert BytesToBits(b[..1]) == ToBits(b[0], 8);
    assert BytesToBits(b[..2]) == BytesToBits(b[..1]) + ToBits(b[1], 8);
    assert BytesToBits(b[..3]) == BytesToBits(b[..2]) + ToBits(b[2], 8);
  }

  /** The same bits by codes and by bytes. */
  lemma Regrouped(a: seq<Bit>, b: seq<Bit>, c: seq<Bit>, d: seq<Bit>)
    requires |a| == |b| == 8 && |c| == 5 && |d| == 7
    ensures [true, true, false] + (a + (b + (c + (d + [false])))) ==
      ([true, true, false] + a[..5]) + (a[5..] + b[..5]) + (b[5..] + c) + (d + [false])
  {
  }

  lemma MoreNumbers()
    ensures ToBits(0x1C, 8) == [false, false, true, true, true, false, false, false]
    ensures ToBits(0x03, 8) == [true, true, false, false, false, false, false, false]
  {
    assert ToBits(0xC, 4) == [false, false, true, true] && ToBits(1, 4) == [true, false, false, false];
    assert ToBits(3, 4) == [true, true, false, false] && ToBits(0, 4) == [false, false, false, false];
    TwoNibbles(0xC, 1);
    TwoNibbles(3, 0);
  }

  lemma ReservedCodes()
    ensures CodeBits(FixedLit(), 97) == LETTER && CodeBits(FixedLit(), 286) == LENGTH
    ensures CodeBits(FixedDist(), 0) == ZERO5 && CodeBits(FixedLit(), 256) == ZERO7
  {
    hide CodeBits, FixedLit, FixedDist, MsbBits;
    SampleCodes();
    FixedCodes(286);
    assert MsbBits(0xC6, 8) == LENGTH by { HighNumber(); }
  }

  lemma HighNumber()
    ensures MsbBits(0xC6, 8) == [true, true, false, false, false, true, true, false]
  {
    assert MsbBits(3, 2) == [true, true] && MsbBits(12, 4) == [true, true, false, false];
    assert MsbBits(49, 6) == [true, true, false, false, false, true];
  }

  /** Length 286 and distance symbol 0, without extra bits. */
  lemma ReservedMatch(after: seq<Bit>)
    ensures MatchAt(FixedDist(), 286, ZERO5 + after) == Parsed(Copy(0, 1), after)
  {
    hide Symbol, FixedLit, FixedDist, CodeBits, Number, MatchAt, Accepted;
    ReservedCodes();
    FixedAccepted();
    NoNumber(ZERO5 + after);
    SymbolRead(FixedDist(), 0, after, ZERO5 + after);
    NoNumber(after);
    MatchFrom(FixedDist(), 286, ZERO5 + after, 0, ZERO5 + after, 0, after, 0, after);
  }

  lemma MatchFrom(dist: seq<nat>, sym: nat, ahead: seq<Bit>, x: nat, a: seq<Bit>, t: nat, b: seq<Bit>, y: nat, c: seq<Bit>)
    requires |dist| <= 32 && 257 <= sym < 288 && t < 32
    requires Number(LENGTH_EXTRA[sym - 257], ahead) == Parsed(x, a) && Symbol(dist, a) == Parsed(t, b)
    requires Number(DIST_EXTRA[t], b) == Parsed(y, c)
    ensures MatchAt(dist, sym, ahead) == Parsed(Copy(LENGTH_BASE[sym - 257] + x, DIST_BASE[t] + y), c)
  {
    hide Symbol, Number;
  }

  lemma NoNumber(ahead: seq<Bit>)
    ensures Number(0, ahead) == Parsed(0, ahead)
  {
    assert ahead[..0] == [] && ahead[0..] == ahead;
  }

  lemma ReservedTokens(pad: seq<Bit>)
    ensures var ahead := LETTER + (LENGTH + (ZERO5 + (ZERO7 + pad)));
      Tokens(FixedLit(), FixedDist(), [], 1, ahead) == State([97], pad, Success) && !UsualTokens(FixedLit(), FixedDist(), ahead)
  {
    hide Symbol, FixedLit, FixedDist, CodeBits, Tokens, Decoding.Behind, UsualTokens, MatchAt, Accepted;
    ReservedCodes();
    FixedAccepted();
    var l, d := FixedLit(), FixedDist();
    var a4 := ZERO7 + pad;
    var a3 := ZERO5 + a4;
    var a2 := LENGTH + a3;
    var a1 := LETTER + a2;
    SymbolRead(l, 97, a2, a1);
    SymbolRead(l, 286, a3, a2);
    SymbolRead(l, 256, pad, a4);
    ReservedMatch(a4);
    TokensStep(l, d, [], 1, a1);
    TokensStep(l, d, [97], 1, a2);
    BehindStep(l, d, 286, [97], 1, a3);
    NothingCopied([97], 1);
    TokensStep(l, d, [97], 1, a4);
    BehindStep(l, d, 256, [97], 1, pad);
    UsualTokensStep(l, d, a1);
    UsualTokensStep(l, d, a2);
    assert [] + [97 as byte] == [97];
  }

  lemma ReservedBlocks(ahead: seq<Bit>)
    requires ahead == [true, true, false] + (LETTER + (LENGTH + (ZERO5 + (ZERO7 + [false]))))
    ensures AllBlocks([], 1, ahead) == State([97], [false], Success) && !UsualBlocks([], 1, ahead)
  {
    hide Tokens, UsualTokens, FixedLit, FixedDist;
    var body := LETTER + (LENGTH + (ZERO5 + (ZERO7 + [false])));
    ReservedTokens([false]);
    assert ahead[..3] == [true, true, false] && ahead[3..] == body;
    FromThree();
    assert Number(3, ahead) == Parsed(3, body);
  }

  lemma FromThree()
    ensures FromBits([true, true, false]) == 3
  {
    assert FromBits([false]) == 0;
    assert [true, false][1..] == [false] && [true, true, false][1..] == [true, false];
  }
}
