/**
 * Data that keeps to the format: only codes that exist, only the symbols with a
 * meaning, and nothing but zeros where bits are skipped.
 */
module Usuals {
  import opened Bits
  import opened Symbols
  import opened HuffTables
  import opened CodeLengths
  import opened Blocks
  import opened Decoding

  /** Every operation has a code. */
  ghost predicate UsualLengths(cl: seq<nat>, lens: seq<nat>, total: nat, ahead: seq<Bit>)
    requires |cl| == 19
    decreases total - |lens|
  {
    |lens| < total ==>
      && HasCode(cl, ahead)
      && var p := OneOp(cl, lens, ahead);
         p.Parsed? ==> UsualLengths(cl, p.value, total, p.rest)
  }

  lemma UsualLengthsStep(cl: seq<nat>, lens: seq<nat>, total: nat, ahead: seq<Bit>)
    requires |cl| == 19
    ensures var p := OneOp(cl, lens, ahead);
      UsualLengths(cl, lens, total, ahead)
      == (|lens| < total ==> HasCode(cl, ahead) && (p.Parsed? ==> UsualLengths(cl, p.value, total, p.rest)))
  {
    hide OneOp, HasCode;
  }

  /** There are 286 literal and length symbols and 30 distances, and the lengths come in codes. */
  ghost predicate UsualCodes(ahead: seq<Bit>) {
    var p := HeaderCounts(ahead);
    p.Parsed? ==>
      && p.value.lit <= 286 && p.value.dist <= 30
      && var q := ClCode(p.value.cl, p.rest);
         q.Parsed? ==> UsualLengths(q.value, [], p.value.lit + p.value.dist, q.rest)
  }

  /** A match with a length symbol that has a meaning, not the longest match as one of 227 to 257, and a distance with a code. */
  ghost predicate UsualMatch(dist: seq<nat>, sym: nat, ahead: seq<Bit>)
    requires |dist| <= 32 && 257 <= sym < 288
  {
    var n, p := LENGTH_EXTRA[sym - 257], MatchAt(dist, sym, ahead);
    sym <= 285 && n <= |ahead| && HasCode(dist, ahead[n..]) && p.Parsed? && !(sym == 284 && p.value.len == 258)
  }

  /** Usual literals and matches up to the end of the block. */
  ghost predicate UsualTokens(lit: seq<nat>, dist: seq<nat>, ahead: seq<Bit>)
    requires |lit| <= 288 && |dist| <= 32
    decreases |ahead|
  {
    && HasCode(lit, ahead)
    && var p := Symbol(lit, ahead);
       if p.value < 256 then UsualTokens(lit, dist, p.rest)
       else if p.value == END_OF_BLOCK then true
       else UsualMatch(dist, p.value, p.rest) && UsualTokens(lit, dist, MatchAt(dist, p.value, p.rest).rest)
  }

  lemma UsualTokensStep(lit: seq<nat>, dist: seq<nat>, ahead: seq<Bit>)
    requires |lit| <= 288 && |dist| <= 32
    ensures UsualTokens(lit, dist, ahead)
      == (HasCode(lit, ahead)
          && var p := Symbol(lit, ahead);
             if p.value < 256 then UsualTokens(lit, dist, p.rest)
             else if p.value == END_OF_BLOCK then true
             else UsualMatch(dist, p.value, p.rest) && UsualTokens(lit, dist, MatchAt(dist, p.value, p.rest).rest))
  {
    hide HasCode, Symbol, UsualMatch, MatchAt;
  }

  /** The bits up to the next byte boundary are zero. */
  predicate UsualPadding(ahead: seq<Bit>) {
    forall i :: 0 <= i < |ahead| % 8 ==> !ahead[i]
  }

  ghost predicate UsualContent(kind: nat, ahead: seq<Bit>) {
    if kind == 0 then UsualPadding(ahead)
    else if kind == 1 then UsualTokens(FixedLit(), FixedDist(), ahead)
    else
      && UsualCodes(ahead)
      && var p := DynamicCodes(ahead);
         p.Parsed? ==> UsualTokens(p.value.lit, p.value.dist, p.rest)
  }

  ghost predicate UsualBlock(ahead: seq<Bit>) {
    var p := Number(3, ahead);
    p.Parsed? ==> UsualContent(p.value / 2, p.rest)
  }

  /** Usual blocks up to the final one. */
  ghost predicate UsualBlocks(out: seq<byte>, size: nat, ahead: seq<Bit>)
    requires |out| <= size
    decreases |ahead|
  {
    && UsualBlock(ahead)
    && var s := OneBlock(out, size, ahead);
       s.res.Success? && !LastAhead(ahead) ==> UsualBlocks(s.out, size, s.rest)
  }
}
