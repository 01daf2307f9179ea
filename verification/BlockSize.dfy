/**
 * How long a block's tokens get: with codes of its own hardly longer than with the fixed
 * codes, which the room a token takes in the packed buffer bounds.
 */
module BlockSizes {
  import opened Bits
  import opened Lz
  import opened Symbols
  import opened TokenBuffers
  import opened Canonical
  import opened Completeness
  import opened HuffmanTree
  import opened HuffTables
  import opened LimitCost
  import opened Gathering
  import opened CodeCosts
  import opened CodeLengths
  import opened Blocks
  import opened FixedBlocks

  function LitCounts(ts: seq<Token>): (c: seq<nat>)
    requires AllInRange(ts)
    ensures |c| == 288 && forall s :: 0 <= s < 288 ==> c[s] == LitOccurs(ts, s)
  {
    seq(288, s requires 0 <= s < 288 => LitOccurs(ts, s))
  }

  function DistCounts(ts: seq<Token>): (c: seq<nat>)
    requires AllInRange(ts)
    ensures |c| == 32 && forall s :: 0 <= s < 32 ==> c[s] == DistOccurs(ts, s)
  {
    seq(32, s requires 0 <= s < 32 => DistOccurs(ts, s))
  }

  /** The bits of a token that no code length changes. */
  function ExtraBits(t: Token): nat
    requires InRange(t)
  {
    if t.Literal? then 0 else LenExtra((t.len - MIN_MATCH_LEN) as byte) + DistExtra(t.dist - 1)
  }

  function AllExtra(ts: seq<Token>): nat
    requires AllInRange(ts)
  {
    if ts == [] then 0 else AllExtra(ts[..|ts| - 1]) + ExtraBits(ts[|ts| - 1])
  }

  lemma {:induction false} CostBump(counts: seq<nat>, sizes: seq<nat>, s: nat, v: nat)
    requires s < |counts| <= |sizes| && v >= counts[s]
    ensures SymbolCost(counts[s := v], sizes) == SymbolCost(counts, sizes) + (v - counts[s]) * sizes[s]
  {
    var n := |counts| - 1;
    if s == n {
      assert counts[s := v][..n] == counts[..n];
      assert v * sizes[s] == counts[s] * sizes[s] + (v - counts[s]) * sizes[s];
    } else {
      assert counts[s := v][..n] == counts[..n][s := v];
      CostBump(counts[..n], sizes, s, v);
    }
  }

  lemma {:induction false} NothingCosts(counts: seq<nat>, sizes: seq<nat>)
    requires |counts| <= |sizes| && forall s :: 0 <= s < |counts| ==> counts[s] == 0
    ensures SymbolCost(counts, sizes) == 0
  {
    if counts != [] {
      NothingCosts(counts[..|counts| - 1], sizes);
    }
  }

  lemma ExtraLength(len: nat, dist: nat)
    requires MIN_MATCH_LEN <= len <= MAX_MATCH_LEN && 1 <= dist <= DICT_SIZE
    ensures |LenBits(len)| + |DistBits(dist)| == ExtraBits(Match(len, dist))
  {
    hide LenExtra, DistExtra, Low, ToBits;
  }

  lemma TokenLength(lit: seq<nat>, dist: seq<nat>, t: Token)
    requires Codable(lit, dist, t)
    ensures |TokenBits(lit, dist, t)| == lit[LitSymbol(t)] + (if t.Match? then dist[DistSym(t.dist - 1)] else 0) + ExtraBits(t)
  {
    hide CodeBits, LenSym, DistSym, LenBits, DistBits, LenExtra, DistExtra;
    if t.Match? {
      ExtraLength(t.len, t.dist);
    }
  }

  /** One more token in the counters. */
  lemma CountsSnoc(ts: seq<Token>, t: Token)
    requires AllInRange(ts) && InRange(t)
    ensures AllInRange(ts + [t]) && LitSymbol(t) < 288 && (t.Match? ==> DistSym(t.dist - 1) < 32)
    ensures LitCounts(ts + [t]) == LitCounts(ts)[LitSymbol(t) := LitCounts(ts)[LitSymbol(t)] + 1]
    ensures DistCounts(ts + [t])
      == if t.Match? then DistCounts(ts)[DistSym(t.dist - 1) := DistCounts(ts)[DistSym(t.dist - 1)] + 1] else DistCounts(ts)
  {
    hide LenSym, DistSym;
    assert (ts + [t])[..|ts|] == ts;
  }

  /** One more of a symbol costs one more of its code. */
  lemma CostOneMore(counts: seq<nat>, sizes: seq<nat>, s: nat)
    requires s < |counts| <= |sizes|
    ensures SymbolCost(counts[s := counts[s] + 1], sizes) == SymbolCost(counts, sizes) + sizes[s]
  {
    CostBump(counts, sizes, s, counts[s] + 1);
  }

  /** What one more token adds to the reckoning. */
  lemma TokenCost(lit: seq<nat>, dist: seq<nat>, ts: seq<Token>, x: Token, ls: seq<nat>, ds: seq<nat>)
    requires AllInRange(ts) && Codable(lit, dist, x) && |ls| == 288 && |ds| == 32
    requires |lit| <= 288 && lit == ls[..|lit|] && |dist| <= 32 && dist == ds[..|dist|]
    ensures AllInRange(ts + [x])
    ensures SymbolCost(LitCounts(ts + [x]), ls) + SymbolCost(DistCounts(ts + [x]), ds) + ExtraBits(x)
      == SymbolCost(LitCounts(ts), ls) + SymbolCost(DistCounts(ts), ds) + |TokenBits(lit, dist, x)|
  {
    hide LitSymbol, DistSym, TokenBits, SymbolCost, ExtraBits;
    TokenLength(lit, dist, x);
    CountsSnoc(ts, x);
    CostOneMore(LitCounts(ts), ls, LitSymbol(x));
    if x.Match? {
      CostOneMore(DistCounts(ts), ds, DistSym(x.dist - 1));
    }
  }

  lemma ExtraSnoc(ts: seq<Token>, x: Token)
    requires AllInRange(ts) && InRange(x)
    ensures AllInRange(ts + [x]) && AllExtra(ts + [x]) == AllExtra(ts) + ExtraBits(x)
  {
    hide ExtraBits, InRange;
    assert (ts + [x])[..|ts|] == ts;
  }

  lemma BitsSnoc(lit: seq<nat>, dist: seq<nat>, ts: seq<Token>, x: Token)
    requires AllCodable(lit, dist, ts) && Codable(lit, dist, x)
    ensures AllCodable(lit, dist, ts + [x])
    ensures |TokensBits(lit, dist, ts + [x])| == |TokensBits(lit, dist, ts)| + |TokenBits(lit, dist, x)|
  {
    hide TokenBits, Codable;
    assert (ts + [x])[..|ts|] == ts;
  }

  lemma NoTokensLength(lit: seq<nat>, dist: seq<nat>, ls: seq<nat>, ds: seq<nat>)
    requires |ls| == 288 && |ds| == 32
    ensures AllCodable(lit, dist, []) && TokensBits(lit, dist, []) == [] && AllExtra([]) == 0
    ensures SymbolCost(LitCounts([]), ls) == SymbolCost(DistCounts([]), ds) == 0
  {
    NothingCosts(LitCounts([]), ls);
    NothingCosts(DistCounts([]), ds);
  }

  /** What the tokens' bits add up to. */
  lemma {:induction false} TokensLength(lit: seq<nat>, dist: seq<nat>, ts: seq<Token>, ls: seq<nat>, ds: seq<nat>)
    requires AllCodable(lit, dist, ts) && AllInRange(ts) && |ls| == 288 && |ds| == 32
    requires |lit| <= 288 && lit == ls[..|lit|] && |dist| <= 32 && dist == ds[..|dist|]
    ensures |TokensBits(lit, dist, ts)| == SymbolCost(LitCounts(ts), ls) + SymbolCost(DistCounts(ts), ds) + AllExtra(ts)
  {
    if ts == [] {
      NoTokensLength(lit, dist, ls, ds);
    } else {
      var t, x := ts[..|ts| - 1], ts[|ts| - 1];
      assert ts == t + [x] && Codable(lit, dist, x) && InRange(x);
      hide Codable, InRange, LitCounts, DistCounts, TokensBits, TokenBits, SymbolCost, ExtraBits, AllExtra;
      TokensLength(lit, dist, t, ls, ds);
      TokenCost(lit, dist, t, x, ls, ds);
      ExtraSnoc(t, x);
      BitsSnoc(lit, dist, t, x);
    }
  }

  /** Bits of a whole body: the end of the block counts as one more symbol. */
  lemma BodyLength(lit: seq<nat>, dist: seq<nat>, ts: seq<Token>, ls: seq<nat>, ds: seq<nat>, lc: seq<nat>)
    requires AllCodable(lit, dist, ts) && AllInRange(ts) && Used(lit, END_OF_BLOCK) && |ls| == 288 && |ds| == 32
    requires |lit| <= 288 && lit == ls[..|lit|] && |dist| <= 32 && dist == ds[..|dist|]
    requires LitOccurs(ts, END_OF_BLOCK) == 0 && lc == LitCounts(ts)[END_OF_BLOCK := 1]
    ensures |BodyBits(lit, dist, ts)| == SymbolCost(lc, ls) + SymbolCost(DistCounts(ts), ds) + AllExtra(ts)
  {
    hide TokensBits, SymbolCost, AllExtra, LitOccurs;
    TokensLength(lit, dist, ts, ls, ds);
    CostOneMore(LitCounts(ts), ls, END_OF_BLOCK);
  }

  lemma FixedPossible()
    ensures Possible(FixedLit()) && Possible(FixedDist())
  {
    hide Pow2, KraftSum, Complete;
    FixedComplete();
    CompleteIsKraftOne(FixedLit());
    CompleteIsKraftOne(FixedDist());
  }

  /** No block body is longer than this. */
  const BODY_LIMIT := 674490

  /** Bits per token of the fixed codes and a bit more, against the room the token takes in the packed buffer. */
  lemma FixedTokenRoom(t: Token)
    requires Codable(FixedLit(), FixedDist(), t)
    ensures RATE * |TokenBits(FixedLit(), FixedDist(), t)| + 640 <= 732 * (8 * Size(t) + 1)
  {
    hide LenSym, DistSym, LenExtra, DistExtra, Pow2, Low;
  }

  lemma {:induction false} FixedTokensRoom(ts: seq<Token>)
    requires AllCodable(FixedLit(), FixedDist(), ts)
    ensures End(ts) >= 1 + |ts| / 8
    ensures RATE * |TokensBits(FixedLit(), FixedDist(), ts)| + 640 * |ts| <= 732 * (8 * (End(ts) - 1 - |ts| / 8) + |ts|)
  {
    hide Codable, TokenBits, FixedLit, FixedDist;
    if ts != [] {
      var n := |ts| - 1;
      FixedTokensRoom(ts[..n]);
      assert Codable(FixedLit(), FixedDist(), ts[n]);
      FixedTokenRoom(ts[n]);
    }
  }

  lemma EndLength()
    ensures Used(FixedLit(), END_OF_BLOCK) && FixedLit()[END_OF_BLOCK] == 7
  {
  }

  lemma AllFixedCodable(ts: seq<Token>)
    requires AllInRange(ts)
    ensures AllCodable(FixedLit(), FixedDist(), ts)
  {
    hide Codable, InRange;
    forall i | 0 <= i < |ts| ensures Codable(FixedLit(), FixedDist(), ts[i]) {
      FixedCodable(ts[i]);
    }
  }

  /** With the fixed codes whatever the token buffer holds is short enough. */
  lemma FixedFits(ts: seq<Token>)
    requires AllCodable(FixedLit(), FixedDist(), ts) && End(ts) <= LZ_CODE_BUF_SIZE
    ensures RATE * |FixedBodyBits(ts)| + 640 * |ts| <= 732 * 524287 + RATE * 7 && |FixedBodyBits(ts)| <= BODY_LIMIT
  {
    hide TokensBits, FixedLit, FixedDist;
    FixedTokensRoom(ts);
    assert |CodeBits(FixedLit(), END_OF_BLOCK)| == 7 by { EndLength(); }
  }

  /** With cheap codes it is short enough too. */
  lemma CheapFits(lit: seq<nat>, dist: seq<nat>, ts: seq<Token>, ls: seq<nat>, ds: seq<nat>, lc: seq<nat>)
    requires AllCodable(lit, dist, ts) && AllInRange(ts) && Used(lit, END_OF_BLOCK) && |ls| == 288 && |ds| == 32
    requires |lit| <= 288 && lit == ls[..|lit|] && |dist| <= 32 && dist == ds[..|dist|]
    requires LitOccurs(ts, END_OF_BLOCK) == 0 && lc == LitCounts(ts)[END_OF_BLOCK := 1]
    requires Cheap(ls, lc) && Cheap(ds, DistCounts(ts)) && Sum(lc) == |ts| + 1 && Sum(DistCounts(ts)) <= |ts|
    requires End(ts) <= LZ_CODE_BUF_SIZE
    ensures |BodyBits(lit, dist, ts)| <= BODY_LIMIT
  {
    var dc := DistCounts(ts);
    AllFixedCodable(ts);
    EndLength();
    FixedPossible();
    assert FixedLit()[..288] == FixedLit() && FixedDist()[..32] == FixedDist();
    hide SymbolCost, AllExtra, LitOccurs, Sum, Possible, FixedLit, FixedDist, BodyBits, AllCodable, UsedSymbols, LitCounts, DistCounts, Used, End;
    BodyLength(lit, dist, ts, ls, ds, lc);
    BodyLength(FixedLit(), FixedDist(), ts, FixedLit(), FixedDist(), lc);
    FixedFits(ts);
    assert CheapAgainst(ls, lc, FixedLit()) && CheapAgainst(ds, dc, FixedDist());
    UsedFew(lc, |ts| + 1, 288);
    UsedFew(dc, |ts|, 32);
  }

  lemma UsedFew(counts: seq<nat>, total: nat, n: nat)
    requires |counts| <= n && Sum(counts) <= total
    ensures 2 * UsedSymbols(counts) * Sum(counts) <= 2 * n * total
  {
    hide Sum, UsedSymbols;
    MulAtLeast(Sum(counts), UsedSymbols(counts), n);
    MulAtLeast(n, Sum(counts), total);
    var u, w := UsedSymbols(counts), Sum(counts);
    assert 2 * u * w == 2 * (w * u) && 2 * n * total == 2 * (n * total);
  }
}
