/**
 * Whatever is decoded without trouble, from data that keeps to the format, was
 * such a stream: its blocks, tokens and headers are found again.
 */
module Conforming {
  import opened Bits
  import opened BitIO
  import opened Lz
  import opened Symbols
  import opened TokenBuffers
  import opened Canonical
  import opened Trie
  import opened HuffTables
  import opened HuffDecoders
  import opened CodeLengths
  import opened Blocks
  import opened FixedBlocks
  import opened Decoding
  import opened TableReaders
  import opened StoredReaders
  import opened Inflaters
  import opened Usuals
  import opened Readbacks
  import opened Adlers
  import opened StreamEnds
  import opened StreamGrowth
  import opened Deflaters
  import opened Streams

  lemma SymbolMeant(sizes: seq<nat>, ahead: seq<Bit>)
    requires HasCode(sizes, ahead)
    ensures var p := Symbol(sizes, ahead); p.Parsed? && Next(sizes, p.value, p.rest, ahead)
  {
    hide CodeBits;
    var s: nat :| Starts(sizes, s, ahead) && Symbol(sizes, ahead) == Parsed(s, ahead[sizes[s]..]);
    CodeLength(sizes, s);
    assert ahead[..sizes[s]] == CodeBits(sizes, s);
  }

  lemma NumberMeant(n: nat, ahead: seq<Bit>)
    ensures var p := Number(n, ahead);
      p.Parsed? ==> NextNumber(p.value, n, p.rest, ahead) && n <= |ahead| && p.rest == ahead[n..]
  {
    if |ahead| >= n {
      ToFromBits(ahead[..n]);
      FromBitsBound(ahead[..n]);
      assert |ahead[..n]| == n;
    }
  }

  /** Symbol i begins where symbol i - 1 ends; only the longest match could be had from two of them. */
  lemma LengthsAscend(i: nat)
    requires i < 28
    ensures if i == 27 then LENGTH_BASE[27] + Pow2(LENGTH_EXTRA[27]) == LENGTH_BASE[28] + 1
      else LENGTH_BASE[i] + Pow2(LENGTH_EXTRA[i]) == LENGTH_BASE[i + 1]
  {
    SmallPowers();
  }

  lemma {:induction false} LengthsBelow(i: nat, j: nat)
    requires i < j < 29
    ensures LENGTH_BASE[i] + Pow2(LENGTH_EXTRA[i]) <= LENGTH_BASE[j] + if i == 27 then 1 else 0
    decreases j
  {
    LengthsAscend(j - 1);
    if i < j - 1 {
      LengthsBelow(i, j - 1);
    }
  }

  /** The only length that this symbol and these extra bits stand for. */
  lemma LengthMeant(sym: nat, x: nat)
    requires 257 <= sym <= 285 && x < Pow2(LENGTH_EXTRA[sym - 257])
    requires !(sym == 284 && LENGTH_BASE[27] + x == 258)
    ensures var len := LENGTH_BASE[sym - 257] + x;
      MIN_MATCH_LEN <= len <= MAX_MATCH_LEN && LenSym(len - MIN_MATCH_LEN) == sym && LenBits(len) == ToBits(x, LENGTH_EXTRA[sym - 257])
  {
    hide ToBits, LenSym, LenExtra, Pow2;
    var i := sym - 257;
    LengthRange(i, x);
    var l: byte := LENGTH_BASE[i] + x - MIN_MATCH_LEN;
    LengthCodeRoundTrip(l);
    LongestLength(l + MIN_MATCH_LEN);
    OneLength(i, x, LenSym(l) - 257, Low(l, LenExtra(l)));
  }

  /** One length is not to be had from two symbols. */
  lemma OneLength(i: nat, x: nat, j: nat, y: nat)
    requires i < 29 && j < 29 && x < Pow2(LENGTH_EXTRA[i]) && y < Pow2(LENGTH_EXTRA[j])
    requires LENGTH_BASE[i] + x == LENGTH_BASE[j] + y
    requires (i == 27 ==> LENGTH_BASE[i] + x != 258) && (j == 27 ==> LENGTH_BASE[j] + y != 258)
    ensures i == j && x == y
  {
    hide Pow2;
    if i < j {
      LengthsBelow(i, j);
    } else if j < i {
      LengthsBelow(j, i);
    }
  }

  lemma LengthRange(i: nat, x: nat)
    requires i < 29 && x < Pow2(LENGTH_EXTRA[i])
    ensures MIN_MATCH_LEN <= LENGTH_BASE[i] + x <= MAX_MATCH_LEN
  {
    SmallPowers();
  }

  lemma DistsAscend(i: nat)
    requires i < 29
    ensures DIST_BASE[i] + Pow2(DIST_EXTRA[i]) == DIST_BASE[i + 1]
  {
    SmallPowers();
  }

  lemma {:induction false} DistsBelow(i: nat, j: nat)
    requires i < j < 30
    ensures DIST_BASE[i] + Pow2(DIST_EXTRA[i]) <= DIST_BASE[j]
    decreases j
  {
    DistsAscend(j - 1);
    if i < j - 1 {
      DistsBelow(i, j - 1);
    }
  }

  lemma DistRange(i: nat, y: nat)
    requires i < 32 && y < Pow2(DIST_EXTRA[i])
    ensures if i < 30 then 1 <= DIST_BASE[i] + y <= DICT_SIZE else DIST_BASE[i] + y == 0
  {
    SmallPowers();
  }

  /** The only distance that this symbol and these extra bits stand for. */
  lemma DistMeant(s: nat, y: nat)
    requires s < 30 && y < Pow2(DIST_EXTRA[s])
    ensures var d := DIST_BASE[s] + y;
      1 <= d <= DICT_SIZE && DistSym(d - 1) == s && DistBits(d) == ToBits(y, DIST_EXTRA[s])
  {
    hide ToBits, DistSym, DistExtra, Pow2;
    DistRange(s, y);
    var d := DIST_BASE[s] + y - 1;
    DistCodeRoundTrip(d);
    OneDist(s, y, DistSym(d), Low(d, DistExtra(d)));
  }

  /** Nor is one distance. */
  lemma OneDist(s: nat, y: nat, t: nat, z: nat)
    requires s < 30 && t < 30 && y < Pow2(DIST_EXTRA[s]) && z < Pow2(DIST_EXTRA[t]) && DIST_BASE[s] + y == DIST_BASE[t] + z
    ensures s == t && y == z
  {
    hide Pow2;
    if s < t {
      DistsBelow(s, t);
    } else if t < s {
      DistsBelow(t, s);
    }
  }

  /** The bits behind the length symbol of match t. */
  ghost predicate MatchIs(dist: seq<nat>, t: Token, rest: seq<Bit>, ahead: seq<Bit>) {
    && t.Match? && InRange(t) && Used(dist, DistSym(t.dist - 1))
    && ahead == LenBits(t.len) + (CodeBits(dist, DistSym(t.dist - 1)) + (DistBits(t.dist) + rest))
  }

  /** A match with everything usual about it. */
  lemma MatchMeant(lit: seq<nat>, dist: seq<nat>, sym: nat, ahead: seq<Bit>)
    requires |dist| <= 32 && 257 <= sym < 288 && UsualMatch(dist, sym, ahead) && MatchAt(dist, sym, ahead).value.dist != 0
    ensures var p := MatchAt(dist, sym, ahead);
      var t := Match(p.value.len, p.value.dist);
      MatchIs(dist, t, p.rest, ahead) && InRange(t) && LitSymbol(t) == sym
  {
    hide HasCode, Symbol, Number, LenBits, DistBits, LenSym, DistSym, CodeBits, Pow2, ToBits, Used;
    NumberMeant(LENGTH_EXTRA[sym - 257], ahead);
    var a := Number(LENGTH_EXTRA[sym - 257], ahead);
    SymbolMeant(dist, a.rest);
    var b := Symbol(dist, a.rest);
    NumberMeant(DIST_EXTRA[b.value], b.rest);
    var c := Number(DIST_EXTRA[b.value], b.rest);
    DistRange(b.value, c.value);
    LengthMeant(sym, a.value);
    DistMeant(b.value, c.value);
  }

  /** One more token in front. */
  lemma TokenInFront(lit: seq<nat>, dist: seq<nat>, t: Token, ts: seq<Token>, rest: seq<Bit>, after: seq<Bit>)
    requires Codable(lit, dist, t) && AtToken(lit, dist, ts, rest, after)
    ensures AtToken(lit, dist, [t] + ts, rest, TokenBits(lit, dist, t) + after)
  {
    hide TokenBits, BodyBits, Codable;
    var all := [t] + ts;
    assert all[1..] == ts && all[0] == t;
    BodyCons(lit, dist, all);
    AssocBits(TokenBits(lit, dist, t), BodyBits(lit, dist, ts), rest);
  }

  lemma PendingInFront(out: seq<byte>, t: Token, ts: seq<Token>, size: nat, target: seq<byte>)
    requires Fits(t, |out|) && Pending(Apply(out, t), ts, size, target)
    ensures Pending(out, [t] + ts, size, target)
  {
    ExpandSnoc([], t, out);
    assert [] + [t] == [t];
    ExpandAppend([t], ts, out);
    TotalLenAppend([t], ts);
  }

  /** The bits of a match, one after the other. */
  lemma MatchBits(lit: seq<nat>, dist: seq<nat>, t: Token, after: seq<Bit>, rest: seq<Bit>)
    requires MatchIs(dist, t, rest, after) && Used(lit, LitSymbol(t))
    ensures Codable(lit, dist, t)
    ensures CodeBits(lit, LitSymbol(t)) + after == TokenBits(lit, dist, t) + rest
  {
    hide CodeBits, LenBits, DistBits, LenSym, DistSym;
    TokenParts(lit, dist, t, [], rest);
    assert TokenBits(lit, dist, t) + [] + rest == TokenBits(lit, dist, t) + rest;
    assert [] + rest == rest;
  }

  /** The tokens that were decoded. */
  lemma {:induction false} TokensMeant(lit: seq<nat>, dist: seq<nat>, out: seq<byte>, size: nat, ahead: seq<Bit>) returns (ts: seq<Token>)
    requires |lit| <= 288 && |dist| <= 32 && |out| <= size
    requires Tokens(lit, dist, out, size, ahead).res.Success? && UsualTokens(lit, dist, ahead)
    ensures var s := Tokens(lit, dist, out, size, ahead);
      AtToken(lit, dist, ts, s.rest, ahead) && Pending(out, ts, size, s.out)
    decreases |ahead|
  {
    hide AtToken, Pending, Symbol, HasCode, Tokens, Decoding.Behind, UsualTokens, UsualMatch, MatchAt, CodeBits, CopyBack, TokenBits;
    TokensStep(lit, dist, out, size, ahead);
    UsualTokensStep(lit, dist, ahead);
    SymbolMeant(lit, ahead);
    var p := Symbol(lit, ahead);
    CodeLength(lit, p.value);
    var s := Tokens(lit, dist, out, size, ahead);
    if p.value < 256 {
      var t := Literal(p.value);
      ts := TokensMeant(lit, dist, out + [t.lit], size, p.rest);
      OneLiteral(lit, dist, t);
      TokenInFront(lit, dist, t, ts, s.rest, p.rest);
      PendingInFront(out, t, ts, size, s.out);
      ts := [t] + ts;
    } else {
      BehindStep(lit, dist, p.value, out, size, p.rest);
      if p.value == END_OF_BLOCK {
        ts := [];
        NoTokens(lit, dist, out, size, s.rest);
      } else {
        ts := MatchesMeant(lit, dist, out, size, ahead);
      }
    }
  }

  lemma OneLiteral(lit: seq<nat>, dist: seq<nat>, t: Token)
    requires t.Literal? && Used(lit, t.lit)
    ensures Codable(lit, dist, t) && TokenBits(lit, dist, t) == CodeBits(lit, t.lit)
  {
  }

  lemma NoTokens(lit: seq<nat>, dist: seq<nat>, out: seq<byte>, size: nat, rest: seq<Bit>)
    requires Used(lit, END_OF_BLOCK) && |out| <= size
    ensures AtToken(lit, dist, [], rest, CodeBits(lit, END_OF_BLOCK) + rest) && Pending(out, [], size, out)
  {
    EmptyBody(lit, dist);
  }

  lemma {:induction false} MatchesMeant(lit: seq<nat>, dist: seq<nat>, out: seq<byte>, size: nat, ahead: seq<Bit>) returns (ts: seq<Token>)
    requires |lit| <= 288 && |dist| <= 32 && |out| <= size
    requires Tokens(lit, dist, out, size, ahead).res.Success? && UsualTokens(lit, dist, ahead) && Symbol(lit, ahead).value > 256
    ensures var s := Tokens(lit, dist, out, size, ahead);
      AtToken(lit, dist, ts, s.rest, ahead) && Pending(out, ts, size, s.out)
    decreases |ahead|, 0
  {
    hide AtToken, Pending, Symbol, HasCode, Tokens, Decoding.Behind, UsualTokens, UsualMatch, MatchAt, CodeBits, CopyBack, TokenBits;
    TokensStep(lit, dist, out, size, ahead);
    UsualTokensStep(lit, dist, ahead);
    SymbolMeant(lit, ahead);
    var p := Symbol(lit, ahead);
    CodeLength(lit, p.value);
    BehindStep(lit, dist, p.value, out, size, p.rest);
    var s, q := Tokens(lit, dist, out, size, ahead), MatchAt(dist, p.value, p.rest);
    MatchMeant(lit, dist, p.value, p.rest);
    var t := Match(q.value.len, q.value.dist);
    ts := TokensMeant(lit, dist, CopyBack(out, t.dist, t.len), size, q.rest);
    MatchBits(lit, dist, t, p.rest, q.rest);
    TokenInFront(lit, dist, t, ts, s.rest, q.rest);
    PendingInFront(out, t, ts, size, s.out);
    ts := [t] + ts;
  }

  /** The operation that was decoded. */
  lemma OpMeant(cl: seq<nat>, lens: seq<nat>, ahead: seq<Bit>) returns (op: Op)
    requires |cl| == 19 && HasCode(cl, ahead) && OneOp(cl, lens, ahead).Parsed?
    ensures var p := OneOp(cl, lens, ahead);
      NextOp(cl, op, p.rest, ahead) && p.value == ApplyOp(lens, op) && (op.Repeat? ==> lens != [])
  {
    hide HasCode, Symbol, Number, CodeBits, Pow2, ToBits, Used;
    SymbolMeant(cl, ahead);
    var a := Symbol(cl, ahead);
    CodeBelow(cl, a.value, a.rest, ahead);
    if a.value < 16 {
      op := Single(a.value);
      NoExtra(0, a.rest);
    } else {
      NumberMeant(ExtraWidth(a.value), a.rest);
      var b := Number(ExtraWidth(a.value), a.rest);
      ExtraSmall(a.value, b.value);
      ExtraRange(a.value, b.value);
      var n := b.value + ExtraBase(a.value);
      op := if a.value == 16 then Repeat(n) else Zeros(n);
    }
    OpBitsAhead(cl, op, a.rest, ahead, OneOp(cl, lens, ahead).rest);
  }

  lemma CodeBelow(sizes: seq<nat>, s: nat, rest: seq<Bit>, ahead: seq<Bit>)
    requires Next(sizes, s, rest, ahead)
    ensures s < |sizes| && Used(sizes, s)
  {
  }

  lemma ExtraRange(sym: nat, v: nat)
    requires 16 <= sym <= 18 && v < Pow2(ExtraWidth(sym))
    ensures if sym == 16 then v <= 3 else if sym == 17 then v <= 7 else v <= 127
  {
    assert Pow2(2) == 4 && Pow2(3) == 8 && Pow2(7) == 128 by { assert Pow2(4) == 16; }
  }

  lemma OpBitsAhead(cl: seq<nat>, op: Op, after: seq<Bit>, ahead: seq<Bit>, rest: seq<Bit>)
    requires OpOk(op) && Next(cl, OpSymbol(op), after, ahead) && after == ToBits(OpExtra(op), ExtraWidth(OpSymbol(op))) + rest
    ensures NextOp(cl, op, rest, ahead)
  {
    hide CodeBits, ToBits, OpSymbol;
    AssocBits(CodeBits(cl, OpSymbol(op)), ToBits(OpExtra(op), ExtraWidth(OpSymbol(op))), rest);
  }

  /** The operations that were decoded, behind those that gave the lengths so far. */
  lemma {:induction false} LengthsMeant(cl: seq<nat>, lens: seq<nat>, total: nat, ahead: seq<Bit>, pre: seq<Op>) returns (ops: seq<Op>)
    requires |cl| == 19 && Lengths(cl, lens, total, ahead).Parsed? && UsualLengths(cl, lens, total, ahead)
    requires OpsCodable(cl, pre) && Sound(pre) && lens == ExpandOps(pre)
    ensures var p := Lengths(cl, lens, total, ahead);
      && OpsCodable(cl, ops) && Sound(ops) && p.value == ExpandOps(ops)
      && OpsBits(cl, pre) + ahead == OpsBits(cl, ops) + p.rest
    decreases total - |lens|
  {
    hide OneOp, Lengths, HasCode, UsualLengths, ExpandOps, Sound, OpsCodable, OpsBits, NextOp, ApplyOp;
    LengthsStep(cl, lens, total, ahead);
    UsualLengthsStep(cl, lens, total, ahead);
    if |lens| == total {
      ops := pre;
    } else {
      var op := OpMeant(cl, lens, ahead);
      var p := OneOp(cl, lens, ahead);
      OpBehind(cl, pre, op, p.rest, ahead);
      ops := LengthsMeant(cl, p.value, total, p.rest, pre + [op]);
    }
  }

  lemma OpBehind(cl: seq<nat>, pre: seq<Op>, op: Op, rest: seq<Bit>, ahead: seq<Bit>)
    requires OpsCodable(cl, pre) && Sound(pre) && NextOp(cl, op, rest, ahead) && (op.Repeat? ==> ExpandOps(pre) != [])
    ensures OpsCodable(cl, pre + [op]) && Sound(pre + [op]) && ExpandOps(pre + [op]) == ApplyOp(ExpandOps(pre), op)
    ensures OpsBits(cl, pre) + ahead == OpsBits(cl, pre + [op]) + rest
  {
    hide OpBits, OpSymbol, ApplyOp;
    assert (pre + [op])[..|pre|] == pre;
    AssocBits(OpsBits(cl, pre), OpBits(cl, op), rest);
  }

  /** The lengths of the code-length code that were decoded. */
  lemma {:induction false} ClMeant(sizes: seq<nat>, i: nat, numCl: nat, ahead: seq<Bit>)
    requires |sizes| == 19 && i <= numCl <= 19 && ClLengths(sizes, i, numCl, ahead).Parsed?
    requires (forall k :: 0 <= k < 19 ==> sizes[k] < 8) && forall k :: i <= k < 19 ==> sizes[SWIZZLE[k]] == 0
    ensures var p := ClLengths(sizes, i, numCl, ahead);
      && |p.value| == 19 && (forall k :: 0 <= k < 19 ==> p.value[k] < 8) && (forall k :: numCl <= k < 19 ==> p.value[SWIZZLE[k]] == 0)
      && ClBits(sizes, i) + ahead == ClBits(p.value, numCl) + p.rest
    decreases numCl - i
  {
    hide ClLengths, ClBits, Number, ToBits, Pow2;
    if i == numCl {
      ClLengthsEnd(sizes, numCl, ahead);
    } else {
      ClLengthsStep(sizes, i, numCl, ahead);
      NumberMeant(3, ahead);
      FourAndFive();
      var p := Number(3, ahead);
      var next := Placed(sizes, i, p.value);
      SwizzlePermutes();
      PlacedAt(sizes, i, p.value);
      ClMeant(next, i + 1, numCl, p.rest);
      ClBitsSnoc(next, i);
      SamePlaces(sizes, next, i, i);
      AssocBits(ClBits(sizes, i), ToBits(p.value, 3), p.rest);
    }
  }

  lemma PlacedAt(sizes: seq<nat>, i: nat, x: nat)
    requires |sizes| == 19 && i < 19
    ensures var next := Placed(sizes, i, x);
      next[SWIZZLE[i]] == x && forall k :: 0 <= k < 19 && k != i ==> next[SWIZZLE[k]] == sizes[SWIZZLE[k]]
  {
    SwizzlePermutes();
    forall k | 0 <= k < 19 && k != i ensures SWIZZLE[k] != SWIZZLE[i] {
      assert UNSWIZZLE[SWIZZLE[k]] == k && UNSWIZZLE[SWIZZLE[i]] == i;
    }
  }

  /** Lengths that agree on the first n places have the same bits there. */
  lemma {:induction false} SamePlaces(a: seq<nat>, b: seq<nat>, i: nat, n: nat)
    requires |a| == |b| == 19 && n <= i < 19 && forall k :: 0 <= k < 19 && k != i ==> a[SWIZZLE[k]] == b[SWIZZLE[k]]
    ensures ClBits(a, n) == ClBits(b, n)
    decreases n
  {
    hide ToBits;
    if n > 0 {
      SamePlaces(a, b, i, n - 1);
    }
  }

  lemma ClCodeMeant(numCl: nat, ahead: seq<Bit>)
    requires 4 <= numCl <= 19 && ClCode(numCl, ahead).Parsed?
    ensures var p := ClCode(numCl, ahead); ClOk(p.value, numCl) && ahead == ClBits(p.value, numCl) + p.rest
  {
    hide ClLengths, Accepted, ToBits;
    ClMeant(Copies(0, 19), 0, numCl, ahead);
    assert [] + ahead == ahead;
  }

  /** Lengths are at most 15. */
  lemma {:induction false} ExpandSmall(ops: seq<Op>)
    requires OpsOk(ops)
    ensures forall i :: 0 <= i < |ExpandOps(ops)| ==> ExpandOps(ops)[i] <= 15
  {
    if ops != [] {
      ExpandSmall(ops[..|ops| - 1]);
      assert OpOk(ops[|ops| - 1]);
    }
  }

  /** The header that was decoded. */
  lemma CodesMeant(ahead: seq<Bit>) returns (h: Header)
    requires DynamicCodes(ahead).Parsed? && UsualCodes(ahead)
    ensures var p := DynamicCodes(ahead); StartsHeader(h, p.rest, ahead) && h.lit == p.value.lit && h.dist == p.value.dist
  {
    hide ClCode, Lengths, Accepted, UsualLengths, ClOk, ClBits, OpsBits, OpsCodable, Decoding.HeaderCounts, ExpandOps, Sound, AfterCounts;
    var a := Decoding.HeaderCounts(ahead);
    var b := ClCode(a.value.cl, a.rest);
    var c := Lengths(b.value, [], a.value.lit + a.value.dist, b.rest);
    ClCodeMeant(a.value.cl, a.rest);
    NoOpsYet(b.value);
    var ops := LengthsMeant(b.value, [], a.value.lit + a.value.dist, b.rest, []);
    assert [] + b.rest == b.rest;
    h := Header(c.value[..a.value.lit], c.value[a.value.lit..], b.value, a.value.cl, ops);
    assert h.lit + h.dist == c.value;
    SizesOf(b.value, ops, h.lit, h.dist);
    assert HeaderOk(h);
    CountsMeant(ahead);
    HeaderBitsAhead(h, c.rest, ahead);
  }

  lemma NoOpsYet(cl: seq<nat>)
    ensures OpsCodable(cl, []) && Sound([]) && ExpandOps([]) == [] && OpsBits(cl, []) == []
  {
  }

  lemma SizesOf(cl: seq<nat>, ops: seq<Op>, lit: seq<nat>, dist: seq<nat>)
    requires OpsCodable(cl, ops) && ExpandOps(ops) == lit + dist && |lit| <= 286 && |dist| <= 30
    ensures Sizes(lit) && Sizes(dist)
  {
    hide ExpandOps;
    assert OpsOk(ops);
    ExpandSmall(ops);
    forall i | 0 <= i < |lit| ensures lit[i] <= 15 {
      assert (lit + dist)[i] == lit[i];
    }
    forall i | 0 <= i < |dist| ensures dist[i] <= 15 {
      assert (lit + dist)[|lit| + i] == dist[i];
    }
  }

  lemma CountsMeant(ahead: seq<Bit>)
    ensures var p := Decoding.HeaderCounts(ahead);
      p.Parsed? ==> ahead == ToBits(p.value.lit - 257, 5) + (ToBits(p.value.dist - 1, 5) + (ToBits(p.value.cl - 4, 4) + p.rest))
  {
    hide ToBits, Number;
    NumberMeant(5, ahead);
    var a := Number(5, ahead);
    if a.Parsed? {
      NumberMeant(5, a.rest);
      var b := Number(5, a.rest);
      if b.Parsed? {
        NumberMeant(4, b.rest);
      }
    }
  }

  lemma HeaderBitsAhead(h: Header, rest: seq<Bit>, ahead: seq<Bit>)
    requires HeaderOk(h)
    requires ahead == ToBits(|h.lit| - 257, 5) + (ToBits(|h.dist| - 1, 5) + (ToBits(h.numCl - 4, 4) + (ClBits(h.cl, h.numCl) + (OpsBits(h.cl, h.ops) + rest))))
    ensures StartsHeader(h, rest, ahead)
  {
    hide ToBits, ClBits, OpsBits, Accepted, Sizes, Sound;
    SplitHeader(h, rest);
  }

  /** The stored bytes that were decoded. */
  lemma {:induction false} StoredBytesMeant(n: nat, out: seq<byte>, size: nat, ahead: seq<Bit>) returns (data: seq<byte>)
    requires |out| <= size && StoredBytes(n, out, size, ahead).res.Success?
    ensures var s := StoredBytes(n, out, size, ahead);
      |data| == n && s.out == out + data && |s.out| <= size && ahead == BytesToBits(data) + s.rest
  {
    hide Number, StoredBytes, BytesToBits, ToBits, Pow2;
    BytesStep(n, out, size, ahead);
    var s := StoredBytes(n, out, size, ahead);
    if n == 0 {
      data := [];
      Readbacks.NoBytes();
      assert out + [] == out && [] + ahead == ahead;
    } else {
      NumberMeant(8, ahead);
      var p := Number(8, ahead);
      var c: byte := p.value;
      var more := StoredBytesMeant(n - 1, out + [c], size, p.rest);
      data := [c] + more;
      BytesCons(data);
      assert data[1..] == more && out + [c] + more == out + data;
      AssocBits(ToBits(c, 8), BytesToBits(more), s.rest);
    }
  }

  /** The stored block that was decoded. */
  lemma StoredMeant(pos: nat, out: seq<byte>, size: nat, ahead: seq<Bit>) returns (data: seq<byte>)
    requires |out| <= size && (pos + |ahead|) % 8 == 0 && StoredBlock(out, size, ahead).res.Success? && UsualPadding(ahead)
    ensures var s := StoredBlock(out, size, ahead);
      StoredAt(pos, data, s.rest, ahead) && s.out == out + data && |s.out| <= size
  {
    hide Number, StoredBytes, BytesToBits, ToBits, Pow2;
    PaddingAhead(pos, ahead);
    ZeroPadding(ahead);
    var a := Aligned(ahead);
    NumberMeant(16, a);
    var p := Number(16, a);
    NumberMeant(16, p.rest);
    var q := Number(16, p.rest);
    Sixteen();
    data := StoredBytesMeant(p.value, out, size, q.rest);
    var s := StoredBlock(out, size, ahead);
    FiveParts(ToBits(0, Padding(pos)), ToBits(|data|, 16), ToBits(65535 - |data|, 16), BytesToBits(data), s.rest);
  }

  lemma ZeroPadding(ahead: seq<Bit>)
    requires UsualPadding(ahead)
    ensures ahead == ToBits(0, |ahead| % 8) + Aligned(ahead)
  {
    hide ToBits;
    ZeroBits(|ahead| % 8);
    ToBitsLen(0, |ahead| % 8);
    assert ahead[..|ahead| % 8] == ToBits(0, |ahead| % 8);
  }

  /** The block that was decoded behind its type. */
  lemma ContentMeant(kind: nat, pos: nat, out: seq<byte>, size: nat, ahead: seq<Bit>) returns (b: Block)
    requires |out| <= size && (pos + |ahead|) % 8 == 0 && Content(kind, out, size, ahead).res.Success? && UsualContent(kind, ahead)
    ensures var s := Content(kind, out, size, ahead);
      BlockType(b) == kind && ContentAt(b, pos, s.rest, ahead) && Fitting(b, out, size, s.out)
  {
    hide StoredBlock, Tokens, DynamicCodes, UsualTokens, UsualCodes, UsualPadding, AtToken, StartsHeader, FixedLit, FixedDist, Pending;
    var s := Content(kind, out, size, ahead);
    if kind == 0 {
      var data := StoredMeant(pos, out, size, ahead);
      b := Stored(data);
      StoredIs(pos, data, s.rest, ahead);
    } else if kind == 1 {
      FixedFew();
      var ts := TokensMeant(FixedLit(), FixedDist(), out, size, ahead);
      b := Fixed(ts);
      FixedIs(pos, ts, s.rest, ahead);
      PendingFits(b, out, size, s.out);
    } else {
      var p := DynamicCodes(ahead);
      var h := CodesMeant(ahead);
      var ts := TokensMeant(h.lit, h.dist, out, size, p.rest);
      b := Dynamic(ts, h);
      DynamicIs(pos, ts, h, s.rest, p.rest, ahead);
      PendingFits(b, out, size, s.out);
    }
  }

  lemma PendingFits(b: Block, out: seq<byte>, size: nat, target: seq<byte>)
    requires !b.Stored? && Pending(out, b.ts, size, target)
    ensures Fitting(b, out, size, target)
  {
  }

  lemma StoredIs(pos: nat, data: seq<byte>, rest: seq<Bit>, ahead: seq<Bit>)
    requires StoredAt(pos, data, rest, ahead)
    ensures ContentAt(Stored(data), pos, rest, ahead)
  {
    hide StoredBits;
  }

  lemma FixedIs(pos: nat, ts: seq<Token>, rest: seq<Bit>, ahead: seq<Bit>)
    requires AtToken(FixedLit(), FixedDist(), ts, rest, ahead) && (pos + |ahead|) % 8 == 0
    ensures ContentAt(Fixed(ts), pos, rest, ahead)
  {
    hide AllCodable, BodyBits, FixedLit, FixedDist;
  }

  lemma DynamicIs(pos: nat, ts: seq<Token>, h: Header, rest: seq<Bit>, body: seq<Bit>, ahead: seq<Bit>)
    requires StartsHeader(h, body, ahead) && AtToken(h.lit, h.dist, ts, rest, body) && (pos + |ahead|) % 8 == 0
    ensures ContentAt(Dynamic(ts, h), pos, rest, ahead)
  {
    hide AllCodable, BodyBits, HeaderBits, HeaderOk;
    AssocBits(HeaderBits(h), BodyBits(h.lit, h.dist, ts), rest);
  }

  /** The block that was decoded. */
  lemma BlockMeant(pos: nat, out: seq<byte>, size: nat, ahead: seq<Bit>) returns (b: Block)
    requires |out| <= size && (pos + |ahead|) % 8 == 0 && OneBlock(out, size, ahead).res.Success? && UsualBlock(ahead)
    ensures var s := OneBlock(out, size, ahead);
      BlockAt(b, LastAhead(ahead), pos, s.rest, ahead) && Fitting(b, out, size, s.out)
  {
    hide Content, UsualContent, Number, ContentAt, Fitting, LastAhead, BlockAt;
    NumberMeant(3, ahead);
    LastIsLow(ahead);
    var p := Number(3, ahead);
    b := ContentMeant(p.value / 2, pos + 3, out, size, p.rest);
    TypeAhead(b, LastAhead(ahead), p.value, pos, OneBlock(out, size, ahead).rest, p.rest, ahead);
  }

  lemma TypeAhead(b: Block, final: bool, v: nat, pos: nat, rest: seq<Bit>, after: seq<Bit>, ahead: seq<Bit>)
    requires NextNumber(v, 3, after, ahead) && BlockType(b) == v / 2 && ContentAt(b, pos + 3, rest, after) && (v % 2 == 1 <==> final)
    ensures BlockAt(b, final, pos, rest, ahead)
  {
    hide ToBits, ContentBits, BlockOk, Pow2;
    var f := if final then 1 else 0;
    TypeNumber(f, BlockType(b));
    AssocBits(ToBits(f, 1) + ToBits(BlockType(b), 2), ContentBits(b, pos + 3), rest);
  }

  /** One block more. */
  lemma BlockBehind(pre: seq<Block>, b: Block, closed: bool, start: nat)
    requires StreamOk(pre, []) && BlocksOk(pre) && BlockOk(b) && BlockFits(b, |StreamExpand(pre, [])|)
    ensures StreamOk(pre + [b], []) && BlocksOk(pre + [b])
    ensures StreamExpand(pre + [b], []) == BlockExpand(b, StreamExpand(pre, []))
    ensures var at := start + |StreamBits(pre, false, start)|;
      StreamBits(pre + [b], closed, start) == StreamBits(pre, false, start) + BlockBits(b, closed, at)
  {
    hide BlockOk, BlockBits, BlockExpand;
    assert (pre + [b])[..|pre|] == pre;
  }

  /** The blocks that were decoded, behind those that gave the output so far. */
  lemma {:induction false} BlocksMeant(pre: seq<Block>, start: nat, out: seq<byte>, size: nat, ahead: seq<Bit>) returns (bs: seq<Block>)
    requires StreamOk(pre, []) && BlocksOk(pre) && out == StreamExpand(pre, []) && |out| <= size
    requires AllBlocks(out, size, ahead).res.Success? && UsualBlocks(out, size, ahead)
    requires (start + |StreamBits(pre, false, start)| + |ahead|) % 8 == 0
    ensures var s := AllBlocks(out, size, ahead);
      && bs != [] && BlocksOk(bs) && StreamOk(bs, []) && StreamExpand(bs, []) == s.out
      && StreamBits(pre, false, start) + ahead == StreamBits(bs, true, start) + s.rest
    decreases |ahead|
  {
    hide StreamOk, StreamExpand, BlocksOk, BlockOk, OneBlock, UsualBlock, LastAhead, StreamBits, BlockBits, BlockExpand, BlockFits;
    var before := StreamBits(pre, false, start);
    var pos := start + |before|;
    var b := BlockMeant(pos, out, size, ahead);
    var s, final := OneBlock(out, size, ahead), LastAhead(ahead);
    BlockBehind(pre, b, final, start);
    AssocBits(before, BlockBits(b, final, pos), s.rest);
    bs := pre + [b];
    if !final {
      bs := BlocksMeant(bs, start, s.out, size, s.rest);
    }
  }

  /** The input, its header and its blocks with the padding behind them. */
  lemma InputSplit(zlib: bool, input: seq<byte>, header: seq<byte>, blocks: seq<Bit>, rest: seq<Bit>)
    requires zlib ==> |input| >= 2 && header == input[..2]
    requires Start(zlib, input) == blocks + rest && UsualPadding(rest) && |rest| <= 8 * |input|
    ensures var at := PlaceOf(input, rest);
      var front := Head(zlib, header) + blocks;
      at <= |input| && BytesToBits(input[..at]) == front + ToBits(0, Padding(|front|)) && (|front| + |rest|) % 8 == 0
  {
    hide BytesToBits, ToBits;
    var at := PlaceOf(input, rest);
    var front := Head(zlib, header) + blocks;
    HeadAndStart(zlib, input, header);
    ZeroPadding(rest);
    assert |front| + |rest| == 8 * |input|;
    PaddingAhead(|front|, rest);
    var pad := ToBits(0, Padding(|front|));
    AssocBits(Head(zlib, header), blocks, rest);
    AssocBits(front, pad, Aligned(rest));
    assert BytesToBits(input) == (front + pad) + Aligned(rest);
    FrontBytes(input, at);
    assert |front + pad| == 8 * at;
  }

  lemma HeadAndStart(zlib: bool, input: seq<byte>, header: seq<byte>)
    requires zlib ==> |input| >= 2 && header == input[..2]
    ensures BytesToBits(input) == Head(zlib, header) + Start(zlib, input)
  {
    hide BytesToBits;
    if zlib {
      assert input == input[..2] + input[2..];
      BytesToBitsAppend(input[..2], input[2..]);
    } else {
      assert [] + BytesToBits(input) == BytesToBits(input);
    }
  }

  lemma FrontBytes(input: seq<byte>, at: nat)
    requires at <= |input|
    ensures BytesToBits(input)[..8 * at] == BytesToBits(input[..at])
  {
    hide BytesToBits;
    assert input == input[..at] + input[at..];
    BytesToBitsAppend(input[..at], input[at..]);
  }

  /** The stream that was decompressed. */
  lemma StreamMeant(zlib: bool, input: seq<byte>, size: nat) returns (header: seq<byte>, bs: seq<Block>, body: seq<byte>, trailing: seq<byte>)
    requires Decompressed(zlib, input, size).res.Success? && Usual(zlib, input, size)
    ensures Given(zlib, header, bs, body, trailing, input, size)
  {
    hide BytesToBits, ToBits, StreamOk, StreamExpand, BlocksOk, Pow2, Padding, AllBlocks, UsualBlocks, UsualPadding, Checked, StreamBits,
      HeaderFits, PlaceOf, Head, Adler, AdlerBytes, Start;
    header := if zlib then input[..2] else [];
    var start := |Head(zlib, header)|;
    var ahead := Start(zlib, input);
    NothingYet(start);
    HeadAndStart(zlib, input, header);
    bs := BlocksMeant([], start, [], size, ahead);
    var s := AllBlocks([], size, ahead);
    assert [] + ahead == ahead;
    InputSplit(zlib, input, header, StreamBits(bs, true, start), s.rest);
    var at := PlaceOf(input, s.rest);
    body, trailing := EndMeant(zlib, input, s.out, at);
    WholeBody(zlib, header, bs, body, input, at, s.out);
  }

  lemma NothingYet(start: nat)
    ensures StreamOk([], []) && BlocksOk([]) && StreamExpand([], []) == [] && StreamBits([], false, start) == []
  {
  }

  /** The stream's bytes and those behind it. */
  lemma EndMeant(zlib: bool, input: seq<byte>, out: seq<byte>, at: nat) returns (body: seq<byte>, trailing: seq<byte>)
    requires at <= |input| && Checked(zlib, input, out, at).res.Success?
    ensures input == body + trailing
    ensures body == input[..at] + (if zlib then AdlerBytes(Adler(ADLER_INIT, out)) else [])
  {
    hide Adler, AdlerBytes;
    var end := if zlib then at + 4 else at;
    body, trailing := input[..end], input[end..];
    if zlib {
      assert input[..at + 4] == input[..at] + input[at..at + 4];
    }
  }

  lemma WholeBody(zlib: bool, header: seq<byte>, bs: seq<Block>, body: seq<byte>, input: seq<byte>, at: nat, out: seq<byte>)
    requires bs != [] && BlocksOk(bs) && StreamOk(bs, []) && HeaderGood(zlib, header) && StreamExpand(bs, []) == out && at <= |input|
    requires var front := Framed(zlib, header, bs); BytesToBits(input[..at]) == front + ToBits(0, Padding(|front|))
    requires body == input[..at] + (if zlib then AdlerBytes(Adler(ADLER_INIT, out)) else [])
    ensures WholeStream(zlib, header, bs, body)
  {
    hide BytesToBits, ToBits, StreamOk, StreamExpand, BlocksOk, Padding, Framed, HeaderGood, Adler, AdlerBytes;
    var front := Framed(zlib, header, bs);
    var sum := if zlib then AdlerBytes(Adler(ADLER_INIT, out)) else [];
    BytesToBitsAppend(input[..at], sum);
    AssocBits(front, ToBits(0, Padding(|front|)), BytesToBits(sum));
    Readbacks.NoBytes();
  }

  /**
   * The decompressor succeeds on an input that keeps to the format exactly if a well-formed stream stands at its
   * front, whose output fits the buffer.
   */
  lemma StreamExact(zlib: bool, input: seq<byte>, size: nat)
    ensures Decompressed(zlib, input, size).res.Success? && Usual(zlib, input, size)
      <==> exists header: seq<byte>, bs: seq<Block>, body: seq<byte>, trailing: seq<byte> :: Given(zlib, header, bs, body, trailing, input, size)
  {
    hide Given, Usual, Decompressed;
    if Decompressed(zlib, input, size).res.Success? {
      LongEnough(zlib, input, size);
      if Usual(zlib, input, size) {
        var header, bs, body, trailing := StreamMeant(zlib, input, size);
      }
    }
    if header: seq<byte>, bs: seq<Block>, body: seq<byte>, trailing: seq<byte> :| Given(zlib, header, bs, body, trailing, input, size) {
      StreamRead(zlib, header, bs, body, trailing, input, size);
    }
  }

  lemma LongEnough(zlib: bool, input: seq<byte>, size: nat)
    requires Decompressed(zlib, input, size).res.Success?
    ensures zlib ==> |input| >= 2
  {
  }
}
