/**
 * What an encoder meant is what is decoded: the bits of numbers, codes, tokens and
 * whole blocks, read back by the bitwise form of the decoder.
 */
module Readbacks {
  import opened Bits
  import opened BitIO
  import opened Lz
  import opened Symbols
  import opened TokenBuffers
  import opened Canonical
  import opened Trie
  import opened HuffTables
  import opened HuffDecoders
  import opened CodeLengths
  import opened Blocks
  import opened FixedBlocks
  import opened Decoding
  import opened TableReaders
  import opened StoredReaders
  import opened Inflaters
  import opened Usuals

  /** The bits ahead start with the code of s. */
  ghost predicate Next(sizes: seq<nat>, s: nat, rest: seq<Bit>, ahead: seq<Bit>) {
    Used(sizes, s) && ahead == CodeBits(sizes, s) + rest
  }

  lemma SymbolRead(sizes: seq<nat>, s: nat, rest: seq<Bit>, ahead: seq<Bit>)
    requires Accepted(sizes) && Next(sizes, s, rest, ahead)
    ensures HasCode(sizes, ahead) && Symbol(sizes, ahead) == Parsed(s, rest)
  {
    hide CodeBits, Accepted, KraftOk;
    AcceptedFits(sizes);
    assert Starts(sizes, s, ahead);
    CodeLength(sizes, s);
    var t: nat :| Starts(sizes, t, ahead) && Symbol(sizes, ahead) == Parsed(t, ahead[sizes[t]..]);
    OneStarts(sizes, ahead, s, t);
    assert ahead[sizes[s]..] == rest;
  }

  lemma CodeLength(sizes: seq<nat>, s: nat)
    requires Used(sizes, s)
    ensures |CodeBits(sizes, s)| == sizes[s]
  {
  }

  /** The bits ahead start with the n bits of x. */
  predicate NextNumber(x: nat, n: nat, rest: seq<Bit>, ahead: seq<Bit>) {
    x < Pow2(n) && ahead == ToBits(x, n) + rest
  }

  lemma NumberRead(x: nat, n: nat, rest: seq<Bit>, ahead: seq<Bit>)
    requires NextNumber(x, n, rest, ahead)
    ensures Number(n, ahead) == Parsed(x, rest)
  {
    hide Pow2;
    FromToBits(x, n);
    assert ahead[..n] == ToBits(x, n) && ahead[n..] == rest;
  }

  /** What the header's counts announce. */
  ghost predicate StartsHeader(h: Header, rest: seq<Bit>, ahead: seq<Bit>) {
    HeaderOk(h) && ahead == HeaderBits(h) + rest
  }

  ghost function AfterCounts(h: Header, rest: seq<Bit>): seq<Bit>
    requires HeaderOk(h)
  {
    ClBits(h.cl, h.numCl) + (OpsBits(h.cl, h.ops) + rest)
  }

  lemma SplitHeader(h: Header, rest: seq<Bit>)
    requires HeaderOk(h)
    ensures HeaderBits(h) + rest
      == ToBits(|h.lit| - 257, 5) + (ToBits(|h.dist| - 1, 5) + (ToBits(h.numCl - 4, 4) + AfterCounts(h, rest)))
    ensures |h.lit| - 257 < Pow2(5) && |h.dist| - 1 < Pow2(5) && h.numCl - 4 < Pow2(4)
  {
    hide ToBits, ClBits, OpsBits, Accepted, Sizes, Sound;
    FourAndFive();
    var a, b, c := ToBits(|h.lit| - 257, 5), ToBits(|h.dist| - 1, 5), ToBits(h.numCl - 4, 4);
    var d, e := ClBits(h.cl, h.numCl), OpsBits(h.cl, h.ops);
    assert a + b + c + d + e + rest == a + (b + (c + (d + (e + rest))));
  }

  lemma CountsRead(h: Header, rest: seq<Bit>, ahead: seq<Bit>)
    requires StartsHeader(h, rest, ahead)
    ensures Decoding.HeaderCounts(ahead) == Parsed(Counts(|h.lit|, |h.dist|, h.numCl), AfterCounts(h, rest))
  {
    hide ToBits, ClBits, OpsBits, Accepted, Sizes, Sound, Pow2, HeaderBits, AfterCounts, Number;
    SplitHeader(h, rest);
    var r2 := AfterCounts(h, rest);
    var r1 := ToBits(h.numCl - 4, 4) + r2;
    var r0 := ToBits(|h.dist| - 1, 5) + r1;
    NumberRead(|h.lit| - 257, 5, r0, ahead);
    NumberRead(|h.dist| - 1, 5, r1, r0);
    NumberRead(h.numCl - 4, 4, r2, r1);
  }

  lemma {:induction false} ClBitsLength(cl: seq<nat>, n: nat)
    requires |cl| == 19 && n <= 19
    ensures |ClBits(cl, n)| == 3 * n
  {
    if n > 0 {
      ClBitsLength(cl, n - 1);
    }
  }

  lemma {:induction false} ClBitsPrefix(cl: seq<nat>, i: nat, n: nat)
    requires |cl| == 19 && i <= n <= 19
    ensures ClBits(cl, i) <= ClBits(cl, n)
  {
    if i < n {
      ClBitsPrefix(cl, i, n - 1);
    }
  }

  /** The lengths from place i on. */
  function ClRest(cl: seq<nat>, i: nat, n: nat): seq<Bit>
    requires |cl| == 19 && i <= n <= 19
  {
    ClBitsLength(cl, n);
    ClBits(cl, n)[3 * i..]
  }

  lemma ClRestStep(cl: seq<nat>, i: nat, n: nat)
    requires |cl| == 19 && i < n <= 19
    ensures ClRest(cl, i, n) == ToBits(cl[SWIZZLE[i]], 3) + ClRest(cl, i + 1, n)
  {
    hide ToBits, ClBits;
    ClBitsLength(cl, n);
    ClBitsLength(cl, i);
    ClBitsPrefix(cl, i + 1, n);
    assert ClBits(cl, i + 1) == ClBits(cl, i) + ToBits(cl[SWIZZLE[i]], 3) by { ClBitsSnoc(cl, i); }
    DropStep(ClBits(cl, n), ClBits(cl, i), ToBits(cl[SWIZZLE[i]], 3));
  }

  lemma ClBitsSnoc(cl: seq<nat>, i: nat)
    requires |cl| == 19 && i < 19
    ensures ClBits(cl, i + 1) == ClBits(cl, i) + ToBits(cl[SWIZZLE[i]], 3)
  {
  }

  lemma DropStep(all: seq<Bit>, p: seq<Bit>, b: seq<Bit>)
    requires p + b <= all
    ensures all[|p|..] == b + all[|p| + |b|..]
  {
    assert all[..|p| + |b|] == p + b;
    assert all == p + b + all[|p| + |b|..];
  }

  /** Where each symbol of the code-length alphabet stands in the sending order. */
  const UNSWIZZLE: seq<nat> := [3, 17, 15, 13, 11, 9, 7, 5, 4, 6, 8, 10, 12, 14, 16, 18, 0, 1, 2]

  lemma SwizzlePermutes()
    ensures forall v :: 0 <= v < 19 ==> UNSWIZZLE[v] < 19 && SWIZZLE[UNSWIZZLE[v]] == v
    ensures forall i :: 0 <= i < 19 ==> SWIZZLE[i] < 19 && UNSWIZZLE[SWIZZLE[i]] == i
  {
  }

  /** The lengths read so far, at their places. */
  ghost predicate ClRead(sizes: seq<nat>, cl: seq<nat>, i: nat) {
    |cl| == 19 && |sizes| >= 19 && i <= 19 && forall k :: 0 <= k < 19 ==> sizes[SWIZZLE[k]] == if k < i then cl[SWIZZLE[k]] else 0
  }

  lemma ClReadStep(sizes: seq<nat>, cl: seq<nat>, i: nat)
    requires ClRead(sizes, cl, i) && i < 19
    ensures ClRead(Placed(sizes, i, cl[SWIZZLE[i]]), cl, i + 1)
  {
    SwizzlePermutes();
    var after := Placed(sizes, i, cl[SWIZZLE[i]]);
    forall k | 0 <= k < 19 ensures after[SWIZZLE[k]] == if k < i + 1 then cl[SWIZZLE[k]] else 0 {
      if SWIZZLE[k] == SWIZZLE[i] {
        assert UNSWIZZLE[SWIZZLE[k]] == k && UNSWIZZLE[SWIZZLE[i]] == i;
      }
    }
  }

  lemma ClReadAll(sizes: seq<nat>, cl: seq<nat>, numCl: nat)
    requires ClRead(sizes, cl, numCl) && forall i :: numCl <= i < 19 ==> cl[SWIZZLE[i]] == 0
    ensures sizes[..19] == cl
  {
    SwizzlePermutes();
    forall v | 0 <= v < 19 ensures sizes[v] == cl[v] {
      assert sizes[SWIZZLE[UNSWIZZLE[v]]] == cl[SWIZZLE[UNSWIZZLE[v]]];
    }
  }

  /** Between two of the lengths of the code-length code. */
  ghost predicate AtLength(cl: seq<nat>, numCl: nat, tail: seq<Bit>, i: nat, sizes: seq<nat>, ahead: seq<Bit>) {
    |cl| == 19 && i <= numCl <= 19 && ClOk(cl, numCl) && ClRead(sizes, cl, i) && ahead == ClRest(cl, i, numCl) + tail
  }

  lemma FirstLength(cl: seq<nat>, numCl: nat, tail: seq<Bit>, sizes: seq<nat>)
    requires ClOk(cl, numCl) && |sizes| >= 19 && forall j :: 0 <= j < 19 ==> sizes[j] == 0
    ensures AtLength(cl, numCl, tail, 0, sizes, ClBits(cl, numCl) + tail)
  {
    hide ToBits, Accepted, ClBits;
    SwizzlePermutes();
    ClBitsLength(cl, numCl);
    assert ClRest(cl, 0, numCl) == ClBits(cl, numCl);
  }

  lemma NextLength(cl: seq<nat>, numCl: nat, tail: seq<Bit>, i: nat, sizes: seq<nat>, ahead: seq<Bit>) returns (x: nat, after: seq<Bit>)
    requires AtLength(cl, numCl, tail, i, sizes, ahead) && i < numCl
    ensures NextNumber(x, 3, after, ahead) && x < 8 && AtLength(cl, numCl, tail, i + 1, Placed(sizes, i, x), after)
  {
    hide ToBits, ClRest, ClRead, Pow2, ClOk;
    ClSizes(cl, numCl, i);
    assert Pow2(3) == 8 by { FourAndFive(); }
    ClRestStep(cl, i, numCl);
    ClReadStep(sizes, cl, i);
    x := cl[SWIZZLE[i]];
    after := ClRest(cl, i + 1, numCl) + tail;
    AssocBits(ToBits(x, 3), ClRest(cl, i + 1, numCl), tail);
  }

  lemma AssocBits(a: seq<Bit>, b: seq<Bit>, c: seq<Bit>)
    ensures a + b + c == a + (b + c)
  {
  }

  lemma ClSizes(cl: seq<nat>, numCl: nat, i: nat)
    requires ClOk(cl, numCl) && i < 19
    ensures |cl| == 19 && SWIZZLE[i] < 19 && cl[SWIZZLE[i]] < 8
  {
    hide Accepted;
  }

  lemma LastLength(cl: seq<nat>, numCl: nat, tail: seq<Bit>, sizes: seq<nat>, ahead: seq<Bit>)
    requires AtLength(cl, numCl, tail, numCl, sizes, ahead)
    ensures sizes[..19] == cl && ahead == tail
  {
    hide ToBits, Accepted, ClBits;
    ClReadAll(sizes, cl, numCl);
    ClBitsLength(cl, numCl);
    assert ClRest(cl, numCl, numCl) == [];
    assert [] + tail == tail;
  }

  lemma {:induction false} LengthsCodeRead(cl: seq<nat>, numCl: nat, tail: seq<Bit>, i: nat, sizes: seq<nat>, ahead: seq<Bit>)
    requires AtLength(cl, numCl, tail, i, sizes, ahead) && |sizes| == 19
    ensures ClLengths(sizes, i, numCl, ahead) == Parsed(cl, tail)
    decreases numCl - i
  {
    hide AtLength, NextNumber, ClLengths, Number;
    LengthPlaces(cl, numCl, tail, i, sizes, ahead);
    if i == numCl {
      LastLength(cl, numCl, tail, sizes, ahead);
      ClLengthsEnd(sizes, numCl, ahead);
      assert sizes[..19] == sizes;
    } else {
      var x, after := NextLength(cl, numCl, tail, i, sizes, ahead);
      NumberRead(x, 3, after, ahead);
      ClLengthsStep(sizes, i, numCl, ahead);
      LengthsCodeRead(cl, numCl, tail, i + 1, Placed(sizes, i, x), after);
    }
  }

  lemma LengthPlaces(cl: seq<nat>, numCl: nat, tail: seq<Bit>, i: nat, sizes: seq<nat>, ahead: seq<Bit>)
    requires AtLength(cl, numCl, tail, i, sizes, ahead)
    ensures i <= numCl <= 19
  {
  }

  lemma ClCodeRead(cl: seq<nat>, numCl: nat, tail: seq<Bit>)
    requires ClOk(cl, numCl)
    ensures numCl <= 19 && |cl| == 19 && ClCode(numCl, ClBits(cl, numCl) + tail) == Parsed(cl, tail)
  {
    hide ClBits, Accepted, AtLength, ClLengths;
    FirstLength(cl, numCl, tail, Copies(0, 19));
    LengthsCodeRead(cl, numCl, tail, 0, Copies(0, 19), ClBits(cl, numCl) + tail);
  }

  /** The bits ahead start with operation op. */
  ghost predicate NextOp(cl: seq<nat>, op: Op, rest: seq<Bit>, ahead: seq<Bit>) {
    OpOk(op) && Used(cl, OpSymbol(op)) && ahead == OpBits(cl, op) + rest
  }

  lemma OpRead(cl: seq<nat>, op: Op, rest: seq<Bit>, ahead: seq<Bit>, lens: seq<nat>)
    requires |cl| == 19 && Accepted(cl) && NextOp(cl, op, rest, ahead) && (op.Repeat? ==> lens != [])
    ensures HasCode(cl, ahead) && OneOp(cl, lens, ahead) == Parsed(ApplyOp(lens, op), rest)
  {
    hide ToBits, CodeBits, Pow2, Accepted, Symbol, Number, HasCode;
    var s, e := OpSymbol(op), OpExtra(op);
    var extra := ToBits(e, ExtraWidth(s)) + rest;
    AssocBits(CodeBits(cl, s), ToBits(e, ExtraWidth(s)), rest);
    SymbolRead(cl, s, extra, ahead);
    if s >= 16 {
      NumberRead(e, ExtraWidth(s), rest, extra);
    } else {
      NoExtra(e, rest);
    }
  }

  lemma NoExtra(e: nat, rest: seq<Bit>)
    ensures ToBits(e, 0) + rest == rest
  {
  }

  lemma {:induction false} ExpandOpsGrows(ops: seq<Op>, j: nat)
    requires OpsOk(ops) && j < |ops|
    ensures ExpandOps(ops[..j + 1]) == ApplyOp(ExpandOps(ops[..j]), ops[j])
    ensures |ExpandOps(ops[..j])| < |ExpandOps(ops[..j + 1])| <= |ExpandOps(ops)|
    ensures Sound(ops) ==> ops[j].Repeat? ==> ExpandOps(ops[..j]) != []
  {
    assert ops[..j + 1][..j] == ops[..j];
    assert OpOk(ops[j]);
    if j == |ops| - 1 {
      assert ops[..j + 1] == ops;
    } else {
      var t := ops[..|ops| - 1];
      ExpandOpsGrows(t, j);
      assert t[..j + 1] == ops[..j + 1] && t[..j] == ops[..j] && t[j] == ops[j];
    }
  }

  /** Between two operations of a well-formed list. */
  ghost predicate AtOp(cl: seq<nat>, ops: seq<Op>, rest: seq<Bit>, j: nat, lens: seq<nat>, ahead: seq<Bit>) {
    && j <= |ops| && Sound(ops) && OpsCodable(cl, ops) && OpsCodable(cl, ops[j..])
    && lens == ExpandOps(ops[..j]) && ahead == OpsBits(cl, ops[j..]) + rest
  }

  lemma OpAhead(cl: seq<nat>, ops: seq<Op>, rest: seq<Bit>, j: nat, lens: seq<nat>, ahead: seq<Bit>, total: nat)
    returns (op: Op, after: seq<Bit>)
    requires AtOp(cl, ops, rest, j, lens, ahead) && |lens| < total == |ExpandOps(ops)|
    ensures j < |ops| && op == ops[j] && NextOp(cl, op, after, ahead) && (op.Repeat? ==> |lens| > 0)
    ensures |ApplyOp(lens, op)| <= total && AtOp(cl, ops, rest, j + 1, ApplyOp(lens, op), after)
  {
    hide ToBits, CodeBits, OpSymbol, ExpandOps, OpsBits, ApplyOp, Sound, OpBits;
    assert ops[..|ops|] == ops;
    assert OpsOk(ops);
    op := ops[j];
    ExpandOpsGrows(ops, j);
    OpsBitsCons(cl, ops[j..]);
    assert ops[j..][1..] == ops[j + 1..] && ops[j..][0] == op;
    after := OpsBits(cl, ops[j + 1..]) + rest;
    AssocBits(OpBits(cl, op), OpsBits(cl, ops[j + 1..]), rest);
  }

  lemma AllOps(cl: seq<nat>, ops: seq<Op>, rest: seq<Bit>, j: nat, lens: seq<nat>, ahead: seq<Bit>)
    requires AtOp(cl, ops, rest, j, lens, ahead) && |lens| == |ExpandOps(ops)|
    ensures j == |ops| && lens == ExpandOps(ops) && ahead == rest
  {
    assert ops[..|ops|] == ops;
    if j < |ops| {
      ExpandOpsGrows(ops, j);
    }
  }

  lemma {:induction false} LengthsRead(cl: seq<nat>, ops: seq<Op>, rest: seq<Bit>, j: nat, lens: seq<nat>, ahead: seq<Bit>, total: nat)
    requires |cl| == 19 && Accepted(cl) && AtOp(cl, ops, rest, j, lens, ahead) && |lens| <= total == |ExpandOps(ops)|
    ensures Lengths(cl, lens, total, ahead) == Parsed(ExpandOps(ops), rest) && UsualLengths(cl, lens, total, ahead)
    decreases total - |lens|
  {
    hide AtOp, ApplyOp, ExpandOps, NextOp, OneOp, Accepted, Lengths, HasCode, UsualLengths;
    LengthsStep(cl, lens, total, ahead);
    UsualLengthsStep(cl, lens, total, ahead);
    if |lens| == total {
      AllOps(cl, ops, rest, j, lens, ahead);
    } else {
      var op, after := OpAhead(cl, ops, rest, j, lens, ahead, total);
      OpRead(cl, op, after, ahead, lens);
      LengthsRead(cl, ops, rest, j + 1, ApplyOp(lens, op), after, total);
    }
  }

  lemma HeaderParts(h: Header, rest: seq<Bit>)
    requires HeaderOk(h)
    ensures ClOk(h.cl, h.numCl) && |h.cl| == 19 && h.numCl <= 19 && OpsCodable(h.cl, h.ops)
    ensures AfterCounts(h, rest) == ClBits(h.cl, h.numCl) + (OpsBits(h.cl, h.ops) + rest)
    ensures AtOp(h.cl, h.ops, rest, 0, [], OpsBits(h.cl, h.ops) + rest)
    ensures |ExpandOps(h.ops)| == |h.lit| + |h.dist| && ExpandOps(h.ops) == h.lit + h.dist
    ensures Accepted(h.lit) && Accepted(h.dist)
  {
    hide ToBits, OpsBits, ClBits, Sizes, Accepted;
    assert h.ops[0..] == h.ops && h.ops[..0] == [];
  }

  lemma CodesRead(h: Header, rest: seq<Bit>, ahead: seq<Bit>)
    requires StartsHeader(h, rest, ahead)
    ensures DynamicCodes(ahead) == Parsed(Codes(h.lit, h.dist), rest) && UsualCodes(ahead)
  {
    hide ToBits, OpsBits, ClBits, Sizes, Accepted, HeaderOk, HeaderBits, AfterCounts, AtOp, ExpandOps, OpsCodable, ClOk,
      Decoding.HeaderCounts, ClCode, Lengths, UsualLengths;
    CountsRead(h, rest, ahead);
    HeaderParts(h, rest);
    HeaderSizes(h);
    var tail := OpsBits(h.cl, h.ops) + rest;
    ClCodeRead(h.cl, h.numCl, tail);
    LengthsRead(h.cl, h.ops, rest, 0, [], tail, |h.lit| + |h.dist|);
    var all := h.lit + h.dist;
    assert all[..|h.lit|] == h.lit && all[|h.lit|..] == h.dist;
  }

  lemma HeaderSizes(h: Header)
    requires HeaderOk(h)
    ensures |h.lit| <= 286 && |h.dist| <= 30 && Accepted(h.cl)
  {
    hide Accepted, Sizes, OpsCodable;
  }

  /** Between two tokens of a block whose bits are ahead. */
  ghost predicate AtToken(lit: seq<nat>, dist: seq<nat>, ts: seq<Token>, rest: seq<Bit>, ahead: seq<Bit>) {
    AllCodable(lit, dist, ts) && Used(lit, END_OF_BLOCK) && ahead == BodyBits(lit, dist, ts) + rest
  }

  /** Behind a match's length symbol. */
  ghost predicate AtMatch(lit: seq<nat>, dist: seq<nat>, ts: seq<Token>, rest: seq<Bit>, ahead: seq<Bit>) {
    && ts != [] && ts[0].Match? && Codable(lit, dist, ts[0]) && AllCodable(lit, dist, ts[1..]) && Used(lit, END_OF_BLOCK)
    && ahead == LenBits(ts[0].len) + (CodeBits(dist, DistSym(ts[0].dist - 1))
                                      + (DistBits(ts[0].dist) + (BodyBits(lit, dist, ts[1..]) + rest)))
  }

  lemma BodyCons(lit: seq<nat>, dist: seq<nat>, ts: seq<Token>)
    requires AllCodable(lit, dist, ts) && Used(lit, END_OF_BLOCK) && ts != []
    ensures Codable(lit, dist, ts[0]) && AllCodable(lit, dist, ts[1..])
    ensures BodyBits(lit, dist, ts) == TokenBits(lit, dist, ts[0]) + BodyBits(lit, dist, ts[1..])
  {
    hide TokenBits, TokensBits, Codable, CodeBits;
    TokensBitsCons(lit, dist, ts);
    AssocBits(TokenBits(lit, dist, ts[0]), TokensBits(lit, dist, ts[1..]), CodeBits(lit, END_OF_BLOCK));
  }

  /** The next literal/length symbol of a well-formed block, and what follows it. */
  lemma SymbolAhead(lit: seq<nat>, dist: seq<nat>, ts: seq<Token>, rest: seq<Bit>, ahead: seq<Bit>)
    returns (s: nat, after: seq<Bit>)
    requires AtToken(lit, dist, ts, rest, ahead)
    ensures Next(lit, s, after, ahead)
    ensures ts == [] ==> s == END_OF_BLOCK && after == rest
    ensures ts != [] && ts[0].Literal? ==> s == ts[0].lit && AtToken(lit, dist, ts[1..], rest, after)
    ensures ts != [] && ts[0].Match? ==>
      InRange(ts[0]) && s == LenSym(ts[0].len - MIN_MATCH_LEN) && AtMatch(lit, dist, ts, rest, after)
  {
    hide TokenBits, BodyBits, CodeBits, LenBits, DistBits, LenSym, DistSym;
    if ts == [] {
      s, after := END_OF_BLOCK, rest;
      EmptyBody(lit, dist);
    } else {
      BodyCons(lit, dist, ts);
      s := LitSymbol(ts[0]);
      var body := BodyBits(lit, dist, ts[1..]);
      TokenParts(lit, dist, ts[0], body, rest);
      if ts[0].Literal? {
        after := body + rest;
      } else {
        after := LenBits(ts[0].len) + (CodeBits(dist, DistSym(ts[0].dist - 1)) + (DistBits(ts[0].dist) + (body + rest)));
      }
    }
  }

  lemma EmptyBody(lit: seq<nat>, dist: seq<nat>)
    requires Used(lit, END_OF_BLOCK)
    ensures AllCodable(lit, dist, []) && BodyBits(lit, dist, []) == CodeBits(lit, END_OF_BLOCK)
  {
  }

  lemma TokenParts(lit: seq<nat>, dist: seq<nat>, t: Token, body: seq<Bit>, rest: seq<Bit>)
    requires Codable(lit, dist, t)
    ensures t.Literal? ==> TokenBits(lit, dist, t) + body + rest == CodeBits(lit, t.lit) + (body + rest)
    ensures t.Match? ==>
      TokenBits(lit, dist, t) + body + rest
      == CodeBits(lit, LitSymbol(t)) + (LenBits(t.len) + (CodeBits(dist, DistSym(t.dist - 1)) + (DistBits(t.dist) + (body + rest))))
  {
    hide CodeBits, LenBits, DistBits, LenSym, DistSym;
    if t.Match? {
      var a, b, c, d := CodeBits(lit, LitSymbol(t)), LenBits(t.len), CodeBits(dist, DistSym(t.dist - 1)), DistBits(t.dist);
      assert a + b + c + d + body + rest == a + (b + (c + (d + (body + rest))));
    } else {
      AssocBits(CodeBits(lit, t.lit), body, rest);
    }
  }

  /** The output and the tokens still ahead give target, and it fits. */
  ghost predicate Pending(out: seq<byte>, ts: seq<Token>, size: nat, target: seq<byte>) {
    WellFormed(ts, |out|) && |out| + TotalLen(ts) <= size && Expand(ts, out) == target
  }

  /** Decoding goes on behind the first token. */
  lemma TokenPending(out: seq<byte>, ts: seq<Token>, size: nat, target: seq<byte>)
    requires Pending(out, ts, size, target) && ts != []
    ensures Fits(ts[0], |out|) && |out| + TokenLen(ts[0]) <= size && Pending(Apply(out, ts[0]), ts[1..], size, target)
  {
    hide TokenLen, Apply, Fits;
    assert ts == [ts[0]] + ts[1..];
    WellFormedSplit([ts[0]], ts[1..], |out|);
    OneToken(ts[0], out);
    ExpandAppend([ts[0]], ts[1..], out);
    TotalLenAppend([ts[0]], ts[1..]);
  }

  lemma OneToken(t: Token, base: seq<byte>)
    requires WellFormed([t], |base|)
    ensures Fits(t, |base|) && TotalLen([t]) == TokenLen(t) && Expand([t], base) == Apply(base, t)
  {
    assert [t][..0] == [];
  }

  /** What the decoder adds to the base of a length symbol. */
  ghost predicate LengthSplits(len: nat, x: nat, tail: seq<Bit>, ahead: seq<Bit>)
    requires MIN_MATCH_LEN <= len <= MAX_MATCH_LEN
  {
    var i := LenSym(len - MIN_MATCH_LEN) - 257;
    NextNumber(x, LENGTH_EXTRA[i], tail, ahead) && LENGTH_BASE[i] + x == len
  }

  ghost predicate DistSplits(dist: nat, y: nat, tail: seq<Bit>, ahead: seq<Bit>)
    requires 1 <= dist <= DICT_SIZE
  {
    var s := DistSym(dist - 1);
    NextNumber(y, DIST_EXTRA[s], tail, ahead) && DIST_BASE[s] + y == dist
  }

  lemma LengthAhead(len: nat, tail: seq<Bit>) returns (x: nat)
    requires MIN_MATCH_LEN <= len <= MAX_MATCH_LEN
    ensures LengthSplits(len, x, tail, LenBits(len) + tail)
  {
    hide LenSym, LenExtra, Pow2, ToBits;
    var l: byte := len - MIN_MATCH_LEN;
    LengthCodeRoundTrip(l);
    x := Low(l, LenExtra(l));
  }

  lemma DistAhead(dist: nat, tail: seq<Bit>) returns (y: nat)
    requires 1 <= dist <= DICT_SIZE
    ensures DistSplits(dist, y, tail, DistBits(dist) + tail)
  {
    hide DistSym, DistExtra, Pow2, ToBits;
    DistCodeRoundTrip(dist - 1);
    y := Low(dist - 1, DistExtra(dist - 1));
  }

  /** What the parts mean, one by one. */
  lemma PartsRead(dist: seq<nat>, sym: nat, s: nat, x: nat, y: nat, ahead: seq<Bit>, after1: seq<Bit>, after2: seq<Bit>, after3: seq<Bit>)
    requires 257 <= sym <= 285 && s < 30 && Accepted(dist) && |dist| <= 32
    requires NextNumber(x, LENGTH_EXTRA[sym - 257], after1, ahead) && Next(dist, s, after2, after1) && NextNumber(y, DIST_EXTRA[s], after3, after2)
    requires sym == 284 ==> LENGTH_BASE[27] + x != 258
    ensures MatchAt(dist, sym, ahead) == Parsed(Copy(LENGTH_BASE[sym - 257] + x, DIST_BASE[s] + y), after3) && UsualMatch(dist, sym, ahead)
  {
    hide Accepted, Symbol, Number, HasCode, Pow2, Next, NextNumber;
    NumberRead(x, LENGTH_EXTRA[sym - 257], after1, ahead);
    SymbolRead(dist, s, after2, after1);
    NumberRead(y, DIST_EXTRA[s], after3, after2);
    BehindNumber(LENGTH_EXTRA[sym - 257], ahead);
  }

  /** A match is read back behind its length symbol. */
  lemma MatchRead(lit: seq<nat>, dist: seq<nat>, ts: seq<Token>, rest: seq<Bit>, ahead: seq<Bit>) returns (after: seq<Bit>)
    requires AtMatch(lit, dist, ts, rest, ahead) && Accepted(dist) && |dist| <= 32
    ensures AtToken(lit, dist, ts[1..], rest, after) && InRange(ts[0])
    ensures var sym := LenSym(ts[0].len - MIN_MATCH_LEN);
      MatchAt(dist, sym, ahead) == Parsed(Copy(ts[0].len, ts[0].dist), after) && UsualMatch(dist, sym, ahead)
  {
    hide Accepted, LenSym, DistSym, Pow2, AtMatch, AtToken, Next, NextNumber, MatchAt, UsualMatch;
    var x, after1, after2, y, behind := MatchAhead(lit, dist, ts, rest, ahead);
    after := behind;
    var len, d := ts[0].len, ts[0].dist;
    var s, sym := DistSym(d - 1), LenSym(len - MIN_MATCH_LEN);
    LongestLength(len);
    PartsRead(dist, sym, s, x, y, ahead, after1, after2, after);
  }

  /** The parts of a match behind its length symbol, and what they mean. */
  lemma MatchAhead(lit: seq<nat>, dist: seq<nat>, ts: seq<Token>, rest: seq<Bit>, ahead: seq<Bit>)
    returns (x: nat, after1: seq<Bit>, after2: seq<Bit>, y: nat, after3: seq<Bit>)
    requires AtMatch(lit, dist, ts, rest, ahead)
    ensures ts != [] && ts[0].Match? && InRange(ts[0]) && AtToken(lit, dist, ts[1..], rest, after3)
    ensures LengthSplits(ts[0].len, x, after1, ahead) && Next(dist, DistSym(ts[0].dist - 1), after2, after1)
    ensures DistSplits(ts[0].dist, y, after3, after2)
  {
    hide BodyBits, CodeBits, LenSym, DistSym, LenBits, DistBits, LengthSplits, DistSplits;
    after3 := BodyBits(lit, dist, ts[1..]) + rest;
    after2 := DistBits(ts[0].dist) + after3;
    after1 := CodeBits(dist, DistSym(ts[0].dist - 1)) + after2;
    x := LengthAhead(ts[0].len, after1);
    y := DistAhead(ts[0].dist, after3);
  }

  lemma BehindNumber(n: nat, ahead: seq<Bit>)
    ensures var p := Number(n, ahead); p.Parsed? ==> n <= |ahead| && p.rest == ahead[n..]
  {
  }

  /** The longest match has a symbol of its own. */
  lemma LongestLength(len: nat)
    requires MIN_MATCH_LEN <= len <= MAX_MATCH_LEN
    ensures LenSym(len - MIN_MATCH_LEN) <= 285 && (LenSym(len - MIN_MATCH_LEN) == 284 ==> len != 258)
  {
  }

  /** The tokens of a block are read back, and put out what they mean. */
  lemma {:induction false} TokensRead(lit: seq<nat>, dist: seq<nat>, ts: seq<Token>, rest: seq<Bit>, ahead: seq<Bit>,
                                      out: seq<byte>, size: nat, target: seq<byte>)
    requires Accepted(lit) && Accepted(dist) && |lit| <= 288 && |dist| <= 32 && |out| <= size
    requires AtToken(lit, dist, ts, rest, ahead) && Pending(out, ts, size, target)
    ensures Tokens(lit, dist, out, size, ahead) == State(target, rest, Success) && UsualTokens(lit, dist, ahead)
    decreases |ts|
  {
    hide AtToken, AtMatch, Pending, Accepted, Symbol, HasCode, Tokens, Decoding.Behind, UsualTokens, UsualMatch, MatchAt, LenSym, CopyBack;
    var s, after := SymbolAhead(lit, dist, ts, rest, ahead);
    SymbolRead(lit, s, after, ahead);
    TokensStep(lit, dist, out, size, ahead);
    UsualTokensStep(lit, dist, ahead);
    FirstToken(out, ts, size, target);
    if ts == [] {
      BehindStep(lit, dist, s, out, size, after);
    } else if ts[0].Literal? {
      TokensRead(lit, dist, ts[1..], rest, after, out + [ts[0].lit], size, target);
    } else {
      var behind := MatchRead(lit, dist, ts, rest, after);
      BehindStep(lit, dist, s, out, size, after);
      TokensRead(lit, dist, ts[1..], rest, behind, CopyBack(out, ts[0].dist, ts[0].len), size, target);
    }
  }

  /** What the tokens still to come say about the output now. */
  lemma FirstToken(o: seq<byte>, ts: seq<Token>, size: nat, target: seq<byte>)
    requires Pending(o, ts, size, target)
    ensures ts == [] ==> o == target
    ensures ts != [] && ts[0].Literal? ==> |o| < size && Pending(o + [ts[0].lit], ts[1..], size, target)
    ensures ts != [] && ts[0].Match? ==>
      && 1 <= ts[0].dist <= |o| && |o| + ts[0].len <= size
      && Pending(CopyBack(o, ts[0].dist, ts[0].len), ts[1..], size, target)
  {
    if ts != [] {
      TokenPending(o, ts, size, target);
    }
  }

  /** A stored block behind its type, at bit position pos. */
  ghost predicate StoredAt(pos: nat, data: seq<byte>, rest: seq<Bit>, ahead: seq<Bit>) {
    |data| < 65536 && (pos + |ahead|) % 8 == 0 && ahead == StoredBits(data, pos) + rest
  }

  /** A stored block is read back. */
  lemma StoredRead(pos: nat, data: seq<byte>, rest: seq<Bit>, ahead: seq<Bit>, out: seq<byte>, size: nat)
    requires StoredAt(pos, data, rest, ahead) && |out| + |data| <= size
    ensures StoredBlock(out, size, ahead) == State(out + data, rest, Success) && UsualPadding(ahead)
  {
    hide ToBits, BytesToBits, Number, StoredBytes, Pow2;
    var a, b, c, d := ToBits(0, Padding(pos)), ToBits(|data|, 16), ToBits(65535 - |data|, 16), BytesToBits(data);
    var behind := c + (d + rest);
    FiveParts(a, b, c, d, rest);
    PaddingAhead(pos, ahead);
    assert Aligned(ahead) == b + behind;
    Sixteen();
    NumberRead(|data|, 16, behind, b + behind);
    NumberRead(65535 - |data|, 16, d + rest, behind);
    StoredBytesRead(data, rest, out, size);
    ZeroBits(Padding(pos));
    assert ahead[..|ahead| % 8] == a;
  }

  lemma PaddingAhead(pos: nat, ahead: seq<Bit>)
    requires (pos + |ahead|) % 8 == 0
    ensures Padding(pos) == |ahead| % 8
  {
  }

  lemma Sixteen()
    ensures Pow2(16) == 65536
  {
    PowEight();
    Pow2Add(8, 8);
  }

  lemma {:induction false} ZeroBits(n: nat)
    ensures forall i :: 0 <= i < n ==> !ToBits(0, n)[i]
  {
    if n > 0 {
      ZeroBits(n - 1);
    }
  }

  lemma {:induction false} StoredBytesRead(data: seq<byte>, rest: seq<Bit>, out: seq<byte>, size: nat)
    requires |out| + |data| <= size
    ensures StoredBytes(|data|, out, size, BytesToBits(data) + rest) == State(out + data, rest, Success)
  {
    hide ToBits, BytesToBits, Number, StoredBytes, Pow2;
    var ahead := BytesToBits(data) + rest;
    BytesStep(|data|, out, size, ahead);
    if data == [] {
      assert ahead == rest && out + data == out by { NoBytes(); }
    } else {
      var after := BytesToBits(data[1..]) + rest;
      BytesCons(data);
      AssocBits(ToBits(data[0], 8), BytesToBits(data[1..]), rest);
      PowEight();
      NumberRead(data[0], 8, after, ahead);
      StoredBytesRead(data[1..], rest, out + [data[0]], size);
      assert out + [data[0]] + data[1..] == out + data;
    }
  }

  lemma NoBytes()
    ensures BytesToBits([]) == []
  {
  }

  lemma FiveParts(a: seq<Bit>, b: seq<Bit>, c: seq<Bit>, d: seq<Bit>, e: seq<Bit>)
    ensures a + b + c + d + e == a + (b + (c + (d + e)))
  {
  }
  /** A block at bit position pos is ahead. */
  ghost predicate BlockAt(b: Block, final: bool, pos: nat, rest: seq<Bit>, ahead: seq<Bit>) {
    BlockOk(b) && (pos + |ahead|) % 8 == 0 && ahead == BlockBits(b, final, pos) + rest
  }

  ghost predicate ContentAt(b: Block, pos: nat, rest: seq<Bit>, ahead: seq<Bit>) {
    BlockOk(b) && (pos + |ahead|) % 8 == 0 && ahead == ContentBits(b, pos) + rest
  }

  lemma ContentStored(b: Block, pos: nat, rest: seq<Bit>, ahead: seq<Bit>)
    ensures ContentAt(b, pos, rest, ahead) && b.Stored? ==> StoredAt(pos, b.data, rest, ahead)
  {
    hide ToBits, BytesToBits;
  }

  /** The header of a dynamic block, and the bits of the block's tokens. */
  lemma ContentParts(b: Block, pos: nat, rest: seq<Bit>, ahead: seq<Bit>) returns (h: Header, body: seq<Bit>)
    ensures ContentAt(b, pos, rest, ahead) && b.Fixed? ==> AtToken(FixedLit(), FixedDist(), b.ts, rest, ahead)
    ensures ContentAt(b, pos, rest, ahead) && b.Dynamic? ==>
      h == b.header && StartsHeader(h, body, ahead) && AtToken(h.lit, h.dist, b.ts, rest, body)
  {
    hide HeaderBits, BodyBits, HeaderOk, AllCodable;
    h, body := Header([], [], [], 0, []), [];
    if ContentAt(b, pos, rest, ahead) {
      if b.Dynamic? {
        h := b.header;
        body := BodyBits(h.lit, h.dist, b.ts) + rest;
        AssocBits(HeaderBits(h), BodyBits(h.lit, h.dist, b.ts), rest);
      }
      assert Used(FixedLit(), END_OF_BLOCK);
    }
  }

  /** Final flag and type, read as one number. */
  lemma BlockParts(b: Block, final: bool, pos: nat, rest: seq<Bit>, ahead: seq<Bit>) returns (v: nat, after: seq<Bit>)
    requires BlockAt(b, final, pos, rest, ahead)
    ensures NextNumber(v, 3, after, ahead) && (v % 2 == 1 <==> final) && v / 2 == BlockType(b) && ContentAt(b, pos + 3, rest, after)
  {
    hide ToBits, ContentBits, BlockOk, Pow2;
    var f := if final then 1 else 0;
    v := f + 2 * BlockType(b);
    after := ContentBits(b, pos + 3) + rest;
    TypeNumber(f, BlockType(b));
    AssocBits(ToBits(f, 1) + ToBits(BlockType(b), 2), ContentBits(b, pos + 3), rest);
  }

  lemma TypeNumber(f: nat, t: nat)
    requires f < 2 && t < 4
    ensures f + 2 * t < Pow2(3) && ToBits(f + 2 * t, 3) == ToBits(f, 1) + ToBits(t, 2)
  {
    assert Pow2(1) == 2 && Pow2(2) == 4 && Pow2(3) == 8;
    ToBitsJoin(f, 1, t, 2);
  }

  /** The output, continued by block b, gives target. */
  ghost predicate Fitting(b: Block, out: seq<byte>, size: nat, target: seq<byte>) {
    BlockFits(b, |out|) && BlockExpand(b, out) == target && |target| <= size
  }

  /** A block is read back behind its type. */
  lemma ContentRead(b: Block, pos: nat, rest: seq<Bit>, ahead: seq<Bit>, out: seq<byte>, size: nat, target: seq<byte>)
    requires |out| <= size && ContentAt(b, pos, rest, ahead) && Fitting(b, out, size, target)
    ensures Content(BlockType(b), out, size, ahead) == State(target, rest, Success) && UsualContent(BlockType(b), ahead)
  {
    hide ContentAt, StoredBlock, Tokens, DynamicCodes, UsualTokens, UsualCodes, AtToken, StartsHeader, Accepted, FixedLit, FixedDist, UsualPadding;
    ContentStored(b, pos, rest, ahead);
    if b.Stored? {
      StoredRead(pos, b.data, rest, ahead, out, size);
    } else {
      var h, body := ContentParts(b, pos, rest, ahead);
      assert Pending(out, b.ts, size, target);
      if b.Fixed? {
        FixedAccepted();
        FixedFew();
        TokensRead(FixedLit(), FixedDist(), b.ts, rest, ahead, out, size, target);
      } else {
        CodesRead(h, body, ahead);
        CodesAccepted(h, body, ahead);
        TokensRead(h.lit, h.dist, b.ts, rest, body, out, size, target);
      }
    }
  }

  lemma CodesAccepted(h: Header, rest: seq<Bit>, ahead: seq<Bit>)
    requires StartsHeader(h, rest, ahead)
    ensures Accepted(h.lit) && Accepted(h.dist) && |h.lit| <= 288 && |h.dist| <= 32
  {
    hide Accepted, Sizes, OpsCodable, HeaderBits;
  }

  lemma FixedFew()
    ensures |FixedLit()| == 288 && |FixedDist()| == 32
  {
  }

  /** A whole block is read back. */
  lemma BlockRead(b: Block, final: bool, pos: nat, rest: seq<Bit>, ahead: seq<Bit>, out: seq<byte>, size: nat, target: seq<byte>)
    requires |out| <= size && BlockAt(b, final, pos, rest, ahead) && Fitting(b, out, size, target)
    ensures OneBlock(out, size, ahead) == State(target, rest, Success) && UsualBlock(ahead) && LastAhead(ahead) == final
  {
    hide BlockAt, ContentAt, Fitting, Content, UsualContent, Number, LastAhead;
    var v, after := BlockParts(b, final, pos, rest, ahead);
    NumberRead(v, 3, after, ahead);
    LastIsLow(ahead);
    ContentRead(b, pos + 3, rest, after, out, size, target);
  }
}
