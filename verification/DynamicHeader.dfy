/**
 * The header of a dynamic block: Huffman codes for the recorded tokens, their
 * lengths packed and sent through a third code (RFC 1951, section 3.2.7).
 */
module DynamicHeaders {
  import opened Bits
  import opened BitIO
  import opened Lz
  import opened Symbols
  import opened TokenBuffers
  import opened Canonical
  import opened HuffmanTree
  import opened TreeBound
  import opened Gathering
  import opened CodeCosts
  import opened BlockSizes
  import opened CodeTables
  import opened CodeLengths
  import opened HuffTables
  import opened Blocks
  import opened BlockWriters

  /** Symbols behind the last one with a code do not matter. */
  lemma {:induction false} CountTrim(sizes: seq<nat>, k: nat, l: nat)
    requires k <= |sizes| && l >= 1 && forall i :: k <= i < |sizes| ==> sizes[i] == 0
    ensures Count(sizes[..k], l) == Count(sizes, l)
  {
    if k == |sizes| {
      assert sizes[..k] == sizes;
    } else {
      var t := sizes[..|sizes| - 1];
      CountTrim(t, k, l);
      assert t[..k] == sizes[..k];
    }
  }

  lemma {:induction false} FirstCodeTrim(sizes: seq<nat>, k: nat, l: nat)
    requires k <= |sizes| && l >= 1 && forall i :: k <= i < |sizes| ==> sizes[i] == 0
    ensures FirstCode(sizes[..k], l) == FirstCode(sizes, l)
    ensures CodeEnd(sizes[..k], l) == CodeEnd(sizes, l)
  {
    CountTrim(sizes, k, l);
    if l > 1 {
      FirstCodeTrim(sizes, k, l - 1);
    }
  }

  lemma CodeBitsTrim(sizes: seq<nat>, k: nat, s: nat)
    requires s < k <= |sizes| && sizes[s] >= 1 && forall i :: k <= i < |sizes| ==> sizes[i] == 0
    ensures CodeBits(sizes[..k], s) == CodeBits(sizes, s)
  {
    FirstCodeTrim(sizes, k, sizes[s]);
    assert sizes[..k][..s] == sizes[..s];
  }

  lemma {:induction false} UsedCountIs(sizes: seq<nat>, counts: seq<nat>)
    requires |sizes| == |counts|
    requires forall s :: 0 <= s < |sizes| ==> sizes[s] <= MAX_CODE_SIZE && (sizes[s] != 0 <==> counts[s] != 0)
    ensures UsedCount(sizes) == UsedSymbols(counts)
  {
    if sizes == [] {
      CountRangeEmpty(0, MAX_CODE_SIZE);
    } else {
      var n := |sizes| - 1;
      assert sizes == sizes[..n] + [sizes[n]] by { hide *; }
      UsedCountIs(sizes[..n], counts[..n]);
      CountRangeSnoc(sizes[..n], sizes[n], 0, MAX_CODE_SIZE);
    }
  }

  lemma {:induction false} UsedSymbolsPrefix(counts: seq<nat>, k: nat)
    requires k <= |counts|
    ensures UsedSymbols(counts[..k]) <= UsedSymbols(counts)
  {
    if k == |counts| {
      assert counts[..k] == counts;
    } else {
      UsedSymbolsPrefix(counts[..|counts| - 1], k);
      assert counts[..|counts| - 1][..k] == counts[..k];
    }
  }

  /** The lengths chosen for some counts, cut behind the last code, are accepted by the decoder. */
  lemma TrimmedAccepted(sizes: seq<nat>, counts: seq<nat>, limit: nat, k: nat)
    requires GoodLengths(sizes, counts, limit) && limit <= MAX_CODE_SIZE
    requires k <= |sizes| <= MAX_HUFF_SYMBOLS && forall i :: k <= i < |sizes| ==> sizes[i] == 0
    ensures Sizes(sizes[..k]) && Accepted(sizes[..k])
  {
    hide UsedCount, UsedSymbols, FirstCode, Count, Pow2;
    if UsedSymbols(counts) >= 2 {
      FirstCodeTrim(sizes, k, MAX_CODE_SIZE);
    } else {
      UsedCountIs(sizes[..k], counts[..k]);
      UsedSymbolsPrefix(counts, k);
    }
  }

  /** A table for n symbols also writes the codes of the first k, when the others are unused. */
  lemma WritesTrimmed(table: CodeTable, n: nat, k: nat)
    requires table.Shape() && k <= n <= MAX_SYMBOLS && table.AllCoded(n)
    requires forall i :: k <= i < n ==> table.sizes[i] == 0
    ensures Writes(table, table.sizes[..k])
  {
    hide CodeBits, Pow2, ToBits;
    var sizes := table.sizes[..n];
    assert sizes[..k] == table.sizes[..k];
    forall s | 0 <= s < k ensures Coded(table.sizes[..k], table.codes[..k], s) {
      assert Coded(sizes, table.codes[..n], s);
      if sizes[s] >= 1 {
        CodeBitsTrim(sizes, k, s);
      }
    }
  }

  lemma {:induction false} SumBump(s: seq<nat>, i: nat, v: nat)
    requires i < |s|
    ensures Sum(s[i := v]) == Sum(s) - s[i] + v
  {
    if i == 0 {
      assert s[i := v][1..] == s[1..];
    } else {
      SumBump(s[1..], i - 1, v);
      assert s[i := v][1..] == s[1..][i - 1 := v];
    }
  }

  lemma {:induction false} AllZeroSum(s: seq<nat>)
    requires forall i :: 0 <= i < |s| ==> s[i] == 0
    ensures Sum(s) == 0
  {
    if s != [] {
      AllZeroSum(s[1..]);
    }
  }

  lemma {:induction false} LitCountSum(c: seq<nat>, ts: seq<Token>)
    requires AllInRange(ts) && |c| == 288 && forall s :: 0 <= s < |c| ==> c[s] == LitOccurs(ts, s)
    ensures Sum(c) == |ts|
    decreases |ts|
  {
    hide LitSymbol, Sum;
    if ts == [] {
      AllZeroSum(c);
    } else {
      var t := ts[..|ts| - 1];
      var sym := LitSymbol(ts[|ts| - 1]);
      assert LitOccurs(ts, sym) == LitOccurs(t, sym) + 1;
      var c' := c[sym := c[sym] - 1];
      forall s | 0 <= s < 288 ensures c'[s] == LitOccurs(t, s) {
        assert LitOccurs(ts, s) == LitOccurs(t, s) + (if sym == s then 1 else 0);
      }
      LitCountSum(c', t);
      SumBump(c, sym, c[sym] - 1);
    }
  }

  lemma {:induction false} DistCountSum(c: seq<nat>, ts: seq<Token>)
    requires AllInRange(ts) && |c| == 32 && forall s :: 0 <= s < |c| ==> c[s] == DistOccurs(ts, s)
    ensures Sum(c) <= |ts|
    decreases |ts|
  {
    hide DistSym, Sum, InRange;
    if ts == [] {
      AllZeroSum(c);
    } else {
      var t, x := ts[..|ts| - 1], ts[|ts| - 1];
      assert InRange(x);
      forall s: nat | s < 32 ensures DistOccurs(ts, s) == DistOccurs(t, s) + (if UsesDist(x, s) then 1 else 0) {
      }
      if x.Match? {
        MatchDistOk(x);
        var sym := DistSym(x.dist - 1);
        assert UsesDist(x, sym);
        var c' := c[sym := c[sym] - 1];
        DistCountSum(c', t);
        SumBump(c, sym, c[sym] - 1);
      } else {
        DistCountSum(c, t);
      }
    }
  }

  lemma MatchDistOk(t: Token)
    requires InRange(t) && t.Match?
    ensures 1 <= t.dist <= DICT_SIZE
  {
  }

  lemma {:induction false} OpCountSum(c: seq<nat>, ops: seq<Op>)
    requires OpsOk(ops) && |c| == 19 && forall s :: 0 <= s < |c| ==> c[s] == OpOccurs(ops, s)
    ensures Sum(c) == |ops|
    decreases |ops|
  {
    hide OpSymbol, Sum;
    if ops == [] {
      AllZeroSum(c);
    } else {
      var t := ops[..|ops| - 1];
      var sym := OpSymbol(ops[|ops| - 1]);
      assert OpOccurs(ops, sym) == OpOccurs(t, sym) + 1;
      var c' := c[sym := c[sym] - 1];
      forall s | 0 <= s < 19 ensures c'[s] == OpOccurs(t, s) {
        assert OpOccurs(ops, s) == OpOccurs(t, s) + (if sym == s then 1 else 0);
      }
      OpCountSum(c', t);
      SumBump(c, sym, c[sym] - 1);
    }
  }

  lemma {:induction false} LitOccursAt(ts: seq<Token>, i: nat)
    requires AllInRange(ts) && i < |ts|
    ensures LitOccurs(ts, LitSymbol(ts[i])) > 0
  {
    hide LitSymbol;
    if i < |ts| - 1 {
      LitOccursAt(ts[..|ts| - 1], i);
    }
  }

  lemma {:induction false} DistOccursAt(ts: seq<Token>, i: nat)
    requires AllInRange(ts) && i < |ts| && ts[i].Match?
    ensures DistOccurs(ts, DistSym(ts[i].dist - 1)) > 0
  {
    hide DistSym;
    if i < |ts| - 1 {
      DistOccursAt(ts[..|ts| - 1], i);
    }
  }

  lemma {:induction false} OpOccursAt(ops: seq<Op>, i: nat)
    requires OpsOk(ops) && i < |ops|
    ensures OpOccurs(ops, OpSymbol(ops[i])) > 0
  {
    hide OpSymbol;
    if i < |ops| - 1 {
      OpOccursAt(ops[..|ops| - 1], i);
    }
  }

  /** Symbols that no token uses. */
  lemma {:induction false} NotOccurring(ts: seq<Token>)
    requires AllInRange(ts)
    ensures LitOccurs(ts, 256) == 0 && LitOccurs(ts, 286) == 0 && LitOccurs(ts, 287) == 0
    ensures DistOccurs(ts, 30) == 0 && DistOccurs(ts, 31) == 0
  {
    if ts != [] {
      NotOccurring(ts[..|ts| - 1]);
      assert InRange(ts[|ts| - 1]);
    }
  }

  /** The two codes of the block body: acceptable to the decoder, with a code for everything recorded. */
  ghost predicate Chosen(lit: seq<nat>, dist: seq<nat>, ts: seq<Token>) {
    && 257 <= |lit| <= 286 && 1 <= |dist| <= 30
    && Sizes(lit) && Sizes(dist) && Accepted(lit) && Accepted(dist)
    && AllCodable(lit, dist, ts) && Used(lit, END_OF_BLOCK)
  }

  lemma ChosenCodable(lit: seq<nat>, dist: seq<nat>, ts: seq<Token>, litSizes: seq<nat>, distSizes: seq<nat>, litCount: seq<nat>, distCount: seq<nat>)
    requires AllInRange(ts) && |litSizes| == |litCount| == 288 && |distSizes| == |distCount| == 32
    requires |lit| <= 288 && lit == litSizes[..|lit|] && forall s :: |lit| <= s < 288 ==> litSizes[s] == 0
    requires |dist| <= 32 && dist == distSizes[..|dist|] && forall s :: |dist| <= s < 32 ==> distSizes[s] == 0
    requires GoodLengths(litSizes, litCount, MAX_CODE_SIZE) && GoodLengths(distSizes, distCount, MAX_CODE_SIZE)
    requires forall s :: 0 <= s < 288 ==> s != END_OF_BLOCK ==> litCount[s] == LitOccurs(ts, s)
    requires forall s :: 0 <= s < 32 ==> distCount[s] == DistOccurs(ts, s)
    ensures AllCodable(lit, dist, ts)
  {
    hide LitSymbol, DistSym, LitOccurs, DistOccurs, Complete;
    forall i | 0 <= i < |ts| ensures Codable(lit, dist, ts[i]) {
      LitOccursAt(ts, i);
      assert litSizes[LitSymbol(ts[i])] != 0;
      if ts[i].Match? {
        DistOccursAt(ts, i);
        assert distSizes[DistSym(ts[i].dist - 1)] != 0;
      }
    }
  }

  /** The counters with the end-of-block symbol added. */
  lemma EndCounted(lit: seq<nat>, dist: seq<nat>, ts: seq<Token>, lit': seq<nat>)
    requires Counted(lit, dist, ts) && lit' == lit[END_OF_BLOCK := 1] && |ts| < 65535
    ensures Sum(lit') < 65536 && Sum(dist[..32]) < 65536
    ensures lit'[286] == 0 && lit'[287] == 0 && dist[30] == 0 && dist[31] == 0
    ensures forall s :: 0 <= s < 288 ==> s != END_OF_BLOCK ==> lit'[s] == LitOccurs(ts, s)
    ensures forall s :: 0 <= s < 32 ==> dist[..32][s] == DistOccurs(ts, s)
  {
    hide LitOccurs, DistOccurs, Sum;
    NotOccurring(ts);
    LitCountSum(lit, ts);
    DistCountSum(dist[..32], ts);
    SumBump(lit, END_OF_BLOCK, 1);
  }

  /** Nothing unused stands at the end, unless the format wants so many lengths. */
  predicate Cut(sizes: seq<nat>, least: nat) {
    |sizes| == least || (|sizes| > least && sizes[|sizes| - 1] != 0)
  }

  /** The counters of a block: everything recorded, and the end of the block once. */
  function EndedCounts(ts: seq<Token>): (c: seq<nat>)
    requires AllInRange(ts)
  {
    LitCounts(ts)[END_OF_BLOCK := 1]
  }

  function OpCounts(ops: seq<Op>): (c: seq<nat>)
    requires OpsOk(ops)
    ensures |c| == 19 && forall s :: 0 <= s < 19 ==> c[s] == OpOccurs(ops, s)
  {
    seq(19, s requires 0 <= s < 19 => OpOccurs(ops, s))
  }

  function Padded(sizes: seq<nat>, n: nat): (r: seq<nat>)
    requires |sizes| <= n
    ensures |r| == n
  {
    sizes + Copies(0, n - |sizes|)
  }

  /** The two codes sent: made for what was recorded, and without unused lengths behind them. */
  ghost predicate MadeFor(lit: seq<nat>, dist: seq<nat>, ts: seq<Token>) {
    && AllInRange(ts) && |lit| <= 288 && |dist| <= 32 && Cut(lit, 257) && Cut(dist, 1)
    && GoodLengths(Padded(lit, 288), EndedCounts(ts), MAX_CODE_SIZE) && Cheap(Padded(lit, 288), EndedCounts(ts))
    && GoodLengths(Padded(dist, 32), DistCounts(ts), MAX_CODE_SIZE) && Cheap(Padded(dist, 32), DistCounts(ts))
  }

  /** The code for the operations: made for them, and cut behind the last length in the order of sending. */
  ghost predicate MadeForOps(cl: seq<nat>, numCl: nat, ops: seq<Op>) {
    OpsOk(ops) && GoodLengths(cl, OpCounts(ops), 7) && |cl| == 19 && 4 <= numCl <= 19 && (numCl == 4 || LastSent(cl, numCl) != 0)
  }

  /** The last of the lengths sent, in the order of sending. */
  function LastSent(cl: seq<nat>, numCl: nat): nat
    requires |cl| == 19 && 1 <= numCl <= 19
  {
    cl[SWIZZLE[numCl - 1]]
  }

  /** The header a block gets. */
  ghost predicate HeaderFor(h: Header, ts: seq<Token>) {
    MadeFor(h.lit, h.dist, ts) && h.ops == PackedOps(h.lit + h.dist) && MadeForOps(h.cl, h.numCl, h.ops)
  }

  lemma PaddedIs(sizes: seq<nat>, k: nat, n: nat)
    requires k <= n == |sizes| && forall i :: k <= i < n ==> sizes[i] == 0
    ensures Padded(sizes[..k], n) == sizes
  {
  }

  /** Cuts the unused symbols off the end, but leaves at least lo. */
  method TrimTail(sizes: array<nat>, hi: nat, lo: nat) returns (k: nat)
    requires 1 <= lo <= hi <= sizes.Length
    ensures lo <= k <= hi && (forall i :: k <= i < hi ==> sizes[i] == 0) && Cut(sizes[..k], lo)
  {
    k := hi;
    while k > lo
      invariant lo <= k <= hi && forall i :: k <= i < hi ==> sizes[i] == 0
    {
      if sizes[k - 1] != 0 {
        break;
      }
      k := k - 1;
    }
  }

  /** One code: lengths and codes for the counters, and how many symbols to send. */
  method ChooseCode(table: CodeTable, counts: array<nat>, n: nat, hi: nat, lo: nat) returns (k: nat)
    requires table.Shape() && counts !in {table.sizes, table.codes}
    requires 1 <= lo <= hi <= n <= MAX_SYMBOLS && n <= counts.Length && Sum(counts[..n]) < 65536
    requires forall s :: hi <= s < n ==> counts[s] == 0
    modifies table.sizes, table.codes
    ensures lo <= k <= hi && Sizes(table.sizes[..k]) && Accepted(table.sizes[..k]) && Writes(table, table.sizes[..k])
    ensures GoodLengths(table.sizes[..n], counts[..n], MAX_CODE_SIZE) && Cheap(table.sizes[..n], counts[..n])
    ensures (forall s :: k <= s < n ==> table.sizes[s] == 0) && Cut(table.sizes[..k], lo)
  {
    hide Sum, Pow2, Accepted, Writes, Coded, Complete, UsedSymbols, Cheap;
    EnoughCodes(n);
    table.Optimize(counts, n, MAX_CODE_SIZE);
    ghost var sizes, cs := table.sizes[..n], counts[..n];
    forall s | hi <= s < n ensures table.sizes[s] == 0 {
      assert sizes[s] != 0 <==> cs[s] != 0;
    }
    k := TrimTail(table.sizes, hi, lo);
    TrimmedAccepted(sizes, cs, MAX_CODE_SIZE, k);
    assert sizes[..k] == table.sizes[..k];
    WritesTrimmed(table, n, k);
  }

  lemma EnoughCodes(n: nat)
    requires n <= MAX_SYMBOLS
    ensures n <= Pow2(MAX_CODE_SIZE)
  {
    assert Pow2(9) == 512 by { assert Pow2(5) == 32; }
    Pow2Monotone(9, MAX_CODE_SIZE);
  }

  /** The codes for literals and lengths, and for distances. */
  method ChooseCodes(tb: TokenBuffer, lt: CodeTable, dt: CodeTable, ghost ts: seq<Token>) returns (numLit: nat, numDist: nat)
    requires lt.Shape() && dt.Shape() && TablesApart(lt, dt)
    requires tb.litCount !in {lt.sizes, lt.codes, dt.sizes, dt.codes} && tb.distCount !in {lt.sizes, lt.codes, dt.sizes, dt.codes}
    requires Counted(tb.litCount[..], tb.distCount[..], ts) && tb.litCount != tb.distCount && |ts| < 65535
    modifies tb.litCount, lt.sizes, lt.codes, dt.sizes, dt.codes
    ensures numLit <= 286 && numDist <= 30 && Chosen(lt.sizes[..numLit], dt.sizes[..numDist], ts)
    ensures MadeFor(lt.sizes[..numLit], dt.sizes[..numDist], ts)
    ensures Writes(lt, lt.sizes[..numLit]) && Writes(dt, dt.sizes[..numDist])
    ensures End(ts) <= LZ_CODE_BUF_SIZE ==> |BodyBits(lt.sizes[..numLit], dt.sizes[..numDist], ts)| <= BODY_LIMIT
  {
    hide Sum, Accepted, Writes, LitOccurs, DistOccurs, GoodLengths, Sizes, AllCodable, Cheap, BodyBits, End, Used, MadeFor, Cut;
    assert tb.litCount.Length == 288 && tb.distCount.Length == 288;
    ghost var lit0 := tb.litCount[..];
    tb.litCount[END_OF_BLOCK] := 1;
    ghost var lit1, dist1 := tb.litCount[..], tb.distCount[..32];
    assert tb.litCount[..288] == lit1;
    EndCounted(lit0, tb.distCount[..], ts, lit1);
    numLit := ChooseCode(lt, tb.litCount, 288, 286, 257);
    numDist := ChooseCode(dt, tb.distCount, 32, 30, 1);
    ghost var lit, dist := lt.sizes[..numLit], dt.sizes[..numDist];
    ghost var ls, ds := lt.sizes[..288], dt.sizes[..32];
    assert lit == ls[..numLit] && dist == ds[..numDist];
    ChosenCodable(lit, dist, ts, ls, ds, lit1, dist1);
    CodesMade(lit, dist, ts, ls, ds, lit0, tb.distCount[..], lit1, dist1);
    EndUsed(ls, lit1, lit);
    if End(ts) <= LZ_CODE_BUF_SIZE {
      ChosenShort(lit, dist, ts, ls, ds, lit0, tb.distCount[..], lit1, dist1);
    }
  }

  lemma CodesMade(lit: seq<nat>, dist: seq<nat>, ts: seq<Token>, ls: seq<nat>, ds: seq<nat>,
                  lit0: seq<nat>, dist0: seq<nat>, lit1: seq<nat>, dist1: seq<nat>)
    requires |ls| == 288 && |ds| == 32 && |lit| <= 288 && lit == ls[..|lit|] && |dist| <= 32 && dist == ds[..|dist|]
    requires (forall s :: |lit| <= s < 288 ==> ls[s] == 0) && forall s :: |dist| <= s < 32 ==> ds[s] == 0
    requires Counted(lit0, dist0, ts) && lit1 == lit0[END_OF_BLOCK := 1] && dist1 == dist0[..32]
    requires GoodLengths(ls, lit1, MAX_CODE_SIZE) && GoodLengths(ds, dist1, MAX_CODE_SIZE) && Cheap(ls, lit1) && Cheap(ds, dist1)
    requires Cut(lit, 257) && Cut(dist, 1)
    ensures MadeFor(lit, dist, ts)
  {
    hide LitOccurs, DistOccurs, Cheap, GoodLengths, Cut;
    NotOccurring(ts);
    assert lit0 == LitCounts(ts) && dist1 == DistCounts(ts);
    PaddedIs(ls, |lit|, 288);
    PaddedIs(ds, |dist|, 32);
  }

  /** The chosen codes keep the block short. */
  lemma ChosenShort(lit: seq<nat>, dist: seq<nat>, ts: seq<Token>, ls: seq<nat>, ds: seq<nat>,
                    lit0: seq<nat>, dist0: seq<nat>, lit1: seq<nat>, dist1: seq<nat>)
    requires AllCodable(lit, dist, ts) && Used(lit, END_OF_BLOCK) && |ls| == 288 && |ds| == 32
    requires |lit| <= 288 && lit == ls[..|lit|] && |dist| <= 32 && dist == ds[..|dist|]
    requires Counted(lit0, dist0, ts) && lit1 == lit0[END_OF_BLOCK := 1] && dist1 == dist0[..32]
    requires Cheap(ls, lit1) && Cheap(ds, dist1) && End(ts) <= LZ_CODE_BUF_SIZE
    ensures |BodyBits(lit, dist, ts)| <= BODY_LIMIT
  {
    hide Sum, LitOccurs, DistOccurs, AllCodable, Cheap, BodyBits, End, Used;
    NotOccurring(ts);
    assert lit0 == LitCounts(ts) && dist1 == DistCounts(ts);
    LitCountSum(lit0, ts);
    DistCountSum(dist1, ts);
    SumBump(lit0, END_OF_BLOCK, 1);
    CheapFits(lit, dist, ts, ls, ds, lit1);
  }

  lemma EndUsed(ls: seq<nat>, counts: seq<nat>, lit: seq<nat>)
    requires GoodLengths(ls, counts, MAX_CODE_SIZE) && |ls| == 288 && counts[END_OF_BLOCK] == 1
    requires 257 <= |lit| <= 288 && lit == ls[..|lit|]
    ensures Used(lit, END_OF_BLOCK)
  {
  }

  ghost predicate TablesApart(a: CodeTable, b: CodeTable) {
    {a.sizes, a.codes} !! {b.sizes, b.codes}
  }

  lemma SeventyFits()
    ensures 19 <= Pow2(7) && Pow2(5) == 32 && Pow2(4) == 16 && Pow2(3) == 8 && Pow2(2) == 4
  {
    assert Pow2(4) == 16;
    assert Pow2(7) == 128 by { assert Pow2(5) == 32; }
  }

  /** The code for the packed lengths, and how many of its lengths are sent. */
  method ChooseLengthCode(ct: CodeTable, packer: Packer) returns (numCl: nat)
    requires ct.Shape() && packer.Shape() && |ExpandOps(packer.ops)| <= MAX_PACKED
    requires packer.count !in {ct.sizes, ct.codes}
    modifies ct.sizes, ct.codes
    ensures ClOk(ct.sizes[..19], numCl) && OpsCodable(ct.sizes[..19], packer.ops) && Writes(ct, ct.sizes[..19])
    ensures MadeForOps(ct.sizes[..19], numCl, packer.ops)
  {
    hide Sum, Pow2, Accepted, Writes, OpOccurs, ExpandOps, OpsBytes, Complete, UsedSymbols, OpSymbol;
    SeventyFits();
    assert packer.count[..19] == packer.count[..];
    ghost var cs := packer.count[..19];
    OpCountSum(cs, packer.ops);
    PackedFits(packer.ops);
    ct.Optimize(packer.count, 19, 7);
    ghost var cl := ct.sizes[..19];
    TrimmedAccepted(cl, cs, 7, 19);
    assert cl[..19] == cl;
    WritesTrimmed(ct, 19, 19);
    OpsHaveCodes(cl, cs, packer.ops);
    assert cs == OpCounts(packer.ops);
    hide GoodLengths;
    numCl := LastLength(ct);
  }

  lemma OpsHaveCodes(cl: seq<nat>, cs: seq<nat>, ops: seq<Op>)
    requires OpsOk(ops) && |cs| == 19 && forall s :: 0 <= s < 19 ==> cs[s] == OpOccurs(ops, s)
    requires GoodLengths(cl, cs, 7)
    ensures OpsCodable(cl, ops)
  {
    hide OpOccurs, OpSymbol, Complete, UsedSymbols;
    forall i | 0 <= i < |ops| ensures OpOk(ops[i]) && Used(cl, OpSymbol(ops[i])) {
      OpOccursAt(ops, i);
      assert cl[OpSymbol(ops[i])] != 0;
    }
  }

  /** How many code-length code lengths to send: up to the last nonzero one, at least 4. */
  method LastLength(ct: CodeTable) returns (numCl: nat)
    requires ct.Shape()
    ensures 4 <= numCl <= 19 && (forall i :: numCl <= i < 19 ==> ct.sizes[SWIZZLE[i]] == 0)
    ensures numCl == 4 || ct.sizes[SWIZZLE[numCl - 1]] != 0
  {
    var n := 18;
    while n >= 0
      invariant -1 <= n <= 18 && forall i :: n < i < 19 ==> ct.sizes[SWIZZLE[i]] == 0
    {
      if ct.sizes[SWIZZLE[n]] != 0 {
        break;
      }
      n := n - 1;
    }
    numCl := if n + 1 > 4 then n + 1 else 4;
  }

  /** Sends the lengths of the code-length code. */
  method PutLengthCode(w: BitWriter, ct: CodeTable, numCl: nat, ghost m: Mark, ghost bits: seq<Bit>)
    requires ct.Shape() && w.buf as object !in {ct.sizes, ct.codes} && w.Since(m, bits)
    requires numCl <= 19 && forall i :: 0 <= i < 19 ==> ct.sizes[i] < 8
    modifies w`pos, w`bitBuffer, w`bitsIn, w.buf
    ensures w.Since(m, bits + ClBits(ct.sizes[..19], numCl))
  {
    hide ToBits, BitWriter.Since;
    ghost var cl := ct.sizes[..19];
    SeventyFits();
    assert bits + [] == bits;
    for i := 0 to numCl
      invariant w.Since(m, bits + ClBits(cl, i))
    {
      hide Pow2, BytesToBits;
      w.PutBits(ct.sizes[SWIZZLE[i]], 3, m, bits + ClBits(cl, i));
      assert cl[SWIZZLE[i]] == ct.sizes[SWIZZLE[i]];
      assert bits + ClBits(cl, i) + ToBits(cl[SWIZZLE[i]], 3) == bits + (ClBits(cl, i) + ToBits(cl[SWIZZLE[i]], 3));
    }
  }

  lemma {:induction false} OpsBytesAt(ops: seq<Op>, j: nat)
    requires OpsOk(ops) && j < |ops|
    ensures OpsBytes(ops[..j + 1]) == OpsBytes(ops[..j]) + OpBytes(ops[j])
    ensures OpsBytes(ops[..j + 1]) <= OpsBytes(ops)
  {
    assert ops[..j + 1][..j] == ops[..j];
    if j == |ops| - 1 {
      assert ops[..j + 1] == ops;
    } else {
      var t := ops[..|ops| - 1];
      OpsBytesAt(t, j);
      assert t[..j + 1] == ops[..j + 1] && t[..j] == ops[..j];
    }
  }

  lemma OpsBitsSnoc(cl: seq<nat>, ops: seq<Op>, j: nat)
    requires OpsCodable(cl, ops) && j < |ops|
    ensures OpsCodable(cl, ops[..j]) && OpsCodable(cl, ops[..j + 1]) && OpOk(ops[j]) && Used(cl, OpSymbol(ops[j]))
    ensures OpsBits(cl, ops[..j + 1]) == OpsBits(cl, ops[..j]) + OpBits(cl, ops[j])
  {
    hide OpSymbol;
    assert ops[..j + 1][..j] == ops[..j];
  }

  /** The packed form of operation j, at its place. */
  lemma PackedOp(packed: seq<nat>, n: nat, ops: seq<Op>, j: nat)
    requires OpsOk(ops) && n <= |packed| && packed[..n] == OpsBytes(ops) && j < |ops|
    ensures var at := |OpsBytes(ops[..j])|;
      at < n && packed[at] == OpSymbol(ops[j]) && |OpsBytes(ops[..j + 1])| == at + (if packed[at] >= 16 then 2 else 1)
      && (packed[at] >= 16 ==> at + 1 < n && packed[at + 1] == OpExtra(ops[j]))
      && (packed[at] < 16 ==> OpExtra(ops[j]) == 0 && ExtraWidth(OpSymbol(ops[j])) == 0)
  {
    OpsBytesAt(ops, j);
    var a, b := OpsBytes(ops[..j]), OpBytes(ops[j]);
    assert OpOk(ops[j]);
    assert (a + b)[|a|] == b[0];
    if |b| == 2 {
      assert (a + b)[|a| + 1] == b[1];
    }
  }

  /** Sends one packed operation. */
  method PutOperation(w: BitWriter, ct: CodeTable, packer: Packer, idx: nat, ghost j: nat, ghost m: Mark, ghost bits: seq<Bit>)
    returns (next: nat)
    requires w.buf as object !in {ct.sizes, ct.codes, packer.packed, packer.count} && w.Since(m, bits)
    requires packer.Shape() && ct.Shape() && Writes(ct, ct.sizes[..19])
    requires j < |packer.ops| && OpsCodable(ct.sizes[..19], packer.ops) && idx == |OpsBytes(packer.ops[..j])|
    modifies w`pos, w`bitBuffer, w`bitsIn, w.buf
    ensures w.Since(m, bits + OpBits(ct.sizes[..19], packer.ops[j])) && next == |OpsBytes(packer.ops[..j + 1])|
  {
    hide Writes, OpsBytes, CodeBits, ToBits, Pow2, OpSymbol, OpExtra, ExtraWidth, ExpandOps, OpOccurs, BytesToBits, Sound, BitWriter.Since;
    ghost var cl := ct.sizes[..19];
    ghost var op := packer.ops[j];
    PackedOp(packer.packed[..], packer.num, packer.ops, j);
    var code := packer.packed[idx];
    PutSymbol(w, ct, code, cl, m, bits);
    ghost var b1 := bits + CodeBits(cl, code);
    if code >= 16 {
      var extra := packer.packed[idx + 1];
      var width := ExtraWidth(code);
      w.PutBits(extra, width, m, b1);
      next := idx + 2;
    } else {
      next := idx + 1;
      ToBitsZero(OpExtra(op), ExtraWidth(OpSymbol(op)));
      assert b1 + [] == b1;
    }
    assert b1 + ToBits(OpExtra(op), ExtraWidth(OpSymbol(op))) == bits + OpBits(cl, op);
  }

  lemma ToBitsZero(v: nat, n: nat)
    ensures n == 0 ==> ToBits(v, n) == []
  {
  }

  method PutOperations(w: BitWriter, ct: CodeTable, packer: Packer, ghost m: Mark, ghost bits: seq<Bit>)
    requires w.buf as object !in {ct.sizes, ct.codes, packer.packed, packer.count} && w.Since(m, bits)
    requires packer.Shape() && ct.Shape() && Writes(ct, ct.sizes[..19]) && OpsCodable(ct.sizes[..19], packer.ops)
    modifies w`pos, w`bitBuffer, w`bitsIn, w.buf
    ensures w.Since(m, bits + OpsBits(ct.sizes[..19], packer.ops))
  {
    hide Writes, OpBits, Sound, OpOccurs, OpsCodable, ExpandOps, BitWriter.Since;
    ghost var cl, ops := ct.sizes[..19], packer.ops;
    ghost var j := 0;
    var idx := 0;
    ghost var body := [];
    assert ops[..0] == [] && bits + [] == bits;
    assert OpsCodable(cl, []) by { NoOps(cl); }
    while idx < packer.num
      invariant j <= |ops| && idx == |OpsBytes(ops[..j])| && OpsCodable(cl, ops[..j])
      invariant body == OpsBits(cl, ops[..j]) && w.Since(m, bits + body)
      decreases |ops| - j
    {
      AllPacked(ops, j);
      OpsBitsSnoc(cl, ops, j);
      idx := PutOperation(w, ct, packer, idx, j, m, bits + body);
      assert bits + body + OpBits(cl, ops[j]) == bits + (body + OpBits(cl, ops[j]));
      body := body + OpBits(cl, ops[j]);
      j := j + 1;
    }
    AllPacked(ops, j);
    assert ops[..|ops|] == ops;
  }

  lemma NoOps(cl: seq<nat>)
    ensures OpsCodable(cl, []) && OpsBits(cl, []) == []
  {
  }

  lemma AllPacked(ops: seq<Op>, j: nat)
    requires OpsOk(ops) && j <= |ops|
    ensures |OpsBytes(ops[..j])| < |OpsBytes(ops)| <==> j < |ops|
  {
    assert ops[..|ops|] == ops;
    if j < |ops| {
      OpsBytesAt(ops, j);
    }
  }

  /** Sends the whole header behind the block type. */
  method PutHeader(w: BitWriter, ct: CodeTable, packer: Packer, numCl: nat, numLit: nat, numDist: nat,
                   ghost h: Header, ghost m: Mark, ghost bits: seq<Bit>)
    requires w.buf as object !in {ct.sizes, ct.codes, packer.packed, packer.count} && w.Since(m, bits)
    requires packer.Shape() && ct.Shape() && Writes(ct, ct.sizes[..19])
    requires HeaderOk(h) && h.cl == ct.sizes[..19] && h.numCl == numCl && h.ops == packer.ops
    requires |h.lit| == numLit && |h.dist| == numDist
    modifies w`pos, w`bitBuffer, w`bitsIn, w.buf
    ensures w.Since(m, bits + HeaderBits(h))
  {
    hide Writes, BytesToBits, ToBits, Pow2, OpsBits, ClBits, Accepted, Sizes, OpsCodable, Sound, BitWriter.Since;
    SeventyFits();
    w.PutBits(numLit - 257, 5, m, bits);
    ghost var b1 := ToBits(numLit - 257, 5);
    w.PutBits(numDist - 1, 5, m, bits + b1);
    ghost var b2 := b1 + ToBits(numDist - 1, 5);
    assert bits + b1 + ToBits(numDist - 1, 5) == bits + b2;
    w.PutBits(numCl - 4, 4, m, bits + b2);
    ghost var b3 := b2 + ToBits(numCl - 4, 4);
    assert bits + b2 + ToBits(numCl - 4, 4) == bits + b3;
    assert ct.sizes[..19] == h.cl && forall i :: 0 <= i < 19 ==> ct.sizes[i] == h.cl[i];
    PutLengthCode(w, ct, numCl, m, bits + b3);
    ghost var b4 := b3 + ClBits(h.cl, numCl);
    assert bits + b3 + ClBits(h.cl, numCl) == bits + b4;
    PutOperations(w, ct, packer, m, bits + b4);
    assert bits + b4 + OpsBits(h.cl, h.ops) == bits + HeaderBits(h);
  }

  /** Chooses the codes for the recorded tokens, packs their lengths and chooses the code for these. */
  method ChooseHeader(tb: TokenBuffer, lt: CodeTable, dt: CodeTable, ct: CodeTable, ghost ts: seq<Token>)
    returns (packer: Packer, numLit: nat, numDist: nat, numCl: nat, ghost h: Header)
    requires lt.Shape() && dt.Shape() && ct.Shape() && TablesApart(lt, dt) && TablesApart(lt, ct) && TablesApart(dt, ct)
    requires {tb.litCount, tb.distCount} !! {lt.sizes, lt.codes, dt.sizes, dt.codes, ct.sizes, ct.codes}
    requires Counted(tb.litCount[..], tb.distCount[..], ts) && tb.litCount != tb.distCount && |ts| < 65535
    modifies tb.litCount, lt.sizes, lt.codes, dt.sizes, dt.codes, ct.sizes, ct.codes
    ensures HeaderOk(h) && AllCodable(h.lit, h.dist, ts) && Used(h.lit, END_OF_BLOCK) && HeaderFor(h, ts)
    ensures End(ts) <= LZ_CODE_BUF_SIZE ==> |BodyBits(h.lit, h.dist, ts)| <= BODY_LIMIT
    ensures Writes(lt, h.lit) && Writes(dt, h.dist) && Writes(ct, h.cl)
    ensures packer.Shape() && h.ops == packer.ops && fresh(packer) && fresh(packer.packed) && fresh(packer.count)
    ensures h.cl == ct.sizes[..19] && h.numCl == numCl && |h.lit| == numLit && |h.dist| == numDist
  {
    hide Writes, Pow2, Accepted, Sizes, AllCodable, Counted, Packer.Shape, OpsCodable, Used, BodyBits, End, MadeFor, MadeForOps, PackedOps;
    numLit, numDist := ChooseCodes(tb, lt, dt, ts);
    ghost var lit, dist := lt.sizes[..numLit], dt.sizes[..numDist];
    packer := new Packer();
    LengthsSmall(lit, dist);
    packer.Pack(lt.sizes[..numLit] + dt.sizes[..numDist]);
    numCl := ChooseLengthCode(ct, packer);
    PackedSound(packer);
    h := Header(lit, dist, ct.sizes[..19], numCl, packer.ops);
  }

  /** Chooses the codes for the recorded tokens and sends block type and header. */
  method StartDynamicBlock(w: BitWriter, tb: TokenBuffer, lt: CodeTable, dt: CodeTable, ct: CodeTable,
                           ghost ts: seq<Token>, ghost m: Mark, ghost bits: seq<Bit>) returns (ghost h: Header)
    requires AllApart(w, tb, lt, dt, ct) && w.Since(m, bits)
    requires Counted(tb.litCount[..], tb.distCount[..], ts) && |ts| < 65535
    modifies w`pos, w`bitBuffer, w`bitsIn, w.buf
    modifies tb.litCount, lt.sizes, lt.codes, dt.sizes, dt.codes, ct.sizes, ct.codes
    ensures HeaderOk(h) && AllCodable(h.lit, h.dist, ts) && Used(h.lit, END_OF_BLOCK) && HeaderFor(h, ts)
    ensures End(ts) <= LZ_CODE_BUF_SIZE ==> |BodyBits(h.lit, h.dist, ts)| <= BODY_LIMIT
    ensures Writes(lt, h.lit) && Writes(dt, h.dist)
    ensures w.Since(m, bits + (ToBits(2, 2) + HeaderBits(h)))
  {
    hide Writes, BytesToBits, ToBits, Pow2, Counted, Packer.Shape, HeaderBits, HeaderOk, BitWriter.Since, Used, BodyBits, End,
      HeaderFor, AllCodable;
    var numLit, numDist, numCl, packer;
    packer, numLit, numDist, numCl, h := ChooseHeader(tb, lt, dt, ct, ts);
    SeventyFits();
    w.PutBits(2, 2, m, bits);
    PutHeader(w, ct, packer, numCl, numLit, numDist, h, m, bits + ToBits(2, 2));
    assert bits + ToBits(2, 2) + HeaderBits(h) == bits + (ToBits(2, 2) + HeaderBits(h));
  }

  const HEADER_LIMIT := 4600

  /** A header is short: at most 316 lengths, packed into at most as many operations. */
  lemma HeaderShort(h: Header)
    requires HeaderOk(h)
    ensures |HeaderBits(h)| <= HEADER_LIMIT
  {
    hide ToBits, Accepted, Sizes;
    ClLength(h.cl, h.numCl);
    assert OpsOk(h.ops);
    PackedFits(h.ops);
    OpsLength(h.cl, h.ops);
  }

  lemma {:induction false} ClLength(cl: seq<nat>, n: nat)
    requires |cl| == 19 && n <= 19
    ensures |ClBits(cl, n)| == 3 * n
  {
    if n > 0 {
      ClLength(cl, n - 1);
    }
  }

  lemma {:induction false} OpsLength(cl: seq<nat>, ops: seq<Op>)
    requires OpsCodable(cl, ops) && |cl| == 19 && forall i :: 0 <= i < 19 ==> cl[i] < 8
    ensures |OpsBits(cl, ops)| <= 14 * |ops|
  {
    if ops != [] {
      var n := |ops| - 1;
      OpsLength(cl, ops[..n]);
      assert OpOk(ops[n]) && Used(cl, OpSymbol(ops[n]));
      assert |CodeBits(cl, OpSymbol(ops[n]))| == cl[OpSymbol(ops[n])] <= 7;
    }
  }

  lemma PackedSound(packer: Packer)
    requires packer.Shape()
    ensures Sound(packer.ops)
  {
  }

  lemma LengthsSmall(lit: seq<nat>, dist: seq<nat>)
    requires Sizes(lit) && Sizes(dist) && |lit| <= 286 && |dist| <= 30
    ensures |lit + dist| <= MAX_PACKED && forall i :: 0 <= i < |lit + dist| ==> (lit + dist)[i] <= 15
  {
  }

  /** No two arrays of the block writer are the same. */
  ghost predicate AllApart(w: BitWriter, tb: TokenBuffer, lt: CodeTable, dt: CodeTable, ct: CodeTable) {
    && lt.Shape() && dt.Shape() && ct.Shape()
    && TablesApart(lt, dt) && TablesApart(lt, ct) && TablesApart(dt, ct)
    && Apart(w, tb, lt, dt) && w.buf as object !in {ct.sizes, ct.codes}
    && tb.litCount != tb.distCount
    && {tb.litCount, tb.distCount} !! {lt.sizes, lt.codes, dt.sizes, dt.codes, ct.sizes, ct.codes}
  }
}
