/**
 * Reading the header of a dynamic block: the code-length code, the lengths it
 * sends, and the tables built from them (RFC 1951, section 3.2.7).
 */
module TableReaders {
  import opened Bits
  import opened BitIO
  import opened Canonical
  import opened HuffTables
  import opened Decoding
  import opened HuffDecoders
  import opened CodeLengths
  import opened Blocks
  import opened FixedBlocks

  /** Reads a number. */
  method ReadNumber(r: BitReader, n: nat) returns (ok: bool, v: nat)
    requires r.Valid()
    modifies r
    ensures r.Valid() && v < Pow2(n)
    ensures Number(n, old(r.Remaining())) == if ok then Parsed(v, r.Remaining()) else Stop(InputEnded)
  {
    hide Ahead, BytesToBits, Pow2, ToBits;
    ok, v := r.GetBits(n);
    FromToBits(v, n);
  }

  lemma FourAndFive()
    ensures Pow2(5) == 32 && Pow2(4) == 16 && Pow2(3) == 8
  {
  }

  /** Reads how many lengths of each kind follow. */
  method ReadCounts(r: BitReader) returns (ok: bool, numLit: nat, numDist: nat, numCl: nat)
    requires r.Valid()
    modifies r
    ensures r.Valid()
    ensures HeaderCounts(old(r.Remaining())) == if ok then Parsed(Counts(numLit, numDist, numCl), r.Remaining()) else Stop(InputEnded)
  {
    hide Ahead, BytesToBits, Pow2, ToBits;
    FourAndFive();
    numLit, numDist, numCl := 0, 0, 0;
    var v;
    ok, v := ReadNumber(r, 5);
    if !ok {
      return;
    }
    numLit := v + 257;
    ok, v := ReadNumber(r, 5);
    if !ok {
      return;
    }
    numDist := v + 1;
    ok, v := ReadNumber(r, 4);
    if !ok {
      return;
    }
    numCl := v + 4;
  }

  /** Reads the lengths of the code-length code into its table. */
  method ReadLengthCode(r: BitReader, cl: HuffTable, numCl: nat) returns (ok: bool)
    requires r.Valid() && cl.Shape() && 4 <= numCl <= 19
    modifies r, cl.codeSize
    ensures r.Valid() && (ok ==> Sizes(cl.codeSize[..19]))
    ensures ClLengths(Copies(0, 19), 0, numCl, old(r.Remaining())) == if ok then Parsed(cl.codeSize[..19], r.Remaining()) else Stop(InputEnded)
  {
    hide Ahead, BytesToBits, Pow2, ToBits, ClLengths;
    ClearSizes(cl);
    FourAndFive();
    assert cl.codeSize[..19] == Copies(0, 19);
    ghost var all := ClLengths(Copies(0, 19), 0, numCl, r.Remaining());
    for i := 0 to numCl
      invariant r.Valid() && forall j :: 0 <= j < MAX_HUFF_SYMBOLS ==> cl.codeSize[j] < 8
      invariant all == ClLengths(cl.codeSize[..19], i, numCl, r.Remaining())
    {
      ghost var before := cl.codeSize[..19];
      ClLengthsStep(before, i, numCl, r.Remaining());
      var v;
      ok, v := ReadNumber(r, 3);
      if !ok {
        return;
      }
      cl.codeSize[SWIZZLE[i]] := v;
      assert cl.codeSize[..19] == Placed(before, i, v);
    }
    ok := true;
    ClLengthsEnd(cl.codeSize[..19], numCl, r.Remaining());
  }

  lemma ClLengthsStep(cl: seq<nat>, i: nat, numCl: nat, ahead: seq<Bit>)
    requires |cl| == 19 && i < numCl <= 19
    ensures var p := Number(3, ahead);
      ClLengths(cl, i, numCl, ahead)
      == if p.Parsed? then ClLengths(Placed(cl, i, p.value), i + 1, numCl, p.rest) else Stop(p.why)
  {
  }

  lemma ClLengthsEnd(cl: seq<nat>, numCl: nat, ahead: seq<Bit>)
    requires |cl| == 19 && numCl <= 19
    ensures ClLengths(cl, numCl, numCl, ahead) == Parsed(cl, ahead)
  {
  }

  method ClearSizes(cl: HuffTable)
    requires cl.Shape()
    modifies cl.codeSize
    ensures forall j :: 0 <= j < MAX_HUFF_SYMBOLS ==> cl.codeSize[j] == 0
  {
    for i := 0 to MAX_HUFF_SYMBOLS
      invariant forall j :: 0 <= j < i ==> cl.codeSize[j] == 0
    {
      cl.codeSize[i] := 0;
    }
  }

  const LEN_CODES_SIZE := 457

  /** Reads one operation and applies it to the lengths so far. */
  method ReadOp(r: BitReader, cl: HuffTable, lens: array<nat>, counter: nat) returns (res: Outcome, next: nat)
    requires r.Valid() && cl.Valid() && |cl.sizes| == 19 && lens !in {cl.lookUp as object, cl.tree}
    requires lens.Length == LEN_CODES_SIZE && counter < 320 && forall i :: 0 <= i < counter ==> lens[i] < 16
    modifies r, lens
    ensures r.Valid()
    ensures res.Success? ==> counter < next <= LEN_CODES_SIZE && forall i :: 0 <= i < next ==> lens[i] < 16
    ensures OneOp(cl.sizes, old(lens[..counter]), old(r.Remaining())) == if res.Success? then Parsed(lens[..next], r.Remaining()) else Stop(res)
  {
    hide Ahead, BytesToBits, Pow2, ToBits, HuffTable.Valid, Symbol, Number;
    next := counter;
    ghost var before := lens[..counter];
    var ok, sym := HuffDecode(r, cl);
    if !ok {
      return InputEnded, next;
    }
    if sym < 16 {
      lens[counter] := sym;
      next := counter + 1;
      assert lens[..next] == before + [sym];
      return Success, next;
    }
    if sym == 16 && counter == 0 {
      return Failed, next;
    }
    var v;
    ok, v := ReadNumber(r, ExtraWidth(sym));
    if !ok {
      return InputEnded, next;
    }
    ExtraSmall(sym, v);
    var n := v + ExtraBase(sym);
    var x := if sym == 16 then lens[counter - 1] else 0;
    FillRun(lens, counter, n, x);
    next := counter + n;
    res := Success;
    assert lens[..next] == before + Copies(x, n);
  }

  method FillRun(lens: array<nat>, from: nat, n: nat, x: nat)
    requires from + n <= lens.Length
    modifies lens
    ensures lens[..from] == old(lens[..from]) && forall k :: from <= k < from + n ==> lens[k] == x
  {
    for i := 0 to n
      invariant lens[..from] == old(lens[..from]) && forall k :: from <= k < from + i ==> lens[k] == x
    {
      lens[from + i] := x;
    }
  }

  /** Reads operations until they cover total lengths; more than that is an error. */
  method ReadLengths(r: BitReader, cl: HuffTable, lens: array<nat>, total: nat) returns (res: Outcome)
    requires r.Valid() && cl.Valid() && |cl.sizes| == 19 && lens !in {cl.lookUp as object, cl.tree}
    requires lens.Length == LEN_CODES_SIZE && total <= 320
    modifies r, lens
    ensures r.Valid()
    ensures res.Success? ==> forall i :: 0 <= i < total ==> lens[i] < 16
    ensures Lengths(cl.sizes, [], total, old(r.Remaining())) == if res.Success? then Parsed(lens[..total], r.Remaining()) else Stop(res)
  {
    hide Ahead, BytesToBits, Pow2, ToBits, HuffTable.Valid, OneOp, Lengths;
    ghost var all := Lengths(cl.sizes, [], total, r.Remaining());
    var counter := 0;
    assert lens[..0] == [];
    while counter < total
      invariant r.Valid() && cl.Valid() && counter <= LEN_CODES_SIZE
      invariant forall i :: 0 <= i < counter ==> lens[i] < 16
      invariant all == Lengths(cl.sizes, lens[..counter], total, r.Remaining())
    {
      LengthsStep(cl.sizes, lens[..counter], total, r.Remaining());
      var next;
      res, next := ReadOp(r, cl, lens, counter);
      if !res.Success? {
        return;
      }
      counter := next;
    }
    LengthsStep(cl.sizes, lens[..counter], total, r.Remaining());
    res := if counter == total then Success else Failed;
  }

  lemma LengthsStep(cl: seq<nat>, lens: seq<nat>, total: nat, ahead: seq<Bit>)
    requires |cl| == 19
    ensures var p := OneOp(cl, lens, ahead);
      Lengths(cl, lens, total, ahead)
      == if |lens| > total then Stop(Failed)
         else if |lens| == total then Parsed(lens, ahead)
         else if p.Parsed? then Lengths(cl, p.value, total, p.rest)
         else Stop(p.why)
  {
    hide OneOp;
  }

  ghost function Arrays(t: HuffTable): set<object> {
    {t, t.codeSize, t.lookUp, t.tree}
  }

  /** Three tables and the array of lengths share nothing. */
  ghost predicate Disjoint(lt: HuffTable, dt: HuffTable, cl: HuffTable, lens: array<nat>) {
    && lt.Shape() && dt.Shape() && cl.Shape() && lens.Length == LEN_CODES_SIZE
    && Arrays(lt) !! Arrays(dt) && Arrays(lt) !! Arrays(cl) && Arrays(dt) !! Arrays(cl)
    && lens !in Arrays(lt) + Arrays(dt) + Arrays(cl)
  }

  method CopyLengths(t: HuffTable, lens: array<nat>, from: nat, n: nat)
    requires t.Shape() && lens != t.codeSize && from + n <= lens.Length && n <= MAX_HUFF_SYMBOLS
    requires forall i :: from <= i < from + n ==> lens[i] < 16
    modifies t.codeSize
    ensures t.codeSize[..n] == lens[from..from + n] && Sizes(t.codeSize[..n])
  {
    for i := 0 to n
      invariant forall k :: 0 <= k < i ==> t.codeSize[k] == lens[from + k]
    {
      t.codeSize[i] := lens[from + i];
    }
  }

  /** Reads the code-length code and builds its table. */
  method ReadClTable(r: BitReader, cl: HuffTable, numCl: nat) returns (res: Outcome)
    requires r.Valid() && cl.Shape() && 4 <= numCl <= 19
    modifies r, cl, cl.codeSize, cl.lookUp, cl.tree
    ensures r.Valid() && (res.Success? ==> cl.Valid() && |cl.sizes| == 19)
    ensures ClCode(numCl, old(r.Remaining())) == if res.Success? then Parsed(cl.sizes, r.Remaining()) else Stop(res)
  {
    hide Ahead, BytesToBits, Pow2, ToBits, Accepted, HuffTable.Valid, Sizes, ClLengths;
    var ok := ReadLengthCode(r, cl, numCl);
    if !ok {
      return InputEnded;
    }
    ok := cl.Build(19);
    res := if ok then Success else Failed;
  }

  /** Builds the tables of the two codes from the lengths read. */
  method BuildTables(lt: HuffTable, dt: HuffTable, lens: array<nat>, numLit: nat, numDist: nat) returns (ok: bool)
    requires lt.Shape() && dt.Shape() && Arrays(lt) !! Arrays(dt) && lens !in Arrays(lt) + Arrays(dt)
    requires numLit <= 288 && numDist <= 32 && lens.Length == LEN_CODES_SIZE
    requires forall i :: 0 <= i < numLit + numDist ==> lens[i] < 16
    modifies Arrays(lt), Arrays(dt)
    ensures var lit, dist := old(lens[..numLit]), old(lens[numLit..numLit + numDist]);
      && (ok <==> Accepted(lit) && Accepted(dist))
      && (ok ==> lt.Valid() && dt.Valid() && lt.sizes == lit && dt.sizes == dist)
  {
    hide HuffTable.Valid, Accepted, Sizes;
    CopyLengths(lt, lens, 0, numLit);
    CopyLengths(dt, lens, numLit, numDist);
    ok := dt.Build(numDist);
    if ok {
      ok := lt.Build(numLit);
    }
  }

  /** Reads a dynamic block's header and builds both tables. */
  method ReadDynamicTables(r: BitReader, lt: HuffTable, dt: HuffTable, cl: HuffTable, lens: array<nat>) returns (res: Outcome)
    requires r.Valid() && Disjoint(lt, dt, cl, lens)
    modifies r, lens, Arrays(lt), Arrays(dt), Arrays(cl)
    ensures r.Valid() && (res.Success? ==> lt.Valid() && dt.Valid())
    ensures DynamicCodes(old(r.Remaining())) == if res.Success? then Parsed(Codes(lt.sizes, dt.sizes), r.Remaining()) else Stop(res)
  {
    hide Ahead, BytesToBits, Pow2, ToBits, Accepted, HuffTable.Valid, HeaderCounts, ClCode, Lengths;
    var ok, numLit, numDist, numCl := ReadCounts(r);
    if !ok {
      return InputEnded;
    }
    res := ReadClTable(r, cl, numCl);
    if !res.Success? {
      return;
    }
    res := ReadLengths(r, cl, lens, numLit + numDist);
    if !res.Success? {
      return;
    }
    ghost var all := lens[..numLit + numDist];
    assert all[..numLit] == lens[..numLit] && all[numLit..] == lens[numLit..numLit + numDist];
    ok := BuildTables(lt, dt, lens, numLit, numDist);
    res := if ok then Success else Failed;
  }

  lemma DisjointTables(lt: HuffTable, dt: HuffTable, cl: HuffTable, lens: array<nat>)
    requires Disjoint(lt, dt, cl, lens)
    ensures lt.Shape() && dt.Shape() && Arrays(lt) !! Arrays(dt)
  {
  }

  /** The tables of the fixed codes. */
  method BuildFixedTables(lt: HuffTable, dt: HuffTable) returns (ok: bool)
    requires lt.Shape() && dt.Shape() && Arrays(lt) !! Arrays(dt)
    modifies Arrays(lt), Arrays(dt)
    ensures ok && lt.Valid() && dt.Valid() && lt.sizes == FixedLit() && dt.sizes == FixedDist()
  {
    hide HuffTable.Valid, Accepted, Complete;
    SetLengths(lt, 0, 144, 8);
    SetLengths(lt, 144, 256, 9);
    SetLengths(lt, 256, 280, 7);
    SetLengths(lt, 280, 288, 8);
    SetLengths(dt, 0, 32, 5);
    assert lt.codeSize[..288] == FixedLit() && dt.codeSize[..32] == FixedDist();
    assert Sizes(FixedLit()) && Accepted(FixedLit()) && Sizes(FixedDist()) && Accepted(FixedDist()) by { FixedAccepted(); }
    ok := dt.Build(32);
    if ok {
      ok := lt.Build(288);
    }
  }

  lemma FixedAccepted()
    ensures Sizes(FixedLit()) && Accepted(FixedLit()) && Sizes(FixedDist()) && Accepted(FixedDist())
  {
    hide Complete, FixedLit, FixedDist;
    FixedComplete();
  }

  method SetLengths(t: HuffTable, from: nat, to: nat, v: nat)
    requires t.Shape() && from <= to <= MAX_HUFF_SYMBOLS
    modifies t.codeSize
    ensures forall s :: 0 <= s < MAX_HUFF_SYMBOLS ==> t.codeSize[s] == if from <= s < to then v else old(t.codeSize[s])
  {
    for s := from to to
      invariant forall k :: 0 <= k < MAX_HUFF_SYMBOLS ==> t.codeSize[k] == if from <= k < s then v else old(t.codeSize[k])
    {
      t.codeSize[s] := v;
    }
  }
}
