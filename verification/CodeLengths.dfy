/**
 * Run-length coding of code lengths (RFC 1951, section 3.2.7): single lengths,
 * repeats of the previous length, and runs of zeros.
 */
module CodeLengths {
  import opened Bits

  const MAX_PACKED := 320

  datatype Op = Single(v: nat) | Repeat(n: nat) | Zeros(n: nat)

  predicate OpOk(op: Op) {
    match op
    case Single(v) => v <= 15
    case Repeat(n) => 3 <= n <= 6
    case Zeros(n) => 3 <= n <= 138
  }

  predicate OpsOk(ops: seq<Op>) {
    forall i :: 0 <= i < |ops| ==> OpOk(ops[i])
  }

  /** The symbol of the code-length alphabet. */
  function OpSymbol(op: Op): (s: nat)
    requires OpOk(op)
    ensures s <= 18
  {
    match op
    case Single(v) => v
    case Repeat(_) => 16
    case Zeros(n) => if n <= 10 then 17 else 18
  }

  /** Width and value of the extra bits. */
  function ExtraWidth(sym: nat): (w: nat)
    requires sym <= 18
    ensures w <= 7
  {
    if sym == 16 then 2 else if sym == 17 then 3 else if sym == 18 then 7 else 0
  }

  function ExtraBase(sym: nat): nat
    requires 16 <= sym <= 18
  {
    if sym == 18 then 11 else 3
  }

  function OpExtra(op: Op): (e: nat)
    requires OpOk(op)
    ensures e < Pow2(ExtraWidth(OpSymbol(op)))
  {
    assert Pow2(2) == 4 && Pow2(3) == 8 && Pow2(7) == 128;
    match op
    case Single(_) => 0
    case Repeat(n) => n - 3
    case Zeros(n) => if n <= 10 then n - 3 else n - 11
  }

  /** The packed form: the symbol, and behind 16, 17 and 18 the extra value. */
  function OpBytes(op: Op): (b: seq<nat>)
    requires OpOk(op)
    ensures 1 <= |b| <= 2
  {
    if op.Single? then [op.v] else [OpSymbol(op), OpExtra(op)]
  }

  function OpsBytes(ops: seq<Op>): seq<nat>
    requires OpsOk(ops)
  {
    if ops == [] then [] else OpsBytes(ops[..|ops| - 1]) + OpBytes(ops[|ops| - 1])
  }

  function Copies(v: nat, n: nat): (r: seq<nat>)
    ensures |r| == n && forall i :: 0 <= i < n ==> r[i] == v
  {
    seq(n, _ => v)
  }

  /** What the decoder makes of one operation behind the lengths it has. */
  function ApplyOp(out: seq<nat>, op: Op): (r: seq<nat>)
    ensures |out| <= |r|
  {
    match op
    case Single(v) => out + [v]
    case Repeat(n) => out + Copies(if out == [] then 0 else out[|out| - 1], n)
    case Zeros(n) => out + Copies(0, n)
  }

  function ExpandOps(ops: seq<Op>): seq<nat> {
    if ops == [] then [] else ApplyOp(ExpandOps(ops[..|ops| - 1]), ops[|ops| - 1])
  }

  /** A repeat always has something to repeat. */
  predicate Sound(ops: seq<Op>) {
    ops == [] || (Sound(ops[..|ops| - 1]) && (ops[|ops| - 1].Repeat? ==> ExpandOps(ops[..|ops| - 1]) != []))
  }

  function OpOccurs(ops: seq<Op>, s: nat): (n: nat)
    requires OpsOk(ops)
    ensures n <= |ops|
  {
    if ops == [] then 0 else OpOccurs(ops[..|ops| - 1], s) + (if OpSymbol(ops[|ops| - 1]) == s then 1 else 0)
  }

  /** The packed form is never longer than the lengths it stands for. */
  lemma {:induction false} PackedFits(ops: seq<Op>)
    requires OpsOk(ops)
    ensures |ops| <= |OpsBytes(ops)| <= |ExpandOps(ops)|
  {
    if ops != [] {
      PackedFits(ops[..|ops| - 1]);
      assert OpOk(ops[|ops| - 1]);
    }
  }

  lemma SnocOps(ops: seq<Op>, op: Op)
    requires OpsOk(ops) && OpOk(op)
    ensures OpsOk(ops + [op])
    ensures OpsBytes(ops + [op]) == OpsBytes(ops) + OpBytes(op)
    ensures ExpandOps(ops + [op]) == ApplyOp(ExpandOps(ops), op)
    ensures Sound(ops + [op]) <==> Sound(ops) && (op.Repeat? ==> ExpandOps(ops) != [])
    ensures forall s :: OpOccurs(ops + [op], s) == OpOccurs(ops, s) + (if OpSymbol(op) == s then 1 else 0)
  {
    assert (ops + [op])[..|ops|] == ops;
  }

  /** The packed array, its length, and the symbol counts stand for ops. */
  ghost predicate PackState(packed: seq<nat>, n: nat, count: seq<nat>, ops: seq<Op>) {
    && |packed| == MAX_PACKED && n <= MAX_PACKED && |count| == 19
    && OpsOk(ops) && Sound(ops) && packed[..n] == OpsBytes(ops)
    && forall s :: 0 <= s < 19 ==> count[s] == OpOccurs(ops, s)
  }

  /** How many times the last length stands at the end. */
  function Tail(sizes: seq<nat>): (n: nat)
    ensures n <= |sizes| && (sizes != [] ==> n >= 1)
  {
    if sizes == [] then 0
    else
      var t := sizes[..|sizes| - 1];
      if t != [] && t[|t| - 1] == sizes[|sizes| - 1] then Tail(t) + 1 else 1
  }

  function Times(op: Op, k: nat): (r: seq<Op>)
    ensures |r| == k
  {
    seq(k, _ => op)
  }

  /** Up to two equal lengths are sent one by one, more of them in one operation. */
  function RestOps(v: nat, n: nat): seq<Op> {
    if n < 3 then Times(Single(v), n) else if v == 0 then [Zeros(n)] else [Repeat(n)]
  }

  /** The operations of a run of n lengths that are sent while it goes on, and those that are left for its end. */
  function RunOps(v: nat, n: nat): seq<Op>
    requires n >= 1
  {
    if v == 0 then Times(Zeros(138), n / 138) else [Single(v)] + Times(Repeat(6), (n - 1) / 6)
  }

  function RunRest(v: nat, n: nat): nat
    requires n >= 1
  {
    if v == 0 then n % 138 else (n - 1) % 6
  }

  /** The operations for a list of lengths, run by run. */
  function PackedOps(sizes: seq<nat>): seq<Op>
    decreases |sizes|, 1
  {
    if sizes == [] then [] else OpsSoFar(sizes) + RestOps(sizes[|sizes| - 1], RunRest(sizes[|sizes| - 1], Tail(sizes)))
  }

  /** Without what is left for the end of the last run. */
  function OpsSoFar(sizes: seq<nat>): seq<Op>
    decreases |sizes|, 0
  {
    if sizes == [] then [] else PackedOps(sizes[..|sizes| - Tail(sizes)]) + RunOps(sizes[|sizes| - 1], Tail(sizes))
  }

  /** One more length: the run goes on, or a new one begins behind the rest of the old one. */
  lemma SoFarSnoc(sizes: seq<nat>, x: nat)
    ensures var more := sizes + [x];
      if sizes != [] && sizes[|sizes| - 1] == x then
        && Tail(more) == Tail(sizes) + 1
        && OpsSoFar(more) == PackedOps(sizes[..|sizes| - Tail(sizes)]) + RunOps(x, Tail(sizes) + 1)
      else
        Tail(more) == 1 && OpsSoFar(more) == PackedOps(sizes) + RunOps(x, 1)
  {
    var more := sizes + [x];
    TailSnoc(sizes, x);
    hide RunOps, Tail;
    var k := |more| - Tail(more);
    assert k <= |sizes| && more[..k] == sizes[..k];
    assert sizes[..|sizes|] == sizes;
    SoFarIs(more);
  }

  lemma TailSnoc(sizes: seq<nat>, x: nat)
    ensures Tail(sizes + [x]) == if sizes != [] && sizes[|sizes| - 1] == x then Tail(sizes) + 1 else 1
  {
    assert (sizes + [x])[..|sizes|] == sizes;
  }

  lemma SoFarIs(sizes: seq<nat>)
    requires sizes != []
    ensures OpsSoFar(sizes) == PackedOps(sizes[..|sizes| - Tail(sizes)]) + RunOps(sizes[|sizes| - 1], Tail(sizes))
  {
  }

  /** A run that goes on sends one operation more now and then. */
  lemma RunGoesOn(v: nat, n: nat)
    requires n >= 1
    ensures v == 0 ==> RunOps(v, n + 1) == RunOps(v, n) + (if RunRest(v, n) == 137 then [Zeros(138)] else [])
    ensures v != 0 ==> RunOps(v, n + 1) == RunOps(v, n) + (if RunRest(v, n) == 5 then [Repeat(6)] else [])
    ensures RunRest(v, n + 1) == if RunRest(v, n) == (if v == 0 then 137 else 5) then 0 else RunRest(v, n) + 1
  {
    if v == 0 {
      OneMore(n, 138);
      assert Times(Zeros(138), n / 138 + 1) == Times(Zeros(138), n / 138) + [Zeros(138)];
    } else {
      OneMore(n - 1, 6);
      assert Times(Repeat(6), (n - 1) / 6 + 1) == Times(Repeat(6), (n - 1) / 6) + [Repeat(6)];
      assert [Single(v)] + (Times(Repeat(6), (n - 1) / 6) + [Repeat(6)]) == [Single(v)] + Times(Repeat(6), (n - 1) / 6) + [Repeat(6)];
    }
  }

  lemma OneMore(n: nat, d: nat)
    requires d > 0
    ensures if n % d == d - 1 then (n + 1) / d == n / d + 1 && (n + 1) % d == 0 else (n + 1) / d == n / d && (n + 1) % d == n % d + 1
  {
    if n % d == d - 1 {
      QuotientUnique(n + 1, d, n / d + 1, 0);
    } else {
      QuotientUnique(n + 1, d, n / d, n % d + 1);
    }
  }

  /** These operations are sent for a list of lengths, and so many zeros or repeats only counted. */
  ghost predicate SentAs(ops: seq<Op>, zeros: nat, repeats: nat, sizes: seq<nat>) {
    && ops == OpsSoFar(sizes)
    && zeros == (if sizes != [] && sizes[|sizes| - 1] == 0 then RunRest(0, Tail(sizes)) else 0)
    && repeats == (if sizes != [] && sizes[|sizes| - 1] != 0 then RunRest(sizes[|sizes| - 1], Tail(sizes)) else 0)
  }

  /** Sending what is counted completes the list. */
  lemma SentRest(ops: seq<Op>, zeros: nat, repeats: nat, sizes: seq<nat>, prev: nat)
    requires SentAs(ops, zeros, repeats, sizes) && (sizes != [] ==> prev == sizes[|sizes| - 1])
    ensures ops + RestOps(0, zeros) + (if repeats == 0 then [] else RestOps(prev, repeats)) == PackedOps(sizes)
    ensures zeros == 0 || repeats == 0
  {
    hide RunRest, Tail;
    assert RestOps(0, 0) == [] && RestOps(prev, 0) == [];
    assert forall o: seq<Op> {:trigger o + []} :: o + [] == o;
    if sizes == [] {
      assert ops + RestOps(0, zeros) == [];
    } else if prev == 0 {
      assert repeats == 0;
    } else {
      assert zeros == 0 && ops + RestOps(0, zeros) == ops;
    }
  }

  lemma SentZero(ops: seq<Op>, zeros: nat, repeats: nat, sizes: seq<nat>, prev: nat)
    requires SentAs(ops, zeros, repeats, sizes) && (sizes != [] ==> prev == sizes[|sizes| - 1])
    ensures var more := ops + (if repeats == 0 then [] else RestOps(prev, repeats));
      if zeros + 1 == 138 then SentAs(more + RestOps(0, 138), 0, 0, sizes + [0]) else SentAs(more, zeros + 1, 0, sizes + [0])
  {
    hide OpsSoFar, Tail, PackedOps;
    SoFarSnoc(sizes, 0);
    SentRest(ops, zeros, repeats, sizes, prev);
    var n := Tail(sizes);
    if sizes != [] && sizes[|sizes| - 1] == 0 {
      RunGoesOn(0, n);
      SoFarIs(sizes);
      hide RunOps, RunRest;
      assert ops + [] == ops;
    } else {
      assert RestOps(0, 0) == [] && ops + [] == ops;
      assert RunOps(0, 1) == [];
    }
  }

  lemma SentOther(ops: seq<Op>, zeros: nat, repeats: nat, sizes: seq<nat>, prev: nat, x: nat)
    requires SentAs(ops, zeros, repeats, sizes) && (sizes != [] ==> prev == sizes[|sizes| - 1]) && (sizes == [] ==> prev != x) && x != 0
    ensures var more := ops + RestOps(0, zeros);
      if x != prev then SentAs(more + (if repeats == 0 then [] else RestOps(prev, repeats)) + [Single(x)], 0, 0, sizes + [x])
      else if repeats + 1 == 6 then SentAs(more + RestOps(x, 6), 0, 0, sizes + [x])
      else SentAs(more, 0, repeats + 1, sizes + [x])
  {
    hide OpsSoFar, Tail, PackedOps;
    SoFarSnoc(sizes, x);
    SentRest(ops, zeros, repeats, sizes, prev);
    if x == prev {
      RunGoesOn(x, Tail(sizes));
      SoFarIs(sizes);
      assert RestOps(0, 0) == [] && ops + [] == ops;
    } else {
      assert RunOps(x, 1) == [Single(x)];
    }
  }

  /** Packs code lengths. */
  class Packer {
    const packed: array<nat>
    const count: array<nat>
    var num: nat
    var zCount: nat
    var repeatCount: nat
    var prev: nat
    ghost var ops: seq<Op>

    ghost predicate Shape()
      reads this, packed, count
    {
      packed.Length == MAX_PACKED && count.Length == 19 && packed != count
      && PackState(packed[..], num, count[..], ops)
    }

    /** What is packed, followed by what is only counted so far, is sizes. */
    ghost predicate Holds(sizes: seq<nat>)
      reads this, packed, count
    {
      && Shape()
      && zCount < 138 && repeatCount < 6 && (zCount == 0 || repeatCount == 0)
      && (repeatCount > 0 ==> 1 <= prev <= 15 && ExpandOps(ops) != [] && ExpandOps(ops)[|ExpandOps(ops)| - 1] == prev)
      && sizes == ExpandOps(ops) + Copies(0, zCount) + Copies(prev, repeatCount)
    }

    /** The operations so far, and what is counted for the current run. */
    ghost predicate Sent(sizes: seq<nat>)
      reads this
    {
      SentAs(ops, zCount, repeatCount, sizes)
    }

    constructor ()
      ensures fresh(packed) && fresh(count) && Holds([]) && Sent([]) && prev == 255
    {
      packed := new nat[MAX_PACKED](_ => 0);
      count := new nat[19](_ => 0);
      num, zCount, repeatCount, prev := 0, 0, 0, 255;
      ops := [];
    }

    method PutSingle(v: nat)
      requires Shape() && v <= 15 && |ExpandOps(ops)| < MAX_PACKED
      modifies this`num, this`ops, packed, count
      ensures Shape() && ops == old(ops) + [Single(v)] && ExpandOps(ops) == old(ExpandOps(ops)) + [v]
    {
      hide ExpandOps, OpsBytes, OpOccurs, Sound;
      PackedFits(ops);
      SnocOps(ops, Single(v));
      ghost var before, cnt := packed[..], count[..];
      count[v] := (count[v] + 1) % 65536;
      packed[num] := v;
      assert packed[..num + 1] == before[..num] + [v];
      num := num + 1;
      ops := ops + [Single(v)];
    }

    method PutOp(ghost op: Op, sym: nat, extra: nat)
      requires Shape() && OpOk(op) && !op.Single? && sym == OpSymbol(op) && extra == OpExtra(op)
      requires |ExpandOps(ops)| + 3 <= MAX_PACKED && (op.Repeat? ==> ExpandOps(ops) != [])
      modifies this`num, this`ops, packed, count
      ensures Shape() && ops == old(ops) + [op] && ExpandOps(ops) == ApplyOp(old(ExpandOps(ops)), op)
    {
      hide ExpandOps, OpsBytes, OpOccurs, Sound;
      PackedFits(ops);
      SnocOps(ops, op);
      ghost var before, cnt := packed[..], count[..];
      count[sym] := (count[sym] + 1) % 65536;
      packed[num] := sym;
      packed[num + 1] := extra;
      assert packed[..num + 2] == before[..num] + [sym, extra];
      num := num + 2;
      ops := ops + [op];
    }

    /** Writes a length once or twice. */
    method PutSingles(v: nat, k: nat)
      requires Shape() && v <= 15 && k < 3 && |ExpandOps(ops)| + k <= MAX_PACKED
      modifies this`num, this`ops, packed, count
      ensures Shape() && ExpandOps(ops) == old(ExpandOps(ops)) + Copies(v, k) && ops == old(ops) + Times(Single(v), k)
    {
      hide PackState, ExpandOps;
      var left: nat := k;
      while left > 0
        invariant left <= k && Shape() && ExpandOps(ops) == old(ExpandOps(ops)) + Copies(v, k - left)
        invariant ops == old(ops) + Times(Single(v), k - left)
        decreases left
      {
        PutSingle(v);
        left := left - 1;
        assert Copies(v, k - left) == Copies(v, k - left - 1) + [v];
      }
    }

    /** Writes out the counted repeats of the previous length. */
    method FlushPrev(ghost sizes: seq<nat>)
      requires Shape() && repeatCount <= 6 && (repeatCount > 0 ==> 1 <= prev <= 15)
      requires repeatCount > 0 ==> ExpandOps(ops) != [] && ExpandOps(ops)[|ExpandOps(ops)| - 1] == prev
      requires sizes == ExpandOps(ops) + Copies(prev, repeatCount) && |sizes| <= MAX_PACKED
      modifies this`num, this`repeatCount, this`ops, packed, count
      ensures Shape() && repeatCount == 0 && sizes == ExpandOps(ops)
      ensures ops == old(ops) + (if old(repeatCount) == 0 then [] else RestOps(prev, old(repeatCount)))
    {
      hide PackState, ExpandOps;
      if repeatCount != 0 {
        if repeatCount < 3 {
          PutSingles(prev, repeatCount);
        } else {
          PutOp(Repeat(repeatCount), 16, repeatCount - 3);
        }
        repeatCount := 0;
      }
    }

    /** Writes out the counted zeros. */
    method FlushZeros(ghost sizes: seq<nat>)
      requires Shape() && zCount <= 138
      requires sizes == ExpandOps(ops) + Copies(0, zCount) && |sizes| <= MAX_PACKED
      modifies this`num, this`zCount, this`ops, packed, count
      ensures Shape() && zCount == 0 && sizes == ExpandOps(ops)
      ensures ops == old(ops) + RestOps(0, old(zCount))
    {
      hide PackState, ExpandOps;
      if zCount != 0 {
        if zCount < 3 {
          PutSingles(0, zCount);
        } else if zCount <= 10 {
          PutOp(Zeros(zCount), 17, zCount - 3);
        } else {
          PutOp(Zeros(zCount), 18, zCount - 11);
        }
        zCount := 0;
      }
    }

    /** Takes one more length. */
    method Add(codeSize: nat, ghost sizes: seq<nat>)
      requires Holds(sizes) && codeSize <= 15 && |sizes| < MAX_PACKED
      requires sizes == [] ==> prev == 255
      requires sizes != [] ==> prev == sizes[|sizes| - 1]
      requires Sent(sizes)
      modifies this, packed, count
      ensures Holds(sizes + [codeSize]) && Sent(sizes + [codeSize]) && prev == codeSize
    {
      hide PackState, ExpandOps, SentAs, RestOps;
      if codeSize != 0 {
        SentOther(ops, zCount, repeatCount, sizes, prev, codeSize);
      }
      if codeSize == 0 {
        AddZero(sizes);
      } else {
        if zCount > 0 {
          assert sizes == ExpandOps(ops) + Copies(0, zCount);
        }
        FlushZeros(if zCount > 0 then sizes else ExpandOps(ops));
        if codeSize != prev {
          assert sizes == ExpandOps(ops) + Copies(prev, repeatCount);
          FlushPrev(sizes);
          PutSingle(codeSize);
        } else {
          repeatCount := repeatCount + 1;
          assert sizes + [codeSize] == ExpandOps(ops) + Copies(prev, repeatCount);
          if repeatCount == 6 {
            FlushPrev(sizes + [codeSize]);
          }
        }
      }
      prev := codeSize;
    }

    method AddZero(ghost sizes: seq<nat>)
      requires Holds(sizes) && |sizes| < MAX_PACKED && Sent(sizes) && (sizes != [] ==> prev == sizes[|sizes| - 1])
      modifies this`num, this`zCount, this`repeatCount, this`ops, packed, count
      ensures Shape() && repeatCount == 0 && zCount < 138 && sizes + [0] == ExpandOps(ops) + Copies(0, zCount)
      ensures Sent(sizes + [0])
    {
      hide PackState, ExpandOps, SentAs, RestOps;
      SentZero(ops, zCount, repeatCount, sizes, prev);
      if repeatCount > 0 {
        assert sizes == ExpandOps(ops) + Copies(prev, repeatCount);
      }
      FlushPrev(if repeatCount > 0 then sizes else ExpandOps(ops));
      zCount := zCount + 1;
      assert sizes + [0] == ExpandOps(ops) + Copies(0, zCount);
      if zCount == 138 {
        FlushZeros(sizes + [0]);
      }
    }

    /** Packs a whole list of lengths: expanding the result gives the list back. */
    method Pack(sizes: seq<nat>)
      requires Holds([]) && Sent([]) && prev == 255
      requires |sizes| <= MAX_PACKED && forall i :: 0 <= i < |sizes| ==> sizes[i] <= 15
      modifies this, packed, count
      ensures Shape() && ExpandOps(ops) == sizes && num <= |sizes| && ops == PackedOps(sizes)
    {
      hide Shape, Sent;
      for i := 0 to |sizes|
        invariant Holds(sizes[..i]) && Sent(sizes[..i])
        invariant if i == 0 then prev == 255 else prev == sizes[i - 1]
      {
        hide Holds;
        Add(sizes[i], sizes[..i]);
        assert sizes[..i] + [sizes[i]] == sizes[..i + 1];
      }
      assert sizes[..|sizes|] == sizes;
      Finish(sizes);
    }

    method Finish(ghost sizes: seq<nat>)
      requires Holds(sizes) && |sizes| <= MAX_PACKED && Sent(sizes) && (sizes != [] ==> prev == sizes[|sizes| - 1])
      modifies this, packed, count
      ensures Shape() && ExpandOps(ops) == sizes && num <= |sizes| && ops == PackedOps(sizes)
    {
      hide SentAs, PackedOps;
      SentRest(ops, zCount, repeatCount, sizes, prev);
      if repeatCount > 0 {
        assert sizes == ExpandOps(ops) + Copies(prev, repeatCount);
        FlushPrev(sizes);
      } else {
        assert sizes == ExpandOps(ops) + Copies(0, zCount);
        FlushZeros(sizes);
      }
      PackedFits(ops);
    }
  }
}
