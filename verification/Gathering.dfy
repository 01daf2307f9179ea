/**
 * The symbols in use, with their counts, and sums over them that do not depend on their order.
 */
module Gathering {
  import opened Bits
  import opened Canonical
  import opened Completeness
  import opened RadixSort
  import opened HuffmanTree
  import opened MinRedundancy

  /** Symbols with a nonzero count. */
  function UsedSymbols(counts: seq<nat>): (n: nat)
    ensures n <= |counts|
  {
    if counts == [] then 0
    else UsedSymbols(counts[..|counts| - 1]) + (if counts[|counts| - 1] != 0 then 1 else 0)
  }

  /** The used symbols with their counts, by symbol. */
  function Gathered(counts: seq<nat>): (r: seq<SymFreq>)
    ensures |r| == UsedSymbols(counts)
  {
    if counts == [] then []
    else
      var g := Gathered(counts[..|counts| - 1]);
      if counts[|counts| - 1] != 0 then g + [SymFreq(counts[|counts| - 1], |counts| - 1)] else g
  }

  lemma {:induction false} GatheredOk(counts: seq<nat>)
    ensures BySymbol(Gathered(counts))
    ensures forall x :: x in Gathered(counts) <==> x.sym < |counts| && counts[x.sym] != 0 && x.key == counts[x.sym]
    ensures Sum(Keys(Gathered(counts))) == Sum(counts)
  {
    if counts != [] {
      var t := counts[..|counts| - 1];
      GatheredOk(t);
      assert counts == t + [counts[|t|]];
      SumSnoc(t, counts[|t|]);
      if counts[|t|] != 0 {
        var g := Gathered(t);
        assert Keys(Gathered(counts)) == Keys(g) + [counts[|t|]];
        SumSnoc(Keys(g), counts[|t|]);
        forall i | 0 <= i < |g| ensures g[i].sym < |t| {
          assert g[i] in g;
        }
      }
    }
  }

  /** What is added up over symbols: their weight, their price, the room of their codes, or how many have length k. */
  datatype Measure = Weight | Price(sizes: seq<nat>) | Room(sizes: seq<nat>) | Having(sizes: seq<nat>, k: nat)

  function Value(m: Measure, x: SymFreq): nat {
    match m
    case Weight => x.key
    case Price(sizes) => if x.sym < |sizes| then x.key * sizes[x.sym] else 0
    case Room(sizes) => if x.sym < |sizes| && sizes[x.sym] <= MAX_CODE_SIZE then Pow2(MAX_CODE_SIZE - sizes[x.sym]) else 0
    case Having(sizes, k) => if x.sym < |sizes| && sizes[x.sym] == k then 1 else 0
  }

  function SumOf(m: Measure, s: seq<SymFreq>): nat {
    if s == [] then 0 else Value(m, s[0]) + SumOf(m, s[1..])
  }

  lemma {:induction false} SumOfAppend(m: Measure, s: seq<SymFreq>, t: seq<SymFreq>)
    ensures SumOf(m, s + t) == SumOf(m, s) + SumOf(m, t)
  {
    hide Value;
    if s == [] {
      assert s + t == t;
    } else {
      assert (s + t)[1..] == s[1..] + t;
      SumOfAppend(m, s[1..], t);
    }
  }

  lemma {:induction false} SumOfKeys(s: seq<SymFreq>)
    ensures SumOf(Weight, s) == Sum(Keys(s))
  {
    if s != [] {
      assert Keys(s)[1..] == Keys(s[1..]);
      SumOfKeys(s[1..]);
    }
  }

  /** An element taken out of a sequence. */
  lemma SumOfWithout(m: Measure, t: seq<SymFreq>, i: nat)
    requires i < |t|
    ensures SumOf(m, t) == Value(m, t[i]) + SumOf(m, t[..i] + t[i + 1..])
    ensures multiset(t[..i] + t[i + 1..]) == multiset(t) - multiset{t[i]}
  {
    hide Value;
    assert t == t[..i] + ([t[i]] + t[i + 1..]);
    SumOfAppend(m, t[..i], [t[i]] + t[i + 1..]);
    SumOfAppend(m, t[..i], t[i + 1..]);
    assert ([t[i]] + t[i + 1..])[1..] == t[i + 1..];
  }

  /** Reordering keeps the sum. */
  lemma {:induction false} SumOfPermutes(m: Measure, s: seq<SymFreq>, t: seq<SymFreq>)
    requires multiset(s) == multiset(t)
    ensures |s| == |t| && SumOf(m, s) == SumOf(m, t)
    decreases |s|
  {
    hide Value;
    assert |multiset(s)| == |s| && |multiset(t)| == |t|;
    if s != [] {
      var i := Elsewhere(s, t);
      SumOfWithout(m, t, i);
      SumOfPermutes(m, s[1..], t[..i] + t[i + 1..]);
    }
  }

  /** The first element of s stands somewhere in t, and the rests have the same elements too. */
  lemma Elsewhere(s: seq<SymFreq>, t: seq<SymFreq>) returns (i: nat)
    requires multiset(s) == multiset(t) && s != []
    ensures i < |t| && t[i] == s[0] && multiset(s[1..]) == multiset(t[..i] + t[i + 1..])
  {
    assert s[0] in multiset(t);
    i :| 0 <= i < |t| && t[i] == s[0];
    assert s == [s[0]] + s[1..];
    assert multiset(s[1..]) == multiset(s) - multiset{s[0]};
    assert t == t[..i] + [t[i]] + t[i + 1..];
    assert multiset(t[..i] + t[i + 1..]) == multiset(t) - multiset{t[i]};
  }

  lemma SameElements(s: seq<SymFreq>, t: seq<SymFreq>)
    requires multiset(s) == multiset(t)
    ensures forall x :: x in s <==> x in t
  {
    forall x ensures x in s <==> x in t {
      assert x in s <==> x in multiset(s);
    }
  }

  /** What the symbols cost: each count times its code length. */
  function SymbolCost(counts: seq<nat>, sizes: seq<nat>): nat
    requires |counts| <= |sizes|
  {
    if counts == [] then 0
    else SymbolCost(counts[..|counts| - 1], sizes) + counts[|counts| - 1] * sizes[|counts| - 1]
  }

  lemma SumOfSnoc(m: Measure, s: seq<SymFreq>, x: SymFreq)
    ensures SumOf(m, s + [x]) == SumOf(m, s) + Value(m, x)
  {
    hide Value;
    SumOfAppend(m, s, [x]);
    assert [x][1..] == [];
  }

  lemma {:induction false} PriceIsCost(counts: seq<nat>, sizes: seq<nat>)
    requires |counts| <= |sizes|
    ensures SumOf(Price(sizes), Gathered(counts)) == SymbolCost(counts, sizes)
  {
    hide SumOf;
    if counts == [] {
      NoSum(Price(sizes));
    } else {
      var t, n := counts[..|counts| - 1], |counts| - 1;
      PriceIsCost(t, sizes);
      SumOfSnoc(Price(sizes), Gathered(t), SymFreq(counts[n], n));
    }
  }

  lemma NoSum(m: Measure)
    ensures SumOf(m, []) == 0
  {
  }

  /** The codes in use take no more room than all codes. */
  lemma {:induction false} RoomBelowKraft(counts: seq<nat>, sizes: seq<nat>)
    requires |counts| <= |sizes| && forall s :: 0 <= s < |sizes| ==> 1 <= sizes[s] <= MAX_CODE_SIZE
    ensures SumOf(Room(sizes), Gathered(counts)) <= KraftSum(sizes[..|counts|], MAX_CODE_SIZE)
  {
    hide SumOf, Pow2;
    if counts == [] {
      NoSum(Room(sizes));
    } else {
      var t, n := counts[..|counts| - 1], |counts| - 1;
      RoomBelowKraft(t, sizes);
      SumOfSnoc(Room(sizes), Gathered(t), SymFreq(counts[n], n));
      assert sizes[..n + 1][..n] == sizes[..n];
    }
  }

  /** Lengths of used symbols, counted. */
  lemma {:induction false} HavingIsCount(counts: seq<nat>, sizes: seq<nat>, k: nat)
    requires |counts| <= |sizes| && k >= 1 && forall s :: 0 <= s < |counts| ==> (sizes[s] != 0 <==> counts[s] != 0)
    ensures SumOf(Having(sizes, k), Gathered(counts)) == Count(sizes[..|counts|], k)
  {
    hide SumOf;
    if counts == [] {
      NoSum(Having(sizes, k));
    } else {
      var t, n := counts[..|counts| - 1], |counts| - 1;
      HavingIsCount(t, sizes, k);
      SumOfSnoc(Having(sizes, k), Gathered(t), SymFreq(counts[n], n));
      assert sizes[..n + 1][..n] == sizes[..n];
    }
  }
}
