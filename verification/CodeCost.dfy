/**
 * What the lengths chosen for some counts cost: hardly more than any other lengths of
 * at most fifteen bits that leave room for a code.
 */
module CodeCosts {
  import opened Bits
  import opened Canonical
  import opened Completeness
  import opened RadixSort
  import opened HuffmanTree
  import opened HuffmanOptimal
  import opened HuffmanCost
  import opened MinRedundancy
  import opened LengthLimit
  import opened LimitCost
  import opened LengthCounts
  import opened Gathering

  /** The lengths of the symbols of a list, in its order. */
  function LensOf(order: seq<SymFreq>, sizes: seq<nat>): (lens: seq<nat>)
    requires forall i :: 0 <= i < |order| ==> order[i].sym < |sizes|
    ensures |lens| == |order| && forall i :: 0 <= i < |order| ==> lens[i] == sizes[order[i].sym]
  {
    seq(|order|, i requires 0 <= i < |order| => sizes[order[i].sym])
  }

  lemma {:induction false} OrderPrice(order: seq<SymFreq>, sizes: seq<nat>)
    requires forall i :: 0 <= i < |order| ==> order[i].sym < |sizes|
    ensures Cost(Pairs(Keys(order), LensOf(order, sizes))) == SumOf(Price(sizes), order)
  {
    if order != [] {
      OrderPrice(order[1..], sizes);
      PairsCons(Keys(order), LensOf(order, sizes));
      assert Keys(order)[1..] == Keys(order[1..]) && LensOf(order, sizes)[1..] == LensOf(order[1..], sizes);
    }
  }

  lemma {:induction false} OrderRoom(order: seq<SymFreq>, sizes: seq<nat>)
    requires forall i :: 0 <= i < |order| ==> order[i].sym < |sizes| && sizes[order[i].sym] <= MAX_CODE_SIZE
    ensures NoLonger(Pairs(Keys(order), LensOf(order, sizes)), MAX_CODE_SIZE)
    ensures KraftAt(Pairs(Keys(order), LensOf(order, sizes)), MAX_CODE_SIZE) == SumOf(Room(sizes), order)
  {
    hide Pow2;
    var items := Pairs(Keys(order), LensOf(order, sizes));
    if order != [] {
      OrderRoom(order[1..], sizes);
      assert Keys(order)[1..] == Keys(order[1..]) && LensOf(order, sizes)[1..] == LensOf(order[1..], sizes);
      assert items[1..] == Pairs(Keys(order[1..]), LensOf(order[1..], sizes));
    }
  }

  lemma {:induction false} OrderHaving(order: seq<SymFreq>, sizes: seq<nat>, k: nat)
    requires forall i :: 0 <= i < |order| ==> order[i].sym < |sizes|
    ensures Count(LensOf(order, sizes), k) == SumOf(Having(sizes, k), order)
  {
    if order != [] {
      OrderHaving(order[1..], sizes, k);
      CountCons(LensOf(order, sizes), k);
      assert LensOf(order, sizes)[1..] == LensOf(order[1..], sizes);
    }
  }

  /** The used symbols, in some order. */
  ghost predicate OrderOf(order: seq<SymFreq>, counts: seq<nat>) {
    multiset(order) == multiset(Gathered(counts)) && forall i :: 0 <= i < |order| ==> order[i].sym < |counts|
  }

  /** Lengths of a code that has a word for every symbol. */
  ghost predicate Possible(other: seq<nat>) {
    (forall s :: 0 <= s < |other| ==> 1 <= other[s] <= MAX_CODE_SIZE) && KraftSum(other, MAX_CODE_SIZE) <= Pow2(MAX_CODE_SIZE)
  }

  /** The cheapest lengths cost at most as much as those of any code for all symbols. */
  lemma MinimalBelow(order: seq<SymFreq>, counts: seq<nat>, lens: seq<nat>, other: seq<nat>)
    requires OrderOf(order, counts) && |other| == |counts| && Possible(other) && |lens| == |order| && Minimal(Keys(order), lens)
    ensures Cost(Pairs(Keys(order), lens)) <= SymbolCost(counts, other)
  {
    hide Pow2, KraftSum, Gathered, SumOf, Cost, Pairs, NoLonger, KraftAt, SymbolCost;
    OrderRoom(order, other);
    OrderPrice(order, other);
    SumOfPermutes(Room(other), order, Gathered(counts));
    SumOfPermutes(Price(other), order, Gathered(counts));
    RoomBelowKraft(counts, other);
    PriceIsCost(counts, other);
    assert other[..|counts|] == other;
    assert Affordable(Pairs(Keys(order), LensOf(order, other)), MAX_CODE_SIZE);
  }

  /** What the limited lengths cost, level by level. */
  lemma LimitedLevels(order: seq<SymFreq>, counts: seq<nat>, sizes: seq<nat>, num: seq<nat>)
    requires OrderOf(order, counts) && |sizes| == |counts| && |num| == MAX_SUPPORTED + 1
    requires forall s :: 0 <= s < |counts| ==> (sizes[s] != 0 <==> counts[s] != 0) && sizes[s] <= MAX_CODE_SIZE
    requires forall i :: 0 <= i < |order| ==> sizes[order[i].sym] >= 1
    requires Descending(LensOf(order, sizes))
    requires forall k :: 1 <= k <= MAX_CODE_SIZE ==> Count(sizes, k) == num[k]
    ensures TotalsFit(Keys(order), num, MAX_CODE_SIZE) && SymbolCost(counts, sizes) == LevelSum(Keys(order), num, MAX_CODE_SIZE)
  {
    hide Gathered, SumOf, Cost, Pairs, SymbolCost, LevelSum, Total, Descending, Count, TotalsFit, AtMost;
    var lens := LensOf(order, sizes);
    assert sizes[..|counts|] == sizes;
    forall k | 1 <= k <= MAX_CODE_SIZE ensures Count(lens, k) == num[k] {
      OrderHaving(order, sizes, k);
      SumOfPermutes(Having(sizes, k), order, Gathered(counts));
      HavingIsCount(counts, sizes, k);
    }
    CountsTally(num, lens, MAX_CODE_SIZE);
    CapIsLevels(Keys(order), lens, num, MAX_CODE_SIZE);
    CapWhole(lens, MAX_CODE_SIZE);
    OrderPrice(order, sizes);
    SumOfPermutes(Price(sizes), order, Gathered(counts));
    PriceIsCost(counts, sizes);
  }

  /** What the unlimited lengths cost at least. */
  lemma UnlimitedLevels(f: seq<nat>, lens: seq<nat>)
    requires |f| == |lens| && Descending(lens) && forall i :: 0 <= i < |lens| ==> 1 <= lens[i]
    ensures TotalsFit(f, NumCodes(lens), MAX_CODE_SIZE) && Tallies(NumCodes(lens), lens, MAX_CODE_SIZE)
    ensures LevelSum(f, NumCodes(lens), MAX_CODE_SIZE) <= Cost(Pairs(f, lens))
  {
    hide Cost, Pairs, LevelSum, Total, Descending, NumCodes, AtMost, Count;
    forall k | 1 <= k <= MAX_CODE_SIZE ensures Count(lens, k) == NumCodes(lens)[k] {
      NumCodesCount(lens, k);
    }
    CountsTally(NumCodes(lens), lens, MAX_CODE_SIZE);
    CapIsLevels(f, lens, NumCodes(lens), MAX_CODE_SIZE);
    CapCheaper(f, lens, MAX_CODE_SIZE);
  }

  /** No code for all symbols is cheaper by more than two in RATE of the total weight per symbol in use. */
  ghost predicate Cheap(sizes: seq<nat>, counts: seq<nat>) {
    && |sizes| == |counts|
    && forall other: seq<nat> :: |other| == |counts| && Possible(other) ==> CheapAgainst(sizes, counts, other)
  }

  ghost predicate CheapAgainst(sizes: seq<nat>, counts: seq<nat>, other: seq<nat>)
    requires |counts| == |sizes| == |other|
  {
    RATE * SymbolCost(counts, sizes) <= RATE * SymbolCost(counts, other) + 2 * UsedSymbols(counts) * Sum(counts)
  }

  /** The sizes belong to the counters, symbol by symbol in ascending order of the counts. */
  ghost predicate Assigned(order: seq<SymFreq>, counts: seq<nat>, sizes: seq<nat>, num: seq<nat>) {
    && OrderOf(order, counts) && |sizes| == |counts| && |num| == MAX_SUPPORTED + 1
    && (forall s :: 0 <= s < |counts| ==> (sizes[s] != 0 <==> counts[s] != 0) && sizes[s] <= MAX_CODE_SIZE)
    && (forall i :: 0 <= i < |order| ==> sizes[order[i].sym] >= 1)
    && Descending(LensOf(order, sizes))
    && (forall k :: 1 <= k <= MAX_CODE_SIZE ==> Count(sizes, k) == num[k])
  }

  lemma OrderWeight(order: seq<SymFreq>, counts: seq<nat>)
    requires OrderOf(order, counts)
    ensures Sum(Keys(order)) == Sum(counts) && |order| == UsedSymbols(counts)
  {
    hide Gathered, SumOf, Sum;
    SumOfPermutes(Weight, order, Gathered(counts));
    SumOfKeys(order);
    SumOfKeys(Gathered(counts));
    GatheredOk(counts);
  }

  /** The limited lengths against the cheapest ones. */
  lemma LimitedPrice(order: seq<SymFreq>, counts: seq<nat>, lens: seq<nat>, sizes: seq<nat>, num: seq<nat>, low: nat, s: nat)
    requires Assigned(order, counts, sizes, num) && |order| == |lens| <= 288 && Lengths(lens)
    requires LightLeaves(Keys(order), lens, 0, Sum(Keys(order)))
    requires KraftUpTo(NumCodes(lens), MAX_SUPPORTED, MAX_SUPPORTED) == Pow2(MAX_SUPPORTED)
    requires SplitSoFar(NumCodes(lens), num, |order|, MAX_CODE_SIZE, low, s)
    ensures RATE * SymbolCost(counts, sizes) <= RATE * Cost(Pairs(Keys(order), lens)) + 2 * |order| * Sum(Keys(order))
  {
    assert Descending(lens) && forall i :: 0 <= i < |lens| ==> 1 <= lens[i];
    LimitedLevels(order, counts, sizes, num);
    hide OrderOf, Assigned, Lengths, Cost, Pairs, SymbolCost, LevelSum, Total, Descending, NumCodes, TotalsFit, Tallies, Pow2, KraftUpTo,
      SplitSoFar, LightLeaves, Sum, Keys, LensOf;
    var f := Keys(order);
    UnlimitedLevels(f, lens);
    ShortRoom(NumCodes(lens), MAX_CODE_SIZE);
    LimitingCost(f, lens, NumCodes(lens), num, low, s, Sum(f));
  }

  lemma LimitedCheap(order: seq<SymFreq>, counts: seq<nat>, lens: seq<nat>, sizes: seq<nat>, num: seq<nat>, low: nat, s: nat)
    requires Assigned(order, counts, sizes, num) && 2 <= |order| == |lens| <= 288 && Lengths(lens) && Minimal(Keys(order), lens)
    requires LightLeaves(Keys(order), lens, 0, Sum(Keys(order)))
    requires KraftUpTo(NumCodes(lens), MAX_SUPPORTED, MAX_SUPPORTED) == Pow2(MAX_SUPPORTED)
    requires SplitSoFar(NumCodes(lens), num, |order|, MAX_CODE_SIZE, low, s)
    ensures Cheap(sizes, counts)
  {
    LimitedPrice(order, counts, lens, sizes, num, low, s);
    OrderWeight(order, counts);
    hide OrderOf, Lengths, Cost, Pairs, SymbolCost, Minimal, Sum, Possible, UsedSymbols, Keys, LensOf, SplitSoFar, LightLeaves, NumCodes;
    forall other: seq<nat> | |other| == |counts| && Possible(other) ensures CheapAgainst(sizes, counts, other) {
      MinimalBelow(order, counts, lens, other);
    }
  }

  lemma {:induction false} CostMonotone(counts: seq<nat>, a: seq<nat>, b: seq<nat>)
    requires |counts| <= |a| && |counts| <= |b| && forall s :: 0 <= s < |counts| ==> a[s] <= b[s]
    ensures SymbolCost(counts, a) <= SymbolCost(counts, b)
  {
    if counts != [] {
      var n := |counts| - 1;
      CostMonotone(counts[..n], a, b);
      MulAtLeast(counts[n], a[n], b[n]);
    }
  }

  /** One symbol alone is as cheap as can be. */
  lemma SingleCheap(sizes: seq<nat>, counts: seq<nat>)
    requires |sizes| == |counts| && forall s :: 0 <= s < |sizes| ==> sizes[s] <= 1
    ensures Cheap(sizes, counts)
  {
    hide SymbolCost, UsedSymbols, Sum, KraftSum, Pow2;
    forall other: seq<nat> | |other| == |counts| && Possible(other) ensures CheapAgainst(sizes, counts, other) {
      CostMonotone(counts, sizes, other);
      assert 2 * UsedSymbols(counts) * Sum(counts) >= 0;
    }
  }
}
