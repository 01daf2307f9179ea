/**
 * The compressor's Huffman tables: code lengths from symbol counts, and codes,
 * bit-reversed for the bit writer, from code lengths.
 */
module CodeTables {
  import opened Bits
  import opened Sequences
  import opened Canonical
  import opened RadixSort
  import opened HuffmanTree
  import opened HuffmanCost
  import opened MinRedundancy
  import opened LengthLimit
  import opened LimitCost
  import opened LengthCounts
  import opened Gathering
  import opened CodeCosts
  import opened TreeBound

  const MAX_SYMBOLS := 288

  /** num[l] codes of each length l up to hi. */
  ghost predicate CountsLengths(num: seq<nat>, sizes: seq<nat>, hi: nat) {
    hi < |num| && forall l :: 1 <= l <= hi ==> num[l] == Count(sizes, l)
  }

  /** The canonical code range of a length is the scaled Kraft sum of the lengths up to it. */
  lemma {:induction false} CodeEndIsKraft(num: seq<nat>, sizes: seq<nat>, l: nat)
    requires 1 <= l && CountsLengths(num, sizes, l)
    ensures CodeEnd(sizes, l) == KraftUpTo(num, l, l)
  {
    LastTerm(num, l);
    if l == 1 {
      assert KraftUpTo(num, 0, 1) == 0;
    } else {
      CodeEndIsKraft(num, sizes, l - 1);
      KraftScale(num, l - 1, l - 1, 1);
      assert Pow2(1) == 2;
    }
  }

  lemma {:induction false} LongerUnused(sizes: seq<nat>, l: nat, m: nat)
    requires 1 <= l <= m && CodeEnd(sizes, l) == Pow2(l)
    requires forall k :: l < k <= m ==> Count(sizes, k) == 0
    ensures CodeEnd(sizes, m) == Pow2(m)
    decreases m
  {
    if l < m {
      LongerUnused(sizes, l, m - 1);
    }
  }

  lemma {:induction false} NoLonger(sizes: seq<nat>, limit: nat, k: nat)
    requires limit < k && forall s :: 0 <= s < |sizes| ==> sizes[s] <= limit
    ensures Count(sizes, k) == 0
  {
    if sizes != [] {
      NoLonger(sizes[..|sizes| - 1], limit, k);
    }
  }

  /** Lengths up to the limit with Kraft sum 1 are a complete code. */
  lemma LimitedComplete(num: seq<nat>, sizes: seq<nat>, limit: nat)
    requires 1 <= limit <= MAX_CODE_SIZE && CountsLengths(num, sizes, limit)
    requires KraftUpTo(num, limit, limit) == Pow2(limit)
    requires forall s :: 0 <= s < |sizes| ==> sizes[s] <= limit
    ensures Complete(sizes)
  {
    hide KraftUpTo, Pow2;
    CodeEndIsKraft(num, sizes, limit);
    forall k | limit < k <= MAX_CODE_SIZE ensures Count(sizes, k) == 0 {
      NoLonger(sizes, limit, k);
    }
    LongerUnused(sizes, limit, MAX_CODE_SIZE);
  }

  lemma {:induction false} CountUpdate(sizes: seq<nat>, s: nat, v: nat, l: nat)
    requires s < |sizes|
    ensures Count(sizes[s := v], l) == Count(sizes, l) - (if sizes[s] == l then 1 else 0) + (if v == l then 1 else 0)
  {
    var t := sizes[..|sizes| - 1];
    if s == |t| {
      assert sizes[s := v][..|t|] == t;
    } else {
      assert sizes[s := v][..|t|] == t[s := v];
      CountUpdate(t, s, v, l);
    }
  }

  lemma SortedElements(sorted: seq<SymFreq>, counts: seq<nat>)
    requires multiset(sorted) == multiset(Gathered(counts))
    ensures |sorted| == UsedSymbols(counts)
    ensures forall i :: 0 <= i < |sorted| ==> sorted[i].sym < |counts| && sorted[i].key == counts[sorted[i].sym] != 0
    ensures forall s :: 0 <= s < |counts| && counts[s] != 0 ==> SymFreq(counts[s], s) in sorted
    ensures Sum(Keys(sorted)) == Sum(counts)
  {
    hide Gathered;
    GatheredOk(counts);
    SumOfPermutes(Weight, sorted, Gathered(counts));
    SumOfKeys(sorted);
    SumOfKeys(Gathered(counts));
    SameElements(sorted, Gathered(counts));
    forall i | 0 <= i < |sorted| ensures sorted[i].sym < |counts| && sorted[i].key == counts[sorted[i].sym] != 0 {
      assert sorted[i] in sorted;
    }
  }

  lemma SortedOrder(sorted: seq<SymFreq>, counts: seq<nat>)
    requires StablySorted(sorted)
    requires forall i :: 0 <= i < |sorted| ==> sorted[i].sym < |counts| && sorted[i].key == counts[sorted[i].sym] != 0
    ensures Ascending(Keys(sorted)) && Positive(Keys(sorted)) && NoRepeats(Syms(sorted))
  {
  }

  /** Lengths handed out so far: the sorted symbols from place j on, the most frequent ones, have theirs. */
  ghost predicate HandedOut(sizes: seq<nat>, syms: seq<nat>, j: nat, i: nat) {
    && j <= |syms|
    && (forall p :: 0 <= p < |syms| ==> syms[p] < |sizes|)
    && (forall p :: j <= p < |syms| ==> 1 <= sizes[syms[p]] <= i)
    && (forall p, q :: j <= p < q < |syms| ==> sizes[syms[p]] >= sizes[syms[q]])
    && (forall s :: 0 <= s < |sizes| && sizes[s] != 0 ==> exists p :: j <= p < |syms| && syms[p] == s)
  }

  lemma HandOne(sizes: seq<nat>, syms: seq<nat>, j: nat, i: nat)
    requires HandedOut(sizes, syms, j, i) && NoRepeats(syms) && j > 0 && i >= 1
    ensures sizes[syms[j - 1]] == 0
    ensures HandedOut(sizes[syms[j - 1] := i], syms, j - 1, i)
  {
    var s := syms[j - 1];
    var sizes' := sizes[s := i];
    forall t | 0 <= t < |sizes'| && sizes'[t] != 0 ensures exists p :: j - 1 <= p < |syms| && syms[p] == t {
      if t == s {
        assert syms[j - 1] == t;
      }
    }
  }

  /** Length counters of what is handed out: all of the lengths below i, and all but left of length i. */
  ghost predicate HandedCounts(sizes: seq<nat>, num: seq<nat>, i: nat, left: nat) {
    && i < |num| && left <= num[i]
    && (forall k :: 1 <= k < i ==> Count(sizes, k) == num[k])
    && (i >= 1 ==> Count(sizes, i) == num[i] - left)
    && (forall k :: i < k < |num| ==> Count(sizes, k) == 0)
  }

  lemma CountOne(sizes: seq<nat>, num: seq<nat>, i: nat, left: nat, s: nat)
    requires HandedCounts(sizes, num, i, left) && i >= 1 && left > 0 && s < |sizes| && sizes[s] == 0
    ensures HandedCounts(sizes[s := i], num, i, left - 1)
  {
    var sizes' := sizes[s := i];
    forall k | 1 <= k < |num| ensures Count(sizes', k) == Count(sizes, k) + (if k == i then 1 else 0) {
      CountUpdate(sizes, s, i, k);
    }
  }

  lemma FirstCodeStep(sizes: seq<nat>, l: nat)
    requires l >= 1
    ensures FirstCode(sizes, 1) == 0
    ensures l > 1 ==> FirstCode(sizes, l) == 2 * (FirstCode(sizes, l - 1) + Count(sizes, l - 1))
  {
  }

  /** The bits the writer puts for symbol s are its canonical code. */
  predicate Coded(sizes: seq<nat>, codes: seq<nat>, s: nat)
    requires s < |sizes| && s < |codes|
  {
    sizes[s] >= 1 ==> codes[s] < Pow2(sizes[s]) && ToBits(codes[s], sizes[s]) == CodeBits(sizes, s)
  }

  /** What the lengths chosen for the counts promise. */
  ghost predicate GoodLengths(sizes: seq<nat>, counts: seq<nat>, limit: nat) {
    && |sizes| == |counts|
    && (forall s :: 0 <= s < |sizes| ==> sizes[s] <= limit && (sizes[s] != 0 <==> counts[s] != 0))
    && (UsedSymbols(counts) >= 2 ==> Complete(sizes))
    && (UsedSymbols(counts) == 1 ==> forall s :: 0 <= s < |sizes| ==> sizes[s] <= 1)
    && (forall s, t :: 0 <= s < |sizes| && 0 <= t < |sizes| && 0 < counts[s] < counts[t] ==> sizes[s] >= sizes[t])
  }

  class CodeTable {
    const sizes: array<nat>
    const codes: array<nat>

    ghost predicate Shape() {
      sizes.Length == MAX_SYMBOLS && codes.Length == MAX_SYMBOLS && sizes != codes
    }

    /** Every symbol with a length has its code. */
    ghost predicate AllCoded(n: nat)
      reads sizes, codes
      requires n <= sizes.Length && n <= codes.Length
    {
      forall s :: 0 <= s < n ==> Coded(sizes[..n], codes[..n], s)
    }

    constructor ()
      ensures Shape() && fresh(sizes) && fresh(codes)
    {
      sizes := new nat[MAX_SYMBOLS](_ => 0);
      codes := new nat[MAX_SYMBOLS](_ => 0);
    }

    /** The first code of every length. */
    method FirstCodes(limit: nat, num: array<nat>, ghost ls: seq<nat>) returns (nextCode: array<nat>)
      requires 1 <= limit <= MAX_CODE_SIZE && num.Length == MAX_SUPPORTED + 1 && CountsLengths(num[..], ls, limit - 1)
      ensures fresh(nextCode) && nextCode.Length == MAX_SUPPORTED + 1 && NextCodes(ls, 0, limit, nextCode[..])
    {
      hide FirstCode, Count;
      nextCode := new nat[MAX_SUPPORTED + 1];
      nextCode[1] := 0;
      var j := 0;
      FirstCodeStep(ls, 1);
      for i := 2 to limit + 1
        invariant j == FirstCode(ls, i - 1)
        invariant forall l :: 1 <= l < i ==> nextCode[l] == FirstCode(ls, l)
      {
        FirstCodeStep(ls, i);
        j := 2 * (j + num[i - 1]);
        nextCode[i] := j;
      }
      NextCodesStart(ls, limit, nextCode[..]);
    }

    /** Codes from the lengths of the first n symbols and the counts of each length. */
    method AssignCodes(n: nat, limit: nat, num: array<nat>)
      requires Shape() && n <= MAX_SYMBOLS && 1 <= limit <= MAX_CODE_SIZE && num.Length == MAX_SUPPORTED + 1
      requires CountsLengths(num[..], sizes[..n], limit - 1)
      requires forall s :: 0 <= s < n ==> sizes[s] <= limit
      modifies codes
      ensures AllCoded(n)
    {
      hide CodeBits, Coded, NextCodes, CodeValue, ToBits, MsbBits;
      ghost var ls := sizes[..n];
      var nextCode := FirstCodes(limit, num, ls);
      for i := 0 to n
        invariant sizes[..n] == ls && nextCode.Length == MAX_SUPPORTED + 1 && NextCodes(ls, i, limit, nextCode[..])
        invariant forall s :: 0 <= s < i ==> Coded(ls, codes[..n], s)
      {
        var size := sizes[i];
        assert ls[i] == size <= limit;
        NextCodesStep(ls, i, limit, nextCode[..]);
        if size != 0 {
          ghost var before, next := codes[..n], nextCode[..];
          var code := nextCode[size];
          nextCode[size] := code + 1;
          assert nextCode[..] == next[size := next[size] + 1];
          var rev := ReverseCode(code, size);
          codes[i] := rev;
          CodedAt(ls, before, i, rev, codes[..n]);
        } else {
          Uncoded(ls, codes[..n], i);
        }
      }
    }

    /** The used symbols, in symbol order, with their counts as keys. */
    static method Gather(counts: array<nat>, n: nat) returns (syms: array<SymFreq>)
      requires n <= counts.Length
      ensures fresh(syms) && syms[..] == Gathered(counts[..n])
    {
      ghost var c := counts[..n];
      var used := 0;
      NothingGathered(c);
      hide Gathered, UsedSymbols;
      for i := 0 to n
        invariant used == UsedSymbols(c[..i])
      {
        GatherOne(c, i);
        if counts[i] != 0 {
          used := used + 1;
        }
      }
      assert c[..n] == c;
      syms := new SymFreq[used](_ => SymFreq(0, 0));
      var k := 0;
      for i := 0 to n
        invariant k == |Gathered(c[..i])| <= used == |Gathered(c)|
        invariant syms[..k] == Gathered(c[..i])
        invariant counts[..n] == c
      {
        GatherOne(c, i);
        UsedPrefixOf(c, i + 1);
        if counts[i] != 0 {
          syms[k] := SymFreq(counts[i], i);
          assert syms[..k + 1] == syms[..k] + [SymFreq(counts[i], i)];
          k := k + 1;
        }
      }
      assert syms[..k] == syms[..];
    }

    /** How many codes there are of each length. */
    static method CountLengths(syms: array<SymFreq>) returns (num: array<nat>)
      requires forall i :: 0 <= i < syms.Length ==> 1 <= syms[i].key <= MAX_SUPPORTED
      ensures fresh(num) && num[..] == NumCodes(Keys(syms[..]))
    {
      num := new nat[MAX_SUPPORTED + 1](_ => 0);
      ghost var ks := Keys(syms[..]);
      var i := syms.Length;
      while i > 0
        invariant 0 <= i <= syms.Length && num[..] == NumCodes(ks[i..])
      {
        i := i - 1;
        assert ks[i..][1..] == ks[i + 1..];
        num[syms[i].key] := num[syms[i].key] + 1;
      }
      assert ks[0..] == ks;
    }

    method ClearSizes()
      requires Shape()
      modifies sizes
      ensures forall s :: 0 <= s < MAX_SYMBOLS ==> sizes[s] == 0
    {
      for s := 0 to MAX_SYMBOLS
        invariant forall t :: 0 <= t < s ==> sizes[t] == 0
      {
        sizes[s] := 0;
      }
    }

    /** Gives length i to the next num[i] symbols. */
    method HandLength(n: nat, i: nat, syms: array<SymFreq>, from: nat, num: seq<nat>) returns (j: nat)
      requires Shape() && n <= MAX_SYMBOLS && 1 <= i < |num| && num[i] <= from <= syms.Length
      requires NoRepeats(Syms(syms[..])) && forall p :: 0 <= p < syms.Length ==> syms[p].sym < n
      requires HandedOut(sizes[..n], Syms(syms[..]), from, i) && HandedCounts(sizes[..n], num, i, num[i])
      modifies sizes
      ensures j == from - num[i]
      ensures HandedOut(sizes[..n], Syms(syms[..]), j, i) && HandedCounts(sizes[..n], num, i, 0)
    {
      hide NoRepeats, HandedOut, HandedCounts;
      ghost var ss := Syms(syms[..]);
      j := from;
      var l := num[i];
      while l > 0
        invariant 0 <= l <= num[i] && j == from - (num[i] - l)
        invariant HandedOut(sizes[..n], ss, j, i)
        invariant HandedCounts(sizes[..n], num, i, l)
      {
        HandOne(sizes[..n], ss, j, i);
        CountOne(sizes[..n], num, i, l, ss[j - 1]);
        ghost var before := sizes[..n];
        j := j - 1;
        sizes[syms[j].sym] := i;
        assert sizes[..n] == before[ss[j] := i];
        l := l - 1;
      }
    }

    /** Hands the lengths out, shortest first, from the most frequent symbol down. */
    method HandOut(n: nat, limit: nat, syms: array<SymFreq>, num: array<nat>)
      requires Shape() && n <= MAX_SYMBOLS && 1 <= limit <= MAX_CODE_SIZE && num.Length == MAX_SUPPORTED + 1
      requires num != sizes
      requires Total(num[..], limit) == syms.Length && NoRepeats(Syms(syms[..]))
      requires forall i :: 0 <= i < syms.Length ==> syms[i].sym < n
      modifies sizes
      ensures HandedOut(sizes[..n], Syms(syms[..]), 0, limit)
      ensures CountsLengths(num[..], sizes[..n], limit)
    {
      ghost var ss := Syms(syms[..]);
      ClearSizes();
      var j: nat := syms.Length;
      NothingHandedOut(sizes[..n], ss, num[..]);
      for i: nat := 1 to limit + 1
        invariant num[..] == old(num[..]) && j + Total(num[..], i - 1) == syms.Length
        invariant HandedOut(sizes[..n], ss, j, i - 1)
        invariant HandedCounts(sizes[..n], num[..], i - 1, 0)
      {
        hide NoRepeats, HandedOut, HandedCounts, Syms;
        TotalMonotone(num[..], i, limit);
        LongerAllowed(sizes[..n], ss, j, num[..], i);
        j := HandLength(n, i, syms, j, num[..]);
      }
    }

    /**
     * Lengths and codes for symbol counts: Huffman lengths of the counts, limited, handed out
     * with the shortest lengths for the most frequent symbols.
     */
    method Optimize(counts: array<nat>, n: nat, limit: nat)
      requires Shape() && n <= MAX_SYMBOLS && n <= counts.Length && counts != sizes && counts != codes
      requires 1 <= limit <= MAX_CODE_SIZE && n <= Pow2(limit)
      requires Sum(counts[..n]) < 65536
      modifies sizes, codes
      ensures GoodLengths(sizes[..n], counts[..n], limit)
      ensures limit == MAX_CODE_SIZE ==> Cheap(sizes[..n], counts[..n])
      ensures AllCoded(n)
    {
      hide Sum, Pow2, Complete, NumCodes, KraftUpTo, Kraft, StablySorted, HandedOut, Coded, SplitSoFar, LightLeaves, Minimal, Cheap,
        Gathered, UsedSymbols;
      ghost var c := counts[..n];
      ghost var order;
      var sorted;
      sorted, order := HuffmanLengths(counts, n);
      ghost var lens := Keys(sorted[..]);
      LengthsInRange(lens);
      var num := CountLengths(sorted);
      LengthSums(lens, limit);
      ghost var low, s := EnforceMaxCodeSize(num, sorted.Length, limit);
      HandOut(n, limit, sorted, num);
      OrderSize(order, c);
      OrderGivesLengths(sizes[..n], c, order, limit, num[..]);
      if limit == MAX_CODE_SIZE {
        OrderIsCheap(order, c, lens, sizes[..n], num[..], low, s);
      }
      AssignCodes(n, limit, num);
    }

    /** The used symbols by ascending count, with the cheapest lengths a prefix code can have in place of the counts. */
    static method HuffmanLengths(counts: array<nat>, n: nat) returns (sorted: array<SymFreq>, ghost order: seq<SymFreq>)
      requires n <= counts.Length && Sum(counts[..n]) < 65536
      ensures fresh(sorted) && Syms(sorted[..]) == Syms(order)
      ensures sorted.Length == 1 ==> sorted[0].key == 1
      ensures sorted.Length >= 2 ==> Lengths(Keys(sorted[..])) && Minimal(Keys(order), Keys(sorted[..]))
      ensures sorted.Length >= 2 ==> LightLeaves(Keys(order), Keys(sorted[..]), 0, Sum(Keys(order)))
      ensures Ranked(order, counts[..n])
    {
      hide Sum, Lengths, Minimal, LightLeaves, Gathered, Syms, Keys, StablySorted, BySymbol, SixteenBit, NoRepeats, Ascending, Positive, UsedSymbols;
      ghost var c := counts[..n];
      var syms0 := Gather(counts, n);
      var used := syms0.Length;
      var syms1 := new SymFreq[used](_ => SymFreq(0, 0));
      GatherSorts(c);
      assert syms0[..used] == syms0[..];
      sorted := Sort(syms0, syms1, used);
      assert sorted[..used] == sorted[..];
      order := sorted[..];
      SortedElements(order, c);
      SortedOrder(order, c);
      CalculateMinimumRedundancy(sorted);
    }
  }

  /** The used symbols in stable ascending order of their counts. */
  ghost predicate Ranked(order: seq<SymFreq>, counts: seq<nat>) {
    && multiset(order) == multiset(Gathered(counts))
    && StablySorted(order) && |order| == UsedSymbols(counts) && NoRepeats(Syms(order))
    && (forall i :: 0 <= i < |order| ==> order[i].sym < |counts| && order[i].key == counts[order[i].sym] != 0)
    && (forall s :: 0 <= s < |counts| && counts[s] != 0 ==> SymFreq(counts[s], s) in order)
  }

  lemma {:induction false} KeysFit(counts: seq<nat>)
    requires Sum(counts) < 65536
    ensures SixteenBit(Gathered(counts))
  {
    GatheredOk(counts);
    var g := Gathered(counts);
    forall i | 0 <= i < |g| ensures g[i].key < 65536 {
      assert g[i] in g;
      OneInSum(counts, g[i].sym);
    }
  }

  lemma {:induction false} OneInSum(s: seq<nat>, i: nat)
    requires i < |s|
    ensures s[i] <= Sum(s)
  {
    if i > 0 {
      OneInSum(s[1..], i - 1);
    }
  }

  lemma GatherSorts(counts: seq<nat>)
    requires Sum(counts) < 65536
    ensures BySymbol(Gathered(counts)) && SixteenBit(Gathered(counts))
  {
    hide Gathered;
    GatheredOk(counts);
    KeysFit(counts);
  }

  lemma LengthsInRange(lens: seq<nat>)
    requires |lens| == 1 ==> lens[0] == 1
    requires |lens| >= 2 ==> Lengths(lens)
    ensures forall i :: 0 <= i < |lens| ==> 1 <= lens[i] <= MAX_SUPPORTED
  {
  }

  /** The counters of Huffman lengths are what the limiting step starts from. */
  lemma LengthSums(lens: seq<nat>, limit: nat)
    requires 1 <= limit <= MAX_SUPPORTED
    requires |lens| == 1 ==> lens[0] == 1
    requires |lens| >= 2 ==> Lengths(lens)
    ensures |lens| >= 2 ==> Total(NumCodes(lens), MAX_SUPPORTED) == |lens| && KraftUpTo(NumCodes(lens), MAX_SUPPORTED, MAX_SUPPORTED) == Pow2(MAX_SUPPORTED)
    ensures |lens| <= 1 ==> Total(NumCodes(lens), limit) == |lens|
    ensures |lens| <= 1 ==> forall l :: 2 <= l <= MAX_SUPPORTED ==> NumCodes(lens)[l] == 0
  {
    hide KraftUpTo, Total, Pow2, Kraft;
    LengthsInRange(lens);
    NumCodesSums(lens);
    ZeroSums(limit);
    if |lens| == 1 {
      assert lens[1..] == [];
      ChangeAt(seq(MAX_SUPPORTED + 1, _ => 0), 1, 1, limit, MAX_SUPPORTED);
    }
  }

  /** What the handed-out lengths mean for the counts. */
  lemma OrderGivesLengths(sizes: seq<nat>, counts: seq<nat>, order: seq<SymFreq>, limit: nat, num: seq<nat>)
    requires |sizes| == |counts| && 1 <= limit <= MAX_CODE_SIZE && |num| == MAX_SUPPORTED + 1
    requires Ranked(order, counts)
    requires HandedOut(sizes, Syms(order), 0, limit) && CountsLengths(num, sizes, limit)
    requires |order| >= 2 ==> KraftUpTo(num, limit, limit) == Pow2(limit)
    requires |order| <= 1 ==> forall l :: 2 <= l <= limit ==> num[l] == 0
    ensures GoodLengths(sizes, counts, limit)
  {
    hide Complete, KraftUpTo, Pow2, UsedSymbols;
    var syms := Syms(order);
    forall s | 0 <= s < |sizes| ensures sizes[s] <= limit && (sizes[s] != 0 <==> counts[s] != 0) && (|order| == 1 ==> sizes[s] <= 1) {
      if counts[s] != 0 {
        var p := PlaceOf(order, counts, s);
        assert syms[p] == s;
      }
      if |order| == 1 {
        CountPrefix(sizes, s, |sizes|, sizes[s]);
        assert sizes[..|sizes|] == sizes;
      }
    }
    if |order| >= 2 {
      LimitedComplete(num, sizes, limit);
    }
    forall s, t | 0 <= s < |sizes| && 0 <= t < |sizes| && 0 < counts[s] < counts[t] ensures sizes[s] >= sizes[t] {
      var p := PlaceOf(order, counts, s);
      var q := PlaceOf(order, counts, t);
      assert syms[p] == s && syms[q] == t;
    }
  }

  lemma OrderSize(order: seq<SymFreq>, counts: seq<nat>)
    requires Ranked(order, counts)
    ensures |order| == UsedSymbols(counts)
  {
  }

  /** The lengths handed out are cheap. */
  lemma OrderIsCheap(order: seq<SymFreq>, counts: seq<nat>, lens: seq<nat>, sizes: seq<nat>, num: seq<nat>, low: nat, s: nat)
    requires Ranked(order, counts) && GoodLengths(sizes, counts, MAX_CODE_SIZE) && |order| == |lens| <= 288 && |num| == MAX_SUPPORTED + 1
    requires HandedOut(sizes, Syms(order), 0, MAX_CODE_SIZE) && CountsLengths(num, sizes, MAX_CODE_SIZE)
    requires |order| >= 2 ==> Lengths(lens) && Minimal(Keys(order), lens) && LightLeaves(Keys(order), lens, 0, Sum(Keys(order)))
    requires |order| >= 2 ==> KraftUpTo(NumCodes(lens), MAX_SUPPORTED, MAX_SUPPORTED) == Pow2(MAX_SUPPORTED)
    requires |order| >= 2 ==> SplitSoFar(NumCodes(lens), num, |order|, MAX_CODE_SIZE, low, s)
    ensures Cheap(sizes, counts)
  {
    hide Sum, Pow2, Complete, NumCodes, KraftUpTo, Kraft, StablySorted, Lengths, SplitSoFar, LightLeaves, Minimal, Cheap, Gathered, NoRepeats;
    if |order| >= 2 {
      OrderAssigned(order, counts, sizes, num);
      LimitedCheap(order, counts, lens, sizes, num, low, s);
    } else {
      FewUsed(counts, sizes, order);
      SingleCheap(sizes, counts);
    }
  }

  lemma FewUsed(counts: seq<nat>, sizes: seq<nat>, order: seq<SymFreq>)
    requires Ranked(order, counts) && |order| <= 1 && GoodLengths(sizes, counts, MAX_CODE_SIZE)
    ensures forall s :: 0 <= s < |sizes| ==> sizes[s] <= 1
  {
    hide StablySorted, Complete, Gathered, NoRepeats, UsedSymbols;
    forall s | 0 <= s < |sizes| ensures sizes[s] <= 1 {
      if sizes[s] != 0 {
        assert SymFreq(counts[s], s) in order;
      }
    }
  }

  lemma OrderAssigned(order: seq<SymFreq>, counts: seq<nat>, sizes: seq<nat>, num: seq<nat>)
    requires Ranked(order, counts) && GoodLengths(sizes, counts, MAX_CODE_SIZE) && |num| == MAX_SUPPORTED + 1
    requires HandedOut(sizes, Syms(order), 0, MAX_CODE_SIZE) && CountsLengths(num, sizes, MAX_CODE_SIZE)
    ensures Assigned(order, counts, sizes, num)
  {
    hide StablySorted, Complete, Gathered, NoRepeats, UsedSymbols, Count;
    var syms := Syms(order);
    forall i | 0 <= i < |order| ensures 1 <= sizes[order[i].sym] {
      assert syms[i] == order[i].sym;
    }
    assert Descending(LensOf(order, sizes)) by {
      forall i, j | 0 <= i < j < |order| ensures sizes[order[i].sym] >= sizes[order[j].sym] {
        assert syms[i] == order[i].sym && syms[j] == order[j].sym;
      }
    }
  }

  lemma PlaceOf(order: seq<SymFreq>, counts: seq<nat>, s: nat) returns (p: nat)
    requires s < |counts| && SymFreq(counts[s], s) in order
    ensures p < |order| && order[p] == SymFreq(counts[s], s) && Syms(order)[p] == s
  {
    p :| 0 <= p < |order| && order[p] == SymFreq(counts[s], s);
  }

  lemma NothingHandedOut(sizes: seq<nat>, syms: seq<nat>, num: seq<nat>)
    requires forall s :: 0 <= s < |sizes| ==> sizes[s] == 0
    requires forall p :: 0 <= p < |syms| ==> syms[p] < |sizes|
    requires |num| >= 1
    ensures HandedOut(sizes, syms, |syms|, 0)
    ensures HandedCounts(sizes, num, 0, 0)
  {
    forall k | 0 < k < |num| ensures Count(sizes, k) == 0 {
      NoLonger(sizes, 0, k);
    }
  }

  /** Moving on to the next length. */
  lemma LongerAllowed(sizes: seq<nat>, syms: seq<nat>, j: nat, num: seq<nat>, i: nat)
    requires 1 <= i < |num| && HandedOut(sizes, syms, j, i - 1) && HandedCounts(sizes, num, i - 1, 0)
    ensures HandedOut(sizes, syms, j, i) && HandedCounts(sizes, num, i, num[i])
  {
  }

  lemma NothingGathered(counts: seq<nat>)
    ensures UsedSymbols(counts[..0]) == 0 && Gathered(counts[..0]) == []
  {
  }

  lemma GatherOne(counts: seq<nat>, i: nat)
    requires i < |counts|
    ensures UsedSymbols(counts[..i + 1]) == UsedSymbols(counts[..i]) + (if counts[i] != 0 then 1 else 0)
    ensures Gathered(counts[..i + 1]) == Gathered(counts[..i]) + (if counts[i] != 0 then [SymFreq(counts[i], i)] else [])
  {
    assert counts[..i + 1][..i] == counts[..i];
  }

  lemma {:induction false} UsedPrefixOf(counts: seq<nat>, i: nat)
    requires i <= |counts|
    ensures |Gathered(counts[..i])| <= |Gathered(counts)|
  {
    if i == |counts| {
      assert counts[..i] == counts;
    } else {
      UsedPrefixOf(counts[..|counts| - 1], i);
      assert counts[..|counts| - 1][..i] == counts[..i];
    }
  }

  lemma CodedAt(sizes: seq<nat>, codes: seq<nat>, i: nat, rev: nat, codes': seq<nat>)
    requires |codes| == |sizes| && i < |sizes| && sizes[i] >= 1 && codes' == codes[i := rev]
    requires rev < Pow2(sizes[i]) && ToBits(rev, sizes[i]) == MsbBits(CodeValue(sizes, i), sizes[i])
    requires forall s :: 0 <= s < i ==> Coded(sizes, codes, s)
    ensures forall s :: 0 <= s <= i ==> Coded(sizes, codes', s)
  {
    hide CodeValue, ToBits, MsbBits;
    forall s | 0 <= s < i ensures Coded(sizes, codes', s) {
      assert Coded(sizes, codes, s);
    }
  }

  lemma Uncoded(sizes: seq<nat>, codes: seq<nat>, i: nat)
    requires |codes| == |sizes| && i < |sizes| && sizes[i] == 0
    ensures Coded(sizes, codes, i)
  {
  }
}
