/**
 * What limiting the lengths costs. Lengths handed out in sorted order cost, level by level, the
 * weight of the lightest items that are longer; splitting moves few items, and none that is heavy.
 */
module LimitCost {
  import opened Bits
  import opened Canonical
  import opened HuffmanTree
  import opened HuffmanOptimal
  import opened HuffmanCost
  import opened LengthLimit

  predicate Descending(lens: seq<nat>) {
    forall i, j :: 0 <= i < j < |lens| ==> lens[i] >= lens[j]
  }

  /** How many lengths are at most l. */
  function AtMost(lens: seq<nat>, l: nat): (c: nat)
    ensures c <= |lens|
  {
    if lens == [] then 0 else (if lens[0] <= l then 1 else 0) + AtMost(lens[1..], l)
  }

  function Capped(lens: seq<nat>, h: nat): (r: seq<nat>)
    ensures |r| == |lens| && forall i :: 0 <= i < |r| ==> r[i] == if lens[i] <= h then lens[i] else h
  {
    seq(|lens|, i requires 0 <= i < |lens| => if lens[i] <= h then lens[i] else h)
  }

  lemma PairsCons(f: seq<nat>, lens: seq<nat>)
    requires |f| == |lens| > 0
    ensures Cost(Pairs(f, lens)) == f[0] * lens[0] + Cost(Pairs(f[1..], lens[1..]))
  {
    assert Pairs(f, lens)[1..] == Pairs(f[1..], lens[1..]);
  }

  /** One more level costs the weight of the items that are longer: the first ones. */
  lemma {:induction false} CapStep(f: seq<nat>, lens: seq<nat>, h: nat)
    requires |f| == |lens| && Descending(lens)
    ensures Cost(Pairs(f, Capped(lens, h + 1))) == Cost(Pairs(f, Capped(lens, h))) + Sum(f[..|f| - AtMost(lens, h)])
    ensures lens != [] && lens[0] <= h ==> AtMost(lens, h) == |lens|
  {
    hide Pairs, Cost, Sum, Capped;
    if lens != [] {
      var f1, lens1 := f[1..], lens[1..];
      assert lens1 != [] ==> lens1[0] <= lens[0];
      CapStep(f1, lens1, h);
      CapCons(f, lens, h);
      CapCons(f, lens, h + 1);
      var k := |f1| - AtMost(lens1, h);
      if lens[0] > h {
        PrefixCons(f, k);
        assert f[0] * (h + 1) == f[0] * h + f[0];
      } else {
        assert lens1 == [] ==> AtMost(lens1, h) == 0;
        assert f1[..0] == [] && f[..0] == [];
      }
    } else {
      NothingCapped(f, lens, h);
    }
  }

  lemma NothingCapped(f: seq<nat>, lens: seq<nat>, h: nat)
    requires f == [] && lens == []
    ensures Capped(lens, h) == Capped(lens, h + 1) && Sum(f[..0]) == 0
  {
  }

  lemma CapCons(f: seq<nat>, lens: seq<nat>, h: nat)
    requires |f| == |lens| > 0
    ensures Cost(Pairs(f, Capped(lens, h))) == f[0] * (if lens[0] <= h then lens[0] else h) + Cost(Pairs(f[1..], Capped(lens[1..], h)))
  {
    PairsCons(f, Capped(lens, h));
    assert Capped(lens, h)[1..] == Capped(lens[1..], h);
  }

  lemma PrefixCons(f: seq<nat>, k: nat)
    requires k < |f|
    ensures Sum(f[..k + 1]) == f[0] + Sum(f[1..][..k])
  {
    assert f[..k + 1][1..] == f[1..][..k];
  }

  /** The counters agree with the lengths up to level h. */
  ghost predicate Tallies(num: seq<nat>, lens: seq<nat>, h: nat) {
    h < |num| && forall l :: 0 <= l <= h ==> AtMost(lens, l) == Total(num, l)
  }

  predicate TotalsFit(f: seq<nat>, num: seq<nat>, h: nat) {
    h < |num| && forall l :: 0 <= l <= h ==> Total(num, l) <= |f|
  }

  /** What the levels below h cost. */
  function LevelSum(f: seq<nat>, num: seq<nat>, h: nat): nat
    requires TotalsFit(f, num, h)
  {
    if h == 0 then 0 else LevelSum(f, num, h - 1) + Sum(f[..|f| - Total(num, h - 1)])
  }

  lemma {:induction false} CapIsLevels(f: seq<nat>, lens: seq<nat>, num: seq<nat>, h: nat)
    requires |f| == |lens| && Descending(lens) && h < |num| && Tallies(num, lens, h)
    ensures TotalsFit(f, num, h) && Cost(Pairs(f, Capped(lens, h))) == LevelSum(f, num, h)
  {
    hide Cost, Pairs, Capped, Sum, Total, AtMost, Descending;
    forall l | 0 <= l <= h ensures Total(num, l) <= |f| {
      assert AtMost(lens, l) == Total(num, l);
    }
    if h == 0 {
      NoCost(f, lens);
    } else {
      CapIsLevels(f, lens, num, h - 1);
      CapStep(f, lens, h - 1);
    }
  }

  lemma {:induction false} NoCost(f: seq<nat>, lens: seq<nat>)
    requires |f| == |lens|
    ensures Cost(Pairs(f, Capped(lens, 0))) == 0
  {
    if f != [] {
      PairsCons(f, Capped(lens, 0));
      assert Capped(lens, 0)[1..] == Capped(lens[1..], 0);
      NoCost(f[1..], lens[1..]);
    }
  }

  /** Cutting lengths off costs no more. */
  lemma {:induction false} CapCheaper(f: seq<nat>, lens: seq<nat>, h: nat)
    requires |f| == |lens|
    ensures Cost(Pairs(f, Capped(lens, h))) <= Cost(Pairs(f, lens))
  {
    if f != [] {
      PairsCons(f, Capped(lens, h));
      PairsCons(f, lens);
      assert Capped(lens, h)[1..] == Capped(lens[1..], h);
      CapCheaper(f[1..], lens[1..], h);
      MulAtLeast(f[0], Capped(lens, h)[0], lens[0]);
    }
  }

  lemma CapWhole(lens: seq<nat>, h: nat)
    requires forall i :: 0 <= i < |lens| ==> lens[i] <= h
    ensures Capped(lens, h) == lens
  {
  }

  /** In descending lengths the items longer than l come first. */
  lemma {:induction false} LongerFirst(lens: seq<nat>, l: nat, p: nat)
    requires Descending(lens) && p < |lens|
    ensures lens[p] > l <==> p < |lens| - AtMost(lens, l)
  {
    if lens[0] <= l {
      AllAtMost(lens, l);
      assert lens[p] <= lens[0];
    } else if p > 0 {
      LongerFirst(lens[1..], l, p - 1);
    }
  }

  lemma {:induction false} AllAtMost(lens: seq<nat>, l: nat)
    requires Descending(lens) && lens != [] && lens[0] <= l
    ensures AtMost(lens, l) == |lens|
  {
    if |lens| > 1 {
      AllAtMost(lens[1..], l);
    }
  }

  /** A band of light items weighs little. */
  lemma {:induction false} BandWeight(f: seq<nat>, lo: nat, hi: nat, k: nat, total: nat)
    requires lo <= hi <= |f| && forall p :: lo <= p < hi ==> k * f[p] <= total
    ensures Sum(f[..hi]) >= Sum(f[..lo])
    ensures k * (Sum(f[..hi]) - Sum(f[..lo])) <= (hi - lo) * total
    decreases hi
  {
    if lo < hi {
      BandWeight(f, lo, hi - 1, k, total);
      assert f[..hi] == f[..hi - 1] + [f[hi - 1]];
      SumSnoc(f[..hi - 1], f[hi - 1]);
      var a := Sum(f[..hi - 1]) - Sum(f[..lo]);
      assert k * (a + f[hi - 1]) == k * a + k * f[hi - 1];
      assert (hi - lo) * total == (hi - 1 - lo) * total + total;
    } else {
      assert k * 0 == 0;
    }
  }

  /** The lightest items longer than level j, and how the counters name them. */
  function Longer(f: seq<nat>, num: seq<nat>, j: nat): nat
    requires j < |num| && Total(num, j) <= |f|
  {
    Sum(f[..|f| - Total(num, j)])
  }

  /** The weight of the items of length j, in units of the limit: each is light. */
  lemma LevelWeight(f: seq<nat>, lens: seq<nat>, num: seq<nat>, j: nat, k: nat, total: nat)
    requires |f| == |lens| && Descending(lens) && Tallies(num, lens, j) && 1 <= j && LightLeaves(f, lens, 0, total) && k <= num[j]
    ensures Total(num, j) <= |f| && |f| - Total(num, j) + k <= |f|
    ensures var lo := |f| - Total(num, j);
      Sum(f[..lo + k]) >= Sum(f[..lo]) && Fib(j + 1) * (Sum(f[..lo + k]) - Sum(f[..lo])) <= k * total
  {
    hide Sum, Fib, Descending, LightLeaves;
    BandLight(f, lens, num, j, k, total);
    hide Total, Tallies;
    var lo := |f| - Total(num, j);
    BandWeight(f, lo, lo + k, Fib(j + 1), total);
  }

  lemma BandLight(f: seq<nat>, lens: seq<nat>, num: seq<nat>, j: nat, k: nat, total: nat)
    requires |f| == |lens| && Descending(lens) && Tallies(num, lens, j) && 1 <= j && LightLeaves(f, lens, 0, total) && k <= num[j]
    ensures Total(num, j) <= |f| && |f| - Total(num, j) + k <= |f|
    ensures var lo := |f| - Total(num, j);
      forall p :: lo <= p < lo + k ==> Fib(j + 1) * f[p] <= total
  {
    hide Fib, Descending, LightLeaves;
    assert AtMost(lens, j) == Total(num, j) && AtMost(lens, j - 1) == Total(num, j - 1);
    assert Total(num, j) == Total(num, j - 1) + num[j];
    hide Total, AtMost, Tallies;
    var lo := |f| - Total(num, j);
    forall p | lo <= p < lo + k ensures Fib(j + 1) * f[p] <= total {
      LongerFirst(lens, j, p);
      LongerFirst(lens, j - 1, p);
      OneLight(f, lens, total, p);
    }
  }

  lemma OneLight(f: seq<nat>, lens: seq<nat>, total: nat, p: nat)
    requires LightLeaves(f, lens, 0, total) && p < |lens|
    ensures Fib(lens[p] + 1) * f[p] <= total
  {
    hide Fib;
    assert Fib(lens[p] + 1) * f[0 + p] <= total;
  }

  /** One in RATE: the most a unit of room moved to the limit can cost of the total weight. */
  const RATE := 569

  /** The lengths where splitting happens against how light their items are. */
  lemma Ratio(j: nat)
    requires 7 <= j <= 14
    ensures RATE * (15 - j) <= Pow2(15 - j) * Fib(j + 1)
  {
    assert Fib(8) == 21 && Fib(9) == 34;
    assert Fib(10) == 55 && Fib(11) == 89;
    assert Fib(12) == 144 && Fib(13) == 233;
    assert Fib(14) == 377 && Fib(15) == 610;
    assert Pow2(1) == 2 && Pow2(2) == 4 && Pow2(3) == 8 && Pow2(4) == 16;
    assert Pow2(5) == MAX_SUPPORTED && Pow2(6) == 64 && Pow2(7) == 128 && Pow2(8) == 256;
  }

  /** A band of length j, moved to the limit. */
  lemma BandCost(j: nat, g: nat, k: nat, total: nat)
    requires 7 <= j <= 14 && Fib(j + 1) * g <= k * total
    ensures RATE * ((15 - j) * g) <= k * Pow2(15 - j) * total
  {
    Ratio(j);
    hide Fib, Pow2;
    Chain(RATE * (15 - j), Pow2(15 - j), Fib(j + 1), g, k * total);
    assert RATE * (15 - j) * g == RATE * ((15 - j) * g);
    Rotate(k, Pow2(15 - j), total);
  }

  lemma Chain(c: nat, p: nat, b: nat, g: nat, w: nat)
    requires c <= p * b && b * g <= w
    ensures c * g <= p * w
  {
    MulAtLeast(g, c, p * b);
    MulAtLeast(p, b * g, w);
    assert g * (p * b) == p * (b * g);
  }

  lemma Rotate(k: nat, p: nat, total: nat)
    ensures p * (k * total) == k * p * total
  {
  }

  /** What the levels from lo up to hi cost. */
  function TailSum(f: seq<nat>, num: seq<nat>, lo: nat, hi: nat): nat
    requires TotalsFit(f, num, hi)
    decreases hi - lo
  {
    if lo >= hi then 0 else Longer(f, num, lo) + TailSum(f, num, lo + 1, hi)
  }

  lemma {:induction false} LevelSplit(f: seq<nat>, num: seq<nat>, lo: nat, hi: nat)
    requires TotalsFit(f, num, hi) && lo <= hi
    ensures LevelSum(f, num, hi) == LevelSum(f, num, lo) + TailSum(f, num, lo, hi)
    decreases hi - lo
  {
    FitBelow(f, num, lo, hi);
    FitBelow(f, num, lo + 1, hi);
    hide Total, Longer;
    if lo < hi {
      LevelSplit(f, num, lo + 1, hi);
      assert LevelSum(f, num, lo + 1) == LevelSum(f, num, lo) + Longer(f, num, lo) by { OneLevel(f, num, lo, hi); }
    }
  }

  lemma OneLevel(f: seq<nat>, num: seq<nat>, lo: nat, hi: nat)
    requires TotalsFit(f, num, hi) && lo < hi
    ensures LevelSum(f, num, lo + 1) == LevelSum(f, num, lo) + Longer(f, num, lo)
  {
    hide Total;
  }

  /** Moving every item longer than j to the limit costs no more than the room these items take. */
  lemma {:induction false} Moved(f: seq<nat>, lens: seq<nat>, num: seq<nat>, j: nat, total: nat)
    requires 7 <= j <= 14 && |f| == |lens| && |num| == MAX_SUPPORTED + 1 && Descending(lens) && LightLeaves(f, lens, 0, total)
    requires Tallies(num, lens, 15) && TotalsFit(f, num, 15)
    ensures KraftUpTo(num, j, 15) <= KraftUpTo(num, 14, 15)
    ensures RATE * ((15 - j) * Longer(f, num, j))
      <= RATE * TailSum(f, num, j, 15) + (KraftUpTo(num, 14, 15) - KraftUpTo(num, j, 15)) * total
    decreases 15 - j
  {
    hide Longer, KraftUpTo, Total, Tallies, Descending, LightLeaves;
    if j == 14 {
      assert TailSum(f, num, 15, 15) == 0;
    } else {
      Moved(f, lens, num, j + 1, total);
      var g, k := LevelBand(f, lens, num, j + 1, total);
      hide TailSum, TotalsFit, Pow2;
      TailStep(f, num, j, 15);
      MoveStep(14 - j, Longer(f, num, j + 1), g, TailSum(f, num, j + 1, 15), k, KraftUpTo(num, 14, 15) - KraftUpTo(num, j + 1, 15), total);
    }
  }

  lemma TailStep(f: seq<nat>, num: seq<nat>, lo: nat, hi: nat)
    requires TotalsFit(f, num, hi) && lo < hi
    ensures TailSum(f, num, lo, hi) == Longer(f, num, lo) + TailSum(f, num, lo + 1, hi)
  {
  }

  lemma MoveStep(m: nat, long: nat, g: nat, tail: nat, k: nat, room: nat, total: nat)
    requires RATE * (m * long) <= RATE * tail + room * total && RATE * (m * g) <= k * total
    ensures RATE * ((m + 1) * (long + g)) <= RATE * ((long + g) + tail) + (room + k) * total
  {
    assert (m + 1) * (long + g) == m * long + m * g + (long + g);
    assert (room + k) * total == room * total + k * total;
  }

  /** The items of length j: their weight, and their room. */
  lemma LevelBand(f: seq<nat>, lens: seq<nat>, num: seq<nat>, j: nat, total: nat) returns (g: nat, k: nat)
    requires 8 <= j <= 14 && |f| == |lens| && |num| == MAX_SUPPORTED + 1 && Descending(lens) && LightLeaves(f, lens, 0, total)
    requires Tallies(num, lens, 15) && TotalsFit(f, num, 15)
    ensures Longer(f, num, j - 1) == Longer(f, num, j) + g
    ensures KraftUpTo(num, j, 15) == KraftUpTo(num, j - 1, 15) + k
    ensures RATE * ((15 - j) * g) <= k * total
  {
    hide Sum, Fib, LightLeaves, Descending, AtMost, Pow2;
    k := num[j] * Pow2(15 - j);
    LevelWeight(f, lens, num, j, num[j], total);
    assert Total(num, j) == Total(num, j - 1) + num[j];
    g := Longer(f, num, j - 1) - Longer(f, num, j);
    BandCost(j, g, num[j], total);
  }

  lemma {:induction false} SameLevels(f: seq<nat>, a: seq<nat>, b: seq<nat>, h: nat, hi: nat)
    requires TotalsFit(f, a, hi) && TotalsFit(f, b, hi) && h <= hi && forall l :: 1 <= l < h ==> a[l] == b[l]
    ensures LevelSum(f, a, h) == LevelSum(f, b, h)
    ensures forall l :: 0 <= l < h ==> Total(a, l) == Total(b, l)
  {
    if h > 0 {
      SameLevels(f, a, b, h - 1, hi);
      SameBelow(a, b, h - 1, hi);
    }
  }

  lemma PrefixSum(f: seq<nat>, a: nat, b: nat)
    requires a <= b <= |f|
    ensures Sum(f[..a]) <= Sum(f[..b])
  {
    hide Sum;
    SumSplit(f[..b], a);
    assert f[..b][..a] == f[..a];
  }

  /** No level costs more than the first one. */
  lemma {:induction false} TailBound(f: seq<nat>, num: seq<nat>, lo: nat, at: nat, hi: nat)
    requires TotalsFit(f, num, hi) && lo <= at <= hi
    ensures TailSum(f, num, at, hi) <= (hi - at) * Longer(f, num, lo)
    decreases hi - at
  {
    if at < hi {
      TailBound(f, num, lo, at + 1, hi);
      TotalMonotone(num, lo, at);
      hide Total, Sum;
      PrefixSum(f, |f| - Total(num, at), |f| - Total(num, lo));
      hide Longer;
      assert (hi - at) * Longer(f, num, lo) == (hi - at - 1) * Longer(f, num, lo) + Longer(f, num, lo);
    }
  }

  /** The levels from the lowest split on, before and after. */
  lemma TailMoved(f: seq<nat>, lens: seq<nat>, start: seq<nat>, num: seq<nat>, low: nat, s: nat, total: nat)
    returns (room: nat)
    requires 7 <= low <= 14 && |f| == |lens| && |start| == |num| == MAX_SUPPORTED + 1 && Descending(lens) && LightLeaves(f, lens, 0, total)
    requires Tallies(start, lens, 15) && TotalsFit(f, start, 15) && TotalsFit(f, num, 15)
    requires (forall l :: 1 <= l < low ==> num[l] == start[l]) && num[low] + s == start[low]
    ensures KraftUpTo(start, low, 15) <= KraftUpTo(start, 14, 15)
    ensures room == KraftUpTo(start, 14, 15) - KraftUpTo(start, low, 15) + s * Pow2(15 - low)
    ensures RATE * TailSum(f, num, low, 15) <= RATE * TailSum(f, start, low, 15) + room * total
  {
    hide KraftUpTo, Sum, Pow2, Fib, LightLeaves, Descending, AtMost;
    Moved(f, lens, start, low, total);
    TailBound(f, num, low, low, 15);
    SameLevels(f, start, num, low, 15);
    assert Total(num, low) + s == Total(start, low);
    LevelWeight(f, lens, start, low, s, total);
    var x := Longer(f, num, low) - Longer(f, start, low);
    BandCost(low, x, s, total);
    hide Total, Longer, TailSum, TotalsFit, Tallies;
    MovedBoth(15 - low, Longer(f, start, low), x, TailSum(f, start, low, 15), TailSum(f, num, low, 15),
              s * Pow2(15 - low), KraftUpTo(start, 14, 15) - KraftUpTo(start, low, 15), total);
    room := KraftUpTo(start, 14, 15) - KraftUpTo(start, low, 15) + s * Pow2(15 - low);
  }

  lemma MovedBoth(m: nat, long: nat, x: nat, tail: nat, after: nat, k: nat, room: nat, total: nat)
    requires RATE * (m * long) <= RATE * tail + room * total && RATE * (m * x) <= k * total && after <= m * (long + x)
    ensures RATE * after <= RATE * tail + (room + k) * total
  {
    assert m * (long + x) == m * long + m * x;
    assert (room + k) * total == room * total + k * total;
  }

  /** The levels a split has not touched, and the others before and after. */
  lemma LimitedParts(f: seq<nat>, lens: seq<nat>, start: seq<nat>, num: seq<nat>, low: nat, s: nat, total: nat)
    returns (base: nat, before: nat, after: nat, room: nat)
    requires |f| == |lens| <= 288 && |start| == |num| == MAX_SUPPORTED + 1 && Descending(lens) && LightLeaves(f, lens, 0, total)
    requires Tallies(start, lens, 15) && TotalsFit(f, start, 15) && TotalsFit(f, num, 15)
    requires SplitSoFar(start, num, |f|, 15, low, s) && low < 15 && KraftUpTo(start, 14, 15) <= Pow2(15)
    ensures LevelSum(f, start, 15) == base + before && LevelSum(f, num, 15) == base + after
    ensures RATE * after <= RATE * before + room * total && room <= 2 * |f|
  {
    FitBelow(f, start, low, 15);
    FitBelow(f, num, low, 15);
    hide LevelSum, TailSum, Total, KraftUpTo, Pow2, Tallies, TotalsFit, LightLeaves, Descending, RoomBelow, Deeper;
    FewBelow(start, |f|, low, s);
    SameLevels(f, start, num, low, 15);
    LevelSplit(f, start, low, 15);
    LevelSplit(f, num, low, 15);
    room := TailMoved(f, lens, start, num, low, s, total);
    base, before, after := LevelSum(f, start, low), TailSum(f, start, low, 15), TailSum(f, num, low, 15);
  }

  /** Limiting lengths to fifteen bits costs at most two in RATE of the total weight per item. */
  lemma LimitingCost(f: seq<nat>, lens: seq<nat>, start: seq<nat>, num: seq<nat>, low: nat, s: nat, total: nat)
    requires |f| == |lens| <= 288 && |start| == |num| == MAX_SUPPORTED + 1 && Descending(lens) && LightLeaves(f, lens, 0, total)
    requires Tallies(start, lens, 15) && TotalsFit(f, start, 15) && TotalsFit(f, num, 15)
    requires SplitSoFar(start, num, |f|, 15, low, s) && KraftUpTo(start, 14, 15) <= Pow2(15)
    ensures RATE * LevelSum(f, num, 15) <= RATE * LevelSum(f, start, 15) + 2 * |f| * total
  {
    hide LevelSum, Total, KraftUpTo, Pow2, Tallies, TotalsFit, LightLeaves, Descending, RoomBelow;
    if low == 15 {
      SameLevels(f, start, num, 15, 15);
    } else {
      hide SplitSoFar;
      var base, before, after, room := LimitedParts(f, lens, start, num, low, s, total);
      Combine(base, before, after, room, 2 * |f|, total);
    }
  }

  lemma FitBelow(f: seq<nat>, num: seq<nat>, h: nat, hi: nat)
    requires TotalsFit(f, num, hi)
    ensures h <= hi ==> TotalsFit(f, num, h)
  {
  }

  lemma Combine(base: nat, before: nat, after: nat, room: nat, most: nat, total: nat)
    requires RATE * after <= RATE * before + room * total && room <= most
    ensures RATE * (base + after) <= RATE * (base + before) + most * total
  {
    MulAtLeast(total, room, most);
  }

  lemma FewBelow(start: seq<nat>, n: nat, low: nat, s: nat)
    requires 1 <= low < 15 && |start| == MAX_SUPPORTED + 1 && n <= 288 && RoomBelow(start, n, 15, low, s) && KraftUpTo(start, 14, 15) <= Pow2(15)
    ensures low >= 7 && KraftUpTo(start, 14, 15) - KraftUpTo(start, low, 15) + s * Pow2(15 - low) <= 2 * n
  {
    hide KraftUpTo, Pow2;
    var u := Pow2(15 - low);
    assert s * u == (s - 1) * u + u;
    assert (s - 1) * u >= 0;
    if low < 7 {
      Pow2Monotone(9, 15 - low);
      PowNine();
    }
  }

  lemma PowNine()
    ensures Pow2(9) == 512
  {
    assert Pow2(5) == MAX_SUPPORTED;
  }
}
