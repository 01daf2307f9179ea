/**
 * Limiting code lengths: counts of lengths above the limit are folded into it,
 * then shorter codes are split until the Kraft sum is 1 again.
 */
module LengthLimit {
  import opened Bits
  import opened HuffmanTree

  /** Codes of the lengths from 1 up to hi. */
  function Total(num: seq<nat>, hi: nat): nat
    requires hi < |num|
  {
    if hi == 0 then 0 else Total(num, hi - 1) + num[hi]
  }

  /** 2^m times the Kraft sum of the lengths from 1 up to hi. */
  function KraftUpTo(num: seq<nat>, hi: nat, m: nat): nat
    requires hi < |num| && hi <= m
  {
    if hi == 0 then 0 else KraftUpTo(num, hi - 1, m) + num[hi] * Pow2(m - hi)
  }

  lemma {:induction false} SameBelow(a: seq<nat>, b: seq<nat>, hi: nat, m: nat)
    requires hi < |a| && hi < |b| && hi <= m && forall l :: 1 <= l <= hi ==> a[l] == b[l]
    ensures Total(a, hi) == Total(b, hi) && KraftUpTo(a, hi, m) == KraftUpTo(b, hi, m)
  {
    if hi > 0 {
      SameBelow(a, b, hi - 1, m);
    }
  }

  /** Doubling the scale doubles the sum. */
  lemma {:induction false} KraftScale(num: seq<nat>, hi: nat, m: nat, k: nat)
    requires hi < |num| && hi <= m
    ensures KraftUpTo(num, hi, m + k) == Pow2(k) * KraftUpTo(num, hi, m)
  {
    if hi > 0 {
      KraftScale(num, hi - 1, m, k);
      Pow2Add(k, m - hi);
      assert m + k - hi == k + (m - hi);
      Distribute(Pow2(k), KraftUpTo(num, hi - 1, m), num[hi], Pow2(m - hi));
    }
  }

  lemma Distribute(p: nat, s: nat, c: nat, q: nat)
    ensures p * (s + c * q) == p * s + c * (p * q)
  {
  }

  lemma CancelLe(k: nat, a: int, b: int)
    requires k > 0 && k * a <= k * b
    ensures a <= b
  {
    if a > b {
      MulAtLeast(k, b + 1, a);
    }
  }

  /** From length m on no code weighs more than a code of length m. */
  lemma {:induction false} LongCodesLight(num: seq<nat>, m: nat, hi: nat, top: nat)
    requires 1 <= m <= hi + 1 && m <= top && hi <= top < |num|
    ensures KraftUpTo(num, hi, top) - KraftUpTo(num, m - 1, top) <= Pow2(top - m) * (Total(num, hi) - Total(num, m - 1))
    decreases hi
  {
    hide Pow2;
    if m <= hi {
      LongCodesLight(num, m, hi - 1, top);
      Pow2Monotone(top - hi, top - m);
      var t := Total(num, hi - 1) - Total(num, m - 1);
      AddScaled(Pow2(top - m), t, num[hi], Pow2(top - hi));
    }
  }

  lemma AddScaled(p: nat, t: int, c: nat, q: nat)
    requires q <= p
    ensures p * t + c * q <= p * (t + c)
  {
    MulAtLeast(c, q, p);
  }

  lemma {:induction false} TotalMonotone(num: seq<nat>, lo: nat, hi: nat)
    requires lo <= hi < |num|
    ensures Total(num, lo) <= Total(num, hi)
    decreases hi
  {
    if lo < hi {
      TotalMonotone(num, lo, hi - 1);
    }
  }

  lemma {:induction false} KraftMonotone(num: seq<nat>, lo: nat, hi: nat, m: nat)
    requires lo <= hi < |num| && hi <= m
    ensures KraftUpTo(num, lo, m) <= KraftUpTo(num, hi, m)
    decreases hi
  {
    if lo < hi {
      KraftMonotone(num, lo, hi - 1, m);
    }
  }

  /** What holds between two splits: the code count, room below the limit, and the surplus over 1. */
  ghost predicate Splitting(num: seq<nat>, n: nat, max: nat, total: nat) {
    && 1 <= max < |num|
    && Total(num, max) == n
    && KraftUpTo(num, max, max) == total >= Pow2(max)
    && KraftUpTo(num, max - 1, max) <= Pow2(max)
  }

  /** Folding the long codes into the limit can only raise the Kraft sum. */
  lemma FoldStarts(num: seq<nat>, folded: seq<nat>, n: nat, max: nat)
    requires |num| == |folded| == MAX_SUPPORTED + 1 && 1 <= max <= MAX_SUPPORTED
    requires Total(num, MAX_SUPPORTED) == n && KraftUpTo(num, MAX_SUPPORTED, MAX_SUPPORTED) == Pow2(MAX_SUPPORTED)
    requires forall l :: 1 <= l < max ==> folded[l] == num[l]
    requires folded[max] == Total(num, MAX_SUPPORTED) - Total(num, max - 1)
    ensures Splitting(folded, n, max, KraftUpTo(folded, max, max))
  {
    hide Pow2, KraftUpTo, Total;
    var d := MAX_SUPPORTED - max;
    var s := KraftUpTo(num, max - 1, max);
    SameBelow(num, folded, max - 1, max);
    KraftScale(num, max - 1, max, d);
    Pow2Add(d, max);
    assert max + d == MAX_SUPPORTED;
    ShortRoom(num, max);
    LongCodesLight(num, max, MAX_SUPPORTED, MAX_SUPPORTED);
    TotalMonotone(num, max - 1, MAX_SUPPORTED);
    var fold := folded[max];
    assert Pow2(d) * (s + fold) == Pow2(d) * s + Pow2(d) * fold;
    CancelLe(Pow2(d), Pow2(max), s + fold);
    LastTerm(folded, max);
  }

  /** The codes shorter than the limit take no more than all of the room. */
  lemma ShortRoom(num: seq<nat>, max: nat)
    requires |num| == MAX_SUPPORTED + 1 && 1 <= max <= MAX_SUPPORTED
    requires KraftUpTo(num, MAX_SUPPORTED, MAX_SUPPORTED) == Pow2(MAX_SUPPORTED)
    ensures KraftUpTo(num, max - 1, max) <= Pow2(max)
  {
    hide Pow2, KraftUpTo;
    var d := MAX_SUPPORTED - max;
    KraftScale(num, max - 1, max, d);
    KraftMonotone(num, max - 1, MAX_SUPPORTED, MAX_SUPPORTED);
    Pow2Add(d, max);
    assert max + d == MAX_SUPPORTED;
    CancelLe(Pow2(d), KraftUpTo(num, max - 1, max), Pow2(max));
  }

  lemma LastTerm(num: seq<nat>, max: nat)
    requires 1 <= max < |num|
    ensures KraftUpTo(num, max, max) == KraftUpTo(num, max - 1, max) + num[max]
    ensures Total(num, max) == Total(num, max - 1) + num[max]
  {
    assert Pow2(0) == 1;
  }

  /** One split: a code of the limit and a shorter one of length i become two of length i + 1. */
  function Split(num: seq<nat>, max: nat, i: nat): seq<nat>
    requires 1 <= i < max < |num| && num[max] >= 1 && num[i] >= 1
  {
    var a := num[max := num[max] - 1];
    var b := a[i := a[i] - 1];
    b[i + 1 := b[i + 1] + 2]
  }

  /** A change at one length changes the sums by that length's weight. */
  lemma {:induction false} ChangeAt(num: seq<nat>, i: nat, v: nat, hi: nat, m: nat)
    requires 1 <= i < |num| && hi < |num| && hi <= m
    ensures Total(num[i := v], hi) == Total(num, hi) + (if i <= hi then v - num[i] else 0)
    ensures KraftUpTo(num[i := v], hi, m) == KraftUpTo(num, hi, m) + (if i <= hi then (v - num[i]) * Pow2(m - i) else 0)
  {
    if hi > 0 {
      ChangeAt(num, i, v, hi - 1, m);
      if hi == i {
        var p := Pow2(m - i);
        assert v * p == num[i] * p + (v - num[i]) * p;
      }
    }
  }

  /** A split keeps the number of codes and takes one unit off the surplus. */
  lemma SplitKeeps(num: seq<nat>, n: nat, max: nat, total: nat, i: nat)
    requires Splitting(num, n, max, total) && total > Pow2(max) && 1 <= i < max && num[i] >= 1 && num[max] >= 1
    ensures Splitting(Split(num, max, i), n, max, total - 1)
  {
    hide Total, KraftUpTo, Pow2;
    var a := num[max := num[max] - 1];
    var b := a[i := a[i] - 1];
    ChangeAt(num, max, num[max] - 1, max, max);
    ChangeAt(a, i, a[i] - 1, max, max);
    ChangeAt(b, i + 1, b[i + 1] + 2, max, max);
    ChangeAt(num, max, num[max] - 1, max - 1, max);
    ChangeAt(a, i, a[i] - 1, max - 1, max);
    ChangeAt(b, i + 1, b[i + 1] + 2, max - 1, max);
    HalfPower(max, i);
  }

  lemma HalfPower(max: nat, i: nat)
    requires i < max
    ensures Pow2(max - i) == 2 * Pow2(max - (i + 1)) && Pow2(max - max) == 1
  {
  }

  /** A surplus means a code of the limit length and a shorter one. */
  lemma CanSplit(num: seq<nat>, n: nat, max: nat, total: nat)
    requires Splitting(num, n, max, total) && total > Pow2(max) && n <= Pow2(max)
    ensures num[max] >= 1 && exists i :: 1 <= i < max && num[i] >= 1
  {
    LastTerm(num, max);
    if forall i :: 1 <= i < max ==> num[i] == 0 {
      AllZero(num, max - 1, max);
    }
  }

  lemma {:induction false} AllZero(num: seq<nat>, hi: nat, m: nat)
    requires hi < |num| && hi <= m && forall i :: 1 <= i <= hi ==> num[i] == 0
    ensures Total(num, hi) == 0 && KraftUpTo(num, hi, m) == 0
  {
    if hi > 0 {
      AllZero(num, hi - 1, m);
    }
  }

  /** Folds the counts above max into max. */
  method Fold(num: array<nat>, max: nat)
    requires num.Length == MAX_SUPPORTED + 1 && 1 <= max <= MAX_SUPPORTED
    modifies num
    ensures num[max] == old(Total(num[..], MAX_SUPPORTED) - Total(num[..], max - 1))
    ensures forall l :: 0 <= l <= MAX_SUPPORTED && l != max ==> num[l] == old(num[l])
  {
    ghost var before := num[..];
    LastTerm(before, max);
    for i := max + 1 to MAX_SUPPORTED + 1
      invariant num[max] == Total(before, i - 1) - Total(before, max - 1)
      invariant forall l :: 0 <= l <= MAX_SUPPORTED && l != max ==> num[l] == before[l]
    {
      num[max] := num[max] + num[i];
    }
  }

  /** 2^max times the Kraft sum of the lengths up to max. */
  method WeighedTotal(num: array<nat>, max: nat) returns (total: nat)
    requires 1 <= max < num.Length
    ensures total == KraftUpTo(num[..], max, max)
  {
    total := 0;
    var i := max;
    while i > 0
      invariant 0 <= i <= max
      invariant total + KraftUpTo(num[..], i, max) == KraftUpTo(num[..], max, max)
    {
      total := total + num[i] * Pow2(max - i);
      i := i - 1;
    }
  }

  /**
   * Limits the lengths of a complete code to max: as many codes as before, and the Kraft sum is 1
   * again. low and s record what the splits did.
   */
  method EnforceMaxCodeSize(num: array<nat>, codeListLen: nat, max: nat) returns (ghost low: nat, ghost s: nat)
    requires num.Length == MAX_SUPPORTED + 1 && 1 <= max <= MAX_SUPPORTED
    requires codeListLen > 1 ==>
      && Total(num[..], MAX_SUPPORTED) == codeListLen <= Pow2(max)
      && KraftUpTo(num[..], MAX_SUPPORTED, MAX_SUPPORTED) == Pow2(MAX_SUPPORTED)
    modifies num
    ensures codeListLen <= 1 ==> num[..] == old(num[..])
    ensures codeListLen > 1 ==> Total(num[..], max) == codeListLen && KraftUpTo(num[..], max, max) == Pow2(max)
    ensures codeListLen > 1 ==> SplitSoFar(old(num[..]), num[..], codeListLen, max, low, s)
  {
    low, s := max, 0;
    if codeListLen <= 1 {
      return;
    }
    hide Total, KraftUpTo, Pow2, Splitting, SplitSoFar, LongestShorter;
    ghost var before := num[..];
    Fold(num, max);
    FoldStarts(before, num[..], codeListLen, max);
    var total: nat := WeighedTotal(num, max);
    NothingSplit(before, num[..], codeListLen, max);
    while total != Pow2(max)
      invariant Splitting(num[..], codeListLen, max, total)
      invariant SplitSoFar(before, num[..], codeListLen, max, low, s)
      decreases total
    {
      SurplusPositive(num[..], codeListLen, max, total);
      ghost var was := num[..];
      ghost var at := SplitOne(num, codeListLen, max, total);
      low, s := SplitTraced(before, was, codeListLen, max, total, at, low, s);
      total := total - 1;
    }
    SplittingSums(num[..], codeListLen, max, total);
  }

  lemma NothingSplit(start: seq<nat>, num: seq<nat>, n: nat, max: nat)
    requires 1 <= max < |start| == |num| && forall l :: 0 <= l < |num| && l != max ==> num[l] == start[l]
    ensures SplitSoFar(start, num, n, max, max, 0)
  {
  }

  lemma SurplusPositive(num: seq<nat>, n: nat, max: nat, total: nat)
    requires Splitting(num, n, max, total) && total != Pow2(max)
    ensures total > Pow2(max)
  {
  }

  lemma SplittingSums(num: seq<nat>, n: nat, max: nat, total: nat)
    requires Splitting(num, n, max, total)
    ensures max < |num| && Total(num, max) == n && KraftUpTo(num, max, max) == total
  {
  }

  /** There is a code of the limit length, and i is the longest shorter length in use. */
  predicate LongestShorter(num: seq<nat>, max: nat, i: nat) {
    && 1 <= i < max < |num| && num[i] >= 1 && num[max] >= 1
    && forall l :: i < l < max ==> num[l] == 0
  }

  lemma {:induction false} ZeroBetween(num: seq<nat>, i: nat, hi: nat, m: nat)
    requires i <= hi < |num| && hi <= m && forall l :: i < l <= hi ==> num[l] == 0
    ensures Total(num, hi) == Total(num, i) && KraftUpTo(num, hi, m) == KraftUpTo(num, i, m)
  {
    if i < hi {
      ZeroBetween(num, i, hi - 1, m);
    }
  }

  /** What the codes longer than low take of the Kraft sum, in units of the limit length. */
  function Deeper(start: seq<nat>, low: nat, max: nat): int
    requires low <= max && low < |start|
  {
    Pow2(max) - KraftUpTo(start, low, max)
  }

  lemma {:induction false} EachWeighs(num: seq<nat>, lo: nat, hi: nat, m: nat)
    requires lo <= hi < |num| && hi <= m
    ensures KraftUpTo(num, hi, m) - KraftUpTo(num, lo, m) >= Total(num, hi) - Total(num, lo)
    decreases hi
  {
    if lo < hi {
      EachWeighs(num, lo, hi - 1, m);
      Weight(num[hi], Pow2(m - hi));
    }
  }

  lemma Weight(c: nat, p: nat)
    requires p >= 1
    ensures c * p >= c
  {
    MulAtLeast(c, 1, p);
  }

  /** As long as there are longer codes they take at least one code of length low. */
  lemma DeeperWhole(start: seq<nat>, low: nat, max: nat)
    requires |start| == MAX_SUPPORTED + 1 && low <= max <= MAX_SUPPORTED
    requires KraftUpTo(start, MAX_SUPPORTED, MAX_SUPPORTED) == Pow2(MAX_SUPPORTED) && Total(start, MAX_SUPPORTED) > Total(start, low)
    ensures Deeper(start, low, max) >= Pow2(max - low)
  {
    hide Pow2, KraftUpTo, Total;
    EachWeighs(start, low, MAX_SUPPORTED, MAX_SUPPORTED);
    var k := KraftUpTo(start, low, low);
    KraftScale(start, low, low, MAX_SUPPORTED - low);
    KraftScale(start, low, low, max - low);
    Pow2Add(MAX_SUPPORTED - low, low);
    Pow2Add(max - low, low);
    assert low + (MAX_SUPPORTED - low) == MAX_SUPPORTED && low + (max - low) == max;
    StrictlyLess(Pow2(MAX_SUPPORTED - low), k, Pow2(low));
    MulAtLeast(Pow2(max - low), k + 1, Pow2(low));
    assert Pow2(max - low) * (k + 1) == Pow2(max - low) * k + Pow2(max - low);
  }

  lemma StrictlyLess(p: nat, a: nat, b: nat)
    requires p * a < p * b
    ensures a < b
  {
    if a >= b {
      MulAtLeast(p, b, a);
    }
  }

  /**
   * What the splits so far did: no length below low was touched, and s codes of length low are
   * gone. The codes longer than low and the s - 1 earlier ones took less room than there are codes.
   */
  ghost predicate SplitSoFar(start: seq<nat>, num: seq<nat>, n: nat, max: nat, low: nat, s: nat) {
    && 1 <= low <= max < |start| == |num|
    && (forall l :: 1 <= l < low ==> num[l] == start[l])
    && (low < max ==> num[low] + s == start[low] && RoomBelow(start, n, max, low, s))
  }

  ghost predicate RoomBelow(start: seq<nat>, n: nat, max: nat, low: nat, s: nat)
    requires low < max && low < |start|
  {
    s >= 1 && Pow2(max - low) <= Deeper(start, low, max) && Deeper(start, low, max) + (s - 1) * Pow2(max - low) < n
  }

  /** A split at low says how many codes have the limit length by then. */
  lemma RoomAtSplit(start: seq<nat>, num: seq<nat>, n: nat, max: nat, total: nat, i: nat, s: nat)
    requires |start| == |num| && Splitting(num, n, max, total) && total > Pow2(max) && LongestShorter(num, max, i)
    requires (forall l :: 1 <= l < i ==> num[l] == start[l]) && num[i] + s == start[i]
    ensures Deeper(start, i, max) + s * Pow2(max - i) < n && Total(num, i) < n && Total(start, i) == Total(num, i) + s
  {
    hide Pow2, KraftUpTo, Total;
    LastTerm(num, max);
    ZeroBetween(num, i, max - 1, max);
    ChangeAt(start, i, num[i], i, max);
    SameBelow(start[i := num[i]], num, i, max);
    assert (num[i] - start[i]) * Pow2(max - i) == -(s * Pow2(max - i));
  }

  lemma SplitTraced(start: seq<nat>, num: seq<nat>, n: nat, max: nat, total: nat, i: nat, low: nat, s: nat) returns (low': nat, s': nat)
    requires |start| == MAX_SUPPORTED + 1 && KraftUpTo(start, MAX_SUPPORTED, MAX_SUPPORTED) == Pow2(MAX_SUPPORTED) && Total(start, MAX_SUPPORTED) == n
    requires Splitting(num, n, max, total) && total > Pow2(max) && LongestShorter(num, max, i) && SplitSoFar(start, num, n, max, low, s)
    ensures SplitSoFar(start, Split(num, max, i), n, max, low', s')
  {
    hide Pow2, KraftUpTo, Total, Deeper;
    low', s' := if i <= low then i else low, if i < low then 1 else if i == low then s + 1 else s;
    if i <= low {
      RoomAtSplit(start, num, n, max, total, i, s' - 1);
      if i < low {
        DeeperWhole(start, i, max);
      }
    }
  }

  /** Gives up one code of the limit length and splits the longest shorter one. */
  method SplitOne(num: array<nat>, ghost n: nat, max: nat, ghost total: nat) returns (ghost at: nat)
    requires num.Length == MAX_SUPPORTED + 1 && 1 <= max <= MAX_SUPPORTED
    requires Splitting(num[..], n, max, total) && total > Pow2(max) && n <= Pow2(max)
    modifies num
    ensures LongestShorter(old(num[..]), max, at) && num[..] == Split(old(num[..]), max, at)
    ensures Splitting(num[..], n, max, total - 1)
  {
    hide Splitting, Pow2;
    ghost var was := num[..];
    CanSplit(was, n, max, total);
    at := 0;
    num[max] := num[max] - 1;
    var i := max - 1;
    while i > 0
      invariant 0 <= i < max && num[..] == was[max := was[max] - 1]
      invariant forall l :: i < l < max ==> was[l] == 0
    {
      if num[i] != 0 {
        assert LongestShorter(was, max, i);
        SplitKeeps(was, n, max, total, i);
        num[i] := num[i] - 1;
        num[i + 1] := num[i + 1] + 2;
        assert num[..] == Split(was, max, i);
        at := i;
        break;
      }
      i := i - 1;
    }
  }
}
