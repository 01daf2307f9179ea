/**
 * Two-pass radix sort of symbol frequencies by their 16-bit key; the second pass
 * is skipped when all keys fit in eight bits.
 */
module RadixSort {

  datatype SymFreq = SymFreq(key: nat, sym: nat)

  function Digit(x: SymFreq, pass: nat): (d: nat)
    ensures d < 256
  {
    if pass == 0 then x.key % 256 else x.key / 256 % 256
  }

  /** The elements with digit v, in their order. */
  function Filter(s: seq<SymFreq>, pass: nat, v: nat): (r: seq<SymFreq>)
    ensures |r| <= |s|
  {
    if s == [] then []
    else Filter(s[..|s| - 1], pass, v) + (if Digit(s[|s| - 1], pass) == v then [s[|s| - 1]] else [])
  }

  /** The elements with a digit below v, by digit, each group in its order. */
  function Buckets(s: seq<SymFreq>, pass: nat, v: nat): seq<SymFreq> {
    if v == 0 then [] else Buckets(s, pass, v - 1) + Filter(s, pass, v - 1)
  }

  /** One stable pass. */
  function Pass(s: seq<SymFreq>, pass: nat): seq<SymFreq> {
    Buckets(s, pass, 256)
  }

  lemma {:induction false} FilterDigits(s: seq<SymFreq>, pass: nat, v: nat)
    ensures forall i :: 0 <= i < |Filter(s, pass, v)| ==> Digit(Filter(s, pass, v)[i], pass) == v
  {
    if s != [] {
      FilterDigits(s[..|s| - 1], pass, v);
    }
  }

  lemma {:induction false} BucketDigits(s: seq<SymFreq>, pass: nat, v: nat)
    ensures forall i :: 0 <= i < |Buckets(s, pass, v)| ==> Digit(Buckets(s, pass, v)[i], pass) < v
  {
    if v > 0 {
      BucketDigits(s, pass, v - 1);
      FilterDigits(s, pass, v - 1);
    }
  }

  /** Number of elements with a digit below v. */
  function Below(s: seq<SymFreq>, pass: nat, v: nat): nat {
    if s == [] then 0 else Below(s[..|s| - 1], pass, v) + (if Digit(s[|s| - 1], pass) < v then 1 else 0)
  }

  lemma {:induction false} BelowStep(s: seq<SymFreq>, pass: nat, v: nat)
    ensures Below(s, pass, v + 1) == Below(s, pass, v) + |Filter(s, pass, v)|
  {
    if s != [] {
      BelowStep(s[..|s| - 1], pass, v);
    }
  }

  lemma {:induction false} BelowEnds(s: seq<SymFreq>, pass: nat)
    ensures Below(s, pass, 0) == 0 && Below(s, pass, 256) == |s|
  {
    if s != [] {
      BelowEnds(s[..|s| - 1], pass);
    }
  }

  lemma {:induction false} BelowMonotone(s: seq<SymFreq>, pass: nat, v: nat, w: nat)
    requires v <= w
    ensures Below(s, pass, v) <= Below(s, pass, w) <= |s|
    decreases w
  {
    if v < w {
      BelowMonotone(s, pass, v, w - 1);
      BelowStep(s, pass, w - 1);
    }
    BelowAtMost(s, pass, w);
  }

  lemma {:induction false} BelowAtMost(s: seq<SymFreq>, pass: nat, v: nat)
    ensures Below(s, pass, v) <= |s|
  {
    if s != [] {
      BelowAtMost(s[..|s| - 1], pass, v);
    }
  }

  lemma {:induction false} FilterPrefix(s: seq<SymFreq>, pass: nat, v: nat, i: nat)
    requires i <= |s|
    ensures |Filter(s[..i], pass, v)| <= |Filter(s, pass, v)|
    ensures i < |s| && Digit(s[i], pass) == v ==> |Filter(s[..i], pass, v)| < |Filter(s, pass, v)|
  {
    if i == |s| {
      assert s[..i] == s;
    } else {
      var t := s[..|s| - 1];
      assert t[..i] == s[..i];
      if i < |t| {
        FilterPrefix(t, pass, v, i);
      } else {
        assert s[..i] == t;
      }
    }
  }

  /** s has the relation r between any element and any later one. */
  ghost predicate Ordered(s: seq<SymFreq>, r: (SymFreq, SymFreq) -> bool) {
    forall i, j :: 0 <= i < j < |s| ==> r(s[i], s[j])
  }

  /** Smaller digit first, and r decides between equal digits. */
  ghost predicate DigitThen(x: SymFreq, y: SymFreq, pass: nat, r: (SymFreq, SymFreq) -> bool) {
    Digit(x, pass) < Digit(y, pass) || (Digit(x, pass) == Digit(y, pass) && r(x, y))
  }

  lemma {:induction false} FilterOrdered(s: seq<SymFreq>, pass: nat, v: nat, r: (SymFreq, SymFreq) -> bool)
    requires Ordered(s, r)
    ensures Ordered(Filter(s, pass, v), r)
    ensures forall x :: x in Filter(s, pass, v) ==> x in s
  {
    if s != [] {
      var t := s[..|s| - 1];
      FilterOrdered(t, pass, v, r);
      forall x | x in t ensures r(x, s[|s| - 1]) {
        var i :| 0 <= i < |t| && t[i] == x;
        assert r(s[i], s[|s| - 1]);
      }
      var f := Filter(t, pass, v);
      forall i | 0 <= i < |f| ensures r(f[i], s[|s| - 1]) {
        assert f[i] in f;
      }
    }
  }

  /** A pass orders by digit and keeps the order among equal digits. */
  lemma {:induction false} BucketsOrdered(s: seq<SymFreq>, pass: nat, v: nat, r: (SymFreq, SymFreq) -> bool)
    requires Ordered(s, r)
    ensures Ordered(Buckets(s, pass, v), (x, y) => DigitThen(x, y, pass, r))
  {
    if v > 0 {
      BucketsOrdered(s, pass, v - 1, r);
      BucketDigits(s, pass, v - 1);
      FilterDigits(s, pass, v - 1);
      FilterOrdered(s, pass, v - 1, r);
    }
  }

  lemma {:induction false} FilterCount(s: seq<SymFreq>, pass: nat, v: nat, x: SymFreq)
    ensures multiset(Filter(s, pass, v))[x] == if Digit(x, pass) == v then multiset(s)[x] else 0
  {
    if s != [] {
      FilterCount(s[..|s| - 1], pass, v, x);
      assert s == s[..|s| - 1] + [s[|s| - 1]];
    }
  }

  lemma {:induction false} BucketsCount(s: seq<SymFreq>, pass: nat, v: nat, x: SymFreq)
    ensures multiset(Buckets(s, pass, v))[x] == if Digit(x, pass) < v then multiset(s)[x] else 0
  {
    hide Filter, Digit;
    if v > 0 {
      BucketsCount(s, pass, v - 1, x);
      FilterCount(s, pass, v - 1, x);
    }
  }

  /** A pass loses and invents nothing. */
  lemma PassPermutes(s: seq<SymFreq>, pass: nat)
    ensures multiset(Pass(s, pass)) == multiset(s)
  {
    forall x ensures multiset(Pass(s, pass))[x] == multiset(s)[x] {
      BucketsCount(s, pass, 256, x);
    }
  }

  /** Ascending keys, and ascending symbols among equal keys. */
  ghost predicate StablySorted(s: seq<SymFreq>) {
    forall i, j :: 0 <= i < j < |s| ==> s[i].key < s[j].key || (s[i].key == s[j].key && s[i].sym < s[j].sym)
  }

  ghost predicate BySymbol(s: seq<SymFreq>) {
    forall i, j :: 0 <= i < j < |s| ==> s[i].sym < s[j].sym
  }

  ghost predicate SixteenBit(s: seq<SymFreq>) {
    forall i :: 0 <= i < |s| ==> s[i].key < 65536
  }

  lemma PassKeys(s: seq<SymFreq>, pass: nat, bound: nat)
    requires forall i :: 0 <= i < |s| ==> s[i].key < bound
    ensures forall i :: 0 <= i < |Pass(s, pass)| ==> Pass(s, pass)[i].key < bound
  {
    hide Pass;
    PassPermutes(s, pass);
    var u := Pass(s, pass);
    forall i | 0 <= i < |u| ensures u[i].key < bound {
      assert u[i] in multiset(u);
      assert u[i] in s;
    }
  }

  function SymLess(): (SymFreq, SymFreq) -> bool {
    (a: SymFreq, b: SymFreq) => a.sym < b.sym
  }

  /** Sorting by the low and then by the high digit sorts by the key. */
  lemma TwoPassesSort(s: seq<SymFreq>)
    requires BySymbol(s) && SixteenBit(s)
    ensures StablySorted(Pass(Pass(s, 0), 1))
    ensures multiset(Pass(Pass(s, 0), 1)) == multiset(s)
  {
    hide Pass, Digit;
    var t := Pass(s, 0);
    var u := Pass(t, 1);
    PassPermutes(s, 0);
    PassPermutes(t, 1);
    PassKeys(s, 0, 65536);
    PassKeys(t, 1, 65536);
    var byLow := (x, y) => DigitThen(x, y, 0, SymLess());
    PassOrders(s, 0, SymLess());
    PassOrders(t, 1, byLow);
    forall i, j | 0 <= i < j < |u|
      ensures u[i].key < u[j].key || (u[i].key == u[j].key && u[i].sym < u[j].sym)
    {
      DigitsGiveKeys(u[i], u[j]);
    }
  }

  lemma PassOrders(s: seq<SymFreq>, pass: nat, r: (SymFreq, SymFreq) -> bool)
    requires Ordered(s, r)
    ensures Ordered(Pass(s, pass), (x, y) => DigitThen(x, y, pass, r))
  {
    BucketsOrdered(s, pass, 256, r);
  }

  lemma DigitsGiveKeys(x: SymFreq, y: SymFreq)
    requires x.key < 65536 && y.key < 65536
    requires DigitThen(x, y, 1, (a, b) => DigitThen(a, b, 0, SymLess()))
    ensures x.key < y.key || (x.key == y.key && x.sym < y.sym)
  {
  }

  /** With eight-bit keys the first pass is enough. */
  lemma LowPassSorts(s: seq<SymFreq>)
    requires BySymbol(s) && forall i :: 0 <= i < |s| ==> s[i].key < 256
    ensures StablySorted(Pass(s, 0))
    ensures multiset(Pass(s, 0)) == multiset(s)
  {
    hide Pass;
    PassOrders(s, 0, SymLess());
    PassPermutes(s, 0);
    PassKeys(s, 0, 256);
  }

  /** hist[pass * 256 + v] is the number of elements with digit v. */
  ghost predicate Histogram(hist: seq<nat>, s: seq<SymFreq>) {
    && |hist| == 512
    && (forall v :: 0 <= v < 256 ==> hist[v] == |Filter(s, 0, v)|)
    && (forall v :: 0 <= v < 256 ==> hist[256 + v] == |Filter(s, 1, v)|)
  }

  method CountDigits(syms: array<SymFreq>, n: nat) returns (hist: array<nat>)
    requires n <= syms.Length
    ensures fresh(hist) && Histogram(hist[..], syms[..n])
  {
    hist := new nat[512](_ => 0);
    ghost var s := syms[..n];
    for i := 0 to n
      invariant forall v :: 0 <= v < 256 ==> hist[v] == |Filter(s[..i], 0, v)|
      invariant forall v :: 256 <= v < 512 ==> hist[v] == |Filter(s[..i], 1, v - 256)|
    {
      hide Digit;
      assert s[..i + 1][..i] == s[..i];
      assert s[i] == syms[i];
      var low, high := Digit(syms[i], 0), Digit(syms[i], 1);
      hist[low] := hist[low] + 1;
      hist[256 + high] := hist[256 + high] + 1;
    }
    assert s[..n] == s;
  }

  /** All keys have the high digit 0 exactly when that group holds everything. */
  lemma {:induction false} AllInGroup(s: seq<SymFreq>, pass: nat, v: nat)
    ensures |Filter(s, pass, v)| == |s| <==> forall i :: 0 <= i < |s| ==> Digit(s[i], pass) == v
  {
    if s != [] {
      AllInGroup(s[..|s| - 1], pass, v);
    }
  }

  /** Where each group starts. */
  method Offsets(hist: array<nat>, pass: nat, ghost s: seq<SymFreq>) returns (offsets: array<nat>)
    requires hist.Length == 512 && pass < 2
    requires forall v :: 0 <= v < 256 ==> hist[256 * pass + v] == |Filter(s, pass, v)|
    ensures fresh(offsets) && offsets.Length == 256
    ensures forall v :: 0 <= v < 256 ==> offsets[v] == Below(s, pass, v)
  {
    offsets := new nat[256](_ => 0);
    var curOfs := 0;
    BelowEnds(s, pass);
    for i := 0 to 256
      invariant curOfs == Below(s, pass, i)
      invariant forall v :: 0 <= v < i ==> offsets[v] == Below(s, pass, v)
    {
      BelowStep(s, pass, i);
      offsets[i] := curOfs;
      curOfs := curOfs + hist[256 * pass + i];
    }
  }

  /** Group v is filled with what the first i elements give it. */
  ghost predicate GroupFilled(dst: seq<SymFreq>, s: seq<SymFreq>, pass: nat, i: nat, v: nat, offset: nat)
    requires i <= |s|
  {
    && offset == Below(s, pass, v) + |Filter(s[..i], pass, v)| <= |dst|
    && dst[Below(s, pass, v)..offset] == Filter(s[..i], pass, v)
  }

  /** One counting pass from src to dst. */
  method CountingPass(src: array<SymFreq>, dst: array<SymFreq>, n: nat, hist: array<nat>, pass: nat)
    requires src != dst && n <= src.Length && n <= dst.Length && hist.Length == 512 && pass < 2
    requires forall v :: 0 <= v < 256 ==> hist[256 * pass + v] == |Filter(src[..n], pass, v)|
    modifies dst
    ensures dst[..n] == Pass(src[..n], pass)
  {
    hide Pass, Filter, Below, Digit, AllFilled;
    ghost var s := src[..n];
    var offsets := Offsets(hist, pass, s);
    NothingFilled(dst[..n], s, pass, offsets[..]);
    for i := 0 to n
      invariant src[..n] == s && AllFilled(dst[..n], s, pass, i, offsets[..])
    {
      var d := Digit(src[i], pass);
      var at := offsets[d];
      ghost var before, offs := dst[..n], offsets[..];
      PlaceNext(before, s, pass, i, offs);
      dst[at] := src[i];
      offsets[d] := at + 1;
      assert dst[..n] == before[at := s[i]];
    }
    AllPlaced(dst[..n], s, pass, offsets[..]);
  }

  ghost predicate AllFilled(dst: seq<SymFreq>, s: seq<SymFreq>, pass: nat, i: nat, offsets: seq<nat>)
    requires i <= |s|
  {
    |offsets| == 256 && forall v :: 0 <= v < 256 ==> GroupFilled(dst, s, pass, i, v, offsets[v])
  }

  lemma NothingFilled(dst: seq<SymFreq>, s: seq<SymFreq>, pass: nat, offsets: seq<nat>)
    requires |dst| == |s| && |offsets| == 256 && forall v :: 0 <= v < 256 ==> offsets[v] == Below(s, pass, v)
    ensures AllFilled(dst, s, pass, 0, offsets)
  {
    forall v | 0 <= v < 256 ensures GroupFilled(dst, s, pass, 0, v, offsets[v]) {
      BelowMonotone(s, pass, v, v);
    }
  }

  /** The next element goes to the end of its group. */
  lemma PlaceNext(dst: seq<SymFreq>, s: seq<SymFreq>, pass: nat, i: nat, offsets: seq<nat>)
    requires i < |s| == |dst| && AllFilled(dst, s, pass, i, offsets)
    ensures var d := Digit(s[i], pass);
      offsets[d] < |dst| && AllFilled(dst[offsets[d] := s[i]], s, pass, i + 1, offsets[d := offsets[d] + 1])
  {
    hide Filter, Below, Digit, GroupFilled;
    var d := Digit(s[i], pass);
    var at := offsets[d];
    assert GroupFilled(dst, s, pass, i, d, at);
    NextPlace(dst, s, pass, i, at);
    var offsets' := offsets[d := at + 1];
    forall v | 0 <= v < 256 ensures GroupFilled(dst[at := s[i]], s, pass, i + 1, v, offsets'[v]) {
      PlaceOne(dst, s, pass, i, v, offsets[v], at);
    }
  }

  lemma NextPlace(dst: seq<SymFreq>, s: seq<SymFreq>, pass: nat, i: nat, at: nat)
    requires i < |s| == |dst| && GroupFilled(dst, s, pass, i, Digit(s[i], pass), at)
    ensures at < |dst|
  {
    var v := Digit(s[i], pass);
    FilterPrefix(s, pass, v, i);
    BelowStep(s, pass, v);
    BelowMonotone(s, pass, v + 1, 256);
  }

  /** Writing the next element keeps its own group and touches no other. */
  lemma PlaceOne(dst: seq<SymFreq>, s: seq<SymFreq>, pass: nat, i: nat, v: nat, offset: nat, at: nat)
    requires i < |s| == |dst| && v < 256 && at < |dst|
    requires GroupFilled(dst, s, pass, i, v, offset) && GroupFilled(dst, s, pass, i, Digit(s[i], pass), at)
    ensures GroupFilled(dst[at := s[i]], s, pass, i + 1, v, if v == Digit(s[i], pass) then at + 1 else offset)
  {
    hide Digit;
    var d := Digit(s[i], pass);
    assert s[..i + 1][..i] == s[..i];
    FilterPrefix(s, pass, v, i);
    FilterPrefix(s, pass, d, i);
    BelowStep(s, pass, v);
    BelowStep(s, pass, d);
    if v < d {
      BelowMonotone(s, pass, v + 1, d);
    } else if d < v {
      BelowMonotone(s, pass, d + 1, v);
    }
    var dst' := dst[at := s[i]];
    var lo := Below(s, pass, v);
    if v == d {
      assert dst'[lo..at + 1] == dst[lo..at] + [s[i]];
    } else {
      assert dst'[lo..offset] == dst[lo..offset];
    }
  }

  lemma GroupWhole(dst: seq<SymFreq>, s: seq<SymFreq>, pass: nat, offsets: seq<nat>, v: nat)
    requires |dst| == |s| && AllFilled(dst, s, pass, |s|, offsets) && v < 256
    ensures Below(s, pass, v) <= Below(s, pass, v + 1) <= |s|
    ensures dst[Below(s, pass, v)..Below(s, pass, v + 1)] == Filter(s, pass, v)
  {
    hide Filter, Below;
    assert s[..|s|] == s;
    assert GroupFilled(dst, s, pass, |s|, v, offsets[v]);
    BelowMonotone(s, pass, v, v + 1);
    BelowMonotone(s, pass, v + 1, v + 1);
    BelowStep(s, pass, v);
  }

  lemma {:induction false} FilledBuckets(dst: seq<SymFreq>, s: seq<SymFreq>, pass: nat, offsets: seq<nat>, v: nat)
    requires |dst| == |s| && AllFilled(dst, s, pass, |s|, offsets) && v <= 256
    ensures Below(s, pass, v) <= |dst| && dst[..Below(s, pass, v)] == Buckets(s, pass, v)
  {
    hide Filter, Below, AllFilled;
    if v == 0 {
      BelowEnds(s, pass);
    } else {
      FilledBuckets(dst, s, pass, offsets, v - 1);
      GroupWhole(dst, s, pass, offsets, v - 1);
      var lo, hi := Below(s, pass, v - 1), Below(s, pass, v);
      assert dst[..hi] == dst[..lo] + dst[lo..hi];
    }
  }

  lemma AllPlaced(dst: seq<SymFreq>, s: seq<SymFreq>, pass: nat, offsets: seq<nat>)
    requires |dst| == |s| && AllFilled(dst, s, pass, |s|, offsets)
    ensures dst == Pass(s, pass)
  {
    hide Filter, Below, AllFilled, Buckets;
    FilledBuckets(dst, s, pass, offsets, 256);
    BelowEnds(s, pass);
    assert dst[..|s|] == dst;
  }

  /** The stable ascending order of the first n elements ends up in one of the two arrays, which is returned. */
  method Sort(syms0: array<SymFreq>, syms1: array<SymFreq>, n: nat) returns (sorted: array<SymFreq>)
    requires syms0 != syms1 && n <= syms0.Length && n <= syms1.Length
    requires BySymbol(syms0[..n]) && SixteenBit(syms0[..n])
    modifies syms0, syms1
    ensures sorted == syms0 || sorted == syms1
    ensures StablySorted(sorted[..n]) && multiset(sorted[..n]) == old(multiset(syms0[..n]))
  {
    hide Pass, Filter, Digit, StablySorted;
    ghost var s := syms0[..n];
    var hist := CountDigits(syms0, n);
    var totalPasses := 2;
    if n == hist[256] {
      totalPasses := 1;
    }
    CountingPass(syms0, syms1, n, hist, 0);
    sorted := syms1;
    if totalPasses == 2 {
      TwoPassesSort(s);
      HistogramAfter(s, hist[..]);
      CountingPass(syms1, syms0, n, hist, 1);
      sorted := syms0;
    } else {
      AllInGroup(s, 1, 0);
      SmallKeys(s);
      LowPassSorts(s);
    }
  }

  lemma SmallKeys(s: seq<SymFreq>)
    requires SixteenBit(s) && forall i :: 0 <= i < |s| ==> Digit(s[i], 1) == 0
    ensures forall i :: 0 <= i < |s| ==> s[i].key < 256
  {
    forall i | 0 <= i < |s| ensures s[i].key < 256 {
      assert Digit(s[i], 1) == 0;
    }
  }

  /** The histogram of the input still describes the reordered elements. */
  lemma HistogramAfter(s: seq<SymFreq>, hist: seq<nat>)
    requires Histogram(hist, s)
    ensures forall v :: 0 <= v < 256 ==> hist[256 + v] == |Filter(Pass(s, 0), 1, v)|
  {
    forall v | 0 <= v < 256 ensures hist[256 + v] == |Filter(Pass(s, 0), 1, v)| {
      PassPermutes(s, 0);
      FilterSizes(s, Pass(s, 0), 1, v);
    }
  }

  lemma FilterSizes(s: seq<SymFreq>, t: seq<SymFreq>, pass: nat, v: nat)
    requires multiset(s) == multiset(t)
    ensures |Filter(s, pass, v)| == |Filter(t, pass, v)|
  {
    hide Filter;
    var a, b := Filter(s, pass, v), Filter(t, pass, v);
    forall x ensures multiset(a)[x] == multiset(b)[x] {
      FilterCount(s, pass, v, x);
      FilterCount(t, pass, v, x);
    }
    assert multiset(a) == multiset(b);
    assert |multiset(a)| == |a| && |multiset(b)| == |b|;
  }
}
