/**
 * The overflow tree never outgrows its array: the inner prefixes of a complete
 * code are fewer than its symbols.
 */
module TreeBound {
  import opened Bits
  import opened Canonical
  import opened Trie

  /** Symbols whose code length is above lo, up to hi. */
  function CountRange(sizes: seq<nat>, lo: nat, hi: nat): nat
    decreases hi - lo
  {
    if lo >= hi then 0 else Count(sizes, lo + 1) + CountRange(sizes, lo + 1, hi)
  }

  lemma {:induction false} CountRangeSnoc(sizes: seq<nat>, x: nat, lo: nat, hi: nat)
    ensures CountRange(sizes + [x], lo, hi) == CountRange(sizes, lo, hi) + (if lo < x <= hi then 1 else 0)
    decreases hi - lo
  {
    assert (sizes + [x])[..|sizes|] == sizes;
    if lo < hi {
      CountRangeSnoc(sizes, x, lo + 1, hi);
    }
  }

  lemma {:induction false} CountRangeEmpty(lo: nat, hi: nat)
    ensures CountRange([], lo, hi) == 0
    decreases hi - lo
  {
    if lo < hi {
      CountRangeEmpty(lo + 1, hi);
    }
  }

  lemma {:induction false} CountRangeBound(sizes: seq<nat>, lo: nat, hi: nat)
    ensures CountRange(sizes, lo, hi) <= |sizes|
  {
    if sizes == [] {
      CountRangeEmpty(lo, hi);
    } else {
      var t := sizes[..|sizes| - 1];
      assert sizes == t + [sizes[|sizes| - 1]];
      CountRangeSnoc(t, sizes[|sizes| - 1], lo, hi);
      CountRangeBound(t, lo, hi);
    }
  }

  lemma {:induction false} CountRangeSplit(sizes: seq<nat>, lo: nat, mid: nat, hi: nat)
    requires lo <= mid <= hi
    ensures CountRange(sizes, lo, hi) == CountRange(sizes, lo, mid) + CountRange(sizes, mid, hi)
    decreases mid - lo
  {
    if lo < mid {
      CountRangeSplit(sizes, lo + 1, mid, hi);
    }
  }

  /** How many symbols have a code. */
  function UsedCount(sizes: seq<nat>): nat {
    CountRange(sizes, 0, MAX_CODE_SIZE)
  }

  /** Numbers of length l that are no codes and extend no code: the inner prefixes. */
  function Gap(sizes: seq<nat>, l: nat): int
    requires l >= 1
  {
    Pow2(l) - CodeEnd(sizes, l)
  }

  function GapSum(sizes: seq<nat>, l: nat): int
    requires l >= 1
    decreases MAX_CODE_SIZE - l
  {
    if l >= MAX_CODE_SIZE then 0 else Gap(sizes, l) + GapSum(sizes, l + 1)
  }

  lemma {:induction false} GapSumIsUsed(sizes: seq<nat>, l: nat)
    requires Complete(sizes) && 1 <= l <= MAX_CODE_SIZE
    ensures GapSum(sizes, l) + Gap(sizes, l) == CountRange(sizes, l, MAX_CODE_SIZE)
    decreases MAX_CODE_SIZE - l
  {
    if l < MAX_CODE_SIZE {
      GapSumIsUsed(sizes, l + 1);
      assert Gap(sizes, l + 1) == 2 * Gap(sizes, l) - Count(sizes, l + 1);
    }
  }

  /** The bit strings of length l for the numbers from lo up to hi. */
  ghost function Strings(lo: nat, hi: nat, l: nat): (r: set<seq<Bit>>)
    ensures |r| <= if lo < hi then hi - lo else 0
    decreases hi - lo
  {
    if lo >= hi then {} else {MsbBits(lo, l)} + Strings(lo + 1, hi, l)
  }

  lemma {:induction false} StringsHas(lo: nat, hi: nat, l: nat, v: nat)
    requires lo <= v < hi
    ensures MsbBits(v, l) in Strings(lo, hi, l)
    decreases hi - lo
  {
    if lo < v {
      StringsHas(lo + 1, hi, l, v);
    }
  }

  ghost function InnerStrings(sizes: seq<nat>, l: nat): (r: set<seq<Bit>>)
    requires l >= 1
    decreases MAX_CODE_SIZE - l
  {
    if l >= MAX_CODE_SIZE then {} else Strings(CodeEnd(sizes, l), Pow2(l), l) + InnerStrings(sizes, l + 1)
  }

  lemma {:induction false} InnerStringsFew(sizes: seq<nat>, l: nat)
    requires KraftOk(sizes) && 1 <= l <= MAX_CODE_SIZE
    ensures |InnerStrings(sizes, l)| <= GapSum(sizes, l)
    decreases MAX_CODE_SIZE - l
  {
    hide KraftOk, CodeEnd, Strings;
    if l < MAX_CODE_SIZE {
      KraftBelow(sizes, l);
      InnerStringsFew(sizes, l + 1);
      var a, b := Strings(CodeEnd(sizes, l), Pow2(l), l), InnerStrings(sizes, l + 1);
      assert |a + b| <= |a| + |b|;
    }
  }

  lemma InnerInGap(sizes: seq<nat>, p: seq<Bit>)
    requires KraftOk(sizes) && Inner(sizes, p)
    ensures p in Strings(CodeEnd(sizes, |p|), Pow2(|p|), |p|)
  {
    hide KraftOk, CodeEnd, Strings;
    var t: nat :| Used(sizes, t) && |p| < sizes[t] && p < CodeBits(sizes, t);
    var v := PrefixAbove(sizes, t, |p|);
    assert p == CodeBits(sizes, t)[..|p|];
    StringsHas(CodeEnd(sizes, |p|), Pow2(|p|), |p|, v);
  }

  lemma {:induction false} InnerStringsHas(sizes: seq<nat>, l: nat, p: seq<Bit>)
    requires KraftOk(sizes) && Inner(sizes, p) && 1 <= l <= |p| < MAX_CODE_SIZE
    ensures p in InnerStrings(sizes, l)
    decreases MAX_CODE_SIZE - l
  {
    hide KraftOk, CodeEnd, Strings, Inner;
    if l < |p| {
      InnerStringsHas(sizes, l + 1, p);
    } else {
      InnerInGap(sizes, p);
    }
  }

  lemma SubsetSize<T>(a: set<T>, b: set<T>)
    requires a <= b
    ensures |a| <= |b|
  {
    assert b == a + (b - a);
  }

  /** A complete code needs at most as many nodes as it has symbols. */
  lemma CompleteNodes(sizes: seq<nat>, nodes: Nodes)
    requires Complete(sizes) && NodesOk(sizes, nodes)
    ensures |nodes| <= |sizes|
  {
    forall p | p in nodes ensures p in InnerStrings(sizes, FAST_BITS) {
      InnerLong(sizes, p);
      InnerStringsHas(sizes, FAST_BITS, p);
    }
    SubsetSize(nodes.Keys, InnerStrings(sizes, FAST_BITS));
    InnerStringsFew(sizes, FAST_BITS);
    GapSumIsUsed(sizes, FAST_BITS);
    KraftBelow(sizes, FAST_BITS);
    CountRangeBound(sizes, FAST_BITS, MAX_CODE_SIZE);
  }

  lemma DoubleAndAdd(e: nat, u: nat, c: nat, p: nat)
    requires e <= u * p && p >= 1
    ensures 2 * e + c <= (u + c) * (2 * p)
  {
    assert (u + c) * (2 * p) == 2 * (u * p) + c * (2 * p);
    MulAtLeast(c, 1, 2 * p);
  }

  lemma {:induction false} CodeEndBound(sizes: seq<nat>, l: nat)
    requires l >= 1
    ensures CodeEnd(sizes, l) <= CountRange(sizes, 0, l) * Pow2(l - 1)
  {
    hide Count;
    CountRangeSplit(sizes, 0, l - 1, l);
    assert CountRange(sizes, l - 1, l) == Count(sizes, l);
    if l == 1 {
      assert CountRange(sizes, 0, 1) == Count(sizes, 1);
    } else {
      CodeEndBound(sizes, l - 1);
      DoubleAndAdd(CodeEnd(sizes, l - 1), CountRange(sizes, 0, l - 1), Count(sizes, l), Pow2(l - 2));
    }
  }

  /** At most one code never breaks the Kraft inequality. */
  lemma FewFit(sizes: seq<nat>)
    requires UsedCount(sizes) <= 1
    ensures KraftOk(sizes)
  {
    CodeEndBound(sizes, MAX_CODE_SIZE);
    MulAtLeast(Pow2(MAX_CODE_SIZE - 1), UsedCount(sizes), 1);
  }

  lemma {:induction false} UsedTwice(sizes: seq<nat>, s: nat, t: nat)
    requires s < t && Used(sizes, s) && Used(sizes, t)
    ensures UsedCount(sizes) >= 2
  {
    UsedPrefix(sizes, s, t);
    UsedPrefix(sizes, t, |sizes|);
    assert sizes[..|sizes|] == sizes;
  }

  lemma {:induction false} UsedPrefix(sizes: seq<nat>, s: nat, n: nat)
    requires s < n <= |sizes| && Used(sizes, s)
    ensures UsedCount(sizes[..n]) >= UsedCount(sizes[..s]) + 1
    decreases n
  {
    assert sizes[..n] == sizes[..n - 1] + [sizes[n - 1]];
    CountRangeSnoc(sizes[..n - 1], sizes[n - 1], 0, MAX_CODE_SIZE);
    if s < n - 1 {
      UsedPrefix(sizes, s, n - 1);
    }
  }

  lemma OnlyCode(sizes: seq<nat>, s: nat, p: seq<Bit>)
    requires UsedCount(sizes) <= 1 && Used(sizes, s) && Inner(sizes, p)
    ensures p < CodeBits(sizes, s)
  {
    hide UsedCount, CodeBits;
    var t: nat :| Used(sizes, t) && |p| < sizes[t] && p < CodeBits(sizes, t);
    if s < t { UsedTwice(sizes, s, t); } else if t < s { UsedTwice(sizes, t, s); }
  }

  /** A single code needs at most five nodes. */
  lemma SingleNodes(sizes: seq<nat>, nodes: Nodes)
    requires UsedCount(sizes) <= 1 && NodesOk(sizes, nodes)
    ensures |nodes| <= 5
  {
    hide UsedCount, CodeBits, Inner, HasParent;
    if q :| q in nodes {
      var s := SomeCode(sizes, q);
      var c := CodeBits(sizes, s) + [false, false, false, false, false, false, false, false, false, false, false, false, false];
      var all := {c[..10], c[..11], c[..12], c[..13], c[..14]};
      forall p | p in nodes ensures p in all {
        InnerLong(sizes, p);
        OnlyCode(sizes, s, p);
        assert p == c[..|p|];
      }
      SubsetSize(nodes.Keys, all);
    }
  }

  lemma SomeCode(sizes: seq<nat>, q: seq<Bit>) returns (s: nat)
    requires Inner(sizes, q)
    ensures Used(sizes, s)
  {
    s :| Used(sizes, s) && |q| < sizes[s] && q < CodeBits(sizes, s);
  }
}
