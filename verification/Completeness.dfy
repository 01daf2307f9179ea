/**
 * What the decoder's acceptance test means: the canonical numbering ends exactly
 * at the Kraft sum, and a complete code leaves no bit string undecodable.
 */
module Completeness {
  import opened Bits
  import opened Canonical

  /** The Kraft sum scaled by 2^m: every code of length l takes up 2^(m - l) strings of length m. */
  function KraftSum(sizes: seq<nat>, m: nat): nat {
    if sizes == [] then 0
    else
      var x := sizes[|sizes| - 1];
      KraftSum(sizes[..|sizes| - 1], m) + (if 1 <= x <= m then Pow2(m - x) else 0)
  }

  lemma {:induction false} CodeEndStep(sizes: seq<nat>, x: nat, m: nat)
    requires m >= 1
    ensures CodeEnd(sizes + [x], m) == CodeEnd(sizes, m) + (if 1 <= x <= m then Pow2(m - x) else 0)
    decreases m
  {
    assert (sizes + [x])[..|sizes|] == sizes;
    if m > 1 {
      CodeEndStep(sizes, x, m - 1);
    }
  }

  lemma {:induction false} NoCodes(m: nat)
    requires m >= 1
    ensures CodeEnd([], m) == 0
  {
    if m > 1 {
      NoCodes(m - 1);
    }
  }

  /** The end of the canonical numbering of length m is the Kraft sum. */
  lemma {:induction false} CodeEndIsKraftSum(sizes: seq<nat>, m: nat)
    requires m >= 1
    ensures CodeEnd(sizes, m) == KraftSum(sizes, m)
  {
    if sizes == [] {
      NoCodes(m);
    } else {
      var n := |sizes| - 1;
      CodeEndIsKraftSum(sizes[..n], m);
      CodeEndStep(sizes[..n], sizes[n], m);
      assert sizes == sizes[..n] + [sizes[n]];
    }
  }

  /** A code is complete exactly when the Kraft sum is 1. */
  lemma CompleteIsKraftOne(sizes: seq<nat>)
    ensures Complete(sizes) <==> KraftSum(sizes, MAX_CODE_SIZE) == Pow2(MAX_CODE_SIZE)
  {
    CodeEndIsKraftSum(sizes, MAX_CODE_SIZE);
  }

  /** The i-th symbol of a length. */
  lemma {:induction false} SymbolOfRank(sizes: seq<nat>, l: nat, i: nat) returns (s: nat)
    requires i < Count(sizes, l)
    ensures s < |sizes| && sizes[s] == l && Count(sizes[..s], l) == i
  {
    var n := |sizes| - 1;
    if i < Count(sizes[..n], l) {
      s := SymbolOfRank(sizes[..n], l, i);
      assert sizes[..n][..s] == sizes[..s];
    } else {
      s := n;
    }
  }

  /** A number below the end of length l is a code of that length, or extends a shorter one. */
  lemma {:induction false} SomeCodeBelow(sizes: seq<nat>, v: nat, l: nat) returns (s: nat)
    requires l >= 1 && v < CodeEnd(sizes, l)
    ensures s < |sizes| && 1 <= sizes[s] <= l && CodeValue(sizes, s) == v / Pow2(l - sizes[s])
    decreases l
  {
    if v >= FirstCode(sizes, l) {
      s := SymbolOfRank(sizes, l, v - FirstCode(sizes, l));
      assert v / 1 == v;
    } else {
      s := SomeCodeBelow(sizes, v / 2, l - 1);
      HalfThenDivide(v, l - 1 - sizes[s]);
    }
  }

  /** With a complete code every bit string of the longest length starts with exactly one code. */
  lemma ExactlyOneCode(sizes: seq<nat>, v: nat) returns (s: nat)
    requires Complete(sizes) && v < Pow2(MAX_CODE_SIZE)
    ensures Used(sizes, s) && CodeBits(sizes, s) <= MsbBits(v, MAX_CODE_SIZE)
    ensures forall t: nat :: Used(sizes, t) && CodeBits(sizes, t) <= MsbBits(v, MAX_CODE_SIZE) ==> t == s
  {
    hide CodeBits, MsbBits, Pow2;
    s := SomeCodeBelow(sizes, v, MAX_CODE_SIZE);
    CodeIsPrefix(sizes, s, v);
    forall t: nat | Used(sizes, t) && CodeBits(sizes, t) <= MsbBits(v, MAX_CODE_SIZE) ensures t == s {
      OnlyOne(sizes, s, t, MsbBits(v, MAX_CODE_SIZE));
    }
  }

  lemma CodeIsPrefix(sizes: seq<nat>, s: nat, v: nat)
    requires Used(sizes, s) && CodeValue(sizes, s) == v / Pow2(MAX_CODE_SIZE - sizes[s])
    ensures CodeBits(sizes, s) <= MsbBits(v, MAX_CODE_SIZE)
  {
    hide CodeValue;
    MsbBitsPrefix(v, MAX_CODE_SIZE, sizes[s]);
  }

  lemma OnlyOne(sizes: seq<nat>, s: nat, t: nat, bits: seq<Bit>)
    requires Complete(sizes) && Used(sizes, s) && Used(sizes, t)
    requires CodeBits(sizes, s) <= bits && CodeBits(sizes, t) <= bits
    ensures s == t
  {
    hide CodeBits;
    if s != t {
      PrefixFree(sizes, s, t);
      PrefixFree(sizes, t, s);
    }
  }
}
