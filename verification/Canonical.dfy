/**
 * Canonical Huffman codes from code lengths (RFC 1951, section 3.2.2). A code is
 * a bit string, most significant bit first, in the order it goes into the stream.
 */
module Canonical {
  import opened Bits

  const MAX_CODE_SIZE := 15

  /** How many symbols have code length l. */
  function Count(sizes: seq<nat>, l: nat): (n: nat)
    ensures n <= |sizes|
  {
    if sizes == [] then 0
    else Count(sizes[..|sizes| - 1], l) + (if sizes[|sizes| - 1] == l then 1 else 0)
  }

  /** Smallest code of length l. */
  function FirstCode(sizes: seq<nat>, l: nat): nat
    requires l >= 1
  {
    if l == 1 then 0 else 2 * (FirstCode(sizes, l - 1) + Count(sizes, l - 1))
  }

  /** First number of length l that is not a code of length l. */
  function CodeEnd(sizes: seq<nat>, l: nat): nat
    requires l >= 1
  {
    FirstCode(sizes, l) + Count(sizes, l)
  }

  function CodeValue(sizes: seq<nat>, s: nat): nat
    requires s < |sizes| && sizes[s] >= 1
  {
    FirstCode(sizes, sizes[s]) + Count(sizes[..s], sizes[s])
  }

  /** The n low bits of v, most significant first. */
  function MsbBits(v: nat, n: nat): (s: seq<Bit>)
    ensures |s| == n
  {
    if n == 0 then [] else MsbBits(v / 2, n - 1) + [v % 2 == 1]
  }

  /** The code of symbol s as it appears in the stream. */
  function CodeBits(sizes: seq<nat>, s: nat): (c: seq<Bit>)
    requires s < |sizes| && sizes[s] >= 1
    ensures |c| == sizes[s]
  {
    MsbBits(CodeValue(sizes, s), sizes[s])
  }

  predicate Used(sizes: seq<nat>, s: nat) {
    s < |sizes| && 1 <= sizes[s] <= MAX_CODE_SIZE
  }

  /** The lengths leave room for all codes: the Kraft sum is at most 1. */
  predicate KraftOk(sizes: seq<nat>) {
    CodeEnd(sizes, MAX_CODE_SIZE) <= Pow2(MAX_CODE_SIZE)
  }

  /** The Kraft sum is exactly 1. */
  predicate Complete(sizes: seq<nat>) {
    CodeEnd(sizes, MAX_CODE_SIZE) == Pow2(MAX_CODE_SIZE)
  }

  /** Codes of length m start above every extension of a code of length l. */
  lemma {:induction false} FirstCodeGrows(sizes: seq<nat>, l: nat, m: nat)
    requires 1 <= l < m
    ensures FirstCode(sizes, m) >= Pow2(m - l) * CodeEnd(sizes, l)
    decreases m
  {
    if m == l + 1 {
    } else {
      FirstCodeGrows(sizes, l, m - 1);
      assert Pow2(m - l) * CodeEnd(sizes, l) == 2 * (Pow2(m - 1 - l) * CodeEnd(sizes, l));
    }
  }

  lemma {:induction false} KraftBelow(sizes: seq<nat>, l: nat)
    requires KraftOk(sizes) && 1 <= l <= MAX_CODE_SIZE
    ensures CodeEnd(sizes, l) <= Pow2(l)
    decreases MAX_CODE_SIZE - l
  {
    if l < MAX_CODE_SIZE {
      KraftBelow(sizes, l + 1);
    }
  }

  lemma {:induction false} CountPrefix(sizes: seq<nat>, i: nat, j: nat, l: nat)
    requires i <= j <= |sizes|
    ensures Count(sizes[..i], l) <= Count(sizes[..j], l)
    ensures i < j && sizes[i] == l ==> Count(sizes[..i], l) < Count(sizes[..j], l)
    decreases j
  {
    if i < j {
      assert sizes[..j][..j - 1] == sizes[..j - 1];
      CountPrefix(sizes, i, j - 1, l);
    }
  }

  lemma CodeInRange(sizes: seq<nat>, s: nat)
    requires KraftOk(sizes) && Used(sizes, s)
    ensures FirstCode(sizes, sizes[s]) <= CodeValue(sizes, s) < CodeEnd(sizes, sizes[s]) <= Pow2(sizes[s])
  {
    CountPrefix(sizes, s, |sizes|, sizes[s]);
    assert sizes[..|sizes|] == sizes;
    KraftBelow(sizes, sizes[s]);
  }

  lemma {:induction false} MsbBitsPrefix(v: nat, n: nat, k: nat)
    requires k <= n
    ensures MsbBits(v, n)[..k] == MsbBits(v / Pow2(n - k), k)
    decreases n
  {
    if k == n {
      assert v / 1 == v;
    } else {
      MsbBitsPrefix(v / 2, n - 1, k);
      HalfThenDivide(v, n - 1 - k);
    }
  }

  lemma {:induction false} MsbBitsInjective(a: nat, b: nat, n: nat)
    requires a < Pow2(n) && b < Pow2(n) && MsbBits(a, n) == MsbBits(b, n)
    ensures a == b
  {
    if n > 0 {
      var x, y := MsbBits(a, n), MsbBits(b, n);
      assert x[..n - 1] == MsbBits(a / 2, n - 1) && y[..n - 1] == MsbBits(b / 2, n - 1);
      assert x[n - 1] == (a % 2 == 1) && y[n - 1] == (b % 2 == 1);
      MsbBitsInjective(a / 2, b / 2, n - 1);
    }
  }

  lemma QuotientAbove(v: nat, d: nat, q: nat)
    requires d > 0 && v >= d * q
    ensures v / d >= q
  {
    if v / d < q {
      MulAtLeast(d, v / d + 1, q);
    }
  }

  /** The number a longer code has in its first l bits lies above all codes of length l. */
  lemma PrefixAbove(sizes: seq<nat>, t: nat, l: nat) returns (v: nat)
    requires KraftOk(sizes) && Used(sizes, t) && 1 <= l < sizes[t]
    ensures CodeEnd(sizes, l) <= v < Pow2(l) && CodeBits(sizes, t)[..l] == MsbBits(v, l)
  {
    var m := sizes[t];
    v := High(CodeValue(sizes, t), m - l);
    FirstCodeGrows(sizes, l, m);
    CodeInRange(sizes, t);
    QuotientAbove(CodeValue(sizes, t), Pow2(m - l), CodeEnd(sizes, l));
    HighBound(CodeValue(sizes, t), m - l, l);
    MsbBitsPrefix(CodeValue(sizes, t), m, l);
  }

  /** No code is a prefix of another one. */
  lemma PrefixFree(sizes: seq<nat>, s: nat, t: nat)
    requires KraftOk(sizes) && Used(sizes, s) && Used(sizes, t) && s != t
    ensures !(CodeBits(sizes, s) <= CodeBits(sizes, t))
  {
    var l, m := sizes[s], sizes[t];
    CodeInRange(sizes, s);
    CodeInRange(sizes, t);
    if CodeBits(sizes, s) <= CodeBits(sizes, t) {
      if l == m {
        if s < t { CountPrefix(sizes, s, t, l); } else { CountPrefix(sizes, t, s, l); }
        MsbBitsInjective(CodeValue(sizes, s), CodeValue(sizes, t), l);
      } else {
        var v := PrefixAbove(sizes, t, l);
        MsbBitsInjective(CodeValue(sizes, s), v, l);
      }
    }
  }

  lemma {:induction false} MsbBitsCons(v: nat, k: nat)
    ensures MsbBits(v, k + 1) == [v / Pow2(k) % 2 == 1] + MsbBits(v, k)
  {
    if k == 0 {
      assert v / 1 == v;
    } else {
      MsbBitsCons(v / 2, k - 1);
      HalfThenDivide(v, k - 1);
    }
  }

  lemma NothingReversed(code: nat)
    ensures Pow2(0) == 1 && code / 1 == code && ToBits(0, 0) == MsbBits(code, 0)
  {
  }

  /** One more bit of the code, put in front of the ones reversed so far. */
  lemma ReverseStep(code: nat, n: nat, rev: nat)
    requires rev < Pow2(n) && ToBits(rev, n) == MsbBits(code, n)
    ensures var c := code / Pow2(n);
      && c / 2 == code / Pow2(n + 1) && 2 * rev + c % 2 < Pow2(n + 1)
      && ToBits(2 * rev + c % 2, n + 1) == MsbBits(code, n + 1)
  {
    MsbBitsCons(code, n);
    DivideThenHalf(code, n);
    hide MsbBits;
  }

  /** Reverses a code so that the least-significant-first bit writer emits it in stream order. */
  method ReverseCode(code: nat, size: nat) returns (rev: nat)
    ensures ToBits(rev, size) == MsbBits(code, size) && rev < Pow2(size)
  {
    var c := code;
    rev := 0;
    var l := size;
    NothingReversed(code);
    hide ToBits, MsbBits, Pow2;
    while l > 0
      invariant 0 <= l <= size
      invariant rev < Pow2(size - l) && c == code / Pow2(size - l)
      invariant ToBits(rev, size - l) == MsbBits(code, size - l)
    {
      ReverseStep(code, size - l, rev);
      rev := 2 * rev + c % 2;
      l, c := l - 1, c / 2;
    }
  }

  /** next_code while the first k symbols have their codes. */
  ghost predicate NextCodes(sizes: seq<nat>, k: nat, limit: nat, nextCode: seq<nat>) {
    && k <= |sizes| && limit < |nextCode|
    && forall l :: 1 <= l <= limit ==> nextCode[l] == FirstCode(sizes, l) + Count(sizes[..k], l)
  }

  lemma NextCodesStart(sizes: seq<nat>, limit: nat, nextCode: seq<nat>)
    requires limit < |nextCode| && forall l :: 1 <= l <= limit ==> nextCode[l] == FirstCode(sizes, l)
    ensures NextCodes(sizes, 0, limit, nextCode)
  {
    hide FirstCode;
    assert sizes[..0] == [];
  }

  lemma NextCodesStep(sizes: seq<nat>, k: nat, limit: nat, nextCode: seq<nat>)
    requires NextCodes(sizes, k, limit, nextCode) && k < |sizes| && sizes[k] <= limit
    ensures sizes[k] >= 1 ==>
      nextCode[sizes[k]] == CodeValue(sizes, k) && NextCodes(sizes, k + 1, limit, nextCode[sizes[k] := nextCode[sizes[k]] + 1])
    ensures sizes[k] == 0 ==> NextCodes(sizes, k + 1, limit, nextCode)
  {
    assert sizes[..k + 1][..k] == sizes[..k];
  }
}
