/**
 * Bytes, powers of two, and bit strings in the order deflate uses them: the
 * least significant bit of a number comes first (RFC 1951, section 3.1.1).
 */
module Bits {

  type byte = b: int | 0 <= b < 256

  type Bit = bool

  function Pow2(n: nat): (p: nat)
    ensures p > 0
  {
    if n == 0 then 1 else 2 * Pow2(n - 1)
  }

  lemma Pow2Add(m: nat, n: nat)
    ensures Pow2(m + n) == Pow2(m) * Pow2(n)
  {
    if m == 0 {
    } else {
      Pow2Add(m - 1, n);
      assert Pow2(m + n) == 2 * (Pow2(m - 1) * Pow2(n));
    }
  }

  lemma Pow2Monotone(m: nat, n: nat)
    requires m <= n
    ensures Pow2(m) <= Pow2(n)
  {
    if m < n {
      Pow2Monotone(m, n - 1);
    }
  }

  /** The n low bits of v, least significant first. */
  function ToBits(v: nat, n: nat): (s: seq<Bit>)
    ensures |s| == n
  {
    if n == 0 then [] else [v % 2 == 1] + ToBits(v / 2, n - 1)
  }

  /** The number whose bits, least significant first, are s. */
  function FromBits(s: seq<Bit>): (v: nat)
  {
    if s == [] then 0 else (if s[0] then 1 else 0) + 2 * FromBits(s[1..])
  }

  lemma FromToBits(v: nat, n: nat)
    requires v < Pow2(n)
    ensures FromBits(ToBits(v, n)) == v
  {
    if n == 0 {
    } else {
      FromToBits(v / 2, n - 1);
      assert ToBits(v, n)[1..] == ToBits(v / 2, n - 1);
    }
  }

  lemma {:induction false} ToFromBits(s: seq<Bit>)
    ensures ToBits(FromBits(s), |s|) == s
  {
    if s == [] {
    } else {
      var v, h := FromBits(s), FromBits(s[1..]);
      assert v / 2 == h && (v % 2 == 1) == s[0];
      ToFromBits(s[1..]);
      assert s == [s[0]] + s[1..];
    }
  }

  lemma TwiceTimes(p: nat, f: nat)
    ensures (2 * p) * f == 2 * (p * f)
  {
  }

  lemma {:induction false} FromBitsAppend(s: seq<Bit>, t: seq<Bit>)
    ensures FromBits(s + t) == FromBits(s) + Pow2(|s|) * FromBits(t)
  {
    if s == [] {
      assert s + t == t;
    } else {
      assert (s + t)[1..] == s[1..] + t && (s + t)[0] == s[0];
      FromBitsAppend(s[1..], t);
      TwiceTimes(Pow2(|s| - 1), FromBits(t));
    }
  }

  /** Two numbers side by side in a bit buffer: the first in the low m bits. */
  lemma ToBitsJoin(a: nat, m: nat, b: nat, n: nat)
    requires a < Pow2(m) && b < Pow2(n)
    ensures ToBits(a + Pow2(m) * b, m + n) == ToBits(a, m) + ToBits(b, n)
  {
    var s := ToBits(a, m) + ToBits(b, n);
    FromBitsAppend(ToBits(a, m), ToBits(b, n));
    FromToBits(a, m);
    FromToBits(b, n);
    ToFromBits(s);
  }

  /** Bits of a byte string, each byte least significant bit first. */
  function BytesToBits(bs: seq<byte>): (s: seq<Bit>)
    ensures |s| == 8 * |bs|
  {
    if bs == [] then [] else BytesToBits(bs[..|bs| - 1]) + ToBits(bs[|bs| - 1], 8)
  }

  lemma {:induction false} BytesToBitsAppend(a: seq<byte>, b: seq<byte>)
    ensures BytesToBits(a + b) == BytesToBits(a) + BytesToBits(b)
  {
    if b == [] {
      assert a + b == a;
    } else {
      assert (a + b)[..|a + b| - 1] == a + b[..|b| - 1];
      BytesToBitsAppend(a, b[..|b| - 1]);
    }
  }

  /** The m low bits of v, and what is above them. */
  function Low(v: nat, m: nat): (r: nat)
    ensures r < Pow2(m)
  {
    v % Pow2(m)
  }

  function High(v: nat, m: nat): nat {
    QuotientNat(v, Pow2(m));
    v / Pow2(m)
  }

  lemma QuotientNat(v: nat, d: nat)
    requires d > 0
    ensures v / d >= 0
  {
  }

  lemma LowHigh(v: nat, m: nat)
    ensures v == Low(v, m) + Pow2(m) * High(v, m)
  {
  }

  lemma HighBound(v: nat, m: nat, n: nat)
    requires v < Pow2(m + n)
    ensures High(v, m) < Pow2(n)
  {
    LowHigh(v, m);
    Pow2Add(m, n);
    if High(v, m) >= Pow2(n) {
      MulAtLeast(Pow2(m), Pow2(n), High(v, m));
    }
  }

  /** Low and high part of a bit string, as remainder and quotient. */
  lemma ToBitsSplit(v: nat, m: nat, n: nat)
    requires v < Pow2(m + n)
    ensures High(v, m) < Pow2(n)
    ensures ToBits(v, m + n) == ToBits(Low(v, m), m) + ToBits(High(v, m), n)
  {
    HighBound(v, m, n);
    LowHigh(v, m);
    ToBitsJoin(Low(v, m), m, High(v, m), n);
  }

  lemma MulAtLeast(k: nat, a: int, b: int)
    requires a <= b
    ensures k * a <= k * b
  {
  }

  lemma {:induction false} BitAt(v: nat, n: nat, i: nat)
    requires i < n
    ensures ToBits(v, n)[i] == (High(v, i) % 2 == 1)
    decreases i
  {
    if i == 0 {
      assert v / 1 == v;
    } else {
      BitAt(v / 2, n - 1, i - 1);
      HalfThenDivide(v, i - 1);
    }
  }

  lemma HalfThenDivide(v: nat, k: nat)
    ensures v / Pow2(k + 1) == (v / 2) / Pow2(k)
  {
    var p := Pow2(k);
    var q, r := (v / 2) / p, (v / 2) % p;
    QuotientUnique(v, 2 * p, q, 2 * r + v % 2);
  }

  lemma DivideThenHalf(v: nat, k: nat)
    ensures v / Pow2(k) / 2 == v / Pow2(k + 1)
  {
    var p := Pow2(k);
    var q := v / p;
    assert q * p == (q / 2) * (2 * p) + (q % 2) * p;
    QuotientUnique(v, 2 * p, q / 2, (q % 2) * p + v % p);
  }

  lemma QuotientUnique(v: nat, d: nat, q: nat, r: nat)
    requires d > 0 && r < d && v == q * d + r
    ensures v / d == q && v % d == r
  {
    if v / d > q {
      MulAtLeast(d, q + 1, v / d);
    } else if v / d < q {
      MulAtLeast(d, v / d + 1, q);
    }
  }

  lemma {:induction false} ToBitsPrefix(v: nat, n: nat, k: nat)
    requires k <= n
    ensures ToBits(v, n)[..k] == ToBits(v, k)
    decreases k
  {
    if k > 0 {
      ToBitsPrefix(v / 2, n - 1, k - 1);
    }
  }

  /** The n low bits depend only on the remainder. */
  lemma {:induction false} ToBitsLow(v: nat, n: nat)
    ensures ToBits(v, n) == ToBits(Low(v, n), n)
    decreases n
  {
    if n > 0 {
      var p := Pow2(n - 1);
      var h := v / 2;
      LowHigh(h, n - 1);
      QuotientUnique(v, 2 * p, High(h, n - 1), 2 * Low(h, n - 1) + v % 2);
      assert Low(v, n) == 2 * Low(h, n - 1) + v % 2;
      ToBitsLow(h, n - 1);
    }
  }
}
