/**
 * The Adler-32 checksum (RFC 1950, section 8.2): two sums modulo 65521, here
 * computed with the modulo deferred over blocks of 5552 bytes.
 */
module Adlers {
  import opened Bits

  const ADLER_BASE := 65521
  const ADLER_BLOCK := 5552
  const ADLER_INIT := 1

  type uint32 = x: int | 0 <= x < 0x1_0000_0000

  /** The two running sums, reduced after every byte. */
  function A1(a: nat, bs: seq<byte>): nat {
    if bs == [] then a else (A1(a, bs[..|bs| - 1]) + bs[|bs| - 1]) % ADLER_BASE
  }

  function A2(a: nat, b: nat, bs: seq<byte>): nat {
    if bs == [] then b else (A2(a, b, bs[..|bs| - 1]) + A1(a, bs)) % ADLER_BASE
  }

  /** The checksum of bs continued from a checksum value. */
  function Adler(v: uint32, bs: seq<byte>): (r: uint32)
  {
    SumsFit(v % 65536, v / 65536, bs);
    A2(v % 65536, v / 65536, bs) * 65536 + A1(v % 65536, bs)
  }

  lemma SumsFit(a: nat, b: nat, bs: seq<byte>)
    requires a < 65536 && b < 65536
    ensures A1(a, bs) < 65536 && A2(a, b, bs) < 65536
  {
  }

  /** Continuing a checksum gives the checksum of the whole. */
  lemma {:induction false} SumsCompose(a: nat, b: nat, x: seq<byte>, y: seq<byte>)
    ensures A1(A1(a, x), y) == A1(a, x + y)
    ensures A2(A1(a, x), A2(a, b, x), y) == A2(a, b, x + y)
  {
    if y == [] {
      assert x + y == x;
    } else {
      SumsCompose(a, b, x, y[..|y| - 1]);
      assert (x + y)[..|x + y| - 1] == x + y[..|y| - 1];
    }
  }

  lemma AdlerCompose(v: uint32, x: seq<byte>, y: seq<byte>)
    ensures Adler(Adler(v, x), y) == Adler(v, x + y)
  {
    hide A1, A2;
    var a, b := v % 65536, v / 65536;
    SumsFit(a, b, x);
    SumsCompose(a, b, x, y);
    assert Adler(v, x) % 65536 == A1(a, x) && Adler(v, x) / 65536 == A2(a, b, x);
  }

  /** The sums without any reduction. */
  function S1(a: nat, bs: seq<byte>): nat {
    if bs == [] then a else S1(a, bs[..|bs| - 1]) + bs[|bs| - 1]
  }

  function S2(a: nat, b: nat, bs: seq<byte>): nat {
    if bs == [] then b else S2(a, b, bs[..|bs| - 1]) + S1(a, bs)
  }

  lemma AddMod(x: nat, y: nat, m: nat)
    requires m > 0
    ensures (x % m + y) % m == (x + y) % m
  {
    var q, a := x / m, x % m + y;
    SplitQuotient(m, q, a / m);
    QuotientUnique(x + y, m, q + a / m, a % m);
  }

  lemma SplitQuotient(m: nat, p: nat, q: nat)
    ensures m * (p + q) == m * p + m * q
  {
  }

  /** Reducing once at the end is reducing after every byte. */
  lemma {:induction false} DeferredFirst(a: nat, a': nat, bs: seq<byte>)
    requires a % ADLER_BASE == a' % ADLER_BASE
    ensures S1(a, bs) % ADLER_BASE == A1(a', bs) % ADLER_BASE
    ensures bs != [] ==> A1(a', bs) < ADLER_BASE
  {
    if bs != [] {
      var t, c := bs[..|bs| - 1], bs[|bs| - 1];
      DeferredFirst(a, a', t);
      AddMod(S1(a, t), c, ADLER_BASE);
      AddMod(A1(a', t), c, ADLER_BASE);
    }
  }

  lemma {:induction false} Deferred(a: nat, b: nat, a': nat, b': nat, bs: seq<byte>)
    requires a % ADLER_BASE == a' % ADLER_BASE && b % ADLER_BASE == b' % ADLER_BASE
    ensures S1(a, bs) % ADLER_BASE == A1(a', bs) % ADLER_BASE
    ensures S2(a, b, bs) % ADLER_BASE == A2(a', b', bs) % ADLER_BASE
    ensures bs != [] ==> A1(a', bs) < ADLER_BASE && A2(a', b', bs) < ADLER_BASE
  {
    hide S1, A1;
    DeferredFirst(a, a', bs);
    if bs != [] {
      var t := bs[..|bs| - 1];
      Deferred(a, b, a', b', t);
      AddTwoMod(S2(a, b, t), S1(a, bs), A2(a', b', t), A1(a', bs));
    }
  }

  lemma AddTwoMod(x: nat, y: nat, x': nat, y': nat)
    requires x % ADLER_BASE == x' % ADLER_BASE && y % ADLER_BASE == y' % ADLER_BASE
    ensures (x + y) % ADLER_BASE == (x' + y') % ADLER_BASE
  {
    BothMod(x, y);
    BothMod(x', y');
  }

  lemma BothMod(x: nat, y: nat)
    ensures (x + y) % ADLER_BASE == (x % ADLER_BASE + y % ADLER_BASE) % ADLER_BASE
  {
    AddMod(x, y, ADLER_BASE);
    AddMod(y, x % ADLER_BASE, ADLER_BASE);
  }

  /** How large the sums of a block get. */
  lemma {:induction false} SumBounds(a: nat, b: nat, bs: seq<byte>)
    requires a < 65536 && b < 65536
    ensures S1(a, bs) <= a + 255 * |bs|
    ensures 2 * S2(a, b, bs) <= 2 * b + 2 * a * |bs| + 255 * |bs| * (|bs| + 1)
  {
    if bs != [] {
      var n := |bs| - 1;
      SumBounds(a, b, bs[..n]);
      assert 2 * a * |bs| == 2 * a * n + 2 * a;
      assert 255 * |bs| * (|bs| + 1) == 255 * n * (n + 1) + 510 * (n + 1);
    }
  }

  /** No block overflows 32 bits, not even the first one from an unreduced start. */
  lemma NoOverflow(a: nat, b: nat, bs: seq<byte>)
    requires a < 65536 && b < 65536 && |bs| <= ADLER_BLOCK
    requires |bs| < ADLER_BLOCK || (a < ADLER_BASE && b < ADLER_BASE)
    ensures S1(a, bs) < 0x1_0000_0000 && S2(a, b, bs) < 0x1_0000_0000
  {
    hide S1, S2;
    SumBounds(a, b, bs);
    var n := |bs|;
    if n < ADLER_BLOCK {
      ShortBlock(a, n);
    }
  }

  lemma ShortBlock(a: nat, n: nat)
    requires a < 65536 && n < ADLER_BLOCK
    ensures 2 * a * n <= 2 * 65535 * 5551 && 255 * n * (n + 1) <= 255 * 5551 * 5552
  {
    MulAtLeast(n, a, 65535);
    MulAtLeast(n, n + 1, 5552);
    assert 2 * a * n == 2 * (n * a) && 255 * n * (n + 1) == 255 * (n * (n + 1));
  }

  /** Sums over the first i bytes of a block, in 32 bits. */
  ghost predicate SumsAt(s1: uint32, s2: uint32, a: nat, b: nat, bs: seq<byte>, i: nat) {
    i <= |bs| && s1 == S1(a, bs[..i]) && s2 == S2(a, b, bs[..i])
  }

  ghost predicate SmallBlock(a: nat, b: nat, bs: seq<byte>) {
    && a < 65536 && b < 65536 && |bs| <= ADLER_BLOCK
    && (|bs| < ADLER_BLOCK || (a < ADLER_BASE && b < ADLER_BASE))
  }

  lemma SumStep(a: nat, b: nat, bs: seq<byte>, i: nat)
    requires SmallBlock(a, b, bs) && i < |bs|
    ensures S1(a, bs[..i + 1]) == S1(a, bs[..i]) + bs[i] < 0x1_0000_0000
    ensures S2(a, b, bs[..i + 1]) == S2(a, b, bs[..i]) + S1(a, bs[..i + 1]) < 0x1_0000_0000
  {
    assert bs[..i + 1][..i] == bs[..i];
    NoOverflow(a, b, bs[..i + 1]);
  }

  method AddByte(c: byte, s1: uint32, s2: uint32, ghost a: nat, ghost b: nat, ghost bs: seq<byte>, ghost i: nat)
    returns (t1: uint32, t2: uint32)
    requires SmallBlock(a, b, bs) && SumsAt(s1, s2, a, b, bs, i) && i < |bs| && bs[i] == c
    ensures SumsAt(t1, t2, a, b, bs, i + 1)
  {
    hide S1, S2;
    SumStep(a, b, bs, i);
    var n1: nat, n2: nat := s1, s2;
    t1 := n1 + c as int;
    t2 := n2 + t1 as int;
  }

  /** Adds eight bytes at once. */
  method AddEight(buf: seq<byte>, from: nat, i: nat, r1: uint32, r2: uint32, ghost a: nat, ghost b: nat, ghost bs: seq<byte>)
    returns (s1: uint32, s2: uint32)
    requires SmallBlock(a, b, bs) && SumsAt(r1, r2, a, b, bs, i) && i + 8 <= |bs|
    requires from + |bs| <= |buf| && bs == buf[from..from + |bs|]
    ensures SumsAt(s1, s2, a, b, bs, i + 8)
  {
    hide SumsAt, SmallBlock;
    s1, s2 := r1, r2;
    s1, s2 := AddByte(buf[from + i + 0], s1, s2, a, b, bs, i + 0);
    s1, s2 := AddByte(buf[from + i + 1], s1, s2, a, b, bs, i + 1);
    s1, s2 := AddByte(buf[from + i + 2], s1, s2, a, b, bs, i + 2);
    s1, s2 := AddByte(buf[from + i + 3], s1, s2, a, b, bs, i + 3);
    s1, s2 := AddByte(buf[from + i + 4], s1, s2, a, b, bs, i + 4);
    s1, s2 := AddByte(buf[from + i + 5], s1, s2, a, b, bs, i + 5);
    s1, s2 := AddByte(buf[from + i + 6], s1, s2, a, b, bs, i + 6);
    s1, s2 := AddByte(buf[from + i + 7], s1, s2, a, b, bs, i + 7);
  }

  /** The unreduced sums of one block. */
  method SumBlock(buf: seq<byte>, from: nat, n: nat, a: uint32, b: uint32) returns (s1: uint32, s2: uint32)
    requires from + n <= |buf| && SmallBlock(a, b, buf[from..from + n])
    ensures s1 == S1(a, buf[from..from + n]) && s2 == S2(a, b, buf[from..from + n])
  {
    hide SmallBlock;
    ghost var bs := buf[from..from + n];
    s1, s2 := a, b;
    var i := 0;
    while i + 7 < n
      invariant i <= n && SumsAt(s1, s2, a, b, bs, i)
    {
      s1, s2 := AddEight(buf, from, i, s1, s2, a, b, bs);
      i := i + 8;
    }
    while i < n
      invariant i <= n && SumsAt(s1, s2, a, b, bs, i)
    {
      s1, s2 := AddByte(buf[from + i], s1, s2, a, b, bs, i);
      i := i + 1;
    }
    assert bs[..n] == bs;
  }

  /** The sums, reduced or still the start value, stand for the first at bytes. */
  ghost predicate SummedTo(s1: nat, s2: nat, a: nat, b: nat, buf: seq<byte>, at: nat) {
    && at <= |buf| && s1 < 65536 && s2 < 65536
    && s1 % ADLER_BASE == A1(a, buf[..at]) % ADLER_BASE && s2 % ADLER_BASE == A2(a, b, buf[..at]) % ADLER_BASE
    && (at > 0 ==> s1 == A1(a, buf[..at]) && s2 == A2(a, b, buf[..at]))
  }

  /** Reducing a block's sums gives the sums reduced byte by byte. */
  lemma BlockReduced(a: nat, b: nat, s1: nat, s2: nat, buf: seq<byte>, at: nat, n: nat)
    requires SummedTo(s1, s2, a, b, buf, at) && at + n <= |buf|
    ensures var block := buf[at..at + n];
      SummedTo(S1(s1, block) % ADLER_BASE, S2(s1, s2, block) % ADLER_BASE, a, b, buf, at + n)
  {
    hide A1, A2, S1, S2;
    assert buf[..at] + buf[at..at + n] == buf[..at + n];
    SumsCompose(a, b, buf[..at], buf[at..at + n]);
    Deferred(s1, s2, A1(a, buf[..at]), A2(a, b, buf[..at]), buf[at..at + n]);
    Deferred(a, b, a, b, buf[..at + n]);
  }

  /** The checksum of a buffer, continued from adler; it is the byte-by-byte checksum and never overflows. */
  method ComputeAdler(adler: uint32, buf: seq<byte>) returns (r: uint32)
    ensures r == Adler(adler, buf)
  {
    hide A1, A2, S1, S2, SummedTo, SmallBlock;
    var a: uint32, b: uint32 := adler % 65536, adler / 65536;
    var s1: uint32, s2: uint32 := a, b;
    var left: nat, blockLen: nat := |buf|, |buf| % ADLER_BLOCK;
    StartSums(a, b, buf);
    ghost var first := true;
    while left > 0
      invariant left <= |buf| && blockLen <= ADLER_BLOCK && (left - blockLen) % ADLER_BLOCK == 0 && (left > 0 ==> blockLen <= left)
      invariant SummedTo(s1, s2, a, b, buf, |buf| - left) && (|buf| == 0 ==> s1 == a && s2 == b)
      invariant if first then blockLen < ADLER_BLOCK else blockLen == ADLER_BLOCK && s1 < ADLER_BASE && s2 < ADLER_BASE
      decreases left, first
    {
      ghost var at := |buf| - left;
      BlockIsOk(s1, s2, a, b, buf, at, blockLen);
      BlockReduced(a, b, s1, s2, buf, at, blockLen);
      var t1, t2 := SumBlock(buf, |buf| - left, blockLen, s1, s2);
      s1, s2 := t1 % ADLER_BASE, t2 % ADLER_BASE;
      left := left - blockLen;
      blockLen := ADLER_BLOCK;
      first := false;
    }
    EndSums(s1, s2, a, b, buf);
    var high: nat := s2;
    r := high * 65536 + s1;
  }

  lemma BlockIsOk(s1: nat, s2: nat, a: nat, b: nat, buf: seq<byte>, at: nat, n: nat)
    requires SummedTo(s1, s2, a, b, buf, at) && at + n <= |buf| && n <= ADLER_BLOCK
    requires n < ADLER_BLOCK || (s1 < ADLER_BASE && s2 < ADLER_BASE)
    ensures SmallBlock(s1, s2, buf[at..at + n])
  {
  }

  lemma StartSums(a: nat, b: nat, buf: seq<byte>)
    requires a < 65536 && b < 65536
    ensures SummedTo(a, b, a, b, buf, 0)
  {
  }

  lemma EndSums(s1: nat, s2: nat, a: nat, b: nat, buf: seq<byte>)
    requires SummedTo(s1, s2, a, b, buf, |buf|) && (|buf| == 0 ==> s1 == a && s2 == b)
    ensures s1 == A1(a, buf) && s2 == A2(a, b, buf) && s2 * 65536 + s1 < 0x1_0000_0000
  {
    assert buf[..|buf|] == buf;
  }
}
