/**
 * Reading a stored block: its two length words and its bytes (RFC 1951, section 3.2.4).
 */
module StoredReaders {
  import opened Bits
  import opened BitIO
  import opened Trie
  import opened Blocks
  import opened Decoding

  lemma {:induction false} BytesInjective(a: seq<byte>, b: seq<byte>)
    requires |a| == |b| && BytesToBits(a) == BytesToBits(b)
    ensures a == b
  {
    hide ToBits;
    if a != [] {
      var n := |a| - 1;
      var x, y := BytesToBits(a), BytesToBits(b);
      assert x[..8 * n] == BytesToBits(a[..n]) && y[..8 * n] == BytesToBits(b[..n]);
      assert x[8 * n..] == ToBits(a[n], 8) && y[8 * n..] == ToBits(b[n], 8);
      BytesInjective(a[..n], b[..n]);
      PowEight();
      ToBitsInjective(a[n], b[n], 8);
      assert a == a[..n] + [a[n]] && b == b[..n] + [b[n]];
    }
  }

  /** Whole bytes at the front of a byte string's bits are its first bytes. */
  lemma BytesAhead(a: seq<byte>, d: seq<byte>, rest: seq<Bit>)
    requires BytesToBits(a) == BytesToBits(d) + rest
    ensures d <= a && rest == BytesToBits(a[|d|..])
  {
    hide BytesToBits;
    var n := |d|;
    assert a == a[..n] + a[n..];
    BytesToBitsAppend(a[..n], a[n..]);
    assert BytesToBits(a)[..8 * n] == BytesToBits(d);
    assert BytesToBits(a)[..8 * n] == BytesToBits(a[..n]);
    BytesInjective(a[..n], d);
  }

  /** Brings the reader to a byte boundary. */
  method SkipToByte(r: BitReader)
    requires r.Valid()
    modifies r`bitBuf, r`numBits
    ensures r.Valid() && r.numBits % 8 == 0 && r.Remaining() == Aligned(old(r.Remaining()))
  {
    hide Ahead, BytesToBits, Pow2, ToBits;
    BitsToSkip(r);
    hide *;
    r.DropBits(r.numBits % 8);
    assert r.Remaining() == Aligned(old(r.Remaining()));
  }

  lemma BitsToSkip(r: BitReader)
    requires r.cur <= |r.input|
    ensures Aligned(r.Remaining()) == r.Remaining()[r.numBits % 8..] && (r.numBits - r.numBits % 8) % 8 == 0
  {
    hide Ahead;
    RemainingLength(r);
  }

  lemma RemainingLength(r: BitReader)
    requires r.cur <= |r.input|
    ensures |r.Remaining()| == r.numBits + 8 * (|r.input| - r.cur)
  {
  }

  /** The next byte at a byte boundary, from the bit buffer or straight from the input. */
  method ReadByte(r: BitReader) returns (ok: bool, v: nat)
    requires r.Valid() && r.numBits % 8 == 0
    modifies r
    ensures r.Valid() && r.numBits % 8 == 0 && v < 256
    ensures Number(8, old(r.Remaining())) == if ok then Parsed(v, r.Remaining()) else Stop(InputEnded)
    ensures ok && old(r.numBits) == 0 ==>
      r.numBits == 0 && r.cur == old(r.cur) + 1 && v == r.input[old(r.cur)]
    ensures old(r.numBits) == 0 ==> r.numBits == 0 && (ok <==> old(r.cur) < |r.input|)
  {
    hide Ahead, BytesToBits, Pow2, ToBits;
    v := 0;
    if r.numBits > 0 {
      ok, v := WholeByte(r);
    } else if r.cur < |r.input| {
      DirectByte(r);
      v := r.input[r.cur];
      r.cur := r.cur + 1;
      ok := true;
    } else {
      RemainingLength(r);
      ok := false;
    }
  }

  /** Eight bits off a buffer that has them. */
  method WholeByte(r: BitReader) returns (ok: bool, v: nat)
    requires r.Valid() && r.numBits % 8 == 0 && r.numBits > 0
    modifies r
    ensures r.Valid() && r.numBits % 8 == 0 && r.numBits < old(r.numBits) && r.cur == old(r.cur) && v < 256 && ok
    ensures Number(8, old(r.Remaining())) == Parsed(v, r.Remaining())
  {
    hide Ahead, BytesToBits, Pow2, ToBits;
    PowEight();
    ToBitsLow(r.bitBuf, 8);
    r.BufferBits(8);
    ok, v := true, Low(r.bitBuf, 8);
    FromToBits(v, 8);
    r.DropBits(8);
  }

  /** Without buffered bits the next byte is the next input byte. */
  lemma DirectByte(r: BitReader)
    requires r.Valid() && r.numBits == 0 && r.cur < |r.input|
    ensures Ahead(r.input, r.cur + 1, r.bitBuf, 0) == r.Remaining()[8..] == BytesToBits(r.input)[8 * (r.cur + 1)..]
    ensures Number(8, r.Remaining()) == Parsed(r.input[r.cur], r.Remaining()[8..])
  {
    hide BytesToBits;
    NoBitsAhead(r.bitBuf);
    BytesCons(r.input[r.cur..]);
    assert r.input[r.cur..][1..] == r.input[r.cur + 1..];
    var all := r.Remaining();
    assert all == BytesToBits(r.input[r.cur..]);
    assert all[8..] == BytesToBits(r.input[r.cur + 1..]);
    assert BytesToBits(r.input)[8 * r.cur..][8..] == BytesToBits(r.input)[8 * (r.cur + 1)..];
    assert all[..8] == ToBits(r.input[r.cur], 8);
    PowEight();
    FromToBits(r.input[r.cur], 8);
  }

  lemma NoBitsAhead(bitBuf: nat)
    ensures ToBits(bitBuf, 0) == []
  {
  }

  /** A 16-bit word is two bytes, low byte first. */
  lemma TwoBytes(ahead: seq<Bit>)
    ensures var p := Number(8, ahead);
      if p.Stop? then Number(16, ahead) == Stop(InputEnded)
      else
        var q := Number(8, p.rest);
        Number(16, ahead) == if q.Stop? then Stop(InputEnded) else Parsed(p.value + 256 * q.value, q.rest)
  {
    hide FromBits, Pow2;
    if |ahead| >= 16 {
      var a, b := ahead[..8], ahead[8..][..8];
      assert ahead[..16] == a + b && ahead[8..][8..] == ahead[16..];
      PowEight();
      FromBitsAppend(a, b);
    }
  }

  /** Reads a 16-bit word. */
  method ReadWord(r: BitReader) returns (ok: bool, v: nat)
    requires r.Valid() && r.numBits % 8 == 0
    modifies r
    ensures r.Valid() && r.numBits % 8 == 0 && v < 65536
    ensures Number(16, old(r.Remaining())) == if ok then Parsed(v, r.Remaining()) else Stop(InputEnded)
  {
    hide Ahead, BytesToBits, Pow2, ToBits, Number;
    v := 0;
    TwoBytes(r.Remaining());
    var low, high;
    ok, low := ReadByte(r);
    if !ok {
      return;
    }
    ok, high := ReadByte(r);
    v := low + 256 * high;
  }

  /** Reads the length word and its complement. */
  method ReadStoredLength(r: BitReader) returns (res: Outcome, n: nat)
    requires r.Valid() && r.numBits % 8 == 0
    modifies r
    ensures r.Valid() && r.numBits % 8 == 0
    ensures StoredLength(old(r.Remaining())) == if res.Success? then Parsed(n, r.Remaining()) else Stop(res)
  {
    hide Ahead, BytesToBits, Pow2, ToBits, Number;
    var ok, nlen;
    ok, n := ReadWord(r);
    if !ok {
      return InputEnded, n;
    }
    ok, nlen := ReadWord(r);
    if !ok {
      return InputEnded, n;
    }
    res := if n == 65535 - nlen then Success else Failed;
  }

  /** Taking whole input bytes leaves a valid reader. */
  lemma BytesTaken(r: BitReader, n: nat)
    requires r.Valid() && r.numBits == 0 && r.cur + n <= |r.input|
    ensures Ahead(r.input, r.cur + n, r.bitBuf, 0) == BytesToBits(r.input[r.cur + n..]) == BytesToBits(r.input)[8 * (r.cur + n)..]
    ensures r.Remaining() == BytesToBits(r.input[r.cur..])
  {
    hide BytesToBits;
    NoBitsAhead(r.bitBuf);
    var at := r.cur + n;
    assert r.input == r.input[..at] + r.input[at..];
    BytesToBitsAppend(r.input[..at], r.input[at..]);
  }
}
