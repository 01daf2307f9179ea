/**
 * Bit writer and bit reader: bytes are filled and emptied from the least
 * significant bit (RFC 1951, section 3.1.1).
 */
module BitIO {
  import opened Bits

  /** A byte taken off the low end of a bit buffer. */
  lemma TakeByte(v: nat, n: nat)
    requires n >= 8 && v < Pow2(n)
    ensures v / 256 < Pow2(n - 8)
    ensures ToBits(v, n) == ToBits(v % 256, 8) + ToBits(v / 256, n - 8)
  {
    PowEight();
    ToBitsSplit(v, 8, n - 8);
    assert Low(v, 8) == v % 256 && High(v, 8) == v / 256;
  }

  lemma BytesSnoc(bs: seq<byte>, b: byte)
    ensures BytesToBits(bs + [b]) == BytesToBits(bs) + ToBits(b, 8)
  {
    assert (bs + [b])[..|bs|] == bs;
  }

  lemma BytesCons(bs: seq<byte>)
    requires bs != []
    ensures BytesToBits(bs) == ToBits(bs[0], 8) + BytesToBits(bs[1..])
  {
    assert bs == [bs[0]] + bs[1..];
    BytesToBitsAppend([bs[0]], bs[1..]);
    BytesSnoc([], bs[0]);
    assert BytesToBits([bs[0]]) == ToBits(bs[0], 8) by { assert [] + [bs[0]] == [bs[0]]; }
  }

  /** A fresh number put above the bits a buffer holds. */
  lemma JoinBound(a: nat, m: nat, b: nat, n: nat)
    requires a < Pow2(m) && b < Pow2(n)
    ensures a + Pow2(m) * b < Pow2(m + n)
  {
    Pow2Add(m, n);
    MulAtLeast(Pow2(m), b + 1, Pow2(n));
    assert Pow2(m) * (b + 1) == Pow2(m) * b + Pow2(m);
  }

  /** A point in the output: all bits, the whole bytes among them, and the bits of the unfinished byte. */
  datatype Mark = Mark(bits: seq<Bit>, bytes: seq<byte>, end: nat, bitsIn: nat)

  /** Where the output would stand if the buffer never ended. */
  function Demand(m: Mark, bits: seq<Bit>): nat {
    8 * |m.bytes| + m.bitsIn + |bits|
  }

  /**
   * From m to n exactly bits were written, if they had room; whole bytes rest once written, and no
   * more room is taken than the bits need.
   */
  ghost predicate After(n: Mark, m: Mark, bits: seq<Bit>) {
    && n.end == m.end && |n.bytes| <= n.end && m.bytes <= n.bytes
    && n.bitsIn == (m.bitsIn + |bits|) % 8
    && 8 * |n.bytes| + n.bitsIn <= Demand(m, bits)
    && (|n.bytes| < m.end || Demand(m, bits) / 8 <= m.end ==>
          n.bits == m.bits + bits && 8 * |n.bytes| + n.bitsIn == Demand(m, bits))
  }

  lemma AfterAfter(n: Mark, k: Mark, m: Mark, b: seq<Bit>, c: seq<Bit>)
    requires After(k, m, b) && After(n, k, c)
    ensures After(n, m, b + c)
  {
    assert m.bits + b + c == m.bits + (b + c);
    assert m.bytes <= n.bytes;
  }

  class BitWriter {
    const buf: array<byte>
    /** Next byte to write, and where the usable part of the buffer ends. */
    var pos: nat
    var end: nat
    var bitBuffer: nat
    var bitsIn: nat

    ghost predicate Valid()
      reads this
    {
      pos <= end <= buf.Length && bitsIn < 8 && bitBuffer < Pow2(bitsIn)
    }

    /** All bits written so far, whole bytes and the unfinished one. */
    ghost function Bits(): seq<Bit>
      reads this, buf
      requires pos <= buf.Length
    {
      BytesToBits(buf[..pos]) + ToBits(bitBuffer, bitsIn)
    }

    /** Nothing has been dropped for lack of room. */
    predicate HasRoom()
      reads this
    {
      pos < end
    }

    constructor (size: nat)
      ensures Valid() && fresh(buf) && pos == 0 && end == size && buf.Length == size && bitsIn == 0 && bitBuffer == 0
    {
      buf := new byte[size](_ => 0);
      pos, end, bitBuffer, bitsIn := 0, size, 0, 0;
    }

    /** A point in the output to measure from. */
    ghost function Here(): Mark
      reads this, buf
      requires Valid()
    {
      Mark(Bits(), buf[..pos], end, bitsIn)
    }

    /** Since the mark exactly bits were written, if they had room. */
    ghost predicate Since(m: Mark, bits: seq<Bit>)
      reads this, buf
    {
      Valid() && After(Here(), m, bits)
    }

    /** Moves whole bytes from the accumulator to the buffer; a full buffer drops them. */
    method EmitBytes()
      requires pos <= end <= buf.Length && bitBuffer < Pow2(bitsIn)
      modifies this`pos, this`bitBuffer, this`bitsIn, buf
      ensures Valid() && end == old(end) && old(pos) <= pos && buf[..old(pos)] == old(buf[..pos])
      ensures bitsIn == old(bitsIn) % 8 && 8 * pos + bitsIn <= 8 * old(pos) + old(bitsIn)
      ensures pos < end || old(pos) + old(bitsIn) / 8 <= end ==>
        Bits() == old(Bits()) && 8 * pos + bitsIn == 8 * old(pos) + old(bitsIn)
    {
      hide BytesToBits, ToBits, Pow2;
      while bitsIn >= 8
        invariant old(pos) <= pos <= end == old(end) && bitBuffer < Pow2(bitsIn)
        invariant buf[..old(pos)] == old(buf[..pos])
        invariant bitsIn % 8 == old(bitsIn) % 8 && 8 * pos + bitsIn <= 8 * old(pos) + old(bitsIn)
        invariant pos < end || old(pos) + old(bitsIn) / 8 <= end ==>
          Bits() == old(Bits()) && 8 * pos + bitsIn == 8 * old(pos) + old(bitsIn)
      {
        ghost var before := buf[..pos];
        TakeByte(bitBuffer, bitsIn);
        if pos < end {
          buf[pos] := bitBuffer % 256;
          pos := pos + 1;
          assert buf[..pos] == before + [bitBuffer % 256];
          BytesSnoc(before, bitBuffer % 256);
        }
        bitBuffer := bitBuffer / 256;
        bitsIn := bitsIn - 8;
      }
    }

    /** Puts the l low bits of b above what the accumulator holds; the 32-bit accumulator never overflows. */
    method Accumulate(b: nat, l: nat)
      requires Valid() && b < Pow2(l) && l <= 16
      modifies this`pos, this`bitBuffer, this`bitsIn, buf
      ensures Valid() && end == old(end) && old(pos) <= pos && buf[..old(pos)] == old(buf[..pos])
      ensures After(Here(), old(Here()), ToBits(b, l))
    {
      hide BytesToBits, ToBits, Pow2;
      ToBitsJoin(bitBuffer, bitsIn, b, l);
      JoinBound(bitBuffer, bitsIn, b, l);
      Below32(bitsIn + l);
      ghost var start := BytesToBits(buf[..pos]);
      assert start + ToBits(bitBuffer, bitsIn) + ToBits(b, l) == start + (ToBits(bitBuffer, bitsIn) + ToBits(b, l));
      bitBuffer := bitBuffer + Pow2(bitsIn) * b;
      assert bitBuffer < 0x1_0000_0000;
      bitsIn := bitsIn + l;
      EmitBytes();
    }

    /** Appends the l low bits of b to what was written since the mark. */
    method PutBits(b: nat, l: nat, ghost m: Mark, ghost bits: seq<Bit>)
      requires Since(m, bits) && b < Pow2(l) && l <= 16
      modifies this`pos, this`bitBuffer, this`bitsIn, buf
      ensures Since(m, bits + ToBits(b, l)) && pos >= old(pos)
    {
      hide BytesToBits, ToBits, Pow2, Bits, After;
      ghost var k := Here();
      Accumulate(b, l);
      AfterAfter(Here(), k, m, bits, ToBits(b, l));
    }
  }

  lemma ToBitsLen(b: nat, l: nat)
    ensures |ToBits(b, l)| == l
  {
  }

  lemma Below32(n: nat)
    requires n <= 23
    ensures Pow2(n) < 0x1_0000_0000
  {
    Pow2Monotone(n, 23);
    assert Pow2(23) == 8388608 by { assert Pow2(8) == 256; assert Pow2(16) == 65536 by { Pow2Add(8, 8); } assert Pow2(7) == 128; Pow2Add(16, 7); }
  }

  /** The bits in a bit buffer, followed by the input not read yet. */
  function Ahead(input: seq<byte>, cur: nat, bitBuf: nat, numBits: nat): (s: seq<Bit>)
    requires cur <= |input|
    ensures |s| == numBits + 8 * (|input| - cur)
  {
    ToBits(bitBuf, numBits) + BytesToBits(input[cur..])
  }

  /** One more input byte, put above the bits of the buffer, leaves the bits ahead as they are. */
  lemma MoveByte(input: seq<byte>, cur: nat, bitBuf: nat, numBits: nat)
    requires cur < |input| && bitBuf < Pow2(numBits)
    ensures bitBuf + Pow2(numBits) * input[cur] < Pow2(numBits + 8)
    ensures Ahead(input, cur + 1, bitBuf + Pow2(numBits) * input[cur], numBits + 8) == Ahead(input, cur, bitBuf, numBits)
  {
    hide ToBits, BytesToBits, Pow2;
    var c := input[cur];
    assert Pow2(8) == 256 by { PowEight(); }
    BytesCons(input[cur..]);
    assert input[cur..][1..] == input[cur + 1..];
    ToBitsJoin(bitBuf, numBits, c, 8);
    JoinBound(bitBuf, numBits, c, 8);
    var low, rest := ToBits(bitBuf, numBits), BytesToBits(input[cur + 1..]);
    assert (low + ToBits(c, 8)) + rest == low + (ToBits(c, 8) + rest);
  }

  function Le32(input: seq<byte>, at: nat): (v: nat)
    requires at + 4 <= |input|
    ensures v < 0x1_0000_0000
  {
    var b0: nat, b1: nat, b2: nat, b3: nat := input[at], input[at + 1], input[at + 2], input[at + 3];
    b0 + 0x100 * b1 + 0x1_0000 * b2 + 0x100_0000 * b3
  }

  lemma FourBytes(input: seq<byte>, cur: nat, bitBuf: nat, numBits: nat)
    requires cur + 4 <= |input| && bitBuf < Pow2(numBits)
    ensures bitBuf + Pow2(numBits) * Le32(input, cur) < Pow2(numBits + 32)
    ensures Ahead(input, cur + 4, bitBuf + Pow2(numBits) * Le32(input, cur), numBits + 32) == Ahead(input, cur, bitBuf, numBits)
  {
    hide Ahead, Pow2;
    var p := Pow2(numBits);
    PowEight();
    Pow2Add(numBits, 8);
    Pow2Add(numBits + 8, 8);
    Pow2Add(numBits + 16, 8);
    var a0, a1, a2, a3: nat := input[cur], input[cur + 1], input[cur + 2], input[cur + 3];
    MoveByte(input, cur, bitBuf, numBits);
    var b0 := bitBuf + p * a0;
    MoveByte(input, cur + 1, b0, numBits + 8);
    var b1 := b0 + Pow2(numBits + 8) * a1;
    MoveByte(input, cur + 2, b1, numBits + 16);
    var b2 := b1 + Pow2(numBits + 16) * a2;
    MoveByte(input, cur + 3, b2, numBits + 24);
    var b3 := b2 + Pow2(numBits + 24) * a3;
    Distribute(p, a0, a1, a2, a3);
    assert Pow2(numBits + 8) == p * 256 && Pow2(numBits + 16) == p * 65536 && Pow2(numBits + 24) == p * 0x100_0000;
    assert b3 == bitBuf + p * Le32(input, cur);
  }

  lemma Distribute(p: nat, a0: nat, a1: nat, a2: nat, a3: nat)
    ensures p * (a0 + 0x100 * a1 + 0x1_0000 * a2 + 0x100_0000 * a3)
      == p * a0 + (p * 256) * a1 + (p * 65536) * a2 + (p * 0x100_0000) * a3
  {
  }

  class BitReader {
    const input: seq<byte>
    /** Next input byte, and the bits read but not used yet. */
    var cur: nat
    var bitBuf: nat
    var numBits: nat

    /** The bits ahead are the end of the input. */
    ghost predicate Valid()
      reads this
    {
      && cur <= |input| && bitBuf < Pow2(numBits) && numBits <= 8 * cur
      && Remaining() == BytesToBits(input)[8 * cur - numBits..]
    }

    /** The bits still to come. */
    ghost function Remaining(): seq<Bit>
      reads this
      requires cur <= |input|
    {
      Ahead(input, cur, bitBuf, numBits)
    }

    constructor (input: seq<byte>)
      ensures Valid() && this.input == input && Remaining() == BytesToBits(input)
      ensures numBits == 0 && cur == 0
    {
      this.input := input;
      cur, bitBuf, numBits := 0, 0, 0;
      new;
      assert input[0..] == input;
    }

    /** Reads one more byte into the bit buffer; fails at the end of the input. */
    method NeedByte() returns (ok: bool)
      requires Valid()
      modifies this
      ensures Valid() && Remaining() == old(Remaining())
      ensures ok <==> old(cur) < |input|
      ensures if ok then numBits == old(numBits) + 8 && cur == old(cur) + 1 else numBits == old(numBits) && cur == old(cur)
    {
      hide Ahead, BytesToBits, Pow2;
      ok := cur < |input|;
      if ok {
        MoveByte(input, cur, bitBuf, numBits);
        bitBuf := bitBuf + Pow2(numBits) * input[cur];
        numBits := numBits + 8;
        cur := cur + 1;
      }
    }

    /** Reads two bytes at once. */
    method ReadTwo()
      requires Valid() && cur + 2 <= |input|
      modifies this
      ensures Valid() && Remaining() == old(Remaining()) && numBits == old(numBits) + 16 && cur == old(cur) + 2
    {
      hide Ahead, BytesToBits, Pow2;
      MoveByte(input, cur, bitBuf, numBits);
      var b0 := bitBuf + Pow2(numBits) * input[cur];
      MoveByte(input, cur + 1, b0, numBits + 8);
      bitBuf := bitBuf + Pow2(numBits) * input[cur] + Pow2(numBits + 8) * input[cur + 1];
      cur := cur + 2;
      numBits := numBits + 16;
    }

    /** Reads a little-endian 32-bit word at once. */
    method ReadFour()
      requires Valid() && cur + 4 <= |input|
      modifies this
      ensures Valid() && Remaining() == old(Remaining()) && numBits == old(numBits) + 32 && cur == old(cur) + 4
    {
      hide Ahead, BytesToBits, Pow2;
      FourBytes(input, cur, bitBuf, numBits);
      bitBuf := bitBuf + Pow2(numBits) * Le32(input, cur);
      cur := cur + 4;
      numBits := numBits + 32;
    }

    /** Drops the n bits at the front of the bit buffer. */
    method DropBits(n: nat)
      requires Valid() && n <= numBits
      modifies this`bitBuf, this`numBits
      ensures Valid() && numBits == old(numBits) - n && n <= |old(Remaining())| && Remaining() == old(Remaining())[n..]
    {
      hide ToBits, BytesToBits, Pow2;
      ToBitsSplit(bitBuf, n, numBits - n);
      bitBuf := High(bitBuf, n);
      numBits := numBits - n;
    }

    /** The next n bits as a number; fails only when the input is too short. */
    method GetBits(n: nat) returns (ok: bool, v: nat)
      requires Valid()
      modifies this
      ensures Valid() && v < Pow2(n)
      ensures ok <==> |old(Remaining())| >= n
      ensures ok ==> ToBits(v, n) == old(Remaining())[..n] && Remaining() == old(Remaining())[n..]
      ensures !ok ==> Remaining() == old(Remaining())
    {
      hide ToBits, BytesToBits, Pow2, Ahead;
      ghost var r := Remaining();
      ok, v := true, 0;
      while numBits < n
        invariant Valid() && Remaining() == r
        decreases |input| - cur
      {
        ok := NeedByte();
        if !ok {
          return;
        }
      }
      v := Low(bitBuf, n);
      assert ToBits(v, n) == r[..n] by {
        BufferBits(n);
        ToBitsLow(bitBuf, n);
      }
      DropBits(n);
    }

    /** The low bits of the buffer are the next bits. */
    lemma BufferBits(n: nat)
      requires cur <= |input| && n <= numBits
      ensures ToBits(bitBuf, n) == Remaining()[..n]
    {
      ToBitsPrefix(bitBuf, numBits, n);
    }
  }

  lemma PowEight()
    ensures Pow2(8) == 256
  {
    assert Pow2(4) == 16;
  }
}
