/**
 * What surrounds the blocks of a compressed stream: the zlib header, the padding
 * of a flush, and the checksum at the end (RFC 1950, section 2.2).
 */
module StreamEnds {
  import opened Bits
  import opened BitIO
  import opened Lz
  import opened TokenBuffers
  import opened CodeTables
  import opened Blocks
  import opened BlockWriters
  import opened DynamicHeaders
  import opened FixedBlocks
  import opened BlockFlush
  import opened Adlers

  datatype Flush = NoFlush | SyncFlush | FullFlush | Finish

  /** Compression method and flags of every stream this compressor writes. */
  const ZLIB_HEADER: seq<byte> := [0x78, 0x01]

  /** The checksum as four bytes, most significant first. */
  function AdlerBytes(a: uint32): (r: seq<byte>)
    ensures |r| == 4
  {
    [a / 0x100_0000, a / 0x1_0000 % 256, a / 256 % 256, a % 256]
  }

  /** Writes whole bytes. */
  method PutByte(w: BitWriter, c: byte, ghost m: Mark, ghost bits: seq<Bit>, ghost bytes: seq<byte>)
    requires w.Since(m, bits + BytesToBits(bytes))
    modifies w`pos, w`bitBuffer, w`bitsIn, w.buf
    ensures w.Since(m, bits + BytesToBits(bytes + [c]))
  {
    hide ToBits, BytesToBits, BitWriter.Since, Pow2;
    PowEight();
    w.PutBits(c, 8, m, bits + BytesToBits(bytes));
    BytesSnoc(bytes, c);
    assert bits + BytesToBits(bytes) + ToBits(c, 8) == bits + (BytesToBits(bytes) + ToBits(c, 8));
  }

  method PutZlibHeader(w: BitWriter, ghost m: Mark)
    requires w.Since(m, [])
    modifies w`pos, w`bitBuffer, w`bitsIn, w.buf
    ensures w.Since(m, BytesToBits(ZLIB_HEADER))
  {
    hide BytesToBits, BitWriter.Since;
    NoBytes();
    assert [] + BytesToBits([]) == [];
    ghost var first: seq<byte> := [0x78];
    PutByte(w, 0x78, m, [], []);
    assert [] + first == first && first + [0x01] == ZLIB_HEADER;
    PutByte(w, 0x01, m, [], first);
    assert [] + BytesToBits(ZLIB_HEADER) == BytesToBits(ZLIB_HEADER);
  }

  /** Sends the checksum, shifting it out at the top of its 32 bits. */
  method PutAdler(w: BitWriter, adler: uint32, ghost m: Mark, ghost bits: seq<Bit>)
    requires w.Since(m, bits)
    modifies w`pos, w`bitBuffer, w`bitsIn, w.buf
    ensures w.Since(m, bits + BytesToBits(AdlerBytes(adler)))
  {
    hide BytesToBits, BitWriter.Since;
    NoBytes();
    assert bits + BytesToBits([]) == bits;
    ghost var bytes := AdlerBytes(adler);
    var a := adler;
    for i := 0 to 4
      invariant a == ShiftedOut(adler, i) && w.Since(m, bits + BytesToBits(bytes[..i]))
    {
      assert bytes[..i + 1] == bytes[..i] + [bytes[i]];
      AdlerByte(adler, i);
      PutByte(w, a / 0x100_0000, m, bits, bytes[..i]);
      a := a % 0x100_0000 * 256;
    }
    assert bytes[..4] == bytes;
  }

  /** The checksum shifted left by i bytes, in 32 bits. */
  function ShiftedOut(adler: uint32, i: nat): uint32
    requires i <= 4
  {
    if i == 0 then adler else ShiftedOut(adler, i - 1) % 0x100_0000 * 256
  }

  lemma AdlerByte(adler: uint32, i: nat)
    requires i < 4
    ensures ShiftedOut(adler, i) / 0x100_0000 == AdlerBytes(adler)[i]
  {
    var b0, b1, b2, b3 := adler / 0x100_0000, adler / 0x1_0000 % 256, adler / 256 % 256, adler % 256;
    Digits(adler);
    assert ShiftedOut(adler, 0) == adler;
    assert ShiftedOut(adler, 1) == 0x100_0000 * b1 + 0x1_0000 * b2 + 256 * b3;
    assert i >= 2 ==> ShiftedOut(adler, 2) == 0x100_0000 * b2 + 0x1_0000 * b3;
    assert i >= 3 ==> ShiftedOut(adler, 3) == 0x100_0000 * b3;
  }

  lemma Digits(a: uint32)
    ensures a == 0x100_0000 * (a / 0x100_0000) + 0x1_0000 * (a / 0x1_0000 % 256) + 256 * (a / 256 % 256) + a % 256
  {
    assert a / 256 / 256 == a / 0x1_0000 && a / 0x1_0000 / 256 == a / 0x100_0000;
  }

  /** What a flush writes behind its block, the block having ended at bit position pos. */
  ghost function TailBits(flush: Flush, zlib: bool, adler: uint32, pos: nat): seq<Bit> {
    match flush
    case NoFlush => []
    case Finish => ToBits(0, Padding(pos)) + (if zlib then BytesToBits(AdlerBytes(adler)) else [])
    case _ => BlockBits(Stored([]), false, pos)
  }

  method PutTail(w: BitWriter, flush: Flush, zlib: bool, adler: uint32, ghost m: Mark, ghost bits: seq<Bit>)
    requires w.Since(m, bits)
    modifies w`pos, w`bitBuffer, w`bitsIn, w.buf
    ensures w.Since(m, bits + TailBits(flush, zlib, adler, m.bitsIn + |bits|))
  {
    hide ToBits, BytesToBits, BitWriter.Since, Pow2, AdlerBytes;
    if flush == Finish {
      ghost var pad := ToBits(0, Padding(m.bitsIn + |bits|));
      PadByte(w, m, bits);
      if zlib {
        PutAdler(w, adler, m, bits + pad);
        assert bits + pad + BytesToBits(AdlerBytes(adler)) == bits + (pad + BytesToBits(AdlerBytes(adler)));
      } else {
        assert pad + [] == pad;
      }
    } else if flush != NoFlush {
      PutEmptyBlock(w, m, bits);
    } else {
      assert bits + [] == bits;
    }
  }

  /** An empty stored block, which brings the stream to a byte boundary. */
  method PutEmptyBlock(w: BitWriter, ghost m: Mark, ghost bits: seq<Bit>)
    requires w.Since(m, bits)
    modifies w`pos, w`bitBuffer, w`bitsIn, w.buf
    ensures w.Since(m, bits + BlockBits(Stored([]), false, m.bitsIn + |bits|))
  {
    hide ToBits, BytesToBits, BitWriter.Since, Pow2;
    PowThree();
    NoBytes();
    w.PutBits(0, 3, m, bits);
    ThreeZeros();
    ghost var b1 := bits + ToBits(0, 3);
    ghost var pad := ToBits(0, Padding(m.bitsIn + |b1|));
    PadByte(w, m, b1);
    SixteenBits();
    w.PutBits(0, 16, m, b1 + pad);
    w.PutBits(65535, 16, m, b1 + pad + ToBits(0, 16));
    assert m.bitsIn + |b1| == m.bitsIn + |bits| + 3;
    assert StoredBits([], m.bitsIn + |bits| + 3) == pad + ToBits(0, 16) + ToBits(65535, 16) + [];
    assert b1 + pad + ToBits(0, 16) + ToBits(65535, 16) == bits + BlockBits(Stored([]), false, m.bitsIn + |bits|);
  }

  lemma PowThree()
    ensures Pow2(3) == 8 && Pow2(1) == 2
  {
  }

  lemma ThreeZeros()
    ensures ToBits(0, 3) == ToBits(0, 1) + ToBits(0, 2)
  {
  }
}
