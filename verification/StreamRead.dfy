/**
 * Decompressing a whole stream: header, blocks up to the final one, unused input
 * put back, and the checksum (RFC 1950, section 2.2).
 */
module StreamReaders {
  import opened Bits
  import opened BitIO
  import opened Lz
  import opened Decoding
  import opened TableReaders
  import opened StoredReaders
  import opened Inflaters
  import opened Adlers
  import opened StreamEnds
  import opened Streams

  /** Decodes blocks up to and including the final one. */
  method DecodeBlocks(d: Inflater) returns (res: Outcome)
    requires d.Shape() && d.r.Valid()
    modifies d.r, d`outCur, d.out, d.lenCodes, Arrays(d.lt), Arrays(d.dt), Arrays(d.cl)
    ensures d.Shape() && d.r.Valid() && d.At(old(AllBlocks(d.Output(), d.out.Length, d.r.Remaining())), res)
  {
    hide Ahead, BytesToBits, Pow2, Disjoint, OneBlock;
    ghost var all := AllBlocks(d.Output(), d.out.Length, d.r.Remaining());
    while true
      invariant d.Shape() && d.r.Valid() && AllBlocks(d.Output(), d.out.Length, d.r.Remaining()) == all
      decreases |d.r.Remaining()|
    {
      var last;
      res, last := d.DecodeBlock();
      if !res.Success? || last {
        return;
      }
    }
  }

  /** Gives back the whole bytes read ahead, so that the next byte to read follows the stream. */
  method PutBack(r: BitReader)
    requires r.Valid()
    modifies r
    ensures r.Valid() && r.numBits == 0 && r.Remaining() == Aligned(old(r.Remaining()))
  {
    hide Ahead, BytesToBits, Pow2, ToBits, Aligned;
    SkipToByte(r);
    var cur, numBits := UnusedBytes(r.cur, r.numBits);
    ReadAgain(r.input, cur);
    r.cur, r.numBits, r.bitBuf := cur, numBits, Low(r.bitBuf, numBits);
  }

  /** Steps back over the whole bytes in the bit buffer. */
  method UnusedBytes(cur0: nat, numBits0: nat) returns (cur: nat, numBits: nat)
    requires numBits0 % 8 == 0 && numBits0 <= 8 * cur0
    ensures numBits == 0 && 8 * cur == 8 * cur0 - numBits0
  {
    cur, numBits := cur0, numBits0;
    while cur > 0 && numBits >= 8
      invariant numBits % 8 == 0 && 8 * cur - numBits == 8 * cur0 - numBits0
    {
      cur := cur - 1;
      numBits := numBits - 8;
    }
  }

  lemma ReadAgain(input: seq<byte>, cur: nat)
    requires cur <= |input|
    ensures Pow2(0) == 1 && Ahead(input, cur, 0, 0) == BytesToBits(input)[8 * cur..]
  {
    hide BytesToBits;
    assert input == input[..cur] + input[cur..];
    BytesToBitsAppend(input[..cur], input[cur..]);
    assert ToBits(0, 0) == [];
  }

  /** Reads the two header bytes and checks them: any compressor's header will do if it fits, and no other. */
  method ReadZlibHeader(r: BitReader) returns (res: Outcome)
    requires r.Valid() && r.numBits == 0
    modifies r
    ensures r.Valid()
    ensures if old(r.cur) + 2 <= |r.input| then
        && (res.Success? <==> HeaderFits(r.input[old(r.cur)], r.input[old(r.cur) + 1]))
        && (!res.Success? ==> res.Failed?)
        && r.numBits == 0 && r.cur == old(r.cur) + 2 && r.Remaining() == old(r.Remaining())[16..]
      else
        res.InputEnded?
  {
    hide Ahead, BytesToBits, ToBits;
    var ok, h0, h1;
    DropByte(r);
    ok, h0 := ReadByte(r);
    if !ok {
      return InputEnded;
    }
    DropByte(r);
    ok, h1 := ReadByte(r);
    if !ok {
      return InputEnded;
    }
    res := if (h0 * 256 + h1) % 31 != 0 || h1 / 32 % 2 == 1 || h0 % 16 != 8 then Failed else Success;
  }

  /** The bits ahead when one whole byte has been read. */
  lemma DropByte(r: BitReader)
    requires r.Valid() && r.numBits == 0
    ensures r.cur < |r.input| ==> |r.Remaining()| >= 8 && BytesToBits(r.input)[8 * (r.cur + 1)..] == r.Remaining()[8..]
  {
    hide BytesToBits;
    if r.cur < |r.input| {
      DirectByte(r);
    }
  }

  /** Reads the checksum, most significant byte first. */
  method ReadAdler(r: BitReader) returns (ok: bool, z: uint32)
    requires r.Valid() && r.numBits == 0
    modifies r
    ensures r.Valid() && r.numBits == 0
    ensures ok <==> old(r.cur) + 4 <= |r.input|
    ensures ok ==> r.cur == old(r.cur) + 4 && AdlerBytes(z) == r.input[old(r.cur)..r.cur]
  {
    hide Ahead, BytesToBits, ToBits, AdlerBytes, ShiftIn, Pow2;
    z, ok := ADLER_INIT, true;
    ghost var from := r.cur;
    for i := 0 to 4
      invariant ok && r.Valid() && r.numBits == 0 && r.cur == from + i && z == Shifted(r.input[from..from + i])
    {
      var s;
      ok, s := ReadByte(r);
      if !ok {
        return;
      }
      assert r.input[from..from + i + 1][..i] == r.input[from..from + i];
      z := ShiftIn(z, s);
    }
    ShiftedAdler(r.input[from..from + 4], z);
  }

  /** Bytes shifted into a 32-bit word that starts as 1. */
  function Shifted(bytes: seq<byte>): uint32 {
    if bytes == [] then ADLER_INIT else ShiftIn(Shifted(bytes[..|bytes| - 1]), bytes[|bytes| - 1])
  }

  /** One byte shifted in at the low end of 32 bits. */
  function ShiftIn(z: uint32, s: byte): uint32 {
    var high: nat, low: nat := z % 0x100_0000, s;
    high * 256 + low
  }

  lemma ShiftedValue(b: seq<byte>)
    requires |b| == 4
    ensures Shifted(b) == 0x100_0000 * b[0] as int + 65536 * b[1] as int + 256 * b[2] as int + b[3] as int
  {
    var b0: nat, b1: nat, b2: nat, b3: nat := b[0], b[1], b[2], b[3];
    assert Shifted([]) == 1;
    assert b[..1][..0] == [] && Shifted(b[..1]) == 256 + b0;
    assert b[..2][..1] == b[..1] && Shifted(b[..2]) == 65536 + 256 * b0 + b1;
    assert b[..3][..2] == b[..2] && Shifted(b[..3]) == 0x100_0000 + 65536 * b0 + 256 * b1 + b2;
    assert b[..4] == b && b[..4][..3] == b[..3];
  }

  lemma BytesOfWord(z: uint32, b0: byte, b1: byte, b2: byte, b3: byte)
    requires z == 0x100_0000 * b0 as int + 65536 * b1 as int + 256 * b2 as int + b3 as int
    ensures AdlerBytes(z) == [b0, b1, b2, b3]
  {
    assert z / 0x100_0000 == b0;
    assert z / 0x1_0000 == 256 * b0 as int + b1;
    assert z / 256 == 65536 * b0 as int + 256 * b1 as int + b2;
  }

  lemma ShiftedAdler(b: seq<byte>, z: uint32)
    requires |b| == 4 && z == Shifted(b)
    ensures AdlerBytes(z) == b
  {
    hide Shifted, AdlerBytes;
    ShiftedValue(b);
    BytesOfWord(z, b[0], b[1], b[2], b[3]);
    assert b == [b[0], b[1], b[2], b[3]];
  }

  /** The header, if there is one. */
  method ReadHeader(r: BitReader, zlib: bool) returns (res: Outcome)
    requires r.Valid() && r.numBits == 0 && r.cur == 0
    modifies r
    ensures r.Valid() && (res.Success? || res == if |r.input| < 2 then InputEnded else Failed)
    ensures res.Success? <==> (zlib ==> |r.input| >= 2 && HeaderFits(r.input[0], r.input[1]))
    ensures res.Success? ==> r.Remaining() == BytesToBits(if zlib then r.input[2..] else r.input)
  {
    hide Ahead, BytesToBits, HeaderFits, Pow2, ToBits;
    res := Success;
    if zlib {
      res := ReadZlibHeader(r);
      if !res.Success? {
        return;
      }
    }
    BytesTaken(r, 0);
    assert r.input[0..] == r.input;
  }

  /** The reader stands at a whole byte of the input. */
  lemma AtByte(r: BitReader)
    requires r.Valid() && r.numBits == 0
    ensures r.cur <= |r.input| && r.cur == PlaceOf(r.input, r.Remaining())
  {
    hide BytesToBits;
    BytesTaken(r, 0);
  }

  lemma WholeRest(input: seq<byte>, rest: seq<Bit>)
    ensures PlaceOf(input, Aligned(rest)) == PlaceOf(input, rest)
  {
  }

  /** Decompresses one stream into the output buffer. */
  method Decompress(d: Inflater, zlib: bool) returns (res: Outcome)
    requires d.Shape() && d.r.Valid() && d.outCur == 0 && d.r.cur == 0 && d.r.numBits == 0
    modifies d.r, d`outCur, d.out, d.lenCodes, Arrays(d.lt), Arrays(d.dt), Arrays(d.cl)
    ensures d.outCur <= d.out.Length && d.r.cur <= |d.r.input|
    ensures var r := Decompressed(zlib, d.r.input, d.out.Length);
      res == r.res && d.Output() == r.out && (res.Success? ==> d.r.cur == r.used)
  {
    hide Ahead, BytesToBits, Disjoint, Pow2, AllBlocks, BitReader.Valid, HeaderFits, PlaceOf, SumAt, Aligned;
    InsideInput(d.r);
    assert d.Output() == [];
    res := ReadHeader(d.r, zlib);
    InsideInput(d.r);
    if !res.Success? {
      return;
    }
    res := DecodeBlocks(d);
    InsideInput(d.r);
    if !res.Success? {
      return;
    }
    WholeRest(d.r.input, d.r.Remaining());
    PutBack(d.r);
    AtByte(d.r);
    res := CheckSum(d, zlib);
  }

  /** Compares the stored checksum with that of the output. */
  method CheckSum(d: Inflater, zlib: bool) returns (res: Outcome)
    requires d.Shape() && d.r.Valid() && d.r.numBits == 0
    modifies d.r
    ensures d.r.cur <= |d.r.input|
    ensures var r := Checked(zlib, d.r.input, d.Output(), old(d.r.cur)); res == r.res && (res.Success? ==> d.r.cur == r.used)
  {
    hide Ahead, BytesToBits, Disjoint, Adler, AdlerBytes;
    res := Success;
    if zlib {
      var ok, z := ReadAdler(d.r);
      if !ok {
        return InputEnded;
      }
      var check := ComputeAdler(ADLER_INIT, d.out[..d.outCur]);
      if check != z {
        DifferentSums(check, z);
        res := WrongChecksum;
      }
    }
  }

  lemma DifferentSums(a: uint32, b: uint32)
    requires a != b
    ensures AdlerBytes(a) != AdlerBytes(b)
  {
    Digits(a);
    Digits(b);
  }
}
