/**
 * Blocks without a header: the fixed codes (RFC 1951, section 3.2.6), and bytes
 * stored as they are (section 3.2.4).
 */
module FixedBlocks {
  import opened Bits
  import opened BitIO
  import opened Lz
  import opened Symbols
  import opened TokenBuffers
  import opened Canonical
  import opened TreeBound
  import opened CodeTables
  import opened HuffTables
  import opened Blocks
  import opened BlockWriters

  /** A run of equal lengths at the end of a list of lengths. */
  lemma {:induction false} CountRun(sizes: seq<nat>, k: nat, v: nat, l: nat)
    requires k <= |sizes| && forall i :: k <= i < |sizes| ==> sizes[i] == v
    ensures Count(sizes, l) == Count(sizes[..k], l) + (if v == l then |sizes| - k else 0)
  {
    if k == |sizes| {
      assert sizes[..k] == sizes;
    } else {
      var t := sizes[..|sizes| - 1];
      CountRun(t, k, v, l);
      assert t[..k] == sizes[..k];
    }
  }

  lemma FixedLitCounts(l: nat)
    ensures Count(FixedLit(), l) == if l == 7 then 24 else if l == 8 then 152 else if l == 9 then 112 else 0
  {
    var f := FixedLit();
    CountRun(f, 280, 8, l);
    CountRun(f[..280], 256, 7, l);
    assert f[..280][..256] == f[..256];
    CountRun(f[..256], 144, 9, l);
    assert f[..256][..144] == f[..144];
    CountRun(f[..144], 0, 8, l);
    assert f[..144][..0] == [];
  }

  lemma FixedDistCounts(l: nat)
    ensures Count(FixedDist(), l) == if l == 5 then 32 else 0
  {
    CountRun(FixedDist(), 0, 5, l);
    assert FixedDist()[..0] == [];
  }

  lemma {:induction false} NoShorter(sizes: seq<nat>, l: nat)
    requires 1 <= l && forall k :: 1 <= k < l ==> Count(sizes, k) == 0
    ensures FirstCode(sizes, l) == 0
  {
    if l > 1 {
      NoShorter(sizes, l - 1);
    }
  }

  /** Both fixed codes are complete, so the decoder accepts them. */
  lemma FixedComplete()
    ensures Sizes(FixedLit()) && Complete(FixedLit()) && Sizes(FixedDist()) && Complete(FixedDist())
  {
    hide Count, Complete, FixedLit, FixedDist;
    FixedLitComplete();
    FixedDistComplete();
  }

  lemma FixedLitComplete()
    ensures Complete(FixedLit())
  {
    hide Count, FixedLit;
    var f := FixedLit();
    forall k: nat ensures Count(f, k) == if k == 7 then 24 else if k == 8 then 152 else if k == 9 then 112 else 0 {
      FixedLitCounts(k);
    }
    NoShorter(f, 7);
    assert FirstCode(f, 8) == 48;
    assert FirstCode(f, 9) == 400;
    assert Pow2(9) == 512 by { assert Pow2(5) == 32; }
    LongerUnused(f, 9, MAX_CODE_SIZE);
  }

  lemma FixedDistComplete()
    ensures Complete(FixedDist())
  {
    hide Count, FixedDist;
    var f := FixedDist();
    forall k: nat ensures Count(f, k) == if k == 5 then 32 else 0 {
      FixedDistCounts(k);
    }
    NoShorter(f, 5);
    assert Pow2(5) == 32;
    LongerUnused(f, 5, MAX_CODE_SIZE);
  }

  /** Counters of the lengths in use. */
  method CountSizes(table: CodeTable, n: nat) returns (num: array<nat>)
    requires table.Shape() && n <= MAX_SYMBOLS && forall s :: 0 <= s < n ==> table.sizes[s] <= MAX_CODE_SIZE
    ensures fresh(num) && num.Length == 33 && CountsLengths(num[..], table.sizes[..n], MAX_CODE_SIZE)
  {
    num := new nat[33](_ => 0);
    ghost var sizes := table.sizes[..n];
    for s := 0 to n
      invariant forall l :: 0 <= l < 33 ==> num[l] == Count(sizes[..s], l)
    {
      assert sizes[..s + 1][..s] == sizes[..s];
      num[table.sizes[s]] := num[table.sizes[s]] + 1;
    }
    assert sizes[..n] == sizes;
  }

  /** Sets the lengths from index from on, up to to. */
  method FillSizes(table: CodeTable, from: nat, to: nat, v: nat)
    requires table.Shape() && from <= to <= MAX_SYMBOLS
    modifies table.sizes
    ensures forall s :: 0 <= s < MAX_SYMBOLS ==> table.sizes[s] == if from <= s < to then v else old(table.sizes[s])
  {
    for s := from to to
      invariant forall k :: 0 <= k < MAX_SYMBOLS ==> table.sizes[k] == if from <= k < s then v else old(table.sizes[k])
    {
      table.sizes[s] := v;
    }
  }

  /** Sets up the fixed codes and sends the block type. */
  method StartStaticBlock(w: BitWriter, lt: CodeTable, dt: CodeTable, ghost m: Mark, ghost bits: seq<Bit>)
    requires lt.Shape() && dt.Shape() && {lt.sizes, lt.codes} !! {dt.sizes, dt.codes}
    requires w.buf as object !in {lt.sizes, lt.codes, dt.sizes, dt.codes} && w.Since(m, bits)
    modifies w`pos, w`bitBuffer, w`bitsIn, w.buf, lt.sizes, lt.codes, dt.sizes, dt.codes
    ensures Writes(lt, FixedLit()) && Writes(dt, FixedDist()) && w.Since(m, bits + ToBits(1, 2))
  {
    hide ToBits, BytesToBits, Count, Coded, BitWriter.Since;
    FillSizes(lt, 0, 144, 8);
    FillSizes(lt, 144, 256, 9);
    FillSizes(lt, 256, 280, 7);
    FillSizes(lt, 280, 288, 8);
    FillSizes(dt, 0, 32, 5);
    assert lt.sizes[..288] == FixedLit() && dt.sizes[..32] == FixedDist();
    var num := CountSizes(lt, 288);
    lt.AssignCodes(288, MAX_CODE_SIZE, num);
    num := CountSizes(dt, 32);
    dt.AssignCodes(32, MAX_CODE_SIZE, num);
    assert Pow2(2) == 4;
    w.PutBits(1, 2, m, bits);
  }

  /** Fills the unfinished byte with zero bits. */
  method PadByte(w: BitWriter, ghost m: Mark, ghost bits: seq<Bit>)
    requires w.Since(m, bits)
    modifies w`pos, w`bitBuffer, w`bitsIn, w.buf
    ensures w.Since(m, bits + ToBits(0, Padding(m.bitsIn + |bits|))) && w.bitsIn == 0 && w.pos >= old(w.pos)
  {
    hide ToBits, BytesToBits, Pow2;
    PaddingOf(m.bitsIn + |bits|);
    if w.bitsIn != 0 {
      w.PutBits(0, 8 - w.bitsIn, m, bits);
      ToBitsLen(0, Padding(m.bitsIn + |bits|));
    } else {
      NoBits();
      assert bits + [] == bits;
    }
  }

  lemma NoBits()
    ensures ToBits(0, 0) == []
  {
  }

  lemma PaddingOf(n: nat)
    ensures Padding(n) == if n % 8 == 0 then 0 else 8 - n % 8
  {
  }

  /** A stored block's lengths and bytes, the bytes read from the dictionary ring. */
  method PutStored(w: BitWriter, dict: array<byte>, start: nat, n: nat, ghost data: seq<byte>, ghost m: Mark, ghost bits: seq<Bit>)
    requires w.Since(m, bits) && w.bitsIn == 0 && w.buf != dict && dict.Length >= DICT_SIZE && n < 65536
    requires |data| == n && forall i :: 0 <= i < n ==> dict[(start + i) % DICT_SIZE] == data[i]
    modifies w`pos, w`bitBuffer, w`bitsIn, w.buf
    ensures w.Since(m, bits + (ToBits(n, 16) + ToBits(65535 - n, 16) + BytesToBits(data)))
  {
    hide ToBits, BytesToBits, Pow2, BitWriter.Since;
    SixteenBits();
    w.PutBits(n, 16, m, bits);
    w.PutBits(65535 - n, 16, m, bits + ToBits(n, 16));
    ghost var b := bits + ToBits(n, 16) + ToBits(65535 - n, 16);
    assert BytesToBits([]) == [] by { NoBytes(); }
    assert b + [] == b;
    for i := 0 to n
      invariant w.Since(m, b + BytesToBits(data[..i]))
    {
      PowEight();
      BytesSnoc(data[..i], data[i]);
      assert data[..i + 1] == data[..i] + [data[i]];
      w.PutBits(dict[(start + i) % DICT_SIZE], 8, m, b + BytesToBits(data[..i]));
      assert b + BytesToBits(data[..i]) + ToBits(data[i], 8) == b + (BytesToBits(data[..i]) + ToBits(data[i], 8));
    }
    assert data[..n] == data;
    assert b + BytesToBits(data) == bits + (ToBits(n, 16) + ToBits(65535 - n, 16) + BytesToBits(data));
  }

  lemma NoBytes()
    ensures BytesToBits([]) == []
  {
  }

  lemma SixteenBits()
    ensures Pow2(16) == 65536
  {
    PowEight();
    Pow2Add(8, 8);
  }

  /** An uncompressed block behind the block's final bit. */
  method PutStoredBlock(w: BitWriter, dict: array<byte>, start: nat, n: nat, ghost data: seq<byte>, ghost m: Mark, ghost bits: seq<Bit>)
    requires w.Since(m, bits) && w.buf != dict && dict.Length >= DICT_SIZE && n < 65536
    requires |data| == n && forall i :: 0 <= i < n ==> dict[(start + i) % DICT_SIZE] == data[i]
    modifies w`pos, w`bitBuffer, w`bitsIn, w.buf
    ensures w.Since(m, bits + (ToBits(0, 2) + StoredBits(data, m.bitsIn + |bits| + 2)))
  {
    hide ToBits, BytesToBits, Pow2;
    assert Pow2(2) == 4 by { PowTwo(); }
    w.PutBits(0, 2, m, bits);
    ToBitsLen(0, 2);
    ghost var b1 := bits + ToBits(0, 2);
    assert m.bitsIn + |b1| == m.bitsIn + |bits| + 2;
    ghost var pad := ToBits(0, Padding(m.bitsIn + |b1|));
    PadByte(w, m, b1);
    PutStored(w, dict, start, n, data, m, b1 + pad);
    ghost var rest := ToBits(n, 16) + ToBits(65535 - n, 16) + BytesToBits(data);
    assert StoredBits(data, m.bitsIn + |bits| + 2) == pad + rest;
    assert b1 + pad + rest == bits + (ToBits(0, 2) + (pad + rest));
  }

  lemma PowTwo()
    ensures Pow2(2) == 4
  {
  }
}
