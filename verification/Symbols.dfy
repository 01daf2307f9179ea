/**
 * The length and distance alphabets of deflate (RFC 1951, section 3.2.5): the
 * encoder's symbol and extra-bit tables, given by ranges, and the decoder's
 * base and extra-bit tables.
 */
module Symbols {
  import opened Bits
  import opened Lz

  const END_OF_BLOCK := 256

  /** Extra bits of a length code; l is the match length minus 3. */
  function LenExtra(l: byte): (k: nat)
    ensures k <= 5
  {
    if l < 8 || l == 255 then 0
    else if l < 16 then 1
    else if l < 32 then 2
    else if l < 64 then 3
    else if l < 128 then 4
    else 5
  }

  function LenSym(l: byte): (s: nat)
    ensures 257 <= s <= 285
  {
    if l < 8 then 257 + l
    else if l == 255 then 285
    else if l < 16 then 265 + (l - 8) / 2
    else if l < 32 then 269 + (l - 16) / 4
    else if l < 64 then 273 + (l - 32) / 8
    else if l < 128 then 277 + (l - 64) / 16
    else 281 + (l - 128) / 32
  }

  /** Extra bits of a distance code; d is the distance minus 1. */
  function DistExtra(d: nat): (k: nat)
    requires d < DICT_SIZE
    ensures k <= 13
  {
    if d < 4 then 0
    else if d < 8 then 1
    else if d < 16 then 2
    else if d < 32 then 3
    else if d < 64 then 4
    else if d < 128 then 5
    else if d < 256 then 6
    else if d < 512 then 7
    else if d < 1024 then 8
    else if d < 2048 then 9
    else if d < 4096 then 10
    else if d < 8192 then 11
    else if d < 16384 then 12
    else 13
  }

  function DistSym(d: nat): (s: nat)
    requires d < DICT_SIZE
    ensures s < 30
  {
    if d < 4 then d
    else if d < 8 then 4 + (d - 4) / 2
    else if d < 16 then 6 + (d - 8) / 4
    else if d < 32 then 8 + (d - 16) / 8
    else if d < 64 then 10 + (d - 32) / 16
    else if d < 128 then 12 + (d - 64) / 32
    else if d < 256 then 14 + (d - 128) / 64
    else if d < 512 then 16 + (d - 256) / 128
    else if d < 1024 then 18 + (d - 512) / 256
    else if d < 2048 then 20 + (d - 1024) / 512
    else if d < 4096 then 22 + (d - 2048) / 1024
    else if d < 8192 then 24 + (d - 4096) / 2048
    else if d < 16384 then 26 + (d - 8192) / 4096
    else 28 + (d - 16384) / 8192
  }

  const LENGTH_BASE: seq<nat> :=
    [3, 4, 5, 6, 7, 8, 9, 10, 11, 13, 15, 17, 19, 23, 27, 31, 35, 43, 51, 59, 67, 83, 99, 115, 131, 163, 195, 227, 258, 0, 0]
  const LENGTH_EXTRA: seq<nat> :=
    [0, 0, 0, 0, 0, 0, 0, 0, 1, 1, 1, 1, 2, 2, 2, 2, 3, 3, 3, 3, 4, 4, 4, 4, 5, 5, 5, 5, 0, 0, 0]
  const DIST_BASE: seq<nat> :=
    [1, 2, 3, 4, 5, 7, 9, 13, 17, 25, 33, 49, 65, 97, 129, 193, 257, 385, 513, 769, 1025, 1537, 2049, 3073,
     4097, 6145, 8193, 12289, 16385, 24577, 0, 0]
  const DIST_EXTRA: seq<nat> :=
    [0, 0, 0, 0, 1, 1, 2, 2, 3, 3, 4, 4, 5, 5, 6, 6, 7, 7, 8, 8, 9, 9, 10, 10, 11, 11, 12, 12, 13, 13, 0, 0]

  lemma SmallPowers()
    ensures Pow2(0) == 1 && Pow2(1) == 2 && Pow2(2) == 4 && Pow2(3) == 8
    ensures Pow2(4) == 16 && Pow2(5) == 32 && Pow2(6) == 64 && Pow2(7) == 128
    ensures Pow2(8) == 256 && Pow2(9) == 512 && Pow2(10) == 1024 && Pow2(11) == 2048
    ensures Pow2(12) == 4096 && Pow2(13) == 8192 && Pow2(14) == 16384 && Pow2(15) == 32768
  {
    assert Pow2(4) == 16;
    assert Pow2(8) == 256;
    assert Pow2(12) == 4096;
  }

  lemma ShortLengthRoundTrip(l: byte)
    requires l < 32
    ensures LENGTH_EXTRA[LenSym(l) - 257] == LenExtra(l)
    ensures LENGTH_BASE[LenSym(l) - 257] + l % Pow2(LenExtra(l)) == l + MIN_MATCH_LEN
  {
    assert Pow2(0) == 1 && Pow2(1) == 2 && Pow2(2) == 4 && Pow2(3) == 8;
  }

  /** The decoder's tables undo the encoder's length code. */
  lemma LengthCodeRoundTrip(l: byte)
    ensures LENGTH_EXTRA[LenSym(l) - 257] == LenExtra(l)
    ensures LENGTH_BASE[LenSym(l) - 257] + l % Pow2(LenExtra(l)) == l + MIN_MATCH_LEN
  {
    if l < 32 {
      ShortLengthRoundTrip(l);
    } else {
      SmallPowers();
    }
  }

  lemma TinyDistRoundTrip(d: nat)
    requires d < 32
    ensures DIST_EXTRA[DistSym(d)] == DistExtra(d)
    ensures DIST_BASE[DistSym(d)] + d % Pow2(DistExtra(d)) == d + 1
  {
    assert Pow2(0) == 1 && Pow2(1) == 2 && Pow2(2) == 4 && Pow2(3) == 8;
  }

  lemma SmallDistRoundTrip(d: nat)
    requires 32 <= d < 512
    ensures DIST_EXTRA[DistSym(d)] == DistExtra(d)
    ensures DIST_BASE[DistSym(d)] + d % Pow2(DistExtra(d)) == d + 1
  {
    SmallPowers();
    if d < 64 {
    } else if d < 128 {
    } else if d < 256 {
    }
  }

  lemma LargeDistRoundTrip(d: nat)
    requires 512 <= d < 4096
    ensures DIST_EXTRA[DistSym(d)] == DistExtra(d)
    ensures DIST_BASE[DistSym(d)] + d % Pow2(DistExtra(d)) == d + 1
  {
    SmallPowers();
    if d < 1024 {
    } else if d < 2048 {
    }
  }

  lemma HugeDistRoundTrip(d: nat)
    requires 4096 <= d < DICT_SIZE
    ensures DIST_EXTRA[DistSym(d)] == DistExtra(d)
    ensures DIST_BASE[DistSym(d)] + d % Pow2(DistExtra(d)) == d + 1
  {
    SmallPowers();
    if d < 8192 {
    } else if d < 16384 {
    }
  }

  /** The decoder's tables undo the encoder's distance code. */
  lemma DistCodeRoundTrip(d: nat)
    requires d < DICT_SIZE
    ensures DIST_EXTRA[DistSym(d)] == DistExtra(d)
    ensures DIST_BASE[DistSym(d)] + d % Pow2(DistExtra(d)) == d + 1
  {
    if d < 32 {
      TinyDistRoundTrip(d);
    } else if d < 512 {
      SmallDistRoundTrip(d);
    } else if d < 4096 {
      LargeDistRoundTrip(d);
    } else {
      HugeDistRoundTrip(d);
    }
  }
}
