/**
 * A growing byte buffer with a read offset: fixed-width integers in both byte
 * orders, and seven-bit groups for variable-length ones.
 */
module BinaryStreams {
  import opened Bits

  function Pow256(n: nat): (p: nat)
    ensures p > 0
  {
    if n == 0 then 1 else 256 * Pow256(n - 1)
  }

  /** The n low bytes of v, low byte first. */
  function Le(v: nat, n: nat): (s: seq<byte>)
    ensures |s| == n
  {
    if n == 0 then [] else [v % 256] + Le(v / 256, n - 1)
  }

  function FromLe(s: seq<byte>): (v: nat)
    ensures v < Pow256(|s|)
  {
    if s == [] then 0
    else
      var low: nat := s[0];
      low + 256 * FromLe(s[1..])
  }

  lemma {:induction false} LeRoundTrip(v: nat, n: nat)
    requires v < Pow256(n)
    ensures FromLe(Le(v, n)) == v
  {
    if n > 0 {
      LeRoundTrip(v / 256, n - 1);
      assert Le(v, n)[1..] == Le(v / 256, n - 1);
    }
  }

  /** The same, high byte first. */
  function Be(v: nat, n: nat): (s: seq<byte>)
    ensures |s| == n
  {
    if n == 0 then [] else Be(v / 256, n - 1) + [v % 256]
  }

  function FromBe(s: seq<byte>): (v: nat)
    ensures v < Pow256(|s|)
  {
    if s == [] then 0
    else
      var low: nat := s[|s| - 1];
      256 * FromBe(s[..|s| - 1]) + low
  }

  lemma {:induction false} BeRoundTrip(v: nat, n: nat)
    requires v < Pow256(n)
    ensures FromBe(Be(v, n)) == v
  {
    if n > 0 {
      BeRoundTrip(v / 256, n - 1);
      assert Be(v, n)[..n - 1] == Be(v / 256, n - 1);
    }
  }

  lemma {:induction false} FromLeSnoc(s: seq<byte>, b: byte)
    ensures FromLe(s + [b]) == FromLe(s) + Pow256(|s|) * b
  {
    if s == [] {
      assert [b][1..] == [];
    } else {
      FromLeSnoc(s[1..], b);
      assert (s + [b])[1..] == s[1..] + [b];
      assert 256 * (Pow256(|s| - 1) * b) == Pow256(|s|) * b;
    }
  }

  lemma FromBeSnoc(s: seq<byte>, b: byte)
    ensures FromBe(s + [b]) == 256 * FromBe(s) + b
  {
    assert (s + [b])[..|s|] == s;
  }

  lemma ByteSizes()
    ensures Pow256(0) == 1 && Pow256(1) == 0x100 && Pow256(2) == 0x1_0000 && Pow256(3) == 0x100_0000
    ensures Pow256(4) == 0x1_0000_0000 && Pow256(5) == 0x100_0000_0000 && Pow256(6) == 0x1_0000_0000_0000
    ensures Pow256(7) == 0x100_0000_0000_0000 && Pow256(8) == 0x1_0000_0000_0000_0000
  {
    assert Pow256(2) == 0x1_0000;
    assert Pow256(4) == 0x1_0000_0000;
    assert Pow256(6) == 0x1_0000_0000_0000;
  }

  lemma EmptyLe(s: seq<byte>)
    ensures s == [] ==> FromLe(s) == 0
  {
  }

  lemma EmptyBe(s: seq<byte>)
    ensures s == [] ==> FromBe(s) == 0
  {
  }

  lemma LeBytes2(v: nat)
    ensures Le(v, 2) == [v % 256, v / 0x100 % 256]
  {
  }

  lemma LeBytes3(v: nat)
    ensures Le(v, 3) == [v % 256, v / 0x100 % 256, v / 0x1_0000 % 256]
  {
    LeBytes2(v / 256);
    Quotients(v, 2);
    hide Pow256;
  }

  lemma LeBytes4(v: nat)
    ensures Le(v, 4) == [v % 256, v / 0x100 % 256, v / 0x1_0000 % 256, v / 0x100_0000 % 256]
  {
    LeBytes3(v / 256);
    Quotients(v, 3);
    hide Pow256;
  }

  lemma LeBytes5(v: nat)
    ensures Le(v, 5) == [v % 256, v / 0x100 % 256, v / 0x1_0000 % 256, v / 0x100_0000 % 256, v / 0x1_0000_0000 % 256]
  {
    LeBytes4(v / 256);
    Quotients(v, 4);
    hide Pow256;
  }

  lemma LeBytes6(v: nat)
    ensures Le(v, 6) == [v % 256, v / 0x100 % 256, v / 0x1_0000 % 256, v / 0x100_0000 % 256, v / 0x1_0000_0000 % 256, v / 0x100_0000_0000 % 256]
  {
    LeBytes5(v / 256);
    Quotients(v, 5);
    hide Pow256;
  }

  lemma LeBytes7(v: nat)
    ensures Le(v, 7) == [v % 256, v / 0x100 % 256, v / 0x1_0000 % 256, v / 0x100_0000 % 256, v / 0x1_0000_0000 % 256, v / 0x100_0000_0000 % 256, v / 0x1_0000_0000_0000 % 256]
  {
    LeBytes6(v / 256);
    Quotients(v, 6);
    hide Pow256;
  }

  lemma LeBytes8(v: nat)
    ensures Le(v, 8) == [v % 256, v / 0x100 % 256, v / 0x1_0000 % 256, v / 0x100_0000 % 256, v / 0x1_0000_0000 % 256, v / 0x100_0000_0000 % 256, v / 0x1_0000_0000_0000 % 256, v / 0x100_0000_0000_0000 % 256]
  {
    LeBytes7(v / 256);
    Quotients(v, 7);
    hide Pow256;
  }

  lemma BeBytes2(v: nat)
    ensures Be(v, 2) == [v / 0x100 % 256, v % 256]
  {
  }

  lemma BeBytes3(v: nat)
    ensures Be(v, 3) == [v / 0x1_0000 % 256, v / 0x100 % 256, v % 256]
  {
    BeBytes2(v / 256);
    Quotients(v, 2);
    hide Pow256;
  }

  lemma BeBytes4(v: nat)
    ensures Be(v, 4) == [v / 0x100_0000 % 256, v / 0x1_0000 % 256, v / 0x100 % 256, v % 256]
  {
    BeBytes3(v / 256);
    Quotients(v, 3);
    hide Pow256;
  }

  lemma BeBytes5(v: nat)
    ensures Be(v, 5) == [v / 0x1_0000_0000 % 256, v / 0x100_0000 % 256, v / 0x1_0000 % 256, v / 0x100 % 256, v % 256]
  {
    BeBytes4(v / 256);
    Quotients(v, 4);
    hide Pow256;
  }

  lemma BeBytes6(v: nat)
    ensures Be(v, 6) == [v / 0x100_0000_0000 % 256, v / 0x1_0000_0000 % 256, v / 0x100_0000 % 256, v / 0x1_0000 % 256, v / 0x100 % 256, v % 256]
  {
    BeBytes5(v / 256);
    Quotients(v, 5);
    hide Pow256;
  }

  lemma BeBytes7(v: nat)
    ensures Be(v, 7) == [v / 0x1_0000_0000_0000 % 256, v / 0x100_0000_0000 % 256, v / 0x1_0000_0000 % 256, v / 0x100_0000 % 256, v / 0x1_0000 % 256, v / 0x100 % 256, v % 256]
  {
    BeBytes6(v / 256);
    Quotients(v, 6);
    hide Pow256;
  }

  lemma BeBytes8(v: nat)
    ensures Be(v, 8) == [v / 0x100_0000_0000_0000 % 256, v / 0x1_0000_0000_0000 % 256, v / 0x100_0000_0000 % 256, v / 0x1_0000_0000 % 256, v / 0x100_0000 % 256, v / 0x1_0000 % 256, v / 0x100 % 256, v % 256]
  {
    BeBytes7(v / 256);
    Quotients(v, 7);
    hide Pow256;
  }

  /** Dividing by 256 first, in constants. */
  lemma Quotients(v: nat, n: nat)
    requires n <= 7
    ensures v / 256 / 0x100 == v / 0x1_0000
    ensures n > 2 ==> v / 256 / 0x1_0000 == v / 0x100_0000
    ensures n > 3 ==> v / 256 / 0x100_0000 == v / 0x1_0000_0000
    ensures n > 4 ==> v / 256 / 0x1_0000_0000 == v / 0x100_0000_0000
    ensures n > 5 ==> v / 256 / 0x100_0000_0000 == v / 0x1_0000_0000_0000
    ensures n > 6 ==> v / 256 / 0x1_0000_0000_0000 == v / 0x100_0000_0000_0000
  {
    ByteSizes();
    NextPower(v, 1);
    NextPower(v, 2);
    NextPower(v, 3);
    NextPower(v, 4);
    NextPower(v, 5);
    NextPower(v, 6);
  }

  lemma NextPower(v: nat, k: nat)
    ensures v / 256 / Pow256(k) == v / Pow256(k + 1)
  {
    var p := Pow256(k);
    assert Pow256(k + 1) == 256 * p;
    hide Pow256;
    var h := v / 256;
    QuotientUnique(v, 256 * p, h / p, 256 * (h % p) + v % 256);
  }

  lemma BeStep(s: seq<byte>, b: byte, left: nat)
    ensures FromBe(s) * Pow256(left + 1) + Pow256(left) * (b as nat) == FromBe(s + [b]) * Pow256(left)
  {
    FromBeSnoc(s, b);
    var p := Pow256(left);
    assert Pow256(left + 1) == 256 * p;
    hide FromBe, Pow256;
    var f, v := FromBe(s), b as nat;
    Spread(f, v, p);
  }

  lemma Spread(f: nat, v: nat, p: nat)
    ensures f * (256 * p) + p * v == (256 * f + v) * p
  {
    assert f * (256 * p) == (256 * f) * p;
  }

  class BinaryStream {
    var buffer: seq<byte>
    var offset: nat

    ghost predicate Valid()
      reads this
    {
      offset <= |buffer|
    }

    /** What has not been read yet. */
    ghost function Ahead(): seq<byte>
      reads this
      requires Valid()
    {
      buffer[offset..]
    }

    constructor ()
      ensures Valid() && buffer == [] && offset == 0
    {
      buffer, offset := [], 0;
    }

    method PutByte(v: nat)
      modifies this`buffer
      ensures buffer == old(buffer) + [v % 256]
    {
      buffer := buffer + [v % 256];
    }

    method PutBytes(data: seq<byte>)
      modifies this`buffer
      ensures buffer == old(buffer) + data
    {
      var i := 0;
      while i < |data|
        invariant i <= |data| && buffer == old(buffer) + data[..i]
      {
        buffer := buffer + [data[i]];
        i := i + 1;
      }
      assert data[..|data|] == data;
    }

    method GetByte() returns (v: byte)
      requires Valid() && offset < |buffer|
      modifies this`offset
      ensures Valid() && offset == old(offset) + 1 && v == old(Ahead())[0] && Ahead() == old(Ahead())[1..]
    {
      v := buffer[offset];
      offset := offset + 1;
    }

    method GetBytes(count: nat) returns (data: seq<byte>)
      requires Valid() && offset + count <= |buffer|
      modifies this`offset
      ensures Valid() && offset == old(offset) + count && data == old(Ahead())[..count] && Ahead() == old(Ahead())[count..]
    {
      data := [];
      var i := 0;
      while i < count
        invariant i <= count && offset == old(offset) + i && data == buffer[old(offset)..offset]
      {
        data := data + [buffer[offset]];
        offset := offset + 1;
        i := i + 1;
      }
    }

    /** One more byte of a little-endian number: it goes above the bytes read since from. */
    method NextLe(value: nat, scale: nat, ghost from: nat) returns (v: nat)
      requires Valid() && from <= offset < |buffer|
      requires value == FromLe(buffer[from..offset]) && scale == Pow256(offset - from)
      modifies this`offset
      ensures Valid() && offset == old(offset) + 1 && v == FromLe(buffer[from..offset])
    {
      FromLeSnoc(buffer[from..offset], buffer[offset]);
      assert buffer[from..offset] + [buffer[offset]] == buffer[from..offset + 1];
      v := value + scale * buffer[offset];
      offset := offset + 1;
    }

    /** One more byte of a big-endian number: it goes below the bytes read since from. */
    method NextBe(value: nat, scale: nat, ghost from: nat, ghost left: nat) returns (v: nat)
      requires Valid() && from <= offset < |buffer|
      requires value == FromBe(buffer[from..offset]) * Pow256(left + 1) && scale == Pow256(left)
      modifies this`offset
      ensures Valid() && offset == old(offset) + 1 && v == FromBe(buffer[from..offset]) * Pow256(left)
    {
      hide FromBe, Pow256;
      var b: nat := buffer[offset];
      BeStep(buffer[from..offset], buffer[offset], left);
      assert buffer[from..offset] + [buffer[offset]] == buffer[from..offset + 1];
      v := value + scale * b;
      offset := offset + 1;
    }

    method PutShortLe(v: nat)
      modifies this`buffer
      ensures buffer == old(buffer) + Le(v, 2)
    {
      LeBytes2(v);
      buffer := buffer + [v % 256, v / 0x100 % 256];
    }

    method GetShortLe() returns (v: nat)
      requires Valid() && offset + 2 <= |buffer|
      modifies this`offset
      ensures Valid() && v == FromLe(old(Ahead())[..2]) && Ahead() == old(Ahead())[2..]
    {
      hide FromLe, Pow256;
      ByteSizes();
      ghost var from := offset;
      EmptyLe(buffer[from..offset]);
      v := NextLe(0, 1, from);
      v := NextLe(v, 0x100, from);
      assert old(Ahead())[..2] == buffer[from..offset];
    }

    method PutShortBe(v: nat)
      modifies this`buffer
      ensures buffer == old(buffer) + Be(v, 2)
    {
      BeBytes2(v);
      buffer := buffer + [v / 0x100 % 256, v % 256];
    }

    method GetShortBe() returns (v: nat)
      requires Valid() && offset + 2 <= |buffer|
      modifies this`offset
      ensures Valid() && v == FromBe(old(Ahead())[..2]) && Ahead() == old(Ahead())[2..]
    {
      hide FromBe, Pow256;
      ByteSizes();
      ghost var from := offset;
      EmptyBe(buffer[from..offset]);
      v := NextBe(0, 0x100, from, 1);
      v := NextBe(v, 1, from, 0);
      assert old(Ahead())[..2] == buffer[from..offset];
    }

    method PutTriadLe(v: nat)
      modifies this`buffer
      ensures buffer == old(buffer) + Le(v, 3)
    {
      LeBytes3(v);
      buffer := buffer + [v % 256, v / 0x100 % 256, v / 0x1_0000 % 256];
    }

    method GetTriadLe() returns (v: nat)
      requires Valid() && offset + 3 <= |buffer|
      modifies this`offset
      ensures Valid() && v == FromLe(old(Ahead())[..3]) && Ahead() == old(Ahead())[3..]
    {
      hide FromLe, Pow256;
      ByteSizes();
      ghost var from := offset;
      EmptyLe(buffer[from..offset]);
      v := NextLe(0, 1, from);
      v := NextLe(v, 0x100, from);
      v := NextLe(v, 0x1_0000, from);
      assert old(Ahead())[..3] == buffer[from..offset];
    }

    method PutIntLe(v: nat)
      modifies this`buffer
      ensures buffer == old(buffer) + Le(v, 4)
    {
      LeBytes4(v);
      buffer := buffer + [v % 256, v / 0x100 % 256, v / 0x1_0000 % 256, v / 0x100_0000 % 256];
    }

    method GetIntLe() returns (v: nat)
      requires Valid() && offset + 4 <= |buffer|
      modifies this`offset
      ensures Valid() && v == FromLe(old(Ahead())[..4]) && Ahead() == old(Ahead())[4..]
    {
      hide FromLe, Pow256;
      ByteSizes();
      ghost var from := offset;
      EmptyLe(buffer[from..offset]);
      v := NextLe(0, 1, from);
      v := NextLe(v, 0x100, from);
      v := NextLe(v, 0x1_0000, from);
      v := NextLe(v, 0x100_0000, from);
      assert old(Ahead())[..4] == buffer[from..offset];
    }

    method PutIntBe(v: nat)
      modifies this`buffer
      ensures buffer == old(buffer) + Be(v, 4)
    {
      BeBytes4(v);
      buffer := buffer + [v / 0x100_0000 % 256, v / 0x1_0000 % 256, v / 0x100 % 256, v % 256];
    }

    method GetIntBe() returns (v: nat)
      requires Valid() && offset + 4 <= |buffer|
      modifies this`offset
      ensures Valid() && v == FromBe(old(Ahead())[..4]) && Ahead() == old(Ahead())[4..]
    {
      hide FromBe, Pow256;
      ByteSizes();
      ghost var from := offset;
      EmptyBe(buffer[from..offset]);
      v := NextBe(0, 0x100_0000, from, 3);
      v := NextBe(v, 0x1_0000, from, 2);
      v := NextBe(v, 0x100, from, 1);
      v := NextBe(v, 1, from, 0);
      assert old(Ahead())[..4] == buffer[from..offset];
    }

    method PutLongLe(v: nat)
      modifies this`buffer
      ensures buffer == old(buffer) + Le(v, 8)
    {
      LeBytes8(v);
      buffer := buffer + [v % 256, v / 0x100 % 256, v / 0x1_0000 % 256, v / 0x100_0000 % 256, v / 0x1_0000_0000 % 256, v / 0x100_0000_0000 % 256, v / 0x1_0000_0000_0000 % 256, v / 0x100_0000_0000_0000 % 256];
    }

    method GetLongLe() returns (v: nat)
      requires Valid() && offset + 8 <= |buffer|
      modifies this`offset
      ensures Valid() && v == FromLe(old(Ahead())[..8]) && Ahead() == old(Ahead())[8..]
    {
      hide FromLe, Pow256;
      ByteSizes();
      ghost var from := offset;
      EmptyLe(buffer[from..offset]);
      v := NextLe(0, 1, from);
      v := NextLe(v, 0x100, from);
      v := NextLe(v, 0x1_0000, from);
      v := NextLe(v, 0x100_0000, from);
      v := NextLe(v, 0x1_0000_0000, from);
      v := NextLe(v, 0x100_0000_0000, from);
      v := NextLe(v, 0x1_0000_0000_0000, from);
      v := NextLe(v, 0x100_0000_0000_0000, from);
      assert old(Ahead())[..8] == buffer[from..offset];
    }

    method PutLongBe(v: nat)
      modifies this`buffer
      ensures buffer == old(buffer) + Be(v, 8)
    {
      BeBytes8(v);
      buffer := buffer + [v / 0x100_0000_0000_0000 % 256, v / 0x1_0000_0000_0000 % 256, v / 0x100_0000_0000 % 256, v / 0x1_0000_0000 % 256, v / 0x100_0000 % 256, v / 0x1_0000 % 256, v / 0x100 % 256, v % 256];
    }

    method GetLongBe() returns (v: nat)
      requires Valid() && offset + 8 <= |buffer|
      modifies this`offset
      ensures Valid() && v == FromBe(old(Ahead())[..8]) && Ahead() == old(Ahead())[8..]
    {
      hide FromBe, Pow256;
      ByteSizes();
      ghost var from := offset;
      EmptyBe(buffer[from..offset]);
      v := NextBe(0, 0x100_0000_0000_0000, from, 7);
      v := NextBe(v, 0x1_0000_0000_0000, from, 6);
      v := NextBe(v, 0x100_0000_0000, from, 5);
      v := NextBe(v, 0x1_0000_0000, from, 4);
      v := NextBe(v, 0x100_0000, from, 3);
      v := NextBe(v, 0x1_0000, from, 2);
      v := NextBe(v, 0x100, from, 1);
      v := NextBe(v, 1, from, 0);
      assert old(Ahead())[..8] == buffer[from..offset];
    }

    /** Seven bits at a time, the top bit of each byte saying that more follow; at most n bytes. */
    method PutVar(value: nat, n: nat)
      requires n > 0 && value < Pow128(n)
      modifies this`buffer
      ensures buffer == old(buffer) + VarBytes(value)
    {
      var v: nat := value;
      ghost var done := [];
      assert buffer + done == buffer;
      assert done + VarBytes(v) == VarBytes(value);
      for i := 0 to n
        invariant v < Pow128(n - i) && (i == 0 || v != 0)
        invariant buffer == old(buffer) + done && done + VarBytes(v) == VarBytes(value)
      {
        var toWrite := v % 128;
        v := v / 128;
        if v != 0 {
          buffer := buffer + [toWrite + 128];
          assert (done + [toWrite + 128]) + VarBytes(v) == done + ([toWrite + 128] + VarBytes(v));
          done := done + [toWrite + 128];
        } else {
          buffer := buffer + [toWrite];
          return;
        }
      }
    }

    /** A number written in at most n groups is ahead. */
    ghost predicate VarAhead(value: nat, n: nat, rest: seq<byte>)
      reads this
      requires Valid()
    {
      value < Pow128(n) && Ahead() == VarBytes(value) + rest
    }

    /** Reads what PutVar wrote: groups are put above the ones read before; n groups that all ask for more give 0. */
    method GetVar(n: nat, ghost value: nat, ghost rest: seq<byte>) returns (v: nat)
      requires Valid() && n > 0 && (VarAhead(value, n, rest) || offset + n <= |buffer|)
      modifies this`offset
      ensures Valid()
      ensures old(VarAhead(value, n, rest)) ==> v == value && Ahead() == rest
    {
      hide VarBytes, Pow128;
      v := 0;
      ghost var good := VarAhead(value, n, rest);
      ghost var left: nat := value;
      var scale := 1;
      GroupCount(left, 0, n);
      for i := 0 to n
        invariant Valid() && scale >= 0 && (good || offset + (n - i) <= |buffer|)
        invariant good ==> i < n && left < Pow128(n - i) && Ahead() == VarBytes(left) + rest && v + scale * left == value
      {
        if good {
          GroupAhead(left, rest, Ahead());
          assert Ahead()[0] == buffer[offset] && Ahead()[1..] == buffer[offset + 1..];
        }
        ScaleStep(scale, left);
        GroupCount(left, i, n);
        var toRead: nat := buffer[offset];
        offset := offset + 1;
        v := v + scale * (toRead % 128);
        if toRead < 128 {
          return;
        }
        scale := scale * 128;
        left := left / 128;
      }
      v := 0;
    }
  }

  /** The next group of a number, and what follows it. */
  lemma GroupAhead(v: nat, rest: seq<byte>, ahead: seq<byte>)
    requires ahead == VarBytes(v) + rest
    ensures |ahead| > 0 && ahead[0] % 128 == v % 128 && (ahead[0] < 128 <==> v < 128)
    ensures ahead[1..] == if v < 128 then rest else VarBytes(v / 128) + rest
  {
  }

  lemma ScaleStep(scale: nat, left: nat)
    ensures scale * left == scale * (left % 128) + (scale * 128) * (left / 128)
    ensures left < 128 ==> scale * left == scale * (left % 128)
  {
    assert left == left % 128 + 128 * (left / 128);
    assert scale * (left % 128 + 128 * (left / 128)) == scale * (left % 128) + scale * (128 * (left / 128));
  }

  lemma GroupCount(v: nat, i: nat, n: nat)
    requires i < n
    ensures v < Pow128(n - i) && v >= 128 ==> i + 1 < n && v / 128 < Pow128(n - (i + 1))
  {
  }

  function Pow128(n: nat): (p: nat)
    ensures p > 0
  {
    if n == 0 then 1 else 128 * Pow128(n - 1)
  }

  /** A number in groups of seven bits, low group first. */
  function VarBytes(v: nat): (s: seq<byte>)
    ensures s != []
  {
    if v < 128 then [v] else [v % 128 + 128] + VarBytes(v / 128)
  }
}
