/**
 * The numbers in a named binary tag: both byte orders, and the network form, in
 * which 32-bit and 64-bit numbers are zigzag and seven bits at a time.
 */
module NbtNumbers {
  import opened Bits
  import opened BinaryStreams

  datatype Order = BigEndian | LittleEndian | NetworkEndian

  const TWO_16 := 0x1_0000
  const TWO_32 := 0x1_0000_0000
  const TWO_64 := 0x1_0000_0000_0000_0000

  /** A signed number of size values, as the unsigned one with the same bits. */
  function Unsigned(v: int, size: nat): (u: nat)
    requires InRange(v, size)
    ensures u < size
  {
    if v < 0 then v + size else v
  }

  function Signed(u: nat, size: nat): int {
    if u >= size / 2 then u - size else u
  }

  predicate InRange(v: int, size: nat) {
    size % 2 == 0 && -(size / 2) <= v < size / 2
  }

  lemma SignedUnsigned(v: int, size: nat)
    requires InRange(v, size)
    ensures Signed(Unsigned(v, size), size) == v
  {
  }

  /** Small numbers of either sign become small unsigned ones. */
  function ZigZag(v: int): nat {
    if v >= 0 then 2 * v else 2 * (-1 - v) + 1
  }

  function UnZigZag(u: nat): int {
    if u % 2 == 1 then -1 - u / 2 else u / 2
  }

  /** Zigzag is a bijection from the signed numbers onto the unsigned ones of the same width. */
  lemma ZigZagBijection(v: int, u: nat, size: nat)
    requires size > 0 && size % 2 == 0
    ensures UnZigZag(ZigZag(v)) == v && ZigZag(UnZigZag(u)) == u
    ensures InRange(v, size) <==> ZigZag(v) < size
  {
  }

  function Fixed(v: nat, n: nat, order: Order): seq<byte> {
    if order.BigEndian? then Be(v, n) else Le(v, n)
  }

  function ShortBytes(v: int, order: Order): seq<byte>
    requires InRange(v, TWO_16)
  {
    Fixed(Unsigned(v, TWO_16), 2, order)
  }

  function IntBytes(v: int, order: Order): seq<byte>
    requires InRange(v, TWO_32)
  {
    if order.NetworkEndian? then VarBytes(ZigZag(v)) else Fixed(Unsigned(v, TWO_32), 4, order)
  }

  function LongBytes(v: int, order: Order): seq<byte>
    requires InRange(v, TWO_64)
  {
    if order.NetworkEndian? then VarBytes(ZigZag(v)) else Fixed(Unsigned(v, TWO_64), 8, order)
  }

  /** What groups of seven bits spell, low group first. */
  function Spelled(s: seq<byte>): nat {
    if s == [] then 0
    else
      var b: nat := s[0];
      b % 128 + 128 * Spelled(s[1..])
  }

  /** All bytes but the last one announce another. */
  predicate Grouped(s: seq<byte>) {
    s != [] && forall i :: 0 <= i < |s| ==> (s[i] >= 128 <==> i < |s| - 1)
  }

  lemma {:induction false} GroupsSpell(v: nat)
    ensures Grouped(VarBytes(v)) && Spelled(VarBytes(v)) == v
  {
    if v >= 128 {
      GroupsSpell(v / 128);
      var s := VarBytes(v);
      assert s[1..] == VarBytes(v / 128);
      forall i | 0 <= i < |s| ensures s[i] >= 128 <==> i < |s| - 1 {
        if i > 0 {
          assert s[i] == s[1..][i - 1];
        }
      }
    } else {
      assert [v as byte][1..] == [];
    }
  }

  lemma {:induction false} GroupsFew(v: nat, n: nat)
    requires v < Pow128(n) && n > 0
    ensures |VarBytes(v)| <= n
  {
    if v >= 128 {
      GroupsFew(v / 128, n - 1);
    }
  }

  /** The network form of a signed number spells twice the number, or one less than twice its absolute value. */
  lemma NetworkForm(v: int)
    requires InRange(v, TWO_64)
    ensures var s := LongBytes(v, NetworkEndian);
      Grouped(s) && |s| <= 10 && Spelled(s) == if v >= 0 then 2 * v else -2 * v - 1
    ensures InRange(v, TWO_32) ==>
      IntBytes(v, NetworkEndian) == LongBytes(v, NetworkEndian) && |IntBytes(v, NetworkEndian)| <= 5
  {
    hide VarBytes, Spelled, Pow128;
    GroupSizes();
    GroupsSpell(ZigZag(v));
    GroupsFew(ZigZag(v), 10);
    if InRange(v, TWO_32) {
      GroupsFew(ZigZag(v), 5);
    }
  }

  /** The other two forms are two's complement, byte by byte in one order or the other. */
  lemma ShortForm(v: int)
    requires InRange(v, TWO_16)
    ensures ShortBytes(v, BigEndian) == [v / 0x100 % 256, v % 256]
    ensures ShortBytes(v, LittleEndian) == ShortBytes(v, NetworkEndian) == [v % 256, v / 0x100 % 256]
  {
    hide Le, Be;
    var u := Unsigned(v, TWO_16);
    BeBytes2(u);
    LeBytes2(u);
    assert v < 0 ==> u / 0x100 == v / 0x100 + 0x100;
  }

  lemma IntForm(v: int)
    requires InRange(v, TWO_32)
    ensures IntBytes(v, BigEndian) == [v / 0x100_0000 % 256, v / 0x1_0000 % 256, v / 0x100 % 256, v % 256]
    ensures IntBytes(v, LittleEndian) == [v % 256, v / 0x100 % 256, v / 0x1_0000 % 256, v / 0x100_0000 % 256]
  {
    hide Le, Be;
    var u := Unsigned(v, TWO_32);
    BeBytes4(u);
    LeBytes4(u);
    if v < 0 {
      WholeWord(v);
    }
  }

  /** Adding 2^32 changes none of the four low bytes. */
  lemma WholeWord(v: int)
    ensures var u := v + 0x1_0000_0000;
      u % 256 == v % 256 && u / 0x100 % 256 == v / 0x100 % 256
      && u / 0x1_0000 % 256 == v / 0x1_0000 % 256 && u / 0x100_0000 % 256 == v / 0x100_0000 % 256
  {
    var u := v + 0x1_0000_0000;
    LowByte(v, 0x100_0000);
    LowByte(v / 0x100, 0x1_0000);
    LowByte(v / 0x1_0000, 0x100);
    LowByte(v / 0x100_0000, 1);
    assert u / 0x100 == v / 0x100 + 0x100_0000 by { hide *; }
    assert u / 0x1_0000 == v / 0x1_0000 + 0x1_0000 by { hide *; }
    assert u / 0x100_0000 == v / 0x100_0000 + 0x100 by { hide *; }
  }

  lemma LowByte(v: int, k: nat)
    ensures (v + 256 * k) % 256 == v % 256
  {
  }

  /** A string's length. */
  function LengthBytes(n: nat, order: Order): seq<byte> {
    if order.NetworkEndian? then VarBytes(n) else Fixed(n, 2, order)
  }

  predicate LengthOk(n: nat, order: Order) {
    n < if order.NetworkEndian? then TWO_32 else TWO_16
  }

  /** n bytes that hold v, and what follows them. */
  lemma LeAhead(ahead: seq<byte>, v: nat, n: nat, rest: seq<byte>)
    requires v < Pow256(n) && ahead == Le(v, n) + rest
    ensures |ahead| >= n && FromLe(ahead[..n]) == v && ahead[n..] == rest
  {
    hide Le, FromLe;
    LeRoundTrip(v, n);
    assert ahead[..n] == Le(v, n);
  }

  lemma BeAhead(ahead: seq<byte>, v: nat, n: nat, rest: seq<byte>)
    requires v < Pow256(n) && ahead == Be(v, n) + rest
    ensures |ahead| >= n && FromBe(ahead[..n]) == v && ahead[n..] == rest
  {
    hide Be, FromBe;
    BeRoundTrip(v, n);
    assert ahead[..n] == Be(v, n);
  }

  lemma GroupSizes()
    ensures Pow128(5) > TWO_32 && Pow128(10) > TWO_64
  {
    assert Pow128(3) == 0x20_0000;
    assert Pow128(6) == 0x20_0000 * 0x20_0000;
    assert Pow128(9) == 0x20_0000 * 0x20_0000 * 0x20_0000;
  }

  method PutShort(v: int, order: Order, stream: BinaryStream)
    requires InRange(v, TWO_16)
    modifies stream`buffer
    ensures stream.buffer == old(stream.buffer) + ShortBytes(v, order)
  {
    hide Le, Be;
    if order.BigEndian? {
      stream.PutShortBe(Unsigned(v, TWO_16));
    } else {
      stream.PutShortLe(Unsigned(v, TWO_16));
    }
  }

  method GetShort(order: Order, stream: BinaryStream, ghost v: int, ghost rest: seq<byte>) returns (r: int)
    requires InRange(v, TWO_16) && stream.Valid() && stream.Ahead() == ShortBytes(v, order) + rest
    modifies stream`offset
    ensures stream.Valid() && r == v && stream.Ahead() == rest
  {
    hide Le, Be, FromLe, FromBe, Pow256;
    ByteSizes();
    SignedUnsigned(v, TWO_16);
    var u: nat;
    if order.BigEndian? {
      BeAhead(stream.Ahead(), Unsigned(v, TWO_16), 2, rest);
      u := stream.GetShortBe();
    } else {
      LeAhead(stream.Ahead(), Unsigned(v, TWO_16), 2, rest);
      u := stream.GetShortLe();
    }
    r := Signed(u, TWO_16);
  }

  method PutInt(v: int, order: Order, stream: BinaryStream)
    requires InRange(v, TWO_32)
    modifies stream`buffer
    ensures stream.buffer == old(stream.buffer) + IntBytes(v, order)
  {
    hide Le, Be, VarBytes, Pow128;
    GroupSizes();
    match order
    case BigEndian => stream.PutIntBe(Unsigned(v, TWO_32));
    case LittleEndian => stream.PutIntLe(Unsigned(v, TWO_32));
    case NetworkEndian => stream.PutVar(ZigZag(v), 5);
  }

  method GetInt(order: Order, stream: BinaryStream, ghost v: int, ghost rest: seq<byte>) returns (r: int)
    requires InRange(v, TWO_32) && stream.Valid() && stream.Ahead() == IntBytes(v, order) + rest
    modifies stream`offset
    ensures stream.Valid() && r == v && stream.Ahead() == rest
  {
    hide Le, Be, FromLe, FromBe, Pow256, VarBytes, Pow128;
    ByteSizes();
    GroupSizes();
    SignedUnsigned(v, TWO_32);
    ZigZagBijection(v, 0, TWO_32);
    match order
    case BigEndian =>
      BeAhead(stream.Ahead(), Unsigned(v, TWO_32), 4, rest);
      var u := stream.GetIntBe();
      r := Signed(u, TWO_32);
    case LittleEndian =>
      LeAhead(stream.Ahead(), Unsigned(v, TWO_32), 4, rest);
      var u := stream.GetIntLe();
      r := Signed(u, TWO_32);
    case NetworkEndian =>
      var u := stream.GetVar(5, ZigZag(v), rest);
      r := UnZigZag(u);
  }

  method PutLong(v: int, order: Order, stream: BinaryStream)
    requires InRange(v, TWO_64)
    modifies stream`buffer
    ensures stream.buffer == old(stream.buffer) + LongBytes(v, order)
  {
    hide Le, Be, VarBytes, Pow128;
    GroupSizes();
    match order
    case BigEndian => stream.PutLongBe(Unsigned(v, TWO_64));
    case LittleEndian => stream.PutLongLe(Unsigned(v, TWO_64));
    case NetworkEndian => stream.PutVar(ZigZag(v), 10);
  }

  method GetLong(order: Order, stream: BinaryStream, ghost v: int, ghost rest: seq<byte>) returns (r: int)
    requires InRange(v, TWO_64) && stream.Valid() && stream.Ahead() == LongBytes(v, order) + rest
    modifies stream`offset
    ensures stream.Valid() && r == v && stream.Ahead() == rest
  {
    hide Le, Be, FromLe, FromBe, Pow256, VarBytes, Pow128;
    ByteSizes();
    GroupSizes();
    SignedUnsigned(v, TWO_64);
    ZigZagBijection(v, 0, TWO_64);
    match order
    case BigEndian =>
      BeAhead(stream.Ahead(), Unsigned(v, TWO_64), 8, rest);
      var u := stream.GetLongBe();
      r := Signed(u, TWO_64);
    case LittleEndian =>
      LeAhead(stream.Ahead(), Unsigned(v, TWO_64), 8, rest);
      var u := stream.GetLongLe();
      r := Signed(u, TWO_64);
    case NetworkEndian =>
      var u := stream.GetVar(10, ZigZag(v), rest);
      r := UnZigZag(u);
  }

  /** The bits of a float, in the order given; the network form is little endian. */
  method PutFloat(bits: nat, order: Order, stream: BinaryStream)
    requires bits < TWO_32
    modifies stream`buffer
    ensures stream.buffer == old(stream.buffer) + Fixed(bits, 4, order)
  {
    hide Le, Be;
    if order.BigEndian? {
      stream.PutIntBe(bits);
    } else {
      stream.PutIntLe(bits);
    }
  }

  method GetFloat(order: Order, stream: BinaryStream, ghost bits: nat, ghost rest: seq<byte>) returns (r: nat)
    requires bits < TWO_32 && stream.Valid() && stream.Ahead() == Fixed(bits, 4, order) + rest
    modifies stream`offset
    ensures stream.Valid() && r == bits && stream.Ahead() == rest
  {
    hide Le, Be, FromLe, FromBe, Pow256;
    ByteSizes();
    if order.BigEndian? {
      BeAhead(stream.Ahead(), bits, 4, rest);
      r := stream.GetIntBe();
    } else {
      LeAhead(stream.Ahead(), bits, 4, rest);
      r := stream.GetIntLe();
    }
  }

  method PutDouble(bits: nat, order: Order, stream: BinaryStream)
    requires bits < TWO_64
    modifies stream`buffer
    ensures stream.buffer == old(stream.buffer) + Fixed(bits, 8, order)
  {
    hide Le, Be;
    if order.BigEndian? {
      stream.PutLongBe(bits);
    } else {
      stream.PutLongLe(bits);
    }
  }

  method GetDouble(order: Order, stream: BinaryStream, ghost bits: nat, ghost rest: seq<byte>) returns (r: nat)
    requires bits < TWO_64 && stream.Valid() && stream.Ahead() == Fixed(bits, 8, order) + rest
    modifies stream`offset
    ensures stream.Valid() && r == bits && stream.Ahead() == rest
  {
    hide Le, Be, FromLe, FromBe, Pow256;
    ByteSizes();
    if order.BigEndian? {
      BeAhead(stream.Ahead(), bits, 8, rest);
      r := stream.GetLongBe();
    } else {
      LeAhead(stream.Ahead(), bits, 8, rest);
      r := stream.GetLongLe();
    }
  }

  method PutLength(n: nat, order: Order, stream: BinaryStream)
    requires LengthOk(n, order)
    modifies stream`buffer
    ensures stream.buffer == old(stream.buffer) + LengthBytes(n, order)
  {
    hide Le, Be, VarBytes, Pow128;
    GroupSizes();
    match order
    case BigEndian => stream.PutShortBe(n);
    case LittleEndian => stream.PutShortLe(n);
    case NetworkEndian => stream.PutVar(n, 5);
  }

  method GetLength(order: Order, stream: BinaryStream, ghost n: nat, ghost rest: seq<byte>) returns (r: nat)
    requires LengthOk(n, order) && stream.Valid() && stream.Ahead() == LengthBytes(n, order) + rest
    modifies stream`offset
    ensures stream.Valid() && r == n && stream.Ahead() == rest
  {
    hide Le, Be, FromLe, FromBe, Pow256, VarBytes, Pow128;
    ByteSizes();
    GroupSizes();
    match order
    case BigEndian =>
      BeAhead(stream.Ahead(), n, 2, rest);
      r := stream.GetShortBe();
    case LittleEndian =>
      LeAhead(stream.Ahead(), n, 2, rest);
      r := stream.GetShortLe();
    case NetworkEndian =>
      r := stream.GetVar(5, n, rest);
  }
}
