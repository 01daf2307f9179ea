/**
 * Named binary tags: trees of typed values, written and read back in three encodings.
 */
module Nbt {
  import opened Bits
  import opened BinaryStreams
  import opened NbtNumbers

  const END_TAG := 0
  const BYTE_TAG := 1
  const SHORT_TAG := 2
  const INT_TAG := 3
  const LONG_TAG := 4
  const FLOAT_TAG := 5
  const DOUBLE_TAG := 6
  const BYTE_ARRAY_TAG := 7
  const STRING_TAG := 8
  const LIST_TAG := 9
  const COMPOUND_TAG := 10
  const INT_ARRAY_TAG := 11
  const LONG_ARRAY_TAG := 12

  datatype Tag =
    | ByteTag(byteValue: byte)
    | ShortTag(shortValue: int)
    | IntTag(intValue: int)
    | LongTag(longValue: int)
    | FloatTag(floatBits: nat)
    | DoubleTag(doubleBits: nat)
    | ByteArrayTag(bytes: seq<byte>)
    | StringTag(text: seq<byte>)
    | ListTag(itemId: byte, items: seq<Tag>)
    | CompoundTag(entries: seq<Entry>)
    | IntArrayTag(ints: seq<int>)
    | LongArrayTag(longs: seq<int>)

  datatype Entry = Entry(name: seq<byte>, tag: Tag)

  /** A named tag, or the end marker, which has neither name nor value. */
  datatype Named = Named(entry: Entry) | End

  function Id(t: Tag): (id: byte)
    ensures id != END_TAG
  {
    match t
    case ByteTag(_) => BYTE_TAG
    case ShortTag(_) => SHORT_TAG
    case IntTag(_) => INT_TAG
    case LongTag(_) => LONG_TAG
    case FloatTag(_) => FLOAT_TAG
    case DoubleTag(_) => DOUBLE_TAG
    case ByteArrayTag(_) => BYTE_ARRAY_TAG
    case StringTag(_) => STRING_TAG
    case ListTag(_, _) => LIST_TAG
    case CompoundTag(_) => COMPOUND_TAG
    case IntArrayTag(_) => INT_ARRAY_TAG
    case LongArrayTag(_) => LONG_ARRAY_TAG
  }

  /** The numbers of the kinds. */
  lemma Kinds(t: Tag)
    ensures Id(t) == match t
      case ByteTag(_) => 1 case ShortTag(_) => 2 case IntTag(_) => 3 case LongTag(_) => 4 case FloatTag(_) => 5 case DoubleTag(_) => 6
      case ByteArrayTag(_) => 7 case StringTag(_) => 8 case ListTag(_, _) => 9 case CompoundTag(_) => 10
      case IntArrayTag(_) => 11 case LongArrayTag(_) => 12
  {
  }

  /** Array and list lengths are signed 32-bit numbers. */
  predicate SizeOk(n: nat) {
    n < TWO_32 / 2
  }

  /** A string ends at its first zero byte. */
  predicate TextOk(text: seq<byte>, order: Order) {
    LengthOk(|text|, order) && 0 !in text
  }

  /** A tree in which every number fits its width, every length its field, and every list has one kind of item. */
  predicate TagOk(t: Tag, order: Order)
    decreases t
  {
    match t
    case ByteTag(_) => true
    case ShortTag(v) => InRange(v, TWO_16)
    case IntTag(v) => InRange(v, TWO_32)
    case LongTag(v) => InRange(v, TWO_64)
    case FloatTag(bits) => bits < TWO_32
    case DoubleTag(bits) => bits < TWO_64
    case ByteArrayTag(bytes) => SizeOk(|bytes|)
    case StringTag(text) => TextOk(text, order)
    case ListTag(id, items) => SizeOk(|items|) && ItemsOk(items, id, order)
    case CompoundTag(entries) => EntriesOk(entries, order)
    case IntArrayTag(ints) => SizeOk(|ints|) && AllInRange(ints, TWO_32)
    case LongArrayTag(longs) => SizeOk(|longs|) && AllInRange(longs, TWO_64)
  }

  predicate AllInRange(s: seq<int>, size: nat) {
    forall v :: v in s ==> InRange(v, size)
  }

  predicate ItemsOk(items: seq<Tag>, id: byte, order: Order)
    decreases items
  {
    items != [] ==> Id(items[0]) == id && TagOk(items[0], order) && ItemsOk(items[1..], id, order)
  }

  predicate EntryOk(e: Entry, order: Order)
    decreases e
  {
    TextOk(e.name, order) && TagOk(e.tag, order)
  }

  predicate EntriesOk(entries: seq<Entry>, order: Order)
    decreases entries
  {
    entries != [] ==> EntryOk(entries[0], order) && EntriesOk(entries[1..], order)
  }

  function TextBytes(text: seq<byte>, order: Order): seq<byte> {
    LengthBytes(|text|, order) + text
  }

  function IntsBytes(s: seq<int>, order: Order): seq<byte>
    requires AllInRange(s, TWO_32)
  {
    if s == [] then [] else IntBytes(s[0], order) + IntsBytes(s[1..], order)
  }

  function LongsBytes(s: seq<int>, order: Order): seq<byte>
    requires AllInRange(s, TWO_64)
  {
    if s == [] then [] else LongBytes(s[0], order) + LongsBytes(s[1..], order)
  }

  /** A tag's value as bytes; its kind and name come before it. */
  function TagBytes(t: Tag, order: Order): seq<byte>
    requires TagOk(t, order)
    decreases t
  {
    match t
    case ByteTag(v) => [v]
    case ShortTag(v) => ShortBytes(v, order)
    case IntTag(v) => IntBytes(v, order)
    case LongTag(v) => LongBytes(v, order)
    case FloatTag(bits) => Fixed(bits, 4, order)
    case DoubleTag(bits) => Fixed(bits, 8, order)
    case ByteArrayTag(bytes) => IntBytes(|bytes|, order) + bytes
    case StringTag(text) => TextBytes(text, order)
    case ListTag(id, items) => [id] + (IntBytes(|items|, order) + ItemsBytes(items, id, order))
    case CompoundTag(entries) => EntriesBytes(entries, order)
    case IntArrayTag(ints) => IntBytes(|ints|, order) + IntsBytes(ints, order)
    case LongArrayTag(longs) => IntBytes(|longs|, order) + LongsBytes(longs, order)
  }

  function ItemsBytes(items: seq<Tag>, id: byte, order: Order): seq<byte>
    requires ItemsOk(items, id, order)
    decreases items
  {
    if items == [] then [] else TagBytes(items[0], order) + ItemsBytes(items[1..], id, order)
  }

  function EntryBytes(e: Entry, order: Order): seq<byte>
    requires EntryOk(e, order)
    decreases e
  {
    [Id(e.tag)] + (TextBytes(e.name, order) + TagBytes(e.tag, order))
  }

  /** A compound's entries and its end marker. */
  function EntriesBytes(entries: seq<Entry>, order: Order): seq<byte>
    requires EntriesOk(entries, order)
    decreases entries
  {
    if entries == [] then [END_TAG as byte] else EntryBytes(entries[0], order) + EntriesBytes(entries[1..], order)
  }

  function NamedBytes(n: Named, order: Order): seq<byte>
    requires n.Named? ==> EntryOk(n.entry, order)
  {
    if n.End? then [END_TAG as byte] else EntryBytes(n.entry, order)
  }

  /** A list of two shorts byte by byte, big endian: the kind of its items, how many, and the items. */
  lemma SampleList()
    ensures var items := [ShortTag(-1), ShortTag(5)];
      TagOk(ListTag(2, items), BigEndian) && TagBytes(ListTag(2, items), BigEndian) == [2, 0, 0, 0, 2, 255, 255, 0, 5]
  {
    hide Le, Be;
    IntForm(2);
    ShortForm(-1);
    ShortForm(5);
    var items := [ShortTag(-1), ShortTag(5)];
    assert items[1..] == [ShortTag(5)] && items[1..][1..] == [];
    hide ShortBytes, IntBytes;
    assert ItemsBytes(items[1..], 2, BigEndian) == [0, 5];
    assert ItemsBytes(items, 2, BigEndian) == [255, 255] + [0, 5];
  }

  /** A compound called a with a number called i: kind, name and value, entry by entry, and the end marker. */
  lemma SampleCompound()
    ensures var e := Entry([97], CompoundTag([Entry([105], IntTag(1))]));
      EntryOk(e, BigEndian) && EntryBytes(e, BigEndian) == [10, 0, 1, 97, 3, 0, 1, 105, 0, 0, 0, 1, 0]
  {
    hide Le, Be;
    BeBytes2(1);
    IntForm(1);
    var i := Entry([105], IntTag(1));
    assert [i][1..] == [];
    hide IntBytes;
    assert EntryBytes(i, BigEndian) == [3, 0, 1, 105, 0, 0, 0, 1];
    assert EntriesBytes([i], BigEndian) == EntryBytes(i, BigEndian) + [0];
  }

  /** Arrays and strings: how many, and the values one after the other. */
  lemma ArrayLayout(bytes: seq<byte>, ints: seq<int>, n: int, text: seq<byte>)
    requires SizeOk(|bytes|) && SizeOk(|ints| + 1) && AllInRange(ints, TWO_32) && InRange(n, TWO_32) && |text| < TWO_16 && 0 !in text
    ensures TagBytes(ByteArrayTag(bytes), BigEndian) == IntBytes(|bytes|, BigEndian) + bytes
    ensures TagOk(IntArrayTag(ints), BigEndian) && AllInRange([n] + ints, TWO_32)
    ensures TagBytes(IntArrayTag([n] + ints), BigEndian) ==
      IntBytes(|ints| + 1, BigEndian) + (IntBytes(n, BigEndian) + TagBytes(IntArrayTag(ints), BigEndian)[4..])
    ensures TagBytes(StringTag(text), BigEndian) == [|text| / 256, |text| % 256] + text
  {
    hide Le, Be;
    BeBytes2(|text|);
    IntForm(|ints|);
    hide IntBytes;
    assert ([n] + ints)[1..] == ints;
  }

  // Writing.

  method PutString(text: seq<byte>, order: Order, stream: BinaryStream)
    requires TextOk(text, order)
    modifies stream`buffer
    ensures stream.buffer == old(stream.buffer) + TextBytes(text, order)
  {
    hide LengthBytes;
    PutLength(|text|, order, stream);
    stream.PutBytes(text);
    Assoc(old(stream.buffer), LengthBytes(|text|, order), text);
  }

  lemma Assoc(a: seq<byte>, b: seq<byte>, c: seq<byte>)
    ensures a + (b + c) == a + b + c
  {
  }

  method PutByteArray(bytes: seq<byte>, order: Order, stream: BinaryStream)
    requires SizeOk(|bytes|)
    modifies stream`buffer
    ensures stream.buffer == old(stream.buffer) + (IntBytes(|bytes|, order) + bytes)
  {
    hide IntBytes;
    PutInt(|bytes|, order, stream);
    stream.PutBytes(bytes);
    Assoc(old(stream.buffer), IntBytes(|bytes|, order), bytes);
  }

  method PutInts(s: seq<int>, order: Order, stream: BinaryStream)
    requires AllInRange(s, TWO_32)
    modifies stream`buffer
    ensures stream.buffer == old(stream.buffer) + IntsBytes(s, order)
  {
    hide IntBytes;
    ghost var all := old(stream.buffer) + IntsBytes(s, order);
    var i := 0;
    while i < |s|
      invariant i <= |s| && stream.buffer + IntsBytes(s[i..], order) == all
    {
      assert s[i..][1..] == s[i + 1..];
      Assoc(stream.buffer, IntBytes(s[i], order), IntsBytes(s[i + 1..], order));
      PutInt(s[i], order, stream);
      i := i + 1;
    }
  }

  method PutLongs(s: seq<int>, order: Order, stream: BinaryStream)
    requires AllInRange(s, TWO_64)
    modifies stream`buffer
    ensures stream.buffer == old(stream.buffer) + LongsBytes(s, order)
  {
    hide LongBytes;
    ghost var all := old(stream.buffer) + LongsBytes(s, order);
    var i := 0;
    while i < |s|
      invariant i <= |s| && stream.buffer + LongsBytes(s[i..], order) == all
    {
      assert s[i..][1..] == s[i + 1..];
      Assoc(stream.buffer, LongBytes(s[i], order), LongsBytes(s[i + 1..], order));
      PutLong(s[i], order, stream);
      i := i + 1;
    }
  }

  /** Writes a tag's value. */
  method PutTag(t: Tag, order: Order, stream: BinaryStream)
    requires TagOk(t, order)
    modifies stream`buffer
    ensures stream.buffer == old(stream.buffer) + TagBytes(t, order)
    decreases t
  {
    hide ShortBytes, IntBytes, LongBytes, Fixed, TextBytes, ItemsBytes, EntriesBytes, IntsBytes, LongsBytes, ItemsOk, EntriesOk;
    match t
    case ByteTag(v) => stream.PutByte(v);
    case ShortTag(v) => PutShort(v, order, stream);
    case IntTag(v) => PutInt(v, order, stream);
    case LongTag(v) => PutLong(v, order, stream);
    case FloatTag(bits) => PutFloat(bits, order, stream);
    case DoubleTag(bits) => PutDouble(bits, order, stream);
    case ByteArrayTag(bytes) => PutByteArray(bytes, order, stream);
    case StringTag(text) => PutString(text, order, stream);
    case ListTag(id, items) => PutList(id, items, order, stream);
    case CompoundTag(entries) => PutCompound(entries, order, stream);
    case IntArrayTag(ints) =>
      PutInt(|ints|, order, stream);
      PutInts(ints, order, stream);
      Assoc(old(stream.buffer), IntBytes(|ints|, order), IntsBytes(ints, order));
    case LongArrayTag(longs) =>
      PutInt(|longs|, order, stream);
      PutLongs(longs, order, stream);
      Assoc(old(stream.buffer), IntBytes(|longs|, order), LongsBytes(longs, order));
  }

  method PutList(id: byte, items: seq<Tag>, order: Order, stream: BinaryStream)
    requires SizeOk(|items|) && ItemsOk(items, id, order)
    modifies stream`buffer
    ensures stream.buffer == old(stream.buffer) + ([id] + (IntBytes(|items|, order) + ItemsBytes(items, id, order)))
    decreases items
  {
    hide IntBytes, TagOk, TagBytes;
    ghost var size, body := IntBytes(|items|, order), ItemsBytes(items, id, order);
    ghost var all := old(stream.buffer) + ([id] + (size + body));
    stream.PutByte(id);
    PutInt(|items|, order, stream);
    Assoc(old(stream.buffer), [id], size + body);
    Assoc(old(stream.buffer) + [id], size, body);
    var i := 0;
    while i < |items|
      invariant i <= |items| && ItemsOk(items[i..], id, order)
      invariant stream.buffer + ItemsBytes(items[i..], id, order) == all
    {
      assert items[i..][1..] == items[i + 1..];
      Assoc(stream.buffer, TagBytes(items[i], order), ItemsBytes(items[i + 1..], id, order));
      PutTag(items[i], order, stream);
      i := i + 1;
    }
  }

  method PutEntry(e: Entry, order: Order, stream: BinaryStream)
    requires EntryOk(e, order)
    modifies stream`buffer
    ensures stream.buffer == old(stream.buffer) + EntryBytes(e, order)
    decreases e
  {
    hide TagOk, TagBytes, TextBytes, Id, TextOk;
    stream.PutByte(Id(e.tag));
    PutString(e.name, order, stream);
    PutTag(e.tag, order, stream);
    Assoc(old(stream.buffer), [Id(e.tag)], TextBytes(e.name, order) + TagBytes(e.tag, order));
    Assoc(old(stream.buffer) + [Id(e.tag)], TextBytes(e.name, order), TagBytes(e.tag, order));
  }

  method PutCompound(entries: seq<Entry>, order: Order, stream: BinaryStream)
    requires EntriesOk(entries, order)
    modifies stream`buffer
    ensures stream.buffer == old(stream.buffer) + EntriesBytes(entries, order)
    decreases entries
  {
    hide EntryOk, EntryBytes, Id;
    ghost var all := old(stream.buffer) + EntriesBytes(entries, order);
    var i := 0;
    while i < |entries|
      invariant i <= |entries| && EntriesOk(entries[i..], order)
      invariant stream.buffer + EntriesBytes(entries[i..], order) == all
    {
      if Id(entries[i].tag) == END_TAG {
        break;
      }
      assert entries[i..][1..] == entries[i + 1..];
      Assoc(stream.buffer, EntryBytes(entries[i], order), EntriesBytes(entries[i + 1..], order));
      PutEntry(entries[i], order, stream);
      i := i + 1;
    }
    stream.PutByte(END_TAG);
  }

  method PutNamed(n: Named, order: Order, stream: BinaryStream)
    requires n.Named? ==> EntryOk(n.entry, order)
    modifies stream`buffer
    ensures stream.buffer == old(stream.buffer) + NamedBytes(n, order)
  {
    hide EntryOk, EntryBytes;
    if n.Named? {
      PutEntry(n.entry, order, stream);
    } else {
      stream.PutByte(END_TAG);
    }
  }
}
