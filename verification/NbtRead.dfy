/**
 * Reading named binary tags: every reader, on the bytes a tag was written as with
 * anything behind them, gives the tag back and stops where the writer stopped.
 */
module NbtReading {
  import opened Bits
  import opened BinaryStreams
  import opened NbtNumbers
  import opened Nbt

  /** The bytes of something are ahead, and rest behind them. */
  ghost predicate Next(stream: BinaryStream, bytes: seq<byte>, rest: seq<byte>)
    reads stream
  {
    stream.Valid() && stream.Ahead() == bytes + rest
  }

  lemma OneByte(stream: BinaryStream, b: byte, bytes: seq<byte>, rest: seq<byte>)
    requires Next(stream, [b] + bytes, rest)
    ensures stream.offset < |stream.buffer| && stream.Ahead()[0] == b && stream.Ahead()[1..] == bytes + rest
  {
  }

  lemma Split(stream: BinaryStream, first: seq<byte>, second: seq<byte>, rest: seq<byte>)
    requires Next(stream, first + second, rest)
    ensures Next(stream, first, second + rest)
  {
    Assoc(first, second, rest);
  }

  method GetByteAhead(stream: BinaryStream, ghost b: byte, ghost bytes: seq<byte>, ghost rest: seq<byte>) returns (r: byte)
    requires Next(stream, [b] + bytes, rest)
    modifies stream`offset
    ensures r == b && Next(stream, bytes, rest)
  {
    OneByte(stream, b, bytes, rest);
    r := stream.GetByte();
  }

  method GetRaw(count: nat, stream: BinaryStream, ghost bytes: seq<byte>, ghost rest: seq<byte>) returns (r: seq<byte>)
    requires Next(stream, bytes, rest) && |bytes| == count
    modifies stream`offset
    ensures r == bytes && stream.Valid() && stream.Ahead() == rest
  {
    assert |stream.Ahead()| >= count;
    r := stream.GetBytes(count);
  }

  method GetString(order: Order, stream: BinaryStream, ghost text: seq<byte>, ghost rest: seq<byte>) returns (r: seq<byte>)
    requires TextOk(text, order) && Next(stream, TextBytes(text, order), rest)
    modifies stream`offset
    ensures r == text && stream.Valid() && stream.Ahead() == rest
  {
    hide LengthBytes;
    Split(stream, LengthBytes(|text|, order), text, rest);
    var length := GetLength(order, stream, |text|, text + rest);
    r := GetRaw(length, stream, text, rest);
  }

  method GetByteArray(order: Order, stream: BinaryStream, ghost bytes: seq<byte>, ghost rest: seq<byte>) returns (r: seq<byte>)
    requires SizeOk(|bytes|) && Next(stream, IntBytes(|bytes|, order) + bytes, rest)
    modifies stream`offset
    ensures r == bytes && stream.Valid() && stream.Ahead() == rest
  {
    hide IntBytes;
    Split(stream, IntBytes(|bytes|, order), bytes, rest);
    var size := GetInt(order, stream, |bytes|, bytes + rest);
    r := GetRaw(size, stream, bytes, rest);
  }

  method GetInts(order: Order, stream: BinaryStream, ghost s: seq<int>, ghost rest: seq<byte>) returns (r: seq<int>)
    requires SizeOk(|s|) && AllInRange(s, TWO_32) && Next(stream, IntBytes(|s|, order) + IntsBytes(s, order), rest)
    modifies stream`offset
    ensures r == s && stream.Valid() && stream.Ahead() == rest
  {
    hide IntBytes, Next;
    Split(stream, IntBytes(|s|, order), IntsBytes(s, order), rest);
    NextAhead(stream, IntBytes(|s|, order), IntsBytes(s, order) + rest);
    var size := GetInt(order, stream, |s|, IntsBytes(s, order) + rest);
    AheadNext(stream, IntsBytes(s, order), rest);
    r := [];
    var i := 0;
    assert s[0..] == s;
    while i < size
      invariant i <= size && r == s[..i] && Next(stream, IntsBytes(s[i..], order), rest)
    {
      assert s[i..][1..] == s[i + 1..];
      ghost var tail := IntsBytes(s[i + 1..], order);
      Split(stream, IntBytes(s[i], order), tail, rest);
      NextAhead(stream, IntBytes(s[i], order), tail + rest);
      var v := GetInt(order, stream, s[i], tail + rest);
      AheadNext(stream, tail, rest);
      r := r + [v];
      i := i + 1;
    }
    NextNothing(stream, rest);
  }

  method GetLongs(order: Order, stream: BinaryStream, ghost s: seq<int>, ghost rest: seq<byte>) returns (r: seq<int>)
    requires SizeOk(|s|) && AllInRange(s, TWO_64) && Next(stream, IntBytes(|s|, order) + LongsBytes(s, order), rest)
    modifies stream`offset
    ensures r == s && stream.Valid() && stream.Ahead() == rest
  {
    hide IntBytes, LongBytes, Next;
    Split(stream, IntBytes(|s|, order), LongsBytes(s, order), rest);
    NextAhead(stream, IntBytes(|s|, order), LongsBytes(s, order) + rest);
    var size := GetInt(order, stream, |s|, LongsBytes(s, order) + rest);
    AheadNext(stream, LongsBytes(s, order), rest);
    r := [];
    var i := 0;
    assert s[0..] == s;
    while i < size
      invariant i <= size && r == s[..i] && Next(stream, LongsBytes(s[i..], order), rest)
    {
      assert s[i..][1..] == s[i + 1..];
      ghost var tail := LongsBytes(s[i + 1..], order);
      Split(stream, LongBytes(s[i], order), tail, rest);
      NextAhead(stream, LongBytes(s[i], order), tail + rest);
      var v := GetLong(order, stream, s[i], tail + rest);
      AheadNext(stream, tail, rest);
      r := r + [v];
      i := i + 1;
    }
    NextNothing(stream, rest);
  }

  lemma NextAhead(stream: BinaryStream, bytes: seq<byte>, rest: seq<byte>)
    requires Next(stream, bytes, rest)
    ensures stream.Valid() && stream.Ahead() == bytes + rest
  {
  }

  lemma AheadNext(stream: BinaryStream, bytes: seq<byte>, rest: seq<byte>)
    requires stream.Valid() && stream.Ahead() == bytes + rest
    ensures Next(stream, bytes, rest)
  {
  }

  lemma NextNothing(stream: BinaryStream, rest: seq<byte>)
    ensures Next(stream, [], rest) ==> stream.Valid() && stream.Ahead() == rest
  {
    assert [] + rest == rest;
  }

  /** Reads a value of the kind given. */
  method GetTag(id: byte, order: Order, stream: BinaryStream, ghost t: Tag, ghost rest: seq<byte>) returns (r: Tag)
    requires TagOk(t, order) && id == Id(t) && Next(stream, TagBytes(t, order), rest)
    modifies stream`offset
    ensures r == t && stream.Valid() && stream.Ahead() == rest
    decreases t
  {
    hide ShortBytes, IntBytes, LongBytes, Fixed, TextBytes, ItemsBytes, EntriesBytes, IntsBytes, LongsBytes, ItemsOk, EntriesOk;
    match id {
      case 1 =>
        var v := GetByteAhead(stream, t.byteValue, [], rest);
        NextNothing(stream, rest);
        r := ByteTag(v);
      case 2 =>
        var v := GetShort(order, stream, t.shortValue, rest);
        r := ShortTag(v);
      case 3 =>
        var v := GetInt(order, stream, t.intValue, rest);
        r := IntTag(v);
      case 4 =>
        var v := GetLong(order, stream, t.longValue, rest);
        r := LongTag(v);
      case 5 =>
        var v := GetFloat(order, stream, t.floatBits, rest);
        r := FloatTag(v);
      case 6 =>
        var v := GetDouble(order, stream, t.doubleBits, rest);
        r := DoubleTag(v);
      case 7 =>
        var v := GetByteArray(order, stream, t.bytes, rest);
        r := ByteArrayTag(v);
      case 8 =>
        var v := GetString(order, stream, t.text, rest);
        r := StringTag(v);
      case 9 =>
        r := GetList(order, stream, t.itemId, t.items, rest);
      case 10 =>
        r := GetCompound(order, stream, t.entries, rest);
      case 11 =>
        var v := GetInts(order, stream, t.ints, rest);
        r := IntArrayTag(v);
      case _ =>
        var v := GetLongs(order, stream, t.longs, rest);
        r := LongArrayTag(v);
    }
  }

  method GetList(order: Order, stream: BinaryStream, ghost id: byte, ghost items: seq<Tag>, ghost rest: seq<byte>) returns (r: Tag)
    requires SizeOk(|items|) && ItemsOk(items, id, order)
    requires Next(stream, [id] + (IntBytes(|items|, order) + ItemsBytes(items, id, order)), rest)
    modifies stream`offset
    ensures r == ListTag(id, items) && stream.Valid() && stream.Ahead() == rest
    decreases items
  {
    hide IntBytes, TagOk, TagBytes, Next, Id;
    var kind := GetByteAhead(stream, id, IntBytes(|items|, order) + ItemsBytes(items, id, order), rest);
    Split(stream, IntBytes(|items|, order), ItemsBytes(items, id, order), rest);
    NextAhead(stream, IntBytes(|items|, order), ItemsBytes(items, id, order) + rest);
    var size := GetInt(order, stream, |items|, ItemsBytes(items, id, order) + rest);
    AheadNext(stream, ItemsBytes(items, id, order), rest);
    var data: seq<Tag> := [];
    var i := 0;
    assert items[0..] == items;
    while i < size
      invariant i <= size && data == items[..i] && ItemsOk(items[i..], id, order)
      invariant Next(stream, ItemsBytes(items[i..], id, order), rest)
    {
      assert items[i..][1..] == items[i + 1..];
      ghost var tail := ItemsBytes(items[i + 1..], id, order);
      Split(stream, TagBytes(items[i], order), tail, rest);
      var item := GetTag(kind, order, stream, items[i], tail + rest);
      AheadNext(stream, tail, rest);
      data := data + [item];
      i := i + 1;
    }
    NextNothing(stream, rest);
    r := ListTag(kind, data);
  }

  /** What is ahead of an entry's value once its kind is read. */
  function EntryTail(e: Entry, order: Order): seq<byte>
    requires EntryOk(e, order)
  {
    TextBytes(e.name, order) + TagBytes(e.tag, order)
  }

  /** An entry's name and value; its kind was read before. */
  method GetEntry(id: byte, order: Order, stream: BinaryStream, ghost e: Entry, ghost rest: seq<byte>) returns (r: Entry)
    requires EntryOk(e, order) && id == Id(e.tag) && Next(stream, EntryTail(e, order), rest)
    modifies stream`offset
    ensures r == e && stream.Valid() && stream.Ahead() == rest
    decreases e
  {
    hide TagOk, TagBytes, TextBytes, Id, TextOk, Next;
    Split(stream, TextBytes(e.name, order), TagBytes(e.tag, order), rest);
    var name := GetString(order, stream, e.name, TagBytes(e.tag, order) + rest);
    AheadNext(stream, TagBytes(e.tag, order), rest);
    var tag := GetTag(id, order, stream, e.tag, rest);
    r := Entry(name, tag);
  }

  /** The first byte of what is left of a compound is the kind of its next entry, or the end marker. */
  lemma EntryAhead(stream: BinaryStream, entries: seq<Entry>, order: Order, rest: seq<byte>)
    requires EntriesOk(entries, order) && Next(stream, EntriesBytes(entries, order), rest)
    ensures stream.offset < |stream.buffer|
    ensures entries == [] ==> Next(stream, [END_TAG as byte] + [], rest)
    ensures entries != [] ==>
      Next(stream, [Id(entries[0].tag)] + EntryTail(entries[0], order), EntriesBytes(entries[1..], order) + rest)
  {
    hide TagBytes, TextBytes, Id, EntryOk;
    if entries == [] {
      assert [END_TAG as byte] + [] == [END_TAG as byte];
    } else {
      Split(stream, EntryBytes(entries[0], order), EntriesBytes(entries[1..], order), rest);
    }
    assert |stream.Ahead()| > 0;
  }

  method GetCompound(order: Order, stream: BinaryStream, ghost entries: seq<Entry>, ghost rest: seq<byte>) returns (r: Tag)
    requires EntriesOk(entries, order) && Next(stream, EntriesBytes(entries, order), rest)
    modifies stream`offset
    ensures r == CompoundTag(entries) && stream.Valid() && stream.Ahead() == rest
    decreases entries
  {
    hide EntriesBytes, EntryOk, Next, Id, EntryTail;
    var data: seq<Entry> := [];
    ghost var i := 0;
    assert entries[0..] == entries;
    while stream.offset < |stream.buffer|
      invariant i <= |entries| && data == entries[..i] && EntriesOk(entries[i..], order)
      invariant Next(stream, EntriesBytes(entries[i..], order), rest)
      decreases |entries| - i
    {
      EntryAhead(stream, entries[i..], order, rest);
      ghost var left := entries[i..];
      var id := GetId(stream, left, order, rest);
      if id == END_TAG {
        NextNothing(stream, rest);
        return CompoundTag(data);
      }
      ghost var tail := EntriesBytes(left[1..], order);
      var e := GetEntry(id, order, stream, entries[i], tail + rest);
      AheadNext(stream, tail, rest);
      assert left[1..] == entries[i + 1..];
      data := data + [e];
      i := i + 1;
    }
    EntryAhead(stream, entries[i..], order, rest);
    r := CompoundTag(data);
  }

  method GetId(stream: BinaryStream, ghost left: seq<Entry>, order: Order, ghost rest: seq<byte>) returns (id: byte)
    requires EntriesOk(left, order) && Next(stream, EntriesBytes(left, order), rest)
    modifies stream`offset
    ensures (id == END_TAG) == (left == [])
    ensures left == [] ==> Next(stream, [], rest)
    ensures left != [] ==> id == Id(left[0].tag) && Next(stream, EntryTail(left[0], order), EntriesBytes(left[1..], order) + rest)
  {
    hide EntriesBytes, EntryOk, EntryTail, Id;
    EntryAhead(stream, left, order, rest);
    if left == [] {
      OneByte(stream, END_TAG, [], rest);
    } else {
      OneByte(stream, Id(left[0].tag), EntryTail(left[0], order), EntriesBytes(left[1..], order) + rest);
    }
    id := stream.GetByte();
  }

  function FirstByte(n: Named): byte {
    if n.Named? then Id(n.entry.tag) else END_TAG
  }

  function NamedTail(n: Named, order: Order): seq<byte>
    requires n.Named? ==> EntryOk(n.entry, order)
  {
    if n.Named? then EntryTail(n.entry, order) else []
  }

  lemma NamedParts(n: Named, order: Order)
    requires n.Named? ==> EntryOk(n.entry, order)
    ensures NamedBytes(n, order) == [FirstByte(n)] + NamedTail(n, order)
  {
    hide TagBytes, TextBytes, EntryOk, Id;
  }

  /** The named tag that starts a file or a packet. */
  method GetNamed(order: Order, stream: BinaryStream, ghost n: Named, ghost rest: seq<byte>) returns (r: Named)
    requires (n.Named? ==> EntryOk(n.entry, order)) && Next(stream, NamedBytes(n, order), rest)
    modifies stream`offset
    ensures r == n && stream.Valid() && stream.Ahead() == rest
  {
    hide EntryOk, EntryTail, TagBytes, TextBytes, Id;
    NamedParts(n, order);
    var id := GetByteAhead(stream, FirstByte(n), NamedTail(n, order), rest);
    if id == END_TAG {
      NextNothing(stream, rest);
      return End;
    }
    var entry := GetEntry(id, order, stream, n.entry, rest);
    r := Named(entry);
  }

  /** Whatever is behind it, a named tag that was written is read back, and the reader stops where the writer did. */
  method WriteThenRead(n: Named, order: Order, before: seq<byte>, after: seq<byte>)
    returns (r: Named, written: nat, stopped: nat)
    requires n.Named? ==> EntryOk(n.entry, order)
    ensures r == n && stopped == written == |before| + |NamedBytes(n, order)|
  {
    hide EntryOk, NamedBytes;
    var stream := new BinaryStream();
    stream.PutBytes(before);
    PutNamed(n, order, stream);
    written := |stream.buffer|;
    stream.PutBytes(after);
    var skipped := stream.GetBytes(|before|);
    ghost var bytes := NamedBytes(n, order);
    assert stream.buffer == before + (bytes + after);
    assert stream.Ahead() == bytes + after;
    r := GetNamed(order, stream, n, after);
    stopped := stream.offset;
    assert |stream.Ahead()| == |after|;
  }
}
