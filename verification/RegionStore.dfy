/**
 * An open region: the file's bytes and free map, and the offsets and timestamps
 * kept both in arrays and in the file's header.
 */
module RegionStores {
  import opened Bits
  import opened BinaryStreams
  import opened RegionLayout
  import opened RegionSteps
  import opened FreeMap

  /** What is stored for a chunk that was compressed here. */
  function Body(z: seq<byte>): (body: seq<byte>)
    ensures |body| == |z| + 1
  {
    [VERSION_DEFLATE as byte] + z
  }

  function Head(length: nat): (head: seq<byte>)
    ensures |head| == CHUNK_HEADER_SIZE
  {
    Be(length, 4) + [VERSION_DEFLATE as byte]
  }

  /** The sectors a compressed chunk takes. */
  /** A chunk takes as many sectors as its record needs, and one more if that fills them to the last byte. */
  lemma SectorsTaken(z: seq<byte>)
    ensures 4096 * (Required(z) - 1) <= 4 + |Body(z)| < 4096 * Required(z)
  {
  }

  function Required(z: seq<byte>): (n: nat)
    ensures n > 0 && |Body(z)| + LENGTH_BYTES < SECTOR_BYTES * n
  {
    (|z| + CHUNK_HEADER_SIZE) / SECTOR_BYTES + 1
  }

  predicate OutOfBounds(x: int, z: int) {
    x < 0 || x >= 32 || z < 0 || z >= 32
  }

  class Region {
    var stream: seq<byte>
    var free: seq<bool>
    const offsets: array<nat>
    const timestamps: array<int>
    const encode: seq<byte> -> Option<seq<byte>>
    const decode: (nat, seq<byte>) -> Option<seq<byte>>
    ghost var owner: seq<int>
    ghost var contents: map<nat, seq<byte>>

    ghost predicate Shape()
      reads this, offsets, timestamps
    {
      offsets as object != timestamps && offsets.Length == SECTOR_INTS && timestamps.Length == SECTOR_INTS
    }

    ghost predicate Valid()
      reads this, offsets, timestamps
    {
      Shape() && RegionOk(stream, offsets[..], timestamps[..], free, owner, contents)
    }

    /** A region before its file has been looked at. */
    constructor (stream: seq<byte>, encode: seq<byte> -> Option<seq<byte>>, decode: (nat, seq<byte>) -> Option<seq<byte>>)
      ensures this.stream == stream && this.encode == encode && this.decode == decode
      ensures fresh(offsets) && fresh(timestamps) && Shape()
    {
      this.stream, this.encode, this.decode := stream, encode, decode;
      offsets := new nat[SECTOR_INTS];
      timestamps := new int[SECTOR_INTS];
    }

    /** Decompressing undoes compressing. */
    ghost predicate Codec() {
      forall data :: encode(data).Some? ==> decode(VERSION_DEFLATE, encode(data).value) == Some(data)
    }

    /** What a stored chunk stands for: nothing when its compression kind is unknown or it does not decompress. */
    function Decoded(body: seq<byte>): seq<byte>
      requires |body| >= 1
    {
      var version: nat := body[0];
      if version == VERSION_GZIP || version == VERSION_DEFLATE then
        match decode(version, body[1..])
        case Some(data) => data
        case None => []
      else []
    }

    /** Chunk i as stored, uncompressed; nothing when there is no such chunk. */
    ghost function Chunk(i: nat): seq<byte>
      reads this
    {
      if i in contents && |contents[i]| >= 1 then Decoded(contents[i]) else []
    }

    ghost function ChunkOf(x: int, z: int): seq<byte>
      reads this
    {
      if OutOfBounds(x, z) then [] else Chunk((x + z * 32) as nat)
    }

    /** A number is written into the bytes at p, high byte first. */
    method PutWord(p: nat, v: nat)
      requires p + 4 <= |stream|
      modifies this`stream
      ensures stream == Splice(old(stream), p, Be(v, 4))
    {
      BeBytes4(v);
      hide Be;
      stream := stream[p := v / 0x100_0000 % 256];
      stream := stream[p + 1 := v / 0x1_0000 % 256];
      stream := stream[p + 2 := v / 0x100 % 256];
      stream := stream[p + 3 := v % 256];
    }

    method SetOffset(i: nat, v: nat)
      requires Shape() && i < SECTOR_INTS && 4 * i + 4 <= |stream|
      modifies this`stream, offsets
      ensures stream == Splice(old(stream), 4 * i, Be(v, 4)) && offsets[..] == old(offsets[..])[i := v]
    {
      hide Splice, Be;
      offsets[i] := v;
      PutWord(4 * i, v);
    }

    /** Memory keeps the whole timestamp, the header its low 32 bits. */
    method SetTimestamp(i: nat, time: int)
      requires Shape() && i < SECTOR_INTS && SECTOR_BYTES + 4 * i + 4 <= |stream|
      modifies this`stream, timestamps
      ensures stream == Splice(old(stream), SECTOR_BYTES + 4 * i, Be(Word(time), 4)) && timestamps[..] == old(timestamps[..])[i := time]
    {
      hide Splice, Be, Word;
      timestamps[i] := time;
      PutWord(SECTOR_BYTES + 4 * i, Word(time));
    }

    /** A stored chunk's length and compression kind. */
    method PutHead(p: nat, length: nat)
      requires p + CHUNK_HEADER_SIZE <= |stream|
      modifies this`stream
      ensures stream == Splice(old(stream), p, Head(length))
    {
      hide Be;
      PutWord(p, length);
      stream := stream[p + 4 := VERSION_DEFLATE as byte];
    }

    /** A compressed chunk is written from the start of a sector on. */
    method SetSector(first: nat, z: seq<byte>)
      requires SECTOR_BYTES * first + |z| + CHUNK_HEADER_SIZE <= |stream|
      modifies this`stream
      ensures |Record(Body(z))| == |z| + CHUNK_HEADER_SIZE
      ensures stream == Splice(old(stream), SECTOR_BYTES * first, Record(Body(z)))
    {
      hide Splice, Head, Record, Body;
      var p := SECTOR_BYTES * first;
      RecordHead(z);
      PutHead(p, |z| + 1);
      ghost var start := stream;
      var i := 0;
      while i < |z|
        invariant i <= |z| && stream == start[..p + CHUNK_HEADER_SIZE] + z[..i] + start[p + CHUNK_HEADER_SIZE + i..]
      {
        stream := stream[p + CHUNK_HEADER_SIZE + i := z[i]];
        i := i + 1;
      }
      assert z[..i] == z;
      SpliceJoin(old(stream), start, p, Head(|z| + 1), z);
    }

    /** All is well but for chunk i, which owns no sector. */
    ghost predicate Between(i: nat)
      reads this, offsets, timestamps
    {
      Shape() && Mid(stream, offsets[..], timestamps[..], owner, contents, i) && FreeOk(free, owner)
    }

    method MarkSectors(first: nat, count: nat, value: bool)
      requires first + count <= |free|
      modifies this`free
      ensures free == Marked(old(free), first, count, value)
    {
      hide Marked;
      MarkOne(free + [value], first, 0, value);
      MarkNone(free, first, value);
      var i := 0;
      while i < count
        invariant i <= count && |free| == old(|free|) && free == Marked(old(free), first, i, value)
      {
        MarkOne(old(free), first, i, value);
        free := free[first + i := value];
        i := i + 1;
      }
    }

    /** The chunk's old sectors become free. */
    method GiveBack(i: nat)
      requires Valid() && i < SECTOR_INTS
      modifies this`free, this`owner
      ensures Between(i) && |owner| == old(|owner|)
      ensures free == Marked(old(free), First(offsets[i]), Count(offsets[i]), true)
    {
      hide Mid, HeaderOk, OwnersOk, FreeOk, ContentsOk, First, Count, Marked, Released;
      MidReleased(stream, offsets[..], timestamps[..], free, owner, contents, i);
      FreeReleased(free, offsets[..], owner, i);
      MarkSectors(First(offsets[i]), Count(offsets[i]), true);
      owner := Released(owner, i);
    }

    /** The chunk goes into a run of free sectors. */
    method PlaceFound(i: nat, first: nat, z: seq<byte>)
      requires Between(i) && i < SECTOR_INTS && FreeRun(free, first, Required(z)) && Required(z) <= 127
      requires first + Required(z) <= MAX_SECTORS
      modifies this`stream, this`free, this`owner, this`contents, offsets
      ensures Valid() && contents == old(contents)[i := Body(z)] && |owner| == old(|owner|)
      ensures offsets[..] == old(offsets[..])[i := Offset(first, Required(z))] && timestamps[..] == old(timestamps[..])
    {
      hide Body, Mid, RegionOk, FreeOk, FreeRun, FreeOwners, Offset, Marked, Taken, ChunkAt, Required, Splice, Record, Be;
      var n := Required(z);
      RunFits(free, first, n);
      MidSizes(stream, offsets[..], timestamps[..], owner, contents, i, free, first, n);
      OffsetParts(first, n);
      ghost var offs := offsets[..];
      MidOffset(stream, offs, timestamps[..], owner, contents, i, Offset(first, n));
      SetOffset(i, Offset(first, n));
      MarkSectors(first, n, false);
      MidRecord(stream, offsets[..], timestamps[..], owner, contents, i, first, n, Body(z));
      SetSector(first, z);
      FreeTaken(old(free), owner, first, n, i);
      MidTaken(stream, offsets[..], timestamps[..], free, owner, contents, i, first, n, Body(z));
      owner, contents := Taken(owner, first, n, i), contents[i := Body(z)];
    }

    /** The file grows, and the chunk goes into the new sectors. */
    method PlaceGrown(i: nat, z: seq<byte>)
      requires Between(i) && i < SECTOR_INTS && Required(z) <= 127 && |free| + Required(z) <= MAX_SECTORS
      modifies this`stream, this`free, this`owner, this`contents, offsets
      ensures Valid() && contents == old(contents)[i := Body(z)] && |owner| == old(|owner|) + Required(z)
      ensures offsets[..] == old(offsets[..])[i := Offset(|old(free)|, Required(z))] && timestamps[..] == old(timestamps[..])
    {
      hide Body, Mid, RegionOk, FreeOk, FreeOwners, Offset, Taken, ChunkAt, Required, Splice, Record, Be, Zeros, Falses, Frees;
      var n := Required(z);
      var first := |free|;
      MidGrown(stream, Zeros(SECTOR_BYTES * n), offsets[..], timestamps[..], owner, contents, i, n);
      FreeGrown(free, owner, n, i);
      GrownSizes(stream, offsets[..], timestamps[..], owner, contents, i, free, n);
      free := free + Falses(n);
      stream := stream + Zeros(SECTOR_BYTES * n);
      owner := owner + Frees(n);
      OffsetParts(first, n);
      MidRecord(stream, offsets[..], timestamps[..], owner, contents, i, first, n, Body(z));
      SetSector(first, z);
      ghost var offs := offsets[..];
      MidOffset(stream, offs, timestamps[..], owner, contents, i, Offset(first, n));
      RecordStays(stream, 4 * i, Offset(first, n), Offset(first, n), Body(z));
      SetOffset(i, Offset(first, n));
      MidTaken(stream, offsets[..], timestamps[..], free, owner, contents, i, first, n, Body(z));
      owner, contents := Taken(owner, first, n, i), contents[i := Body(z)];
    }

    /** A chunk that needs as many sectors as it has keeps them, and its timestamp. */
    method Rewrite(i: nat, z: seq<byte>)
      requires Valid() && i < SECTOR_INTS && offsets[i] != 0 && Required(z) == Count(offsets[i])
      modifies this`stream, this`contents
      ensures Valid() && contents == old(contents)[i := Body(z)] && |stream| == old(|stream|)
    {
      hide Body, RegionOk, First, Count, Splice, Record, Required;
      RecordSize(Body(z));
      Rewritten(stream, offsets[..], timestamps[..], free, owner, contents, i, Body(z));
      SetSector(First(offsets[i]), z);
      contents := contents[i := Body(z)];
    }

    /** A chunk moves: its old sectors are given back first. */
    method Move(i: nat, z: seq<byte>, now: int)
      requires Valid() && i < SECTOR_INTS && Required(z) <= 127
      modifies this`stream, this`free, this`owner, this`contents, offsets, timestamps
      ensures Valid() && contents == old(contents)[i := Body(z)]
      ensures offsets[..] == old(offsets[..])[i := offsets[i]] && timestamps[..] == old(timestamps[..])[i := now]
      ensures Placed(Marked(old(free), First(old(offsets[i])), Count(old(offsets[i])), true), Required(z), offsets[i], |owner|)
    {
      hide Body, RegionOk, Mid, First, Count, Splice, FreeOk, FreeRun, NoneBefore, Marked, Required, Placed, Offset;
      GiveBack(i);
      ghost var freed := free;
      BetweenSizes(stream, offsets[..], timestamps[..], owner, contents, i, free);
      var n := Required(z);
      var found, first := FindRun(free, n);
      MoveLow(stream, offsets[..], timestamps[..], owner, contents, i, free, if found then first else |free|, n);
      if found {
        PlacedFound(freed, n, first);
        PlaceFound(i, first, z);
      } else {
        PlacedGrown(freed, n);
        PlaceGrown(i, z);
      }
      TimestampOk(stream, offsets[..], timestamps[..], free, owner, contents, i, now);
      SetTimestamp(i, now);
    }

    /** What storing a chunk does to the sectors: the same ones again, or the first fit once the old ones are free. */
    twostate predicate Stored(i: nat, z: seq<byte>, now: int)
      requires i < offsets.Length && i < timestamps.Length
      reads this, offsets, timestamps
    {
      var was := old(offsets[i]);
      if First(was) != 0 && Count(was) == Required(z) then
        offsets[..] == old(offsets[..]) && timestamps[..] == old(timestamps[..]) && free == old(free)
      else
        && offsets[..] == old(offsets[..])[i := offsets[i]] && timestamps[..] == old(timestamps[..])[i := now]
        && Placed(Marked(old(free), First(was), Count(was), true), Required(z), offsets[i], |free|)
    }

    /** Storing chunk (x, z). */
    method SetChunk(x: int, z: int, data: seq<byte>, now: int)
      requires Valid() && !OutOfBounds(x, z)
      requires encode(data).Some? ==> Required(encode(data).value) <= 127
      modifies this`stream, this`free, this`owner, this`contents, offsets, timestamps
      ensures Valid()
      ensures encode(data).Some? ==> Stored((x + z * 32) as nat, encode(data).value, now)
      ensures encode(data).Some? ==> contents == old(contents)[(x + z * 32) as nat := [2] + encode(data).value]
      ensures encode(data).Some? && Codec() ==> ChunkOf(x, z) == data
      ensures encode(data).None? ==> stream == old(stream) && free == old(free) && contents == old(contents)
      ensures encode(data).None? ==> offsets[..] == old(offsets[..]) && timestamps[..] == old(timestamps[..])
      ensures forall a, b :: (a, b) != (x, z) ==> ChunkOf(a, b) == old(ChunkOf(a, b))
    {
      hide RegionOk, First, Count, Placed, Required, Body;
      var i := x + z * 32;
      var compressed := encode(data);
      if compressed.None? {
        return;
      }
      var c := compressed.value;
      RegionSizes(stream, offsets[..], timestamps[..], free, owner, contents, i);
      if First(offsets[i]) != 0 && Count(offsets[i]) == Required(c) {
        Rewrite(i, c);
      } else {
        Move(i, c, now);
      }
      RegionSizes(stream, offsets[..], timestamps[..], free, owner, contents, i);
      Bodies(c);
    }

    /** The big-endian number at p. */
    function Number(p: nat): nat
      requires p + 4 <= |stream|
      reads this
    {
      var a: nat, b: nat, c: nat, d: nat := stream[p], stream[p + 1], stream[p + 2], stream[p + 3];
      a * 0x100_0000 + b * 0x1_0000 + c * 0x100 + d
    }

    /**
     * A chunk where the file has it: word x + 32 z of the first sector holds its first sector and, in the low byte, how
     * many there are; there stand its length, the kind of compression, 1 for gzip and 2 for zlib, and its bytes.
     */
    lemma OnDisk(x: nat, z: nat)
      requires Valid() && x < 32 && z < 32
      ensures 4 * (x + 32 * z) + 4 <= |stream|
      ensures var o := Number(4 * (x + 32 * z));
        if o == 0 then ChunkOf(x, z) == []
        else
          var p := 4096 * (o / 256);
          && o / 256 >= 2 && p + 5 <= |stream|
          && 1 <= Number(p) && Number(p) + 4 <= 4096 * (o % 256) && p + 4 + Number(p) <= |stream|
          && var unpacked := decode(stream[p + 4], stream[p + 5..p + 4 + Number(p)]);
             ChunkOf(x, z) == if stream[p + 4] in {1, 2} && unpacked.Some? then unpacked.value else []
    {
      hide RegionOk, Record, FromBe, ChunkAt, InRun;
      var i := x + 32 * z;
      RegionSizes(stream, offsets[..], timestamps[..], free, owner, contents, i);
      InHeader(stream, offsets[..], timestamps[..], free, owner, contents, i);
      FourBytes(stream[4 * i..4 * i + 4]);
      if offsets[i] != 0 {
        ChunkBytes(stream, offsets[i], contents[i]);
        var p := SECTOR_BYTES * First(offsets[i]);
        FourBytes(stream[p..p + 4]);
        InRecord(stream, offsets[i], contents[i]);
        assert stream[p + 4..p + 4 + |contents[i]|][1..] == stream[p + 5..p + 4 + |contents[i]|];
      }
    }

    method GetWord(p: nat) returns (v: nat)
      requires p + 4 <= |stream|
      ensures v == FromBe(stream[p..p + 4])
    {
      var a: nat, b: nat, c: nat, d: nat := stream[p], stream[p + 1], stream[p + 2], stream[p + 3];
      v := a * 0x100_0000 + b * 0x1_0000 + c * 0x100 + d;
      FourBytes(stream[p..p + 4]);
    }

    /** Reading chunk (x, z). */
    method GetChunk(x: int, z: int) returns (data: seq<byte>)
      requires Valid()
      ensures data == ChunkOf(x, z)
    {
      hide RegionOk, First, Count, Record, FromBe, ChunkAt, InRun;
      if OutOfBounds(x, z) {
        return [];
      }
      var i := x + z * 32;
      var offset := offsets[i];
      RegionSizes(stream, offsets[..], timestamps[..], free, owner, contents, i);
      if offset == 0 {
        return [];
      }
      var first, count := First(offset), Count(offset);
      if first + count > |free| {
        return [];
      }
      ghost var body := contents[i];
      ChunkBytes(stream, offset, body);
      var p := SECTOR_BYTES * first;
      var length := GetWord(p);
      if length > SECTOR_BYTES * count {
        return [];
      }
      var version: nat := stream[p + 4];
      var packed := CopyFrom(p + 5, length - 1);
      assert packed == body[1..];
      if version == VERSION_GZIP || version == VERSION_DEFLATE {
        var unpacked := decode(version, packed);
        return if unpacked.Some? then unpacked.value else [];
      }
      return [];
    }

    method CopyFrom(p: nat, count: nat) returns (data: seq<byte>)
      requires p + count <= |stream|
      ensures data == stream[p..p + count]
    {
      data := [];
      var i := 0;
      while i < count
        invariant i <= count && data == stream[p..p + i]
      {
        data := data + [stream[p + i]];
        i := i + 1;
      }
    }

    /** The offsets are read from the first sector; the sectors they name are taken. */
    method ReadOffsets(ghost offs: seq<nat>, ghost times: seq<int>, ghost owner: seq<int>)
      requires Shape() && HeaderOk(stream, offs, times) && OwnersOk(offs, owner) && Sectors(stream, |owner|)
      modifies this`free, offsets
      ensures offsets[..] == offs && FreeOk(free, owner)
    {
      hide WordAt, OwnersOk, HeaderOk, First, Count, FromBe, Marked, Seen, FreeOk;
      var sectors := |stream| / SECTOR_BYTES;
      free := Trues(sectors);
      SeenNone(offs, owner);
      free := free[0 := false][1 := false];
      var i := 0;
      while i < SECTOR_INTS
        invariant i <= SECTOR_INTS && |offs| == SECTOR_INTS && |free| == |owner| && Seen(free, owner, i)
        invariant forall k :: 0 <= k < i ==> offsets[k] == offs[k]
      {
        HeaderWords(stream, offs, times, i);
        SeenStep(free, offs, owner, i);
        var offset := GetWord(4 * i);
        offsets[i] := offset;
        if offset != 0 && First(offset) + Count(offset) <= |free| {
          MarkSectors(First(offset), Count(offset), false);
        }
        i := i + 1;
      }
      SeenAll(free, offs, owner);
    }

    method ReadTimestamps(ghost offs: seq<nat>, ghost times: seq<int>)
      requires Shape() && HeaderOk(stream, offs, times)
      modifies timestamps
      ensures timestamps[..] == Reread(times)
    {
      hide WordAt, FromBe, HeaderOk, Word, Signed;
      var i := 0;
      HeaderSizes(stream, offs, times);
      while i < SECTOR_INTS
        invariant i <= SECTOR_INTS && |times| == SECTOR_INTS
        invariant forall k :: 0 <= k < i ==> timestamps[k] == Signed(Word(times[k]))
      {
        HeaderWords(stream, offs, times, i);
        var word := GetWord(SECTOR_BYTES + 4 * i);
        timestamps[i] := Signed(word);
        i := i + 1;
      }
    }
  }

  /** A file shorter than one sector is replaced by an empty region; another one is padded by as much as it is too long. */
  function FileBytes(bytes: seq<byte>): seq<byte> {
    if |bytes| < SECTOR_BYTES then Zeros(2 * SECTOR_BYTES) else bytes + Zeros(|bytes| % SECTOR_BYTES)
  }

  /** The padding makes whole sectors only of a file that lacks half a sector, or none of it. */
  lemma PaddedWhole(bytes: seq<byte>)
    ensures |FileBytes(bytes)| % SECTOR_BYTES == 0 <==> |bytes| < SECTOR_BYTES || |bytes| % (SECTOR_BYTES / 2) == 0
    ensures FileBytes(bytes) == bytes <==> |bytes| >= SECTOR_BYTES && |bytes| % SECTOR_BYTES == 0
  {
    PaddedSize(|bytes|);
    if |bytes| % SECTOR_BYTES == 0 {
      assert bytes + Zeros(0) == bytes;
    }
  }

  lemma PaddedSize(n: nat)
    ensures (n + n % 4096) % 4096 == 0 <==> n % 2048 == 0
  {
    var q, r := n / 4096, n % 4096;
    if r < 2048 {
      QuotientUnique(n + r, 4096, q, 2 * r);
      QuotientUnique(n, 2048, 2 * q, r);
    } else {
      QuotientUnique(n + r, 4096, q + 1, 2 * r - 4096);
      QuotientUnique(n, 2048, 2 * q + 1, r - 2048);
    }
  }

  /** The timestamps that reading the header gives. */
  function Reread(times: seq<int>): (r: seq<int>)
    ensures |r| == |times| && forall i :: 0 <= i < |r| ==> r[i] == Signed(Word(times[i]))
  {
    seq(|times|, i requires 0 <= i < |times| => Signed(Word(times[i])))
  }

  /** Closing and opening a region keeps exactly the timestamps that fit a signed 32-bit number. */
  lemma TimestampsKept(times: seq<int>)
    ensures Reread(times) == times <==> forall i :: 0 <= i < |times| ==> -0x8000_0000 <= times[i] < 0x8000_0000
  {
    forall i | 0 <= i < |times| ensures Reread(times)[i] == times[i] <==> -0x8000_0000 <= times[i] < 0x8000_0000 {
      SignedWord(times[i]);
    }
  }

  lemma SignedWord(time: int)
    ensures Signed(Word(time)) == time <==> -0x8000_0000 <= time < 0x8000_0000
    ensures Word(Signed(Word(time))) == Word(time)
  {
  }

  /** The second 2^31 of the epoch comes back as a time before it. */
  lemma LateTimestamp()
    ensures Reread([0x8000_0000]) == [-0x8000_0000]
  {
    assert Word(0x8000_0000) == 0x8000_0000;
  }

  lemma HeaderReread(stream: seq<byte>, offs: seq<nat>, times: seq<int>)
    requires HeaderOk(stream, offs, times)
    ensures HeaderOk(stream, offs, Reread(times))
  {
    hide WordAt, Word, Signed;
    forall i: nat | i < SECTOR_INTS ensures WordAt(stream, SECTOR_BYTES + 4 * i, Word(Reread(times)[i])) {
      assert WordAt(stream, SECTOR_BYTES + 4 * i, Word(times[i]));
      SignedWord(times[i]);
    }
  }

  /** Opening a file gives the region it is the file of, with timestamps of 32 bits. */
  method Open(bytes: seq<byte>, encode: seq<byte> -> Option<seq<byte>>, decode: (nat, seq<byte>) -> Option<seq<byte>>,
              ghost offs: seq<nat>, ghost times: seq<int>, ghost free: seq<bool>, ghost owner: seq<int>, ghost contents: map<nat, seq<byte>>)
    returns (r: Region)
    requires RegionOk(FileBytes(bytes), offs, times, free, owner, contents)
    ensures fresh(r) && fresh(r.offsets) && fresh(r.timestamps) && r.Valid()
    ensures r.stream == FileBytes(bytes) && r.free == free && r.offsets[..] == offs && r.timestamps[..] == Reread(times)
    ensures r.encode == encode && r.decode == decode && r.owner == owner && r.contents == contents
  {
    hide HeaderOk, OwnersOk, ContentsOk, FreeOk, Reread;
    var stream := bytes;
    if |bytes| < SECTOR_BYTES {
      stream := Zeros(2 * SECTOR_BYTES);
    }
    var needed := |stream| % SECTOR_BYTES;
    if needed != 0 {
      stream := stream + Zeros(needed);
    }
    assert bytes + Zeros(0) == bytes;
    r := new Region(stream, encode, decode);
    r.ReadOffsets(offs, times, owner);
    r.ReadTimestamps(offs, times);
    HeaderReread(stream, offs, times);
    FreeUnique(r.free, free, owner);
    r.owner, r.contents := owner, contents;
  }

  /** A well-formed region stays well-formed when its file is padded; at most one free sector is added. */
  lemma PaddedOk(stream: seq<byte>, offs: seq<nat>, times: seq<int>, free: seq<bool>, owner: seq<int>, contents: map<nat, seq<byte>>)
    returns (n: nat)
    requires RegionOk(stream, offs, times, free, owner, contents)
    ensures n == |FileBytes(stream)| / SECTOR_BYTES - |free| && n <= 1
    ensures RegionOk(FileBytes(stream), offs, times, free + Trues(n), owner + Frees(n), contents)
  {
    hide ChunkAt, OwnersOk, WordAt;
    var after := FileBytes(stream);
    n := |after| / SECTOR_BYTES - |free|;
    GrownOk(offs, owner, n);
    HeaderKept(stream, after, offs, times);
    forall j: nat | j < SECTOR_INTS && offs[j] != 0 ensures j in contents && ChunkAt(after, offs[j], contents[j]) {
      InsideFile(offs, owner, j);
      ChunkKept(stream, after, offs[j], contents[j]);
    }
  }

  /** An empty file is a well-formed region without chunks. */
  lemma EmptyRegion(bytes: seq<byte>)
    requires |bytes| < SECTOR_BYTES
    ensures RegionOk(FileBytes(bytes), NoWords(), NoWords(), [false, false], [HEADER, HEADER], map[])
  {
    BeZero();
    hide Be;
  }

  function NoWords(): (r: seq<nat>)
    ensures |r| == SECTOR_INTS && forall k :: 0 <= k < |r| ==> r[k] == 0
  {
    seq(SECTOR_INTS, _ => 0)
  }

  lemma BeZero()
    ensures Be(0, 4) == [0, 0, 0, 0]
  {
    BeBytes4(0);
  }

  lemma FreeUnique(a: seq<bool>, b: seq<bool>, owner: seq<int>)
    requires FreeOk(a, owner) && FreeOk(b, owner)
    ensures a == b
  {
  }

  function Trues(n: nat): (r: seq<bool>)
    ensures |r| == n && forall k :: 0 <= k < n ==> r[k]
  {
    seq(n, _ => true)
  }

  /** Only the sectors of the header and of the chunks before i are marked as taken. */
  ghost predicate Seen(free: seq<bool>, owner: seq<int>, i: nat) {
    |free| == |owner| && forall k :: 0 <= k < |free| ==> (free[k] <==> owner[k] == FREE || owner[k] >= i)
  }

  lemma SeenNone(offs: seq<nat>, owner: seq<int>)
    requires OwnersOk(offs, owner)
    ensures |offs| == SECTOR_INTS && |owner| >= 2 && Seen(Trues(|owner|)[0 := false][1 := false], owner, 0)
  {
    hide RunOk, InRun;
  }

  lemma SeenStep(free: seq<bool>, offs: seq<nat>, owner: seq<int>, i: nat)
    requires Seen(free, owner, i) && OwnersOk(offs, owner) && i < |offs|
    ensures offs[i] == 0 ==> Seen(free, owner, i + 1)
    ensures offs[i] != 0 ==> First(offs[i]) + Count(offs[i]) <= |free| && Seen(Marked(free, First(offs[i]), Count(offs[i]), false), owner, i + 1)
  {
    hide RunOk;
    if offs[i] != 0 {
      InsideFile(offs, owner, i);
      OwnRun(offs, owner, i);
    }
    forall k | 0 <= k < |owner| && owner[k] == i ensures offs[i] != 0 && InRun(offs[i], k) {
      assert owner[k] == FREE || (0 <= owner[k] < |offs| && offs[owner[k]] != 0 && InRun(offs[owner[k]], k));
    }
  }

  lemma SeenAll(free: seq<bool>, offs: seq<nat>, owner: seq<int>)
    requires Seen(free, owner, SECTOR_INTS) && OwnersOk(offs, owner)
    ensures FreeOk(free, owner)
  {
    hide RunOk, InRun;
  }

  lemma HeaderSizes(stream: seq<byte>, offs: seq<nat>, times: seq<int>)
    requires HeaderOk(stream, offs, times)
    ensures |offs| == SECTOR_INTS && |times| == SECTOR_INTS && |stream| >= 2 * SECTOR_BYTES
  {
  }

  lemma HeaderWords(stream: seq<byte>, offs: seq<nat>, times: seq<int>, i: nat)
    requires HeaderOk(stream, offs, times) && i < SECTOR_INTS
    ensures SECTOR_BYTES + 4 * i + 4 <= |stream| && |offs| == SECTOR_INTS && |times| == SECTOR_INTS
    ensures FromBe(stream[4 * i..4 * i + 4]) == offs[i] && FromBe(stream[SECTOR_BYTES + 4 * i..SECTOR_BYTES + 4 * i + 4]) == Word(times[i])
  {
    hide FromBe, Be, Word;
    assert WordAt(stream, 4 * i, offs[i]) && WordAt(stream, SECTOR_BYTES + 4 * i, Word(times[i]));
    ByteSizes();
    BeRoundTrip(offs[i], 4);
    BeRoundTrip(Word(times[i]), 4);
  }

  lemma InHeader(stream: seq<byte>, offs: seq<nat>, times: seq<int>, free: seq<bool>, owner: seq<int>, contents: map<nat, seq<byte>>, i: nat)
    requires RegionOk(stream, offs, times, free, owner, contents) && i < SECTOR_INTS
    ensures |stream| >= 2 * SECTOR_BYTES && |offs| == SECTOR_INTS && FromBe(stream[4 * i..4 * i + 4]) == offs[i]
  {
    hide OwnersOk, FreeOk, ContentsOk, FromBe;
    HeaderWords(stream, offs, times, i);
  }

  lemma InRecord(stream: seq<byte>, offset: nat, z: seq<byte>)
    requires ChunkAt(stream, offset, z)
    ensures |z| + 4 <= 4096 * (offset % 256) && offset / 256 == First(offset)
  {
  }

  lemma Bodies(z: seq<byte>)
    ensures Body(z) == [2] + z && Body(z)[0] == VERSION_DEFLATE && Body(z)[1..] == z
  {
  }

  lemma FourBytes(s: seq<byte>)
    requires |s| == 4
    ensures var a: nat, b: nat, c: nat, d: nat := s[0], s[1], s[2], s[3];
      FromBe(s) == a * 0x100_0000 + b * 0x1_0000 + c * 0x100 + d
  {
    FromBeSnoc(s[..3], s[3]);
    FromBeSnoc(s[..2], s[2]);
    FromBeSnoc(s[..1], s[1]);
    FromBeSnoc([], s[0]);
    assert s[..3] + [s[3]] == s && s[..2] + [s[2]] == s[..3] && s[..1] + [s[1]] == s[..2] && [] + [s[0]] == s[..1];
  }

  /** The word in front of a stored chunk is its length, and the chunk follows. */
  lemma ChunkBytes(stream: seq<byte>, offset: nat, body: seq<byte>)
    requires ChunkAt(stream, offset, body) && SECTOR_BYTES * (First(offset) + Count(offset)) <= |stream| && Count(offset) <= 127
    ensures var p := SECTOR_BYTES * First(offset);
      && p + 4 + |body| <= |stream| && FromBe(stream[p..p + 4]) == |body| <= SECTOR_BYTES * Count(offset)
      && 1 <= |body| && stream[p + 4..p + 4 + |body|] == body
  {
    hide FromBe, First, Count, Be;
    var p := SECTOR_BYTES * First(offset);
    ByteSizes();
    BeRoundTrip(|body|, 4);
    RecordParts(body);
    assert stream[p..p + 4] == Record(body)[..4];
    assert stream[p + 4..p + 4 + |body|] == Record(body)[4..];
  }

  lemma RecordParts(body: seq<byte>)
    ensures Record(body)[..4] == Be(|body|, 4) && Record(body)[4..] == body
  {
    hide Be;
  }

  lemma RegionSizes(stream: seq<byte>, offs: seq<nat>, times: seq<int>, free: seq<bool>, owner: seq<int>, contents: map<nat, seq<byte>>, i: nat)
    requires RegionOk(stream, offs, times, free, owner, contents) && i < |offs|
    ensures |stream| >= SECTOR_BYTES * |free| && |free| == |owner| && |offs| == SECTOR_INTS
    ensures offs[i] == 0 ==> First(offs[i]) == 0 && i !in contents
    ensures offs[i] != 0 ==> RunOk(offs[i], |free|) && i in contents && ChunkAt(stream, offs[i], contents[i])
  {
    hide HeaderOk, ChunkAt, RunOk, InRun;
  }

  lemma BetweenSizes(stream: seq<byte>, offs: seq<nat>, times: seq<int>, owner: seq<int>, contents: map<nat, seq<byte>>, i: nat, free: seq<bool>)
    requires Mid(stream, offs, times, owner, contents, i) && FreeOk(free, owner)
    ensures |free| == |owner|
  {
  }

  /** Wherever the chunk goes, its bytes are within reach. */
  lemma MoveLow(stream: seq<byte>, offs: seq<nat>, times: seq<int>, owner: seq<int>, contents: map<nat, seq<byte>>, i: nat,
                free: seq<bool>, s: nat, n: nat)
    requires Mid(stream, offs, times, owner, contents, i) && FreeOk(free, owner) && 1 <= n <= 127
    requires (FreeRun(free, s, n) && NoneBefore(free, s, n)) || (s == |free| && forall t: nat :: !FreeRun(free, t, n))
    ensures s + n <= MAX_SECTORS
  {
    hide HeaderOk, ChunkAt, OwnersOk, FreeOk;
    FirstFitLow(free, offs[i := 0], owner, s, n);
  }

  /** A timestamp changes, and nothing else. */
  lemma TimestampOk(stream: seq<byte>, offs: seq<nat>, times: seq<int>, free: seq<bool>, owner: seq<int>, contents: map<nat, seq<byte>>, i: nat, time: int)
    requires RegionOk(stream, offs, times, free, owner, contents) && i < SECTOR_INTS
    ensures SECTOR_BYTES + 4 * i + 4 <= |stream|
    ensures RegionOk(Splice(stream, SECTOR_BYTES + 4 * i, Be(Word(time), 4)), offs, times[i := time], free, owner, contents)
  {
    hide Be, Splice, OwnersOk, WordAt, ChunkAt, Word;
    TimestampWritten(stream, offs, times, i, time);
    ChunksBehindHeader(stream, Splice(stream, SECTOR_BYTES + 4 * i, Be(Word(time), 4)), offs, owner, contents, SECTOR_INTS);
  }

  lemma MarkNone(free: seq<bool>, first: nat, value: bool)
    ensures Marked(free, first, 0, value) == free
  {
  }

  lemma RunFits(free: seq<bool>, first: nat, n: nat)
    requires FreeRun(free, first, n)
    ensures first + n <= |free|
  {
  }

  lemma MidSizes(stream: seq<byte>, offs: seq<nat>, times: seq<int>, owner: seq<int>, contents: map<nat, seq<byte>>, i: nat,
                 free: seq<bool>, first: nat, n: nat)
    requires Mid(stream, offs, times, owner, contents, i) && FreeOk(free, owner) && FreeRun(free, first, n) && 0 < n <= 127 && first + n <= MAX_SECTORS
    ensures |stream| >= SECTOR_BYTES * |free| && |free| == |owner| && 2 <= |owner| && |offs| == SECTOR_INTS
    ensures FreeOwners(owner, first, n)
  {
    hide HeaderOk, ChunkAt;
    FoundOwners(free, owner, first, n);
  }

  lemma GrownSizes(stream: seq<byte>, offs: seq<nat>, times: seq<int>, owner: seq<int>, contents: map<nat, seq<byte>>, i: nat,
                   free: seq<bool>, n: nat)
    requires Mid(stream, offs, times, owner, contents, i) && FreeOk(free, owner) && 0 < n <= 127 && |free| + n <= MAX_SECTORS
    ensures |stream| >= SECTOR_BYTES * |free| && |free| == |owner| && |owner| >= 2 && |offs| == SECTOR_INTS
    ensures FreeOwners(owner + Frees(n), |free|, n)
  {
    hide HeaderOk, ChunkAt;
  }

  lemma RecordHead(z: seq<byte>)
    ensures |Record(Body(z))| == |z| + CHUNK_HEADER_SIZE && Record(Body(z)) == Head(|z| + 1) + z
  {
    hide Be;
  }

  lemma SpliceJoin(before: seq<byte>, start: seq<byte>, p: nat, head: seq<byte>, z: seq<byte>)
    requires p + |head| + |z| <= |before| && start == Splice(before, p, head)
    ensures start[..p + |head|] + z + start[p + |head| + |z|..] == Splice(before, p, head + z)
  {
  }
}
