/**
 * A region file as a value: two header sectors with an offset and a timestamp per
 * chunk, and runs of sectors that hold the chunks.
 */
module RegionLayout {
  import opened Bits
  import opened BinaryStreams

  const SECTOR_BYTES := 4096
  const SECTOR_INTS := 1024
  const CHUNK_HEADER_SIZE := 5
  const LENGTH_BYTES := 4
  const VERSION_GZIP := 1
  const VERSION_DEFLATE := 2
  /** A chunk's bytes lie where a signed 32-bit number can point. */
  const MAX_SECTORS := 0x8_0000

  /** Who a sector belongs to: a chunk's number, or one of these. */
  const FREE := -1
  const HEADER := -2

  function First(offset: nat): nat {
    offset / 256
  }

  function Count(offset: nat): nat {
    offset % 256
  }

  /** The bytes at p are the big-endian word v. */
  predicate WordAt(stream: seq<byte>, p: nat, v: nat) {
    p + 4 <= |stream| && v < 0x1_0000_0000 && stream[p..p + 4] == Be(v, 4)
  }

  /** What the header keeps of a timestamp: its low 32 bits. */
  function Word(time: int): (v: nat)
    ensures v < 0x1_0000_0000
  {
    time % 0x1_0000_0000
  }

  /** What reading a word gives: a signed 32-bit number. */
  function Signed(v: nat): int {
    if v < 0x8000_0000 then v else v - 0x1_0000_0000
  }

  /** Offsets and timestamps are the words of the two header sectors. */
  ghost predicate HeaderOk(stream: seq<byte>, offs: seq<nat>, times: seq<int>) {
    && |offs| == SECTOR_INTS && |times| == SECTOR_INTS && |stream| >= 2 * SECTOR_BYTES
    && (forall i: nat :: i < SECTOR_INTS ==> WordAt(stream, 4 * i, offs[i]))
    && (forall i: nat :: i < SECTOR_INTS ==> WordAt(stream, SECTOR_BYTES + 4 * i, Word(times[i])))
  }

  /** A chunk's run of sectors lies behind the header, inside the file, and within reach. */
  predicate RunOk(offset: nat, sectors: nat) {
    && First(offset) >= 2 && 1 <= Count(offset) <= 127
    && First(offset) + Count(offset) <= sectors && First(offset) + Count(offset) <= MAX_SECTORS
  }

  predicate InRun(offset: nat, k: nat) {
    First(offset) <= k < First(offset) + Count(offset)
  }

  /** Every sector has one owner: the header, a chunk whose run it is in, or nobody. */
  ghost predicate OwnersOk(offs: seq<nat>, owner: seq<int>) {
    && |offs| == SECTOR_INTS && 2 <= |owner| && owner[0] == HEADER && owner[1] == HEADER
    && (forall i :: 0 <= i < |offs| && offs[i] != 0 ==> RunOk(offs[i], |owner|))
    && (forall i, k :: 0 <= i < |offs| && 0 <= k < |owner| && offs[i] != 0 && InRun(offs[i], k) ==> owner[k] == i)
    && (forall k :: 2 <= k < |owner| ==> owner[k] == FREE || (0 <= owner[k] < |offs| && offs[owner[k]] != 0 && InRun(offs[owner[k]], k)))
  }

  /** The free map marks exactly the sectors nobody owns. */
  predicate FreeOk(free: seq<bool>, owner: seq<int>) {
    |free| == |owner| && forall k :: 0 <= k < |free| ==> (free[k] <==> owner[k] == FREE)
  }

  /** The runs of two chunks share no sector. */
  lemma RunsDisjoint(offs: seq<nat>, owner: seq<int>, i: nat, j: nat)
    requires OwnersOk(offs, owner) && i < |offs| && j < |offs| && i != j && offs[i] != 0 && offs[j] != 0
    ensures First(offs[i]) + Count(offs[i]) <= First(offs[j]) || First(offs[j]) + Count(offs[j]) <= First(offs[i])
  {
    assert RunOk(offs[i], |owner|) && RunOk(offs[j], |owner|);
    var k := if First(offs[i]) < First(offs[j]) then First(offs[j]) else First(offs[i]);
    OwnedBy(offs, owner, i, k);
    OwnedBy(offs, owner, j, k);
  }

  lemma OwnedBy(offs: seq<nat>, owner: seq<int>, i: nat, k: nat)
    requires OwnersOk(offs, owner) && i < |offs| && offs[i] != 0 && k < |owner|
    ensures InRun(offs[i], k) ==> owner[k] == i
  {
  }

  /** A stored chunk: a length, then that many bytes, compression kind first. */
  function Record(z: seq<byte>): seq<byte> {
    Be(|z|, 4) + z
  }

  predicate ChunkAt(stream: seq<byte>, offset: nat, z: seq<byte>) {
    var p := SECTOR_BYTES * First(offset);
    && 1 <= |z| && |z| + LENGTH_BYTES <= SECTOR_BYTES * Count(offset)
    && p + |z| + LENGTH_BYTES <= |stream|
    && stream[p..p + |z| + LENGTH_BYTES] == Record(z)
  }

  /** The chunks stored, compressed and with their compression kind in front, by number. */
  ghost predicate ContentsOk(stream: seq<byte>, offs: seq<nat>, contents: map<nat, seq<byte>>) {
    && |offs| == SECTOR_INTS
    && (forall i :: i in contents ==> i < SECTOR_INTS && offs[i] != 0)
    && (forall i: nat :: i < SECTOR_INTS && offs[i] != 0 ==> i in contents && ChunkAt(stream, offs[i], contents[i]))
  }

  /** The file has this many whole sectors; bytes behind the last one belong to none. */
  predicate Sectors(stream: seq<byte>, n: nat) {
    SECTOR_BYTES * n <= |stream| < SECTOR_BYTES * (n + 1)
  }

  /** A well-formed region. */
  ghost predicate RegionOk(stream: seq<byte>, offs: seq<nat>, times: seq<int>, free: seq<bool>, owner: seq<int>, contents: map<nat, seq<byte>>) {
    && Sectors(stream, |owner|)
    && HeaderOk(stream, offs, times) && OwnersOk(offs, owner) && FreeOk(free, owner) && ContentsOk(stream, offs, contents)
  }

  /** Bytes written over a stream. */
  function Splice(stream: seq<byte>, p: nat, bytes: seq<byte>): (r: seq<byte>)
    requires p + |bytes| <= |stream|
    ensures |r| == |stream| && r[p..p + |bytes|] == bytes
    ensures forall k :: 0 <= k < |r| && !(p <= k < p + |bytes|) ==> r[k] == stream[k]
  {
    stream[..p] + bytes + stream[p + |bytes|..]
  }

  /** Nothing changed between two byte positions. */
  predicate Same(a: seq<byte>, b: seq<byte>, lo: nat, hi: nat) {
    hi <= |a| && hi <= |b| && forall k :: lo <= k < hi ==> a[k] == b[k]
  }

  lemma SameSlice(a: seq<byte>, b: seq<byte>, lo: nat, hi: nat, p: nat, q: nat)
    requires Same(a, b, lo, hi) && lo <= p <= q <= hi
    ensures a[p..q] == b[p..q]
  {
  }

  lemma ChunkKept(a: seq<byte>, b: seq<byte>, offset: nat, z: seq<byte>)
    requires ChunkAt(a, offset, z)
    requires Same(a, b, SECTOR_BYTES * First(offset), SECTOR_BYTES * (First(offset) + Count(offset)))
    ensures ChunkAt(b, offset, z)
  {
    hide Record;
    var p := SECTOR_BYTES * First(offset);
    SameSlice(a, b, p, SECTOR_BYTES * (First(offset) + Count(offset)), p, p + |z| + LENGTH_BYTES);
  }

  lemma HeaderKept(a: seq<byte>, b: seq<byte>, offs: seq<nat>, times: seq<int>)
    requires HeaderOk(a, offs, times) && Same(a, b, 0, 2 * SECTOR_BYTES)
    ensures HeaderOk(b, offs, times)
  {
    hide Be, Word;
    forall i: nat | i < SECTOR_INTS ensures WordAt(b, 4 * i, offs[i]) && WordAt(b, SECTOR_BYTES + 4 * i, Word(times[i])) {
      assert WordAt(a, 4 * i, offs[i]) && WordAt(a, SECTOR_BYTES + 4 * i, Word(times[i]));
      SameSlice(a, b, 0, 2 * SECTOR_BYTES, 4 * i, 4 * i + 4);
      SameSlice(a, b, 0, 2 * SECTOR_BYTES, SECTOR_BYTES + 4 * i, SECTOR_BYTES + 4 * i + 4);
    }
  }

  /** The owners once chunk i has given its sectors back. */
  function Released(owner: seq<int>, i: nat): (r: seq<int>)
    ensures |r| == |owner| && forall k :: 0 <= k < |r| ==> r[k] == if owner[k] == i then FREE else owner[k]
  {
    seq(|owner|, k requires 0 <= k < |owner| => if owner[k] == i then FREE else owner[k])
  }

  /** The owners once chunk i has taken count sectors from first on. */
  function Taken(owner: seq<int>, first: nat, count: nat, i: nat): (r: seq<int>)
    ensures |r| == |owner| && forall k :: 0 <= k < |r| ==> r[k] == if first <= k < first + count then i else owner[k]
  {
    seq(|owner|, k requires 0 <= k < |owner| => if first <= k < first + count then i else owner[k])
  }

  function Offset(first: nat, count: nat): nat {
    first * 256 + count
  }

  lemma OffsetParts(first: nat, count: nat)
    requires count < 256
    ensures First(Offset(first, count)) == first && Count(Offset(first, count)) == count
    ensures count > 0 ==> Offset(first, count) != 0
    ensures first < MAX_SECTORS ==> Offset(first, count) < 0x8000_0000
  {
  }

  lemma ReleasedOk(offs: seq<nat>, owner: seq<int>, i: nat)
    requires OwnersOk(offs, owner) && i < |offs|
    ensures OwnersOk(offs[i := 0], Released(owner, i))
  {
    hide InRun, RunOk;
  }

  lemma TakenOk(offs: seq<nat>, owner: seq<int>, i: nat, first: nat, count: nat)
    requires OwnersOk(offs, owner) && i < |offs| && offs[i] == 0
    requires 2 <= first && 1 <= count <= 127 && first + count <= |owner| && first + count <= MAX_SECTORS
    requires forall k :: first <= k < first + count ==> owner[k] == FREE
    ensures OwnersOk(offs[i := Offset(first, count)], Taken(owner, first, count, i))
  {
    hide Offset, RunOk, First, Count;
    OffsetParts(first, count);
    var o, w := offs[i := Offset(first, count)], Taken(owner, first, count, i);
    assert RunOk(o[i], |owner|) by { NewRun(first, count, |owner|); }
    forall j, k | 0 <= j < |o| && 0 <= k < |w| && o[j] != 0 && InRun(o[j], k) ensures w[k] == j {
      if j != i {
        assert offs[j] == o[j] && owner[k] == j;
      }
    }
    forall k | 2 <= k < |w| ensures w[k] == FREE || (0 <= w[k] < |o| && o[w[k]] != 0 && InRun(o[w[k]], k)) {
      assert owner[k] == FREE || (0 <= owner[k] < |offs| && offs[owner[k]] != 0 && InRun(offs[owner[k]], k));
    }
  }

  lemma NewRun(first: nat, count: nat, sectors: nat)
    requires 2 <= first && 1 <= count <= 127 && first + count <= sectors && first + count <= MAX_SECTORS
    ensures RunOk(Offset(first, count), sectors)
  {
    OffsetParts(first, count);
  }

  function Frees(n: nat): (r: seq<int>)
    ensures |r| == n && forall k :: 0 <= k < n ==> r[k] == FREE
  {
    seq(n, _ => FREE)
  }

  lemma GrownOk(offs: seq<nat>, owner: seq<int>, n: nat)
    requires OwnersOk(offs, owner)
    ensures OwnersOk(offs, owner + Frees(n))
  {
    hide InRun;
    forall i, k | 0 <= i < |offs| && 0 <= k < |owner| + n && offs[i] != 0 && InRun(offs[i], k) ensures (owner + Frees(n))[k] == i {
      RunInside(offs[i], |owner|, k);
    }
  }

  lemma RunInside(offset: nat, sectors: nat, k: nat)
    ensures RunOk(offset, sectors) && InRun(offset, k) ==> k < sectors
  {
  }

  /** Writing inside a run of sectors that chunk j does not own leaves chunk j alone. */
  lemma Elsewhere(offs: seq<nat>, owner: seq<int>, j: nat, first: nat, count: nat)
    requires OwnersOk(offs, owner) && j < |offs| && offs[j] != 0
    requires first + count <= |owner| && count > 0 && forall k :: first <= k < first + count ==> owner[k] != j
    ensures First(offs[j]) + Count(offs[j]) <= first || first + count <= First(offs[j])
  {
    assert RunOk(offs[j], |owner|);
    var k := if First(offs[j]) < first then first else First(offs[j]);
    OwnedBy(offs, owner, j, k);
  }

  lemma RecordSize(z: seq<byte>)
    ensures |Record(z)| == |z| + LENGTH_BYTES
  {
  }

  /** The stored chunks but for chunk i. */
  ghost predicate OthersOk(stream: seq<byte>, offs: seq<nat>, contents: map<nat, seq<byte>>, i: nat) {
    && |offs| == SECTOR_INTS
    && (forall j :: j in contents && j != i ==> j < SECTOR_INTS && offs[j] != 0)
    && (forall j: nat :: j < SECTOR_INTS && j != i && offs[j] != 0 ==> j in contents && ChunkAt(stream, offs[j], contents[j]))
  }

  /** Writing chunk i into sectors that no other chunk owns leaves the others as they were. */
  lemma OthersKept(stream: seq<byte>, after: seq<byte>, offs: seq<nat>, owner: seq<int>, contents: map<nat, seq<byte>>,
                   i: nat, first: nat, count: nat)
    requires OwnersOk(offs, owner) && OthersOk(stream, offs, contents, i)
    requires |stream| == |after| >= SECTOR_BYTES * |owner| && first + count <= |owner| && count > 0
    requires forall k :: first <= k < first + count ==> owner[k] == FREE || owner[k] == i
    requires forall k :: 0 <= k < |stream| && !(SECTOR_BYTES * first <= k < SECTOR_BYTES * (first + count)) ==> after[k] == stream[k]
    ensures OthersOk(after, offs, contents, i)
  {
    hide ChunkAt, Record, OwnersOk;
    forall j: nat | j < SECTOR_INTS && j != i && offs[j] != 0 ensures j in contents && ChunkAt(after, offs[j], contents[j]) {
      Elsewhere(offs, owner, j, first, count);
      InsideFile(offs, owner, j);
      ChunkKept(stream, after, offs[j], contents[j]);
    }
  }

  lemma InsideFile(offs: seq<nat>, owner: seq<int>, j: nat)
    requires OwnersOk(offs, owner) && j < |offs| && offs[j] != 0
    ensures 2 <= First(offs[j]) && First(offs[j]) + Count(offs[j]) <= |owner|
  {
    assert RunOk(offs[j], |owner|);
  }

  /** The record just written is the chunk. */
  lemma ChunkWritten(stream: seq<byte>, first: nat, count: nat, z: seq<byte>)
    requires 0 < count < 256 && 1 <= |z| && |z| + LENGTH_BYTES <= SECTOR_BYTES * count && SECTOR_BYTES * (first + count) <= |stream|
    ensures SECTOR_BYTES * first + |Record(z)| <= |stream|
    ensures ChunkAt(Splice(stream, SECTOR_BYTES * first, Record(z)), Offset(first, count), z)
  {
    hide Record, Offset, First, Count, Splice;
    RecordSize(z);
    OffsetParts(first, count);
  }

  /** A word in the header changes; nothing behind the header does. */
  lemma OffsetWritten(stream: seq<byte>, offs: seq<nat>, times: seq<int>, i: nat, v: nat)
    requires HeaderOk(stream, offs, times) && i < SECTOR_INTS && v < 0x1_0000_0000
    ensures HeaderOk(Splice(stream, 4 * i, Be(v, 4)), offs[i := v], times)
  {
    hide Be, Splice, Word;
    var after := Splice(stream, 4 * i, Be(v, 4));
    forall j: nat | j < SECTOR_INTS ensures WordAt(after, 4 * j, offs[i := v][j]) && WordAt(after, SECTOR_BYTES + 4 * j, Word(times[j])) {
      assert WordAt(stream, 4 * j, offs[j]) && WordAt(stream, SECTOR_BYTES + 4 * j, Word(times[j]));
      WordKept(stream, after, 4 * i, 4 * j, offs[j]);
      WordKept(stream, after, 4 * i, SECTOR_BYTES + 4 * j, Word(times[j]));
    }
  }

  lemma TimestampWritten(stream: seq<byte>, offs: seq<nat>, times: seq<int>, i: nat, time: int)
    requires HeaderOk(stream, offs, times) && i < SECTOR_INTS
    ensures HeaderOk(Splice(stream, SECTOR_BYTES + 4 * i, Be(Word(time), 4)), offs, times[i := time])
  {
    hide Be, Splice, Word;
    var after := Splice(stream, SECTOR_BYTES + 4 * i, Be(Word(time), 4));
    forall j: nat | j < SECTOR_INTS ensures WordAt(after, 4 * j, offs[j]) && WordAt(after, SECTOR_BYTES + 4 * j, Word(times[i := time][j])) {
      assert WordAt(stream, 4 * j, offs[j]) && WordAt(stream, SECTOR_BYTES + 4 * j, Word(times[j]));
      WordKept(stream, after, SECTOR_BYTES + 4 * i, 4 * j, offs[j]);
      WordKept(stream, after, SECTOR_BYTES + 4 * i, SECTOR_BYTES + 4 * j, Word(times[j]));
    }
  }

  /** A word elsewhere keeps its bytes. */
  lemma WordKept(a: seq<byte>, b: seq<byte>, p: nat, q: nat, v: nat)
    requires WordAt(a, q, v) && |b| == |a| && forall k :: 0 <= k < |a| && !(p <= k < p + 4) ==> b[k] == a[k]
    ensures (q + 4 <= p || p + 4 <= q) ==> WordAt(b, q, v)
  {
    hide Be;
    if q + 4 <= p || p + 4 <= q {
      assert b[q..q + 4] == a[q..q + 4];
    }
  }

  /** Writing in the header leaves all chunks as they were. */
  lemma ChunksBehindHeader(stream: seq<byte>, after: seq<byte>, offs: seq<nat>, owner: seq<int>, contents: map<nat, seq<byte>>, i: nat)
    requires OwnersOk(offs, owner) && OthersOk(stream, offs, contents, i) && |stream| == |after| >= SECTOR_BYTES * |owner|
    requires forall k :: 2 * SECTOR_BYTES <= k < |stream| ==> after[k] == stream[k]
    ensures OthersOk(after, offs, contents, i)
  {
    hide ChunkAt, Record, OwnersOk;
    forall j: nat | j < SECTOR_INTS && j != i && offs[j] != 0 ensures j in contents && ChunkAt(after, offs[j], contents[j]) {
      InsideFile(offs, owner, j);
      ChunkKept(stream, after, offs[j], contents[j]);
    }
  }
}
