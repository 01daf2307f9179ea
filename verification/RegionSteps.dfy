/**
 * Storing a chunk step by step: what holds while its sectors are given back,
 * found again, written, and entered in the header.
 */
module RegionSteps {
  import opened Bits
  import opened BinaryStreams
  import opened RegionLayout

  /** All is well but for chunk i, which owns no sector. */
  ghost predicate Mid(stream: seq<byte>, offs: seq<nat>, times: seq<int>, owner: seq<int>, contents: map<nat, seq<byte>>, i: nat) {
    && i < SECTOR_INTS && Sectors(stream, |owner|)
    && HeaderOk(stream, offs, times) && OthersOk(stream, offs, contents, i) && OwnersOk(offs[i := 0], owner)
  }

  lemma OthersIgnore(stream: seq<byte>, offs: seq<nat>, contents: map<nat, seq<byte>>, i: nat, v: nat)
    requires i < |offs|
    ensures OthersOk(stream, offs, contents, i) <==> OthersOk(stream, offs[i := v], contents, i)
  {
    hide ChunkAt;
  }

  /** The chunk gives its sectors back. */
  lemma MidReleased(stream: seq<byte>, offs: seq<nat>, times: seq<int>, free: seq<bool>, owner: seq<int>, contents: map<nat, seq<byte>>, i: nat)
    requires RegionOk(stream, offs, times, free, owner, contents) && i < SECTOR_INTS
    ensures Mid(stream, offs, times, Released(owner, i), contents, i)
  {
    hide HeaderOk, ChunkAt, OwnersOk;
    ReleasedOk(offs, owner, i);
  }

  ghost predicate FreeOwners(owner: seq<int>, first: nat, count: nat) {
    && 2 <= first && 1 <= count <= 127 && first + count <= |owner| && first + count <= MAX_SECTORS
    && forall k :: first <= k < first + count ==> owner[k] == FREE
  }

  /** The chunk's record is written into free sectors. */
  lemma MidRecord(stream: seq<byte>, offs: seq<nat>, times: seq<int>, owner: seq<int>, contents: map<nat, seq<byte>>, i: nat,
                  first: nat, count: nat, z: seq<byte>)
    requires Mid(stream, offs, times, owner, contents, i) && FreeOwners(owner, first, count)
    requires 1 <= |z| && |z| + LENGTH_BYTES <= SECTOR_BYTES * count
    ensures SECTOR_BYTES * first + |Record(z)| <= |stream|
    ensures var after := Splice(stream, SECTOR_BYTES * first, Record(z));
      Mid(after, offs, times, owner, contents, i) && ChunkAt(after, Offset(first, count), z)
  {
    hide ChunkAt, OwnersOk, OthersOk, Record, Offset, Splice, WordAt;
    RecordSize(z);
    ChunkWritten(stream, first, count, z);
    var after := Splice(stream, SECTOR_BYTES * first, Record(z));
    OthersIgnore(stream, offs, contents, i, 0);
    OthersIgnore(after, offs, contents, i, 0);
    OthersKept(stream, after, offs[i := 0], owner, contents, i, first, count);
    HeaderKept(stream, after, offs, times);
  }

  /** The offset is entered in the header. */
  lemma MidOffset(stream: seq<byte>, offs: seq<nat>, times: seq<int>, owner: seq<int>, contents: map<nat, seq<byte>>, i: nat, v: nat)
    requires Mid(stream, offs, times, owner, contents, i) && v < 0x1_0000_0000
    ensures 4 * i + 4 <= |stream|
    ensures Mid(Splice(stream, 4 * i, Be(v, 4)), offs[i := v], times, owner, contents, i)
  {
    hide ChunkAt, OwnersOk, OthersOk, Be, Splice, WordAt;
    var after := Splice(stream, 4 * i, Be(v, 4));
    OffsetWritten(stream, offs, times, i, v);
    OthersIgnore(stream, offs, contents, i, 0);
    ChunksBehindHeader(stream, after, offs[i := 0], owner, contents, i);
    assert offs[i := v][i := 0] == offs[i := 0];
    OthersIgnore(after, offs[i := v], contents, i, 0);
  }

  /** Writing in the header does not touch a record behind it. */
  lemma RecordStays(stream: seq<byte>, p: nat, v: nat, offset: nat, z: seq<byte>)
    requires ChunkAt(stream, offset, z) && First(offset) >= 2 && p + 4 <= 2 * SECTOR_BYTES
    requires SECTOR_BYTES * (First(offset) + Count(offset)) <= |stream|
    ensures ChunkAt(Splice(stream, p, Be(v, 4)), offset, z)
  {
    hide ChunkAt, Be, Splice, First, Count;
    ChunkKept(stream, Splice(stream, p, Be(v, 4)), offset, z);
  }

  /** The file grows by sectors nobody owns. */
  lemma MidGrown(stream: seq<byte>, more: seq<byte>, offs: seq<nat>, times: seq<int>, owner: seq<int>, contents: map<nat, seq<byte>>, i: nat, n: nat)
    requires Mid(stream, offs, times, owner, contents, i) && |more| == SECTOR_BYTES * n
    ensures Mid(stream + more, offs, times, owner + Frees(n), contents, i)
  {
    hide ChunkAt, OwnersOk, WordAt;
    var after := stream + more;
    GrownOk(offs[i := 0], owner, n);
    HeaderKept(stream, after, offs, times);
    forall j: nat | j < SECTOR_INTS && j != i && offs[j] != 0 ensures j in contents && ChunkAt(after, offs[j], contents[j]) {
      InsideFile(offs[i := 0], owner, j);
      ChunkKept(stream, after, offs[j], contents[j]);
    }
  }

  /** The chunk takes its new sectors, and all is well. */
  lemma MidTaken(stream: seq<byte>, offs: seq<nat>, times: seq<int>, free: seq<bool>, owner: seq<int>, contents: map<nat, seq<byte>>, i: nat,
                 first: nat, count: nat, z: seq<byte>)
    requires Mid(stream, offs, times, owner, contents, i) && FreeOwners(owner, first, count)
    requires offs[i] == Offset(first, count) && ChunkAt(stream, offs[i], z) && FreeOk(free, Taken(owner, first, count, i))
    ensures RegionOk(stream, offs, times, free, Taken(owner, first, count, i), contents[i := z])
  {
    hide ChunkAt, OwnersOk, HeaderOk, Offset;
    TakenOk(offs[i := 0], owner, i, first, count);
    assert offs[i := 0][i := Offset(first, count)] == offs;
    OffsetParts(first, count);
  }

  /** A chunk that needs as many sectors as it has is written over. */
  lemma Rewritten(stream: seq<byte>, offs: seq<nat>, times: seq<int>, free: seq<bool>, owner: seq<int>, contents: map<nat, seq<byte>>, i: nat, z: seq<byte>)
    requires RegionOk(stream, offs, times, free, owner, contents) && i < SECTOR_INTS && offs[i] != 0
    requires 1 <= |z| && |z| + LENGTH_BYTES <= SECTOR_BYTES * Count(offs[i])
    ensures SECTOR_BYTES * First(offs[i]) + |Record(z)| <= |stream|
    ensures RegionOk(Splice(stream, SECTOR_BYTES * First(offs[i]), Record(z)), offs, times, free, owner, contents[i := z])
  {
    hide ChunkAt, HeaderOk, Record, Splice, InRun;
    RecordSize(z);
    var first, count := First(offs[i]), Count(offs[i]);
    InsideFile(offs, owner, i);
    assert RunOk(offs[i], |owner|) && Offset(first, count) == offs[i];
    ChunkWritten(stream, first, count, z);
    var after := Splice(stream, SECTOR_BYTES * first, Record(z));
    OwnRun(offs, owner, i);
    OthersKept(stream, after, offs, owner, contents, i, first, count);
    HeaderKept(stream, after, offs, times);
  }

  lemma OwnRun(offs: seq<nat>, owner: seq<int>, i: nat)
    requires OwnersOk(offs, owner) && i < |offs| && offs[i] != 0
    ensures forall k :: First(offs[i]) <= k < First(offs[i]) + Count(offs[i]) ==> 0 <= k < |owner| && owner[k] == i
  {
    InsideFile(offs, owner, i);
    forall k: nat | First(offs[i]) <= k < First(offs[i]) + Count(offs[i]) ensures owner[k] == i {
      OwnedBy(offs, owner, i, k);
    }
  }
}
