/**
 * Whatever is stored, and however often the file is closed and opened again, every
 * chunk reads as what was stored last.
 */
module RegionRuns {
  import opened Bits
  import opened RegionLayout
  import opened FreeMap
  import opened RegionStores

  datatype Op = Store(x: int, z: int, data: seq<byte>, now: int) | Reopen

  predicate Stores(op: Op, x: int, z: int, encode: seq<byte> -> Option<seq<byte>>) {
    op.Store? && op.x == x && op.z == z && encode(op.data).Some?
  }

  /** What chunk (x, z) reads as once ops were done, when it read as before at the start. */
  function LastStored(ops: seq<Op>, x: int, z: int, encode: seq<byte> -> Option<seq<byte>>, before: seq<byte>): seq<byte> {
    if ops == [] then before
    else if Stores(ops[|ops| - 1], x, z, encode) then ops[|ops| - 1].data
    else LastStored(ops[..|ops| - 1], x, z, encode, before)
  }

  /** Chunks are stored inside the region, in at most 127 sectors each. */
  predicate OpOk(op: Op, encode: seq<byte> -> Option<seq<byte>>) {
    op.Store? ==>
      !OutOfBounds(op.x, op.z) && (encode(op.data).Some? ==> Required(encode(op.data).value) <= 127)
  }

  ghost function Parts(r: Region): set<object> {
    {r, r.offsets, r.timestamps}
  }

  /** Stores a chunk, or closes the file and opens it again. */
  method Step(r: Region, op: Op) returns (next: Region)
    requires r.Valid() && r.Codec() && OpOk(op, r.encode)
    modifies r, r.offsets, r.timestamps
    ensures next.Valid() && next.encode == r.encode && next.decode == r.decode
    ensures fresh(Parts(next) - Parts(r))
    ensures forall x, z :: next.ChunkOf(x, z) == if Stores(op, x, z, r.encode) then op.data else old(r.ChunkOf(x, z))
    ensures op.Reopen? ==> next.stream == FileBytes(old(r.stream)) && next.offsets[..] == old(r.offsets[..])
    ensures op.Reopen? ==> next.timestamps[..] == Reread(old(r.timestamps[..]))
    ensures op.Reopen? ==> exists n: nat :: n <= 1 && next.free == old(r.free) + Trues(n)
    ensures op.Reopen? && FileBytes(old(r.stream)) == old(r.stream) ==> next.free == old(r.free)
  {
    hide RegionOk, Placed, Required, First, Count, Marked, FileBytes;
    next := r;
    match op
    case Store(x, z, data, now) =>
      r.SetChunk(x, z, data, now);
    case Reopen =>
      ghost var n := PaddedOk(r.stream, r.offsets[..], r.timestamps[..], r.free, r.owner, r.contents);
      SameSectors(r.stream, r.offsets[..], r.timestamps[..], r.free, r.owner, r.contents);
      next := Open(r.stream, r.encode, r.decode, r.offsets[..], r.timestamps[..], r.free + Trues(n), r.owner + Frees(n), r.contents);
      assert n == 0 ==> r.free + Trues(n) == r.free;
  }

  lemma SameSectors(stream: seq<byte>, offs: seq<nat>, times: seq<int>, free: seq<bool>, owner: seq<int>, contents: map<nat, seq<byte>>)
    requires RegionOk(stream, offs, times, free, owner, contents)
    ensures |stream| / SECTOR_BYTES == |free|
  {
    hide HeaderOk, OwnersOk, ContentsOk;
  }

  /** A run over a region reads back what was stored last, and leaves other chunks alone. */
  method Run(r0: Region, ops: seq<Op>) returns (r: Region)
    requires r0.Valid() && r0.Codec()
    requires forall op :: op in ops ==> OpOk(op, r0.encode)
    modifies r0, r0.offsets, r0.timestamps
    ensures r.Valid()
    ensures forall x, z :: r.ChunkOf(x, z) == LastStored(ops, x, z, r0.encode, old(r0.ChunkOf(x, z)))
  {
    hide RegionOk, OpOk, Region.ChunkOf, Region.Codec;
    r := r0;
    var i := 0;
    while i < |ops|
      invariant i <= |ops| && r.Valid() && r.encode == r0.encode && r.decode == r0.decode && r.Codec()
      invariant fresh(Parts(r) - Parts(r0))
      invariant forall x, z :: r.ChunkOf(x, z) == LastStored(ops[..i], x, z, r0.encode, old(r0.ChunkOf(x, z)))
    {
      ghost var was := r;
      label L:
      r := Step(r, ops[i]);
      SameCodec(was, r);
      forall x, z ensures r.ChunkOf(x, z) == LastStored(ops[..i + 1], x, z, r0.encode, old(r0.ChunkOf(x, z))) {
        OneMore(ops, i, x, z, r0.encode, old(r0.ChunkOf(x, z)));
      }
      i := i + 1;
    }
    assert ops[..i] == ops;
  }

  lemma SameCodec(a: Region, b: Region)
    requires a.Codec() && a.encode == b.encode && a.decode == b.decode
    ensures b.Codec()
  {
  }

  lemma OneMore(ops: seq<Op>, i: nat, x: int, z: int, encode: seq<byte> -> Option<seq<byte>>, before: seq<byte>)
    requires i < |ops|
    ensures LastStored(ops[..i + 1], x, z, encode, before)
      == if Stores(ops[i], x, z, encode) then ops[i].data else LastStored(ops[..i], x, z, encode, before)
  {
    assert ops[..i + 1][..i] == ops[..i];
  }
}
