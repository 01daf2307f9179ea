/**
 * A chunk: a column of sub-chunks, each with layers of block storages.
 */
module Chunks {
  import opened BlockStorages
  import opened Sequences

  const SECTIONS := 25
  const LAYERS := 2
  const LAYER_NOT_PRESENT := -2

  class SubChunk {
    const layers: seq<BlockStorage>

    constructor (layers: seq<BlockStorage>)
      ensures this.layers == layers
    {
      this.layers := layers;
    }
  }

  /** Two storages share no memory. */
  predicate Apart(a: BlockStorage, b: BlockStorage) {
    a != b && a.blocks != b.blocks
  }

  /** Two storages of the same air. */
  method NewSubChunk(air: int) returns (s: SubChunk)
    ensures fresh(s) && |s.layers| == LAYERS && Apart(s.layers[0], s.layers[1])
    ensures forall l :: 0 <= l < LAYERS ==> fresh(s.layers[l]) && fresh(s.layers[l].blocks)
    ensures forall l :: 0 <= l < LAYERS ==> s.layers[l].Valid() && s.layers[l].Air() == air && AllAre(s.layers[l], air)
  {
    hide StorageOk, IdsOf;
    var a := new BlockStorage(air);
    var b := new BlockStorage(air);
    s := new SubChunk([a, b]);
  }

  class Chunk {
    const sections: seq<SubChunk>
    ghost const air: int

    predicate In(i: int, l: int) {
      0 <= i < |sections| && 0 <= l < |sections[i].layers|
    }

    function Layer(i: int, l: int): BlockStorage
      requires In(i, l)
    {
      sections[i].layers[l]
    }

    ghost function Storages(): set<object> {
      StoragesOf(sections)
    }

    ghost function Arrays(): set<object> {
      ArraysOf(sections)
    }

    ghost predicate Valid()
      reads Storages(), Arrays()
    {
      |sections| == SECTIONS && Disjoint(sections) && forall i, l :: In(i, l) ==> Layer(i, l).Valid() && Layer(i, l).Air() == air
    }

    /** The block at a height from 0 to 399 in a layer. */
    ghost function BlockAt(x: nat, y: nat, z: nat, layer: nat): int
      reads Storages(), Arrays()
      requires Valid() && y < 16 * SECTIONS
    {
      if layer >= |sections[y / 16].layers| then LAYER_NOT_PRESENT
      else Layer(y / 16, layer).Ids()[Index(x % 16, y % 16, z % 16)]
    }

    method GetBlock(x: nat, y: nat, z: nat, layer: nat) returns (id: int)
      requires Valid() && y < 256
      ensures id == BlockAt(x, y, z, layer)
      ensures if In(y / 16, layer) then id == Layer(y / 16, layer).Ids()[Index(x % 16, y % 16, z % 16)] else id == -2
    {
      hide StorageOk, IdsOf, Index;
      var s := sections[y / 16];
      if layer < |s.layers| {
        assert In(y / 16, layer) && Layer(y / 16, layer) == s.layers[layer];
        id := s.layers[layer].Get(x % 16, y % 16, z % 16);
      } else {
        id := LAYER_NOT_PRESENT;
      }
    }

    constructor (sections: seq<SubChunk>, ghost air: int)
      ensures this.sections == sections && this.air == air
    {
      this.sections, this.air := sections, air;
    }

    /** Whether two positions are the same block. */
    static predicate SameBlock(x: nat, y: nat, z: nat, a: nat, b: nat, c: nat) {
      x % 16 == a % 16 && y == b && z % 16 == c % 16
    }

    /** One block changes, when its layer is there; everything else stays. */
    method SetBlock(x: nat, y: nat, z: nat, id: int, layer: nat)
      requires Valid() && y < 256
      modifies if In(y / 16, layer) then {Layer(y / 16, layer), Layer(y / 16, layer).blocks} else {}
      ensures Valid()
      ensures forall a: nat, b: nat, c: nat, l: nat :: b < 16 * SECTIONS ==>
        BlockAt(a, b, c, l) == if SameBlock(x, y, z, a, b, c) && l == layer && In(y / 16, l) then id else old(BlockAt(a, b, c, l))
    {
      hide StorageOk, IdsOf, Index, NoRepeats;
      var s := sections[y / 16];
      if layer < |s.layers| {
        assert In(y / 16, layer) && Layer(y / 16, layer) == s.layers[layer];
        s.layers[layer].Set(x % 16, y % 16, z % 16, id);
        forall i, l | In(i, l) && (i, l) != (y / 16, layer)
          ensures Layer(i, l).Valid() && Layer(i, l).Air() == air && Layer(i, l).Ids() == old(Layer(i, l).Ids())
        {
          assert Apart(Layer(i, l), Layer(y / 16, layer));
          assert old(Layer(i, l).Valid());
        }
        forall a: nat, b: nat, c: nat, l: nat | b < 16 * SECTIONS
          ensures BlockAt(a, b, c, l) == if SameBlock(x, y, z, a, b, c) && l == layer then id else old(BlockAt(a, b, c, l))
        {
          SameIndex(x, y, z, a, b, c);
        }
      }
    }

    /** The highest block in a column and layer that is not air, when there is one. */
    method HighestBlockAt(x: nat, z: nat, layer: nat) returns (y: int)
      requires Valid()
      requires exists h: nat :: h < 16 * SECTIONS && In(h / 16, layer) && BlockAt(x, h, z, layer) != air
      ensures 0 <= y < 16 * SECTIONS && In(y / 16, layer) && BlockAt(x, y, z, layer) != air
      ensures forall h: nat :: y < h < 16 * SECTIONS && In(h / 16, layer) ==> BlockAt(x, h, z, layer) == air
    {
      hide StorageOk, IdsOf, Index, NoRepeats, Chunk.Valid, Chunk.BlockAt;
      ghost var h0: nat :| h0 < 16 * SECTIONS && In(h0 / 16, layer) && BlockAt(x, h0, z, layer) != air;
      var i := SECTIONS - 1;
      while true
        invariant h0 / 16 <= i < SECTIONS && Valid() && BlockAt(x, h0, z, layer) != air
        invariant forall h: nat :: 16 * (i + 1) <= h < 16 * SECTIONS && In(h / 16, layer) ==> BlockAt(x, h, z, layer) == air
        decreases i
      {
        assert forall o :: o in Storages() + Arrays() ==> allocated(o);
        var found;
        found, y := SectionHighest(i, x, z, layer);
        assert BlockAt(x, h0, z, layer) != air;
        if found {
          y := y + 16 * i;
          return;
        }
        assert 16 * (h0 / 16) <= h0 < 16 * (h0 / 16) + 16;
        assert In(h0 / 16, layer) && (h0 / 16 == i ==> In(i, layer));
        i := i - 1;
      }
    }

    /** The highest block of one section's column. */
    method SectionHighest(i: nat, x: nat, z: nat, layer: nat) returns (found: bool, y: int)
      requires Valid() && i < SECTIONS
      ensures found ==> 0 <= y < 16 && In(i, layer) && BlockAt(x, 16 * i + y, z, layer) != air
      ensures found ==> forall h: nat :: 16 * i + y < h < 16 * i + 16 ==> BlockAt(x, h, z, layer) == air
      ensures !found && In(i, layer) ==> forall h: nat :: 16 * i <= h < 16 * i + 16 ==> BlockAt(x, h, z, layer) == air
    {
      hide StorageOk, IdsOf, Index, NoRepeats;
      var s := sections[i];
      if layer >= |s.layers| {
        return false, LAYER_NOT_PRESENT;
      }
      assert In(i, layer) && Layer(i, layer) == s.layers[layer];
      y := s.layers[layer].HighestBlockAt(x % 16, z % 16);
      found := y != EMPTY;
      forall h: nat | 16 * i <= h < 16 * i + 16 ensures h / 16 == i && h % 16 == h - 16 * i {
      }
    }

    /** Nothing but air in a section. */
    ghost predicate SectionEmpty(i: nat)
      reads Storages(), Arrays()
      requires Valid() && i < SECTIONS
    {
      forall l, p :: 0 <= l < |sections[i].layers| && 0 <= p < BLOCKS ==> Layer(i, l).Ids()[p] == air
    }

    method IsEmptySection(i: nat) returns (empty: bool)
      requires Valid() && i < SECTIONS
      ensures empty <==> SectionEmpty(i)
    {
      hide StorageOk, IdsOf, NoRepeats;
      var s := sections[i];
      var l := 0;
      while l < |s.layers|
        invariant l <= |s.layers|
        invariant forall k, p :: 0 <= k < l && 0 <= p < BLOCKS ==> Layer(i, k).Ids()[p] == air
      {
        assert In(i, l) && Layer(i, l) == s.layers[l];
        var clear := s.layers[l].IsEmpty();
        if !clear {
          ghost var p :| 0 <= p < BLOCKS && Layer(i, l).Ids()[p] != air;
          return false;
        }
        l := l + 1;
      }
      return true;
    }

    method IsEmpty() returns (empty: bool)
      requires Valid()
      ensures empty <==> forall i :: 0 <= i < SECTIONS ==> SectionEmpty(i)
    {
      hide Chunk.Valid, Chunk.SectionEmpty;
      CountSections();
      var i := 0;
      while i < SECTIONS
        invariant i <= SECTIONS && Valid() && forall k :: 0 <= k < i ==> SectionEmpty(k)
      {
        assert forall o :: o in Storages() + Arrays() ==> allocated(o);
        var clear := IsEmptySection(i);
        if !clear {
          return false;
        }
        i := i + 1;
      }
      return true;
    }

    lemma CountSections()
      requires Valid()
      ensures |sections| == SECTIONS
    {
    }

    /** How many sections are sent: the ones left out are all air, and the last one sent is not. */
    method SendCount() returns (count: nat)
      requires Valid() && exists i :: 0 <= i < SECTIONS && !SectionEmpty(i)
      ensures 0 < count <= SECTIONS && !SectionEmpty(count - 1)
      ensures forall i :: count <= i < SECTIONS ==> SectionEmpty(i)
    {
      hide Chunk.Valid, Chunk.SectionEmpty;
      ghost var last :| 0 <= last < SECTIONS && !SectionEmpty(last);
      var topEmpty := 0;
      var i := SECTIONS - 1;
      while true
        invariant last <= i < SECTIONS && topEmpty == SECTIONS - 1 - i && Valid() && !SectionEmpty(last)
        invariant forall k :: i < k < SECTIONS ==> SectionEmpty(k)
        decreases i
      {
        assert forall o :: o in Storages() + Arrays() ==> allocated(o);
        var clear := IsEmptySection(i);
        if clear {
          topEmpty := topEmpty + 1;
        } else {
          break;
        }
        i := i - 1;
      }
      count := SECTIONS - topEmpty;
    }
  }

  ghost function StoragesOf(sections: seq<SubChunk>): set<object> {
    set i, l | 0 <= i < |sections| && 0 <= l < |sections[i].layers| :: sections[i].layers[l]
  }

  ghost function ArraysOf(sections: seq<SubChunk>): set<object> {
    set i, l | 0 <= i < |sections| && 0 <= l < |sections[i].layers| :: sections[i].layers[l].blocks
  }

  /** All storages are valid, and hold nothing but air. */
  ghost predicate AllAir(sections: seq<SubChunk>, air: int)
    reads StoragesOf(sections), ArraysOf(sections)
  {
    forall i, l :: 0 <= i < |sections| && 0 <= l < |sections[i].layers| ==>
      sections[i].layers[l].Valid() && sections[i].layers[l].Air() == air && AllAre(sections[i].layers[l], air)
  }

  /** No two storages share memory. */
  ghost predicate Disjoint(sections: seq<SubChunk>) {
    forall i, l, j, m :: 0 <= i < |sections| && 0 <= j < |sections| && 0 <= l < |sections[i].layers| && 0 <= m < |sections[j].layers| && (i, l) != (j, m) ==>
      Apart(sections[i].layers[l], sections[j].layers[m])
  }

  ghost predicate AllAre(s: BlockStorage, id: int)
    reads s, s.blocks
    requires s.Valid()
  {
    forall p :: 0 <= p < BLOCKS ==> s.Ids()[p] == id
  }

  /** One more sub-chunk, in memory of its own. */
  lemma OneMore(sections: seq<SubChunk>, s: SubChunk, air: int)
    requires AllAir(sections, air) && Disjoint(sections) && |s.layers| == LAYERS && Apart(s.layers[0], s.layers[1])
    requires forall l :: 0 <= l < LAYERS ==> s.layers[l].Valid() && s.layers[l].Air() == air && AllAre(s.layers[l], air)
    requires forall l :: 0 <= l < LAYERS ==> s.layers[l] !in StoragesOf(sections) && s.layers[l].blocks !in ArraysOf(sections)
    ensures AllAir(sections + [s], air) && Disjoint(sections + [s])
    ensures StoragesOf(sections + [s]) == StoragesOf(sections) + {s.layers[0], s.layers[1]}
    ensures ArraysOf(sections + [s]) == ArraysOf(sections) + {s.layers[0].blocks, s.layers[1].blocks}
  {
    hide BlockStorage.Valid, AllAre;
    OneMoreApart(sections, s);
    OneMoreSets(sections, s);
    hide Disjoint, StoragesOf, ArraysOf;
  }

  lemma OneMoreApart(sections: seq<SubChunk>, s: SubChunk)
    requires Disjoint(sections) && |s.layers| == LAYERS && Apart(s.layers[0], s.layers[1])
    requires forall l :: 0 <= l < LAYERS ==> s.layers[l] !in StoragesOf(sections) && s.layers[l].blocks !in ArraysOf(sections)
    ensures Disjoint(sections + [s])
  {
  }

  lemma OneMoreSets(sections: seq<SubChunk>, s: SubChunk)
    requires |s.layers| == LAYERS
    ensures StoragesOf(sections + [s]) == StoragesOf(sections) + {s.layers[0], s.layers[1]}
    ensures ArraysOf(sections + [s]) == ArraysOf(sections) + {s.layers[0].blocks, s.layers[1].blocks}
  {
    var more := sections + [s];
    assert forall i :: 0 <= i < |sections| ==> more[i] == sections[i];
    assert more[|sections|] == s;
  }

  lemma FreshChunk(c: Chunk)
    requires |c.sections| == SECTIONS && Disjoint(c.sections) && AllAir(c.sections, c.air)
    ensures c.Valid() && forall i :: 0 <= i < SECTIONS ==> c.SectionEmpty(i)
  {
    hide BlockStorage.Valid, IdsOf, StorageOk;
  }

  /** One more section of air, in new memory. */
  method AddSection(sections: seq<SubChunk>, air: int) returns (more: seq<SubChunk>)
    requires AllAir(sections, air) && Disjoint(sections)
    ensures |more| == |sections| + 1 && AllAir(more, air) && Disjoint(more)
    ensures more[..|sections|] == sections && |more[|sections|].layers| == 2
    ensures fresh(StoragesOf(more) - StoragesOf(sections)) && fresh(ArraysOf(more) - ArraysOf(sections))
  {
    hide StorageOk, IdsOf, BlockStorage.Valid, AllAir, Disjoint, AllAre;
    assert forall o :: o in StoragesOf(sections) + ArraysOf(sections) ==> allocated(o);
    var s := NewSubChunk(air);
    OneMore(sections, s, air);
    more := sections + [s];
  }

  method NewChunk(air: int) returns (c: Chunk)
    ensures fresh(c) && fresh(c.Storages()) && fresh(c.Arrays()) && c.Valid() && c.air == air
    ensures |c.sections| == 25 && forall i :: 0 <= i < 25 ==> c.SectionEmpty(i) && |c.sections[i].layers| == 2
  {
    hide StorageOk, IdsOf, BlockStorage.Valid, Chunk.Valid, AllAir, Disjoint, Chunk.SectionEmpty;
    var sections: seq<SubChunk> := [];
    NoSections(air);
    var i := 0;
    while i < SECTIONS
      invariant |sections| == i <= SECTIONS && AllAir(sections, air) && Disjoint(sections)
      invariant fresh(StoragesOf(sections)) && fresh(ArraysOf(sections))
      invariant forall k :: 0 <= k < i ==> |sections[k].layers| == 2
    {
      ghost var before := sections;
      sections := AddSection(sections, air);
      assert forall k :: 0 <= k < i ==> sections[..i][k] == before[k];
      i := i + 1;
    }
    assert forall o :: o in StoragesOf(sections) + ArraysOf(sections) ==> allocated(o);
    c := new Chunk(sections, air);
    FreshChunk(c);
  }

  lemma NoSections(air: int)
    ensures AllAir([], air) && Disjoint([]) && StoragesOf([]) == {} && ArraysOf([]) == {}
  {
  }

  lemma SameIndex(x: nat, y: nat, z: nat, a: nat, b: nat, c: nat)
    ensures y / 16 == b / 16 ==>
      (Index(x % 16, y % 16, z % 16) == Index(a % 16, b % 16, c % 16) <==> Chunk.SameBlock(x, y, z, a, b, c))
    ensures Chunk.SameBlock(x, y, z, a, b, c) ==> y / 16 == b / 16
  {
    hide Index;
    IndexInjective(x % 16, y % 16, z % 16, a % 16, b % 16, c % 16);
  }
}
