/**
 * Sixteen cubed blocks as indices into a palette of block ids. Index 0 always stands
 * for the id the storage was made with.
 */
module BlockStorages {
  import opened Bits
  import opened Sequences

  const BLOCKS := 4096
  const EMPTY := -1

  function Index(x: nat, y: nat, z: nat): (i: nat)
    requires x < 16 && y < 16 && z < 16
    ensures i < BLOCKS
  {
    x * 256 + z * 16 + y
  }

  lemma Digits(high: nat, low: nat, base: nat)
    requires low < base
    ensures (high * base + low) / base == high && (high * base + low) % base == low
  {
    QuotientUnique(high * base + low, base, high, low);
  }

  /** Every position has its own index. */
  lemma IndexInjective(x: nat, y: nat, z: nat, a: nat, b: nat, c: nat)
    requires x < 16 && y < 16 && z < 16 && a < 16 && b < 16 && c < 16
    ensures Index(x, y, z) == Index(a, b, c) <==> x == a && y == b && z == c
  {
    Digits(x, z * 16 + y, 256);
    Digits(a, c * 16 + b, 256);
    Digits(z, y, 16);
    Digits(c, b, 16);
  }

  /** Indices point into a palette of different ids. */
  predicate StorageOk(blocks: seq<nat>, palette: seq<int>) {
    |blocks| == BLOCKS && |palette| >= 1 && NoRepeats(palette) && forall p :: 0 <= p < |blocks| ==> blocks[p] < |palette|
  }

  /** The ids a storage stands for, position by position. */
  function IdsOf(blocks: seq<nat>, palette: seq<int>): (ids: seq<int>)
    requires StorageOk(blocks, palette)
    ensures |ids| == BLOCKS && forall p :: 0 <= p < BLOCKS ==> ids[p] == palette[blocks[p]]
  {
    seq(BLOCKS, p requires 0 <= p < BLOCKS => palette[blocks[p]])
  }

  /** A position holds another id than the initial one exactly when its index is not 0. */
  lemma AirIsZero(blocks: seq<nat>, palette: seq<int>, p: nat)
    requires StorageOk(blocks, palette) && p < BLOCKS
    ensures blocks[p] == 0 <==> IdsOf(blocks, palette)[p] == palette[0]
  {
  }

  lemma SetKnown(blocks: seq<nat>, palette: seq<int>, p: nat, i: nat)
    requires StorageOk(blocks, palette) && p < BLOCKS && i < |palette|
    ensures StorageOk(blocks[p := i], palette)
    ensures IdsOf(blocks[p := i], palette) == IdsOf(blocks, palette)[p := palette[i]]
  {
  }

  lemma SetNew(blocks: seq<nat>, palette: seq<int>, p: nat, id: int)
    requires StorageOk(blocks, palette) && p < BLOCKS && id !in palette
    ensures StorageOk(blocks[p := |palette|], palette + [id])
    ensures IdsOf(blocks[p := |palette|], palette + [id]) == IdsOf(blocks, palette)[p := id]
  {
    var b, q := blocks[p := |palette|], palette + [id];
    forall i, j | 0 <= i < j < |q| ensures q[i] != q[j] {
      if j == |palette| {
        assert q[i] in palette;
      }
    }
    forall k | 0 <= k < BLOCKS ensures q[b[k]] == IdsOf(blocks, palette)[p := id][k] {
    }
  }

  class BlockStorage {
    const blocks: array<nat>
    var palette: seq<int>

    ghost predicate Valid()
      reads this, blocks
    {
      blocks.Length == BLOCKS && StorageOk(blocks[..], palette)
    }

    ghost function Ids(): seq<int>
      reads this, blocks
      requires Valid()
    {
      IdsOf(blocks[..], palette)
    }

    /** The id the storage was made with. */
    ghost function Air(): int
      reads this, blocks
      requires Valid()
    {
      palette[0]
    }

    constructor (id: int)
      ensures Valid() && fresh(blocks) && Air() == id
      ensures forall p :: 0 <= p < BLOCKS ==> Ids()[p] == id
    {
      blocks := new nat[BLOCKS];
      palette := [id];
      new;
      var i := 0;
      while i < BLOCKS
        invariant i <= BLOCKS && palette == [id] && forall p :: 0 <= p < i ==> blocks[p] == 0
      {
        blocks[i] := 0;
        i := i + 1;
      }
      hide NoRepeats;
      OneIsDistinct(id);
    }

    method Get(x: nat, y: nat, z: nat) returns (id: int)
      requires Valid() && x < 16 && y < 16 && z < 16
      ensures id == Ids()[Index(x, y, z)]
    {
      var index := blocks[Index(x, y, z)];
      id := palette[index];
    }

    /** One position changes; ids enter the palette at its end, and never leave it. */
    method Set(x: nat, y: nat, z: nat, id: int)
      requires Valid() && x < 16 && y < 16 && z < 16
      modifies this`palette, blocks
      ensures Valid() && Air() == old(Air())
      ensures Ids() == old(Ids())[Index(x, y, z) := id]
      ensures palette == if id in old(palette) then old(palette) else old(palette) + [id]
    {
      hide NoRepeats, IdsOf, Index;
      var i: nat := 0;
      while i < |palette|
        invariant i <= |palette| && id !in palette[..i]
      {
        if palette[i] == id {
          break;
        }
        i := i + 1;
      }
      ghost var p := Index(x, y, z);
      ghost var before := blocks[..];
      if i == |palette| {
        assert palette[..i] == palette;
        SetNew(before, palette, p, id);
        palette := palette + [id];
      } else {
        SetKnown(before, palette, p, i);
      }
      blocks[Index(x, y, z)] := i;
      assert blocks[..] == before[p := i];
    }

    /** The highest position in a column that is not air. */
    method HighestBlockAt(x: nat, z: nat) returns (y: int)
      requires Valid() && x < 16 && z < 16
      ensures -1 <= y < 16 && (y == EMPTY || Ids()[Index(x, y, z)] != Air())
      ensures forall h: nat :: y < h < 16 ==> Ids()[Index(x, h, z)] == Air()
    {
      hide NoRepeats, IdsOf, Index, StorageOk;
      y := 15;
      while y >= 0
        invariant -1 <= y < 16
        invariant forall h: nat :: y < h < 16 ==> Ids()[Index(x, h, z)] == Air()
      {
        AirIsZero(blocks[..], palette, Index(x, y, z));
        if blocks[Index(x, y, z)] != 0 {
          return;
        }
        y := y - 1;
      }
      y := EMPTY;
    }

    method IsEmpty() returns (empty: bool)
      requires Valid()
      ensures empty <==> forall p :: 0 <= p < BLOCKS ==> Ids()[p] == Air()
    {
      hide NoRepeats, IdsOf, StorageOk;
      var i := 0;
      while i < BLOCKS
        invariant i <= BLOCKS && forall p :: 0 <= p < i ==> Ids()[p] == Air()
      {
        AirIsZero(blocks[..], palette, i);
        if blocks[i] != 0 {
          assert Ids()[i] != Air();
          return false;
        }
        i := i + 1;
      }
      return true;
    }
  }

  lemma OneIsDistinct(id: int)
    ensures NoRepeats([id])
  {
  }
}
