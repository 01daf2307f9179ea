/**
 * The free map of a region: a chunk goes into the first run of free sectors that is
 * long enough, and the file grows only when there is none.
 */
module FreeMap {
  import opened Bits
  import opened Sequences
  import opened BinaryStreams
  import opened RegionLayout
  import opened RegionSteps

  datatype Option<T> = None | Some(value: T)

  /** n free sectors from s on. */
  predicate FreeRun(free: seq<bool>, s: nat, n: nat) {
    s + n <= |free| && forall k :: s <= k < s + n ==> free[k]
  }

  /** No run of n free sectors starts before s. */
  predicate NoneBefore(free: seq<bool>, s: nat, n: nat) {
    forall t: nat :: t < s ==> !FreeRun(free, t, n)
  }

  /** Scanning up to sector i: the run that ends there, and no long enough run before it. */
  ghost predicate Scanned(free: seq<bool>, i: nat, start: nat, length: nat, n: nat) {
    && i <= |free| && length < n
    && (length > 0 ==> start + length == i && FreeRun(free, start, length) && NoneBefore(free, start, n))
    && (length == 0 ==> NoneBefore(free, i, n))
  }

  lemma FreeInside(free: seq<bool>, t: nat, n: nat, i: nat)
    requires i < |free|
    ensures FreeRun(free, t, n) && t <= i < t + n ==> free[i]
  {
  }

  lemma ScanStart(free: seq<bool>, n: nat)
    requires n > 0
    ensures Scanned(free, 0, 0, 0, n)
  {
  }

  /** One more sector is looked at. */
  lemma ScanStep(free: seq<bool>, i: nat, start: nat, length: nat, n: nat)
    requires Scanned(free, i, start, length, n) && i < |free|
    ensures var s := if length == 0 then i else start;
      var l := if free[i] then length + 1 else 0;
      if l >= n then FreeRun(free, s, n) && NoneBefore(free, s, n) else Scanned(free, i + 1, s, l, n)
  {
    if !free[i] {
      forall t: nat | t < i + 1 ensures !FreeRun(free, t, n) {
        FreeInside(free, t, n, i);
      }
    }
  }

  lemma ScanEnd(free: seq<bool>, start: nat, length: nat, n: nat)
    requires Scanned(free, |free|, start, length, n)
    ensures forall t: nat :: !FreeRun(free, t, n)
  {
  }

  /** First fit: the first run of n free sectors, if there is one. */
  method FindRun(free: seq<bool>, n: nat) returns (found: bool, start: nat)
    requires n > 0
    ensures found ==> FreeRun(free, start, n) && NoneBefore(free, start, n)
    ensures !found ==> forall t: nat :: !FreeRun(free, t, n)
  {
    hide FreeRun, NoneBefore;
    start := 0;
    ScanStart(free, n);
    while start < |free| && !free[start]
      invariant start <= |free| && Scanned(free, start, 0, 0, n)
    {
      ScanStep(free, start, 0, 0, n);
      start := start + 1;
    }
    var length, i := 0, start;
    while i < |free|
      invariant start <= i <= |free| && length >= 0 && Scanned(free, i, start, length, n)
    {
      ScanStep(free, i, start, length, n);
      if length != 0 {
        if free[i] {
          length := length + 1;
        } else {
          length := 0;
        }
      } else if free[i] {
        start := i;
        length := 1;
      }
      if length >= n {
        return true, start;
      }
      i := i + 1;
    }
    ScanEnd(free, start, length, n);
    found := false;
  }

  /** A free map with count sectors from first on set to value. */
  function Marked(free: seq<bool>, first: nat, count: nat, value: bool): (r: seq<bool>)
    ensures |r| == |free| && forall k :: 0 <= k < |r| ==> r[k] == if first <= k < first + count then value else free[k]
  {
    seq(|free|, k requires 0 <= k < |free| => if first <= k < first + count then value else free[k])
  }

  lemma MarkOne(free: seq<bool>, first: nat, i: nat, value: bool)
    requires first + i < |free|
    ensures Marked(free, first, i, value)[first + i := value] == Marked(free, first, i + 1, value)
    ensures Marked(free, first, 0, value) == free
  {
  }

  /** A chunk's sectors become free when it gives them back. */
  lemma FreeReleased(free: seq<bool>, offs: seq<nat>, owner: seq<int>, i: nat)
    requires FreeOk(free, owner) && OwnersOk(offs, owner) && i < |offs|
    ensures First(offs[i]) + Count(offs[i]) <= |free|
    ensures FreeOk(Marked(free, First(offs[i]), Count(offs[i]), true), Released(owner, i))
  {
    hide RunOk;
    if offs[i] != 0 {
      InsideFile(offs, owner, i);
      OwnRun(offs, owner, i);
    }
    var r := Marked(free, First(offs[i]), Count(offs[i]), true);
    forall k | 0 <= k < |r| ensures r[k] <==> Released(owner, i)[k] == FREE {
      if owner[k] == i {
        assert InRun(offs[owner[k]], k);
      }
    }
  }

  lemma FreeTaken(free: seq<bool>, owner: seq<int>, first: nat, count: nat, i: nat)
    requires FreeOk(free, owner) && first + count <= |owner|
    ensures FreeOk(Marked(free, first, count, false), Taken(owner, first, count, i))
  {
  }

  /** A run of free sectors lies behind the header. */
  lemma FoundOwners(free: seq<bool>, owner: seq<int>, first: nat, count: nat)
    requires FreeOk(free, owner) && FreeRun(free, first, count) && 1 <= count <= 127 && first + count <= MAX_SECTORS
    requires |owner| >= 2 && owner[0] == HEADER && owner[1] == HEADER
    ensures FreeOwners(owner, first, count)
  {
    assert free[first];
  }

  /** The first p sectors: the header, the runs of the chunks seen, and gaps of less than n free sectors, tail in the last one. */
  ghost predicate Counted(offs: seq<nat>, owner: seq<int>, n: nat, p: nat, tail: nat, seen: set<nat>) {
    && 2 <= p <= |owner| && tail < n && p <= 2 + 253 * |seen| + tail
    && (forall i :: i in seen ==> i < |offs| && offs[i] != 0 && First(offs[i]) + Count(offs[i]) <= p)
    && (forall k :: 2 <= k < p ==> owner[k] == FREE || (0 <= owner[k] && owner[k] as nat in seen))
    && tail <= p && (forall k :: p - tail <= k < p ==> owner[k] == FREE)
  }

  lemma CountedFree(offs: seq<nat>, owner: seq<int>, n: nat, p: nat, tail: nat, seen: set<nat>)
    requires Counted(offs, owner, n, p, tail, seen) && p < |owner| && owner[p] == FREE && tail + 1 < n
    ensures Counted(offs, owner, n, p + 1, tail + 1, seen)
  {
  }

  lemma SectorBefore(offs: seq<nat>, owner: seq<int>, i: nat, p: nat)
    requires OwnersOk(offs, owner) && i < |offs| && offs[i] != 0 && InRun(offs[i], p)
    ensures First(offs[i]) == p || (3 <= p < |owner| && owner[p - 1] == i)
  {
    OwnRun(offs, owner, i);
    InsideFile(offs, owner, i);
  }

  /** A sector that is not free starts the run of a chunk not seen yet. */
  lemma CountedChunk(offs: seq<nat>, owner: seq<int>, n: nat, p: nat, tail: nat, seen: set<nat>) returns (end: nat, more: set<nat>)
    requires OwnersOk(offs, owner) && Counted(offs, owner, n, p, tail, seen) && p < |owner| && owner[p] != FREE && 1 <= n <= 127
    ensures p < end && Counted(offs, owner, n, end, 0, more)
  {
    var i: nat := owner[p];
    InsideFile(offs, owner, i);
    assert RunOk(offs[i], |owner|) && InRun(offs[i], p);
    assert i !in seen;
    SectorBefore(offs, owner, i, p);
    hide First, Count, RunOk, InRun;
    end, more := First(offs[i]) + Count(offs[i]), seen + {i};
  }

  /** The first fit is never far into the file, however long the file is: gaps before it are short, and chunks are few. */
  lemma FirstFitLow(free: seq<bool>, offs: seq<nat>, owner: seq<int>, s: nat, n: nat)
    requires OwnersOk(offs, owner) && FreeOk(free, owner) && 1 <= n <= 127 && s <= |free| && NoneBefore(free, s, n)
    ensures s + n <= MAX_SECTORS
  {
    var p: nat, tail: nat, seen: set<nat> := 2, 0, {};
    assert Counted(offs, owner, n, p, tail, seen);
    while p < s
      invariant Counted(offs, owner, n, p, tail, seen)
      decreases s - p
    {
      if owner[p] == FREE {
        assert !FreeRun(free, p - tail, tail + 1) || tail + 1 < n by { TailShort(free, s, n, p, tail); }
        CountedFree(offs, owner, n, p, tail, seen);
        p, tail := p + 1, tail + 1;
      } else {
        p, seen := CountedChunk(offs, owner, n, p, tail, seen);
        tail := 0;
      }
    }
    Pigeonhole(seen, |offs|);
  }

  lemma TailShort(free: seq<bool>, s: nat, n: nat, p: nat, tail: nat)
    requires NoneBefore(free, s, n) && tail < n && tail <= p < s
    ensures !FreeRun(free, p - tail, tail + 1) || tail + 1 < n
  {
  }

  function Falses(n: nat): (r: seq<bool>)
    ensures |r| == n && forall k :: 0 <= k < n ==> !r[k]
  {
    seq(n, _ => false)
  }

  function Zeros(n: nat): (r: seq<byte>)
    ensures |r| == n && forall k :: 0 <= k < n ==> r[k] == 0
  {
    seq(n, _ => 0)
  }

  lemma FreeGrown(free: seq<bool>, owner: seq<int>, n: nat, i: nat)
    requires FreeOk(free, owner)
    ensures FreeOk(free + Falses(n), Taken(owner + Frees(n), |owner|, n, i))
  {
  }

  /** The chunk's sectors, chosen on the free map once its old ones were given back: first fit, else the file grows. */
  ghost predicate Placed(freed: seq<bool>, n: nat, offset: nat, sectors: nat) {
    && Count(offset) == n
    && if exists t: nat :: FreeRun(freed, t, n)
       then FreeRun(freed, First(offset), n) && NoneBefore(freed, First(offset), n) && sectors == |freed|
       else First(offset) == |freed| && sectors == |freed| + n
  }

  lemma PlacedFound(freed: seq<bool>, n: nat, first: nat)
    requires 0 < n < 256 && FreeRun(freed, first, n) && NoneBefore(freed, first, n)
    ensures Placed(freed, n, Offset(first, n), |freed|)
  {
    hide FreeRun, NoneBefore;
    OffsetParts(first, n);
  }

  lemma PlacedGrown(freed: seq<bool>, n: nat)
    requires 0 < n < 256 && forall t: nat :: !FreeRun(freed, t, n)
    ensures Placed(freed, n, Offset(|freed|, n), |freed| + n)
  {
    hide FreeRun, NoneBefore;
    OffsetParts(|freed|, n);
  }
}
