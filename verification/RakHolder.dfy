/**
 * Reassembly: fragments are held until all of a compound are there, in whatever
 * order and however often they arrive.
 */
module RakHolders {
  import opened Bits
  import opened RakFrames

  predicate Is(f: Frame, id: nat, index: nat) {
    f.compoundId == id && f.index == index
  }

  predicate Holds(frames: seq<Frame>, id: nat, index: nat) {
    exists i :: 0 <= i < |frames| && Is(frames[i], id, index)
  }

  /** No two held frames have the same compound id and index. */
  predicate Distinct(frames: seq<Frame>) {
    frames == [] || (Distinct(frames[..|frames| - 1])
      && !Holds(frames[..|frames| - 1], frames[|frames| - 1].compoundId, frames[|frames| - 1].index))
  }

  /** The indices held of a compound. */
  function Indices(frames: seq<Frame>, id: nat): set<nat> {
    if frames == [] then {}
    else
      var x := frames[|frames| - 1];
      Indices(frames[..|frames| - 1], id) + (if x.compoundId == id then {x.index} else {})
  }

  function CountId(frames: seq<Frame>, id: nat): (n: nat)
    ensures n <= |frames|
  {
    if frames == [] then 0
    else CountId(frames[..|frames| - 1], id) + (if frames[|frames| - 1].compoundId == id then 1 else 0)
  }

  /** The held frame with this id and index; a frame without data if there is none. */
  function Find(frames: seq<Frame>, id: nat, index: nat): Frame {
    if frames == [] then Frame(0, false, 0, 0, 0, 0, 0, 0, 0, [])
    else if Is(frames[|frames| - 1], id, index) then frames[|frames| - 1]
    else Find(frames[..|frames| - 1], id, index)
  }

  function Without(frames: seq<Frame>, id: nat, index: nat): seq<Frame> {
    if frames == [] then []
    else
      var r := Without(frames[..|frames| - 1], id, index);
      if Is(frames[|frames| - 1], id, index) then r else r + [frames[|frames| - 1]]
  }

  /** The frames without those of the compound whose index is below n. */
  function WithoutBelow(frames: seq<Frame>, id: nat, n: nat): seq<Frame> {
    if frames == [] then []
    else
      var r := WithoutBelow(frames[..|frames| - 1], id, n);
      var x := frames[|frames| - 1];
      if x.compoundId == id && x.index < n then r else r + [x]
  }

  /** The payloads of the compound's frames below index n, in order. */
  function Payload(frames: seq<Frame>, id: nat, n: nat): seq<byte> {
    if n == 0 then [] else Payload(frames, id, n - 1) + Find(frames, id, n - 1).data
  }

  lemma {:induction false} HoldsSnoc(frames: seq<Frame>, x: Frame, id: nat, index: nat)
    ensures Holds(frames + [x], id, index) <==> Holds(frames, id, index) || Is(x, id, index)
  {
    if Holds(frames, id, index) {
      var i :| 0 <= i < |frames| && Is(frames[i], id, index);
      assert Is((frames + [x])[i], id, index);
    }
    if Is(x, id, index) {
      assert Is((frames + [x])[|frames|], id, index);
    }
  }

  lemma {:induction false} HoldsIndex(frames: seq<Frame>, id: nat, index: nat)
    ensures Holds(frames, id, index) <==> index in Indices(frames, id)
  {
    hide Holds;
    if frames == [] {
      NothingHeld(id, index);
    } else {
      var t, x := frames[..|frames| - 1], frames[|frames| - 1];
      assert frames == t + [x];
      HoldsIndex(t, id, index);
      HoldsSnoc(t, x, id, index);
    }
  }

  lemma NothingHeld(id: nat, index: nat)
    ensures !Holds([], id, index)
  {
  }

  /** Counting a compound's frames counts its indices. */
  lemma {:induction false} CountIsIndices(frames: seq<Frame>, id: nat)
    requires Distinct(frames)
    ensures CountId(frames, id) == |Indices(frames, id)|
  {
    hide Holds;
    if frames != [] {
      var t, x := frames[..|frames| - 1], frames[|frames| - 1];
      CountIsIndices(t, id);
      HoldsIndex(t, x.compoundId, x.index);
    }
  }

  /** Taking out the next index of a compound. */
  lemma {:induction false} WithoutNext(frames: seq<Frame>, id: nat, n: nat)
    ensures Without(WithoutBelow(frames, id, n), id, n) == WithoutBelow(frames, id, n + 1)
    ensures Find(WithoutBelow(frames, id, n), id, n) == Find(frames, id, n)
  {
    if frames != [] {
      var t, x := frames[..|frames| - 1], frames[|frames| - 1];
      WithoutNext(t, id, n);
      var r := WithoutBelow(t, id, n);
      assert (r + [x])[..|r|] == r;
    }
  }

  lemma {:induction false} WithoutBelowZero(frames: seq<Frame>, id: nat)
    ensures WithoutBelow(frames, id, 0) == frames
  {
    if frames != [] {
      WithoutBelowZero(frames[..|frames| - 1], id);
    }
  }

  class FrameHolder {
    var frames: seq<Frame>

    constructor ()
      ensures frames == []
    {
      frames := [];
    }

    method IsIn(id: nat, index: nat) returns (found: bool)
      ensures found == Holds(frames, id, index)
    {
      var i := 0;
      while i < |frames|
        invariant i <= |frames| && forall k :: 0 <= k < i ==> !Is(frames[k], id, index)
      {
        if frames[i].compoundId == id && frames[i].index == index {
          return true;
        }
        i := i + 1;
      }
      found := false;
    }

    /** Holds a frame, unless one with its id and index is held already. */
    method Append(f: Frame)
      modifies this
      ensures frames == if Holds(old(frames), f.compoundId, f.index) then old(frames) else old(frames) + [f]
    {
      var found := IsIn(f.compoundId, f.index);
      if !found {
        frames := frames + [f];
      }
    }

    method CompoundSize(id: nat) returns (size: nat)
      ensures size == CountId(frames, id)
    {
      size := 0;
      var i := 0;
      while i < |frames|
        invariant i <= |frames| && size == CountId(frames[..i], id)
      {
        assert frames[..i + 1][..i] == frames[..i];
        if frames[i].compoundId == id {
          size := size + 1;
        }
        i := i + 1;
      }
      assert frames[..i] == frames;
    }

    /** Takes out the frame with this id and index; gives a frame without data if there is none. */
    method Pop(id: nat, index: nat) returns (f: Frame)
      modifies this
      ensures frames == Without(old(frames), id, index) && f == Find(old(frames), id, index)
    {
      f := Frame(0, false, 0, 0, 0, 0, 0, 0, 0, []);
      var found := IsIn(id, index);
      if !found {
        AbsentFrame(frames, id, index);
        return;
      }
      var kept: seq<Frame> := [];
      var i := 0;
      while i < |frames|
        invariant i <= |frames| && kept == Without(frames[..i], id, index) && f == Find(frames[..i], id, index)
      {
        assert frames[..i + 1][..i] == frames[..i];
        if frames[i].compoundId != id || frames[i].index != index {
          kept := kept + [frames[i]];
        } else {
          f := frames[i];
        }
        i := i + 1;
      }
      assert frames[..i] == frames;
      frames := kept;
    }

    /** Takes out a whole compound, payloads joined in index order. */
    method PopCompound(id: nat, size: nat) returns (payload: seq<byte>)
      modifies this
      ensures frames == WithoutBelow(old(frames), id, size) && payload == Payload(old(frames), id, size)
    {
      ghost var start := frames;
      payload := [];
      WithoutBelowZero(frames, id);
      for i := 0 to size
        invariant frames == WithoutBelow(start, id, i) && payload == Payload(start, id, i)
      {
        WithoutNext(start, id, i);
        var entry := Pop(id, i);
        payload := payload + entry.data;
      }
    }

    /** A fragment arrives: once as many are held as its compound has, the compound is delivered. */
    method HandleFragment(f: Frame) returns (complete: bool, payload: seq<byte>)
      requires Distinct(frames)
      modifies this
      ensures var held := if Holds(old(frames), f.compoundId, f.index) then old(frames) else old(frames) + [f];
        && complete == (|Indices(held, f.compoundId)| == f.compoundSize)
        && frames == (if complete then WithoutBelow(held, f.compoundId, f.compoundSize) else held)
        && payload == (if complete then Payload(held, f.compoundId, f.compoundSize) else [])
      ensures Distinct(frames)
    {
      hide Holds, Indices, CountId, Payload;
      payload := [];
      HeldDistinct(frames, f);
      Append(f);
      CountIsIndices(frames, f.compoundId);
      var size := CompoundSize(f.compoundId);
      complete := size == f.compoundSize;
      if complete {
        BelowDistinct(frames, f.compoundId, f.compoundSize);
        payload := PopCompound(f.compoundId, f.compoundSize);
      }
    }
  }

  lemma HeldDistinct(frames: seq<Frame>, f: Frame)
    requires Distinct(frames)
    ensures !Holds(frames, f.compoundId, f.index) ==> Distinct(frames + [f])
  {
    assert (frames + [f])[..|frames|] == frames;
  }

  lemma {:induction false} BelowElements(frames: seq<Frame>, id: nat, n: nat, i: nat, j: nat)
    ensures Holds(WithoutBelow(frames, id, n), i, j) <==> Holds(frames, i, j) && !(i == id && j < n)
  {
    hide Holds;
    if frames == [] {
      NothingHeld(i, j);
    } else {
      var t, x := frames[..|frames| - 1], frames[|frames| - 1];
      assert frames == t + [x];
      BelowElements(t, id, n, i, j);
      HoldsSnoc(t, x, i, j);
      HoldsSnoc(WithoutBelow(t, id, n), x, i, j);
    }
  }

  lemma {:induction false} BelowDistinct(frames: seq<Frame>, id: nat, n: nat)
    requires Distinct(frames)
    ensures Distinct(WithoutBelow(frames, id, n))
  {
    hide Holds;
    if frames != [] {
      var t, x := frames[..|frames| - 1], frames[|frames| - 1];
      BelowDistinct(t, id, n);
      BelowElements(t, id, n, x.compoundId, x.index);
      var r := WithoutBelow(t, id, n);
      assert (r + [x])[..|r|] == r;
    }
  }

  lemma {:induction false} AbsentFrame(frames: seq<Frame>, id: nat, index: nat)
    requires !Holds(frames, id, index)
    ensures Without(frames, id, index) == frames && Find(frames, id, index) == Frame(0, false, 0, 0, 0, 0, 0, 0, 0, [])
  {
    hide Holds;
    if frames != [] {
      var t, x := frames[..|frames| - 1], frames[|frames| - 1];
      assert frames == t + [x];
      HoldsSnoc(t, x, id, index);
      AbsentFrame(t, id, index);
    }
  }
}
