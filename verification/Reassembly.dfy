/**
 * Fragmentation and reassembly over a network that reorders, duplicates and
 * interleaves: a compound is delivered exactly when its last missing fragment
 * arrives, and what is delivered is the original payload.
 */
module Reassembly {
  import opened Bits
  import opened Sequences
  import opened RakFrames
  import opened RakHolders

  /** The fragments of one payload, numbered from 0. */
  ghost predicate IsCompound(frags: seq<Frame>, id: nat) {
    && frags != []
    && forall i :: 0 <= i < |frags| ==> Is(frags[i], id, i) && frags[i].compoundSize == |frags|
  }

  function Join(frags: seq<Frame>): seq<byte> {
    if frags == [] then [] else Join(frags[..|frags| - 1]) + frags[|frags| - 1].data
  }

  /** The frame is one of the fragments, or belongs to another compound. */
  predicate Genuine(f: Frame, frags: seq<Frame>, id: nat) {
    f.compoundId == id ==> f.index < |frags| && f == frags[f.index]
  }

  predicate AllGenuine(frames: seq<Frame>, frags: seq<Frame>, id: nat) {
    forall i :: 0 <= i < |frames| ==> Genuine(frames[i], frags, id)
  }

  lemma {:induction false} GenuineIndices(frames: seq<Frame>, frags: seq<Frame>, id: nat)
    requires AllGenuine(frames, frags, id)
    ensures forall x :: x in Indices(frames, id) ==> x < |frags|
  {
    if frames != [] {
      var t := frames[..|frames| - 1];
      GenuineIndices(t, frags, id);
      assert Genuine(frames[|frames| - 1], frags, id);
    }
  }

  lemma {:induction false} FindGenuine(frames: seq<Frame>, frags: seq<Frame>, id: nat, i: nat)
    requires AllGenuine(frames, frags, id) && i in Indices(frames, id)
    ensures i < |frags| && Find(frames, id, i) == frags[i]
  {
    var t, x := frames[..|frames| - 1], frames[|frames| - 1];
    assert Genuine(x, frags, id);
    if !Is(x, id, i) {
      FindGenuine(t, frags, id, i);
    }
  }

  /** With all indices held, the payloads joined in index order are the original one. */
  lemma {:induction false} PayloadComplete(frames: seq<Frame>, frags: seq<Frame>, id: nat, n: nat)
    requires AllGenuine(frames, frags, id) && n <= |frags| && forall x: nat :: x < n ==> x in Indices(frames, id)
    ensures Payload(frames, id, n) == Join(frags[..n])
  {
    if n > 0 {
      PayloadComplete(frames, frags, id, n - 1);
      FindGenuine(frames, frags, id, n - 1);
      assert frags[..n][..n - 1] == frags[..n - 1];
    }
  }

  lemma GenuineSnoc(frames: seq<Frame>, x: Frame, frags: seq<Frame>, id: nat)
    requires AllGenuine(frames, frags, id) && Genuine(x, frags, id)
    ensures AllGenuine(frames + [x], frags, id)
    ensures Indices(frames + [x], id) == Indices(frames, id) + (if x.compoundId == id then {x.index} else {})
  {
    assert (frames + [x])[..|frames|] == frames;
  }

  lemma {:induction false} BelowGenuine(frames: seq<Frame>, frags: seq<Frame>, id: nat, other: nat, n: nat)
    requires AllGenuine(frames, frags, id)
    ensures AllGenuine(WithoutBelow(frames, other, n), frags, id)
    ensures other != id ==> Indices(WithoutBelow(frames, other, n), id) == Indices(frames, id)
    ensures other == id && n == |frags| ==> Indices(WithoutBelow(frames, other, n), id) == {}
  {
    if frames != [] {
      var t, x := frames[..|frames| - 1], frames[|frames| - 1];
      BelowGenuine(t, frags, id, other, n);
      assert Genuine(x, frags, id);
      GenuineSnoc(WithoutBelow(t, other, n), x, frags, id);
    }
  }

  /** The frames of all other compounds. */
  function Others(frames: seq<Frame>, id: nat): seq<Frame> {
    if frames == [] then []
    else
      var r := Others(frames[..|frames| - 1], id);
      if frames[|frames| - 1].compoundId == id then r else r + [frames[|frames| - 1]]
  }

  lemma {:induction false} OthersKept(frames: seq<Frame>, id: nat, n: nat)
    ensures Others(WithoutBelow(frames, id, n), id) == Others(frames, id)
  {
    if frames != [] {
      var t, x := frames[..|frames| - 1], frames[|frames| - 1];
      OthersKept(t, id, n);
      var r := WithoutBelow(t, id, n);
      assert (r + [x])[..|r|] == r;
    }
  }

  lemma OthersSnoc(frames: seq<Frame>, f: Frame)
    ensures Others(frames + [f], f.compoundId) == Others(frames, f.compoundId)
  {
    assert (frames + [f])[..|frames|] == frames;
  }

  /** What is held after a fragment arrived, before delivery. */
  function Held(frames: seq<Frame>, f: Frame): seq<Frame> {
    if Holds(frames, f.compoundId, f.index) then frames else frames + [f]
  }

  lemma HeldGenuine(frames: seq<Frame>, f: Frame, frags: seq<Frame>, id: nat)
    requires AllGenuine(frames, frags, id) && Genuine(f, frags, id)
    ensures AllGenuine(Held(frames, f), frags, id)
    ensures Indices(Held(frames, f), id) == Indices(frames, id) + (if f.compoundId == id then {f.index} else {})
    ensures Others(Held(frames, f), f.compoundId) == Others(frames, f.compoundId)
  {
    hide Holds;
    HoldsIndex(frames, f.compoundId, f.index);
    GenuineSnoc(frames, f, frags, id);
    OthersSnoc(frames, f);
  }

  /**
   * A fragment arrives at a holder that has seen only genuine fragments of the compound: nothing
   * is delivered while an index is missing, and the original payload when none is. Frames of other
   * compounds stay.
   */
  method Arrive(h: FrameHolder, f: Frame, ghost frags: seq<Frame>) returns (complete: bool, payload: seq<byte>)
    requires Distinct(h.frames) && IsCompound(frags, f.compoundId) && Genuine(f, frags, f.compoundId)
    requires AllGenuine(h.frames, frags, f.compoundId)
    modifies h
    ensures Distinct(h.frames) && AllGenuine(h.frames, frags, f.compoundId)
    ensures Others(h.frames, f.compoundId) == Others(old(h.frames), f.compoundId)
    ensures complete <==> Indices(old(h.frames), f.compoundId) + {f.index} == UpTo(|frags|)
    ensures complete ==> payload == Join(frags) && Indices(h.frames, f.compoundId) == {}
    ensures !complete ==> payload == [] && Indices(h.frames, f.compoundId) == Indices(old(h.frames), f.compoundId) + {f.index}
  {
    hide Holds, Indices, Distinct, WithoutBelow, Payload, AllGenuine, Others;
    ghost var id, n := f.compoundId, |frags|;
    ghost var held := Held(h.frames, f);
    HeldGenuine(h.frames, f, frags, id);
    GenuineIndices(held, frags, id);
    Pigeonhole(Indices(held, id), n);
    BelowGenuine(held, frags, id, id, n);
    OthersKept(held, id, n);
    complete, payload := h.HandleFragment(f);
    if complete {
      PayloadComplete(held, frags, id, n);
      assert frags[..n] == frags;
    }
  }

  /** Indices of the compound collected since it was last complete. */
  function Collected(arrivals: seq<Frame>, id: nat, n: nat): set<nat>
    decreases |arrivals|, 1
  {
    if arrivals == [] then {}
    else
      var c := Gathered(arrivals, id, n);
      if arrivals[|arrivals| - 1].compoundId == id && c == UpTo(n) then {} else c
  }

  /** The same, before a completed round is delivered. */
  function Gathered(arrivals: seq<Frame>, id: nat, n: nat): set<nat>
    requires arrivals != []
    decreases |arrivals|, 0
  {
    var x := arrivals[|arrivals| - 1];
    Collected(arrivals[..|arrivals| - 1], id, n) + (if x.compoundId == id then {x.index} else {})
  }

  /** How often all fragments of the compound have come together. */
  function Rounds(arrivals: seq<Frame>, id: nat, n: nat): nat {
    if arrivals == [] then 0
    else
      Rounds(arrivals[..|arrivals| - 1], id, n)
      + (if arrivals[|arrivals| - 1].compoundId == id && Gathered(arrivals, id, n) == UpTo(n) then 1 else 0)
  }

  function Times(x: seq<byte>, n: nat): (r: seq<seq<byte>>)
    ensures |r| == n && forall i :: 0 <= i < n ==> r[i] == x
  {
    seq(n, _ => x)
  }

  /** All indices of the compound among the arrivals. */
  function Arrived(arrivals: seq<Frame>, id: nat): set<nat> {
    Indices(arrivals, id)
  }

  /** While some fragment is missing nothing is complete. */
  lemma {:induction false} NothingYet(arrivals: seq<Frame>, id: nat, n: nat, missing: nat)
    requires missing < n && missing !in Arrived(arrivals, id)
    ensures Rounds(arrivals, id, n) == 0 && Collected(arrivals, id, n) == Arrived(arrivals, id)
  {
    if arrivals != [] {
      NothingYet(arrivals[..|arrivals| - 1], id, n, missing);
      assert missing in UpTo(n);
    }
  }

  /** The arrival that brings the last missing fragment completes the compound, once. */
  lemma LastMissing(arrivals: seq<Frame>, f: Frame, n: nat)
    requires f.index < n && f.index !in Arrived(arrivals, f.compoundId)
    requires Arrived(arrivals, f.compoundId) + {f.index} == UpTo(n)
    ensures Rounds(arrivals + [f], f.compoundId, n) == 1 && Collected(arrivals + [f], f.compoundId, n) == {}
  {
    NothingYet(arrivals, f.compoundId, n, f.index);
    assert (arrivals + [f])[..|arrivals|] == arrivals;
  }

  /** A frame of another compound leaves this one's frames alone. */
  lemma Elsewhere(frames: seq<Frame>, f: Frame, frags: seq<Frame>, id: nat)
    requires AllGenuine(frames, frags, id) && f.compoundId != id
    ensures AllGenuine(Held(frames, f), frags, id) && Indices(Held(frames, f), id) == Indices(frames, id)
    ensures AllGenuine(WithoutBelow(Held(frames, f), f.compoundId, f.compoundSize), frags, id)
    ensures Indices(WithoutBelow(Held(frames, f), f.compoundId, f.compoundSize), id) == Indices(frames, id)
  {
    hide Holds;
    HeldGenuine(frames, f, frags, id);
    BelowGenuine(Held(frames, f), frags, id, f.compoundId, f.compoundSize);
  }

  /**
   * Any run of the receiver: fragments of one compound in any order, with any duplicates, among any
   * fragments of other compounds. The compound is delivered once for every time all its fragments
   * have come together, always as the original payload.
   */
  method ReceiveAll(h: FrameHolder, arrivals: seq<Frame>, id: nat, ghost frags: seq<Frame>) returns (delivered: seq<seq<byte>>)
    requires h.frames == [] && IsCompound(frags, id) && AllGenuine(arrivals, frags, id)
    modifies h
    ensures delivered == Times(Join(frags), Rounds(arrivals, id, |frags|))
    ensures Indices(h.frames, id) == Collected(arrivals, id, |frags|)
  {
    hide Holds, Indices, Distinct, IsCompound, Genuine, Join, Collected, Gathered, Rounds;
    delivered := [];
    NothingArrived(frags, id);
    assert arrivals[..0] == [];
    var i := 0;
    while i < |arrivals|
      invariant i <= |arrivals| && Distinct(h.frames) && AllGenuine(h.frames, frags, id)
      invariant delivered == Times(Join(frags), Rounds(arrivals[..i], id, |frags|))
      invariant Indices(h.frames, id) == Collected(arrivals[..i], id, |frags|)
    {
      StepCounts(arrivals, i, id, |frags|);
      var more := ReceiveOne(h, arrivals[i], id, frags);
      delivered := delivered + more;
      i := i + 1;
    }
    assert arrivals[..i] == arrivals;
  }

  /** One more arrival: a round is complete, or not. */
  lemma StepCounts(arrivals: seq<Frame>, i: nat, id: nat, n: nat)
    requires i < |arrivals|
    ensures var f := arrivals[i];
      var c := Collected(arrivals[..i], id, n) + (if f.compoundId == id then {f.index} else {});
      if f.compoundId == id && c == UpTo(n) then
        Rounds(arrivals[..i + 1], id, n) == Rounds(arrivals[..i], id, n) + 1 && Collected(arrivals[..i + 1], id, n) == {}
      else Rounds(arrivals[..i + 1], id, n) == Rounds(arrivals[..i], id, n) && Collected(arrivals[..i + 1], id, n) == c
  {
    assert arrivals[..i + 1][..i] == arrivals[..i];
  }

  method ReceiveOne(h: FrameHolder, f: Frame, id: nat, ghost frags: seq<Frame>) returns (delivered: seq<seq<byte>>)
    requires Distinct(h.frames) && AllGenuine(h.frames, frags, id) && IsCompound(frags, id) && Genuine(f, frags, id)
    modifies h
    ensures Distinct(h.frames) && AllGenuine(h.frames, frags, id)
    ensures var c := Indices(old(h.frames), id) + (if f.compoundId == id then {f.index} else {});
      if f.compoundId == id && c == UpTo(|frags|) then delivered == [Join(frags)] && Indices(h.frames, id) == {}
      else delivered == [] && Indices(h.frames, id) == c
  {
    hide Holds, Indices, Distinct, WithoutBelow, Payload, IsCompound, Genuine, Join, AllGenuine;
    delivered := [];
    if f.compoundId == id {
      var complete, payload := Arrive(h, f, frags);
      if complete {
        delivered := [payload];
      }
    } else {
      Elsewhere(h.frames, f, frags, id);
      var complete, payload := h.HandleFragment(f);
    }
  }

  lemma NothingArrived(frags: seq<Frame>, id: nat)
    ensures Distinct([]) && AllGenuine([], frags, id) && Indices([], id) == {}
    ensures Collected([], id, |frags|) == {} && Rounds([], id, |frags|) == 0
  {
  }
}
