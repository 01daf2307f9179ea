/**
 * From one end of a connection to the other: a payload is cut up and sent in datagrams, the
 * network delivers some of them, in any order and as often as it likes, and the other end
 * puts the payload together again.
 */
module RakNetworks {
  import opened Bits
  import opened Sequences
  import opened BinaryStreams
  import opened RakFrames
  import opened RakSenders
  import opened RakHolders
  import opened Reassembly
  import opened RakConnections

  /** The sets that arrive, in the order of their arrival. */
  function Chosen(sets: seq<FrameSet>, which: seq<nat>): (r: seq<FrameSet>)
    requires forall j :: 0 <= j < |which| ==> which[j] < |sets|
    ensures |r| == |which| && forall j :: 0 <= j < |r| ==> r[j] == sets[which[j]]
  {
    seq(|which|, j requires 0 <= j < |which| => sets[which[j]])
  }

  /** The frames a reader gets from these sets. */
  function Heard(sets: seq<FrameSet>): seq<Frame> {
    if sets == [] then [] else Heard(sets[..|sets| - 1]) + Visibles(sets[|sets| - 1].frames)
  }

  /** The fragments among some frames. */
  function Fragmentary(frames: seq<Frame>): seq<Frame> {
    if frames == [] then []
    else
      var r := Fragmentary(frames[..|frames| - 1]);
      if frames[|frames| - 1].fragmented then r + [frames[|frames| - 1]] else r
  }

  lemma {:induction false} FragmentaryElements(frames: seq<Frame>)
    ensures forall x :: x in Fragmentary(frames) <==> x in frames && x.fragmented
  {
    if frames != [] {
      var t, x := frames[..|frames| - 1], frames[|frames| - 1];
      assert frames == t + [x];
      FragmentaryElements(t);
    }
  }

  lemma {:induction false} FlatElements(sets: seq<FrameSet>)
    ensures forall g :: g in Flat(sets) <==> exists i :: 0 <= i < |sets| && g in sets[i].frames
  {
    if sets != [] {
      var t, s := sets[..|sets| - 1], sets[|sets| - 1];
      FlatElements(t);
      forall g ensures g in Flat(sets) <==> exists i :: 0 <= i < |sets| && g in sets[i].frames {
        if i :| 0 <= i < |sets| && g in sets[i].frames {
          assert i < |t| ==> g in t[i].frames;
        }
        if g in Flat(t) {
          var i :| 0 <= i < |t| && g in t[i].frames;
          assert g in sets[i].frames;
        }
      }
    }
  }

  /** What is heard is what was sent, as far as its bytes show it. */
  lemma {:induction false} HeardElements(sets: seq<FrameSet>, x: Frame)
    ensures x in Heard(sets) <==> exists i, k :: 0 <= i < |sets| && 0 <= k < |sets[i].frames| && x == Visible(sets[i].frames[k])
  {
    hide Visible;
    if sets != [] {
      var t, s := sets[..|sets| - 1], sets[|sets| - 1];
      HeardElements(t, x);
      if i, k :| 0 <= i < |sets| && 0 <= k < |sets[i].frames| && x == Visible(sets[i].frames[k]) {
        if i < |t| {
          assert t[i] == sets[i];
          assert x == Visible(t[i].frames[k]);
        } else {
          assert x == Visibles(s.frames)[k];
        }
      }
      if x in Visibles(s.frames) {
        var k :| 0 <= k < |s.frames| && x == Visibles(s.frames)[k];
        assert x == Visible(sets[|t|].frames[k]);
      }
      if x in Heard(t) {
        var i, k :| 0 <= i < |t| && 0 <= k < |t[i].frames| && x == Visible(t[i].frames[k]);
        assert t[i] == sets[i];
        assert x == Visible(sets[i].frames[k]);
      }
    }
  }

  /** Reads frame sets, one datagram after the other. */
  method ReadAll(datagrams: seq<seq<byte>>, ghost sets: seq<FrameSet>) returns (frames: seq<Frame>)
    requires |datagrams| == |sets|
    requires forall i :: 0 <= i < |sets| ==> FrameSetOk(sets[i]) && datagrams[i] == FrameSetBytes(sets[i])
    ensures frames == Heard(sets)
  {
    hide FrameSetBytes, FrameSetOk, Visibles;
    frames := [];
    var i := 0;
    while i < |datagrams|
      invariant i <= |datagrams| && frames == Heard(sets[..i])
    {
      var s := new BinaryStream();
      s.PutBytes(datagrams[i]);
      assert s.Ahead() == FrameSetBytes(sets[i]);
      var fs := GetFrameSet(s, sets[i]);
      assert sets[..i + 1][..i] == sets[..i];
      frames := frames + fs.frames;
      i := i + 1;
    }
    assert sets[..i] == sets;
  }

  /** Whole frames go to the application; fragments go on to the holder. */
  method TakeFragments(frames: seq<Frame>) returns (r: seq<Frame>)
    ensures r == Fragmentary(frames)
  {
    r := [];
    var i := 0;
    while i < |frames|
      invariant i <= |frames| && r == Fragmentary(frames[..i])
    {
      assert frames[..i + 1][..i] == frames[..i];
      if frames[i].fragmented {
        r := r + [frames[i]];
      }
      i := i + 1;
    }
    assert frames[..i] == frames;
  }

  /** No compound has this id. */
  ghost predicate Unused(frames: seq<Frame>, id: nat) {
    forall g :: g in frames ==> !(g.fragmented && g.compoundId == id)
  }

  /** All fragments of f are among the frames, and no other fragments have their id. */
  ghost predicate Carried(frames: seq<Frame>, f: Frame, max: nat, id: nat, base: nat)
    requires max > 0
  {
    && (forall g :: g in frames && g.fragmented && g.compoundId == id ==>
          g.index < PieceCount(|f.data|, max) && g == Fragment(f, g.index, max, id, base))
    && forall i: nat :: i < PieceCount(|f.data|, max) ==> Fragment(f, i, max, id, base) in frames
  }

  lemma SentCarries(before: seq<Frame>, f: Frame, max: nat, id: nat, base: nat)
    requires max > 0 && Unused(before, id)
    ensures Carried(before + Fragments(f, PieceCount(|f.data|, max), max, id, base), f, max, id, base)
  {
    hide PieceCount, Piece;
    var frags := Fragments(f, PieceCount(|f.data|, max), max, id, base);
    forall g | g in before + frags && g.fragmented && g.compoundId == id
      ensures g.index < PieceCount(|f.data|, max) && g == Fragment(f, g.index, max, id, base)
    {
      var k :| 0 <= k < |frags| && g == frags[k];
    }
    forall i: nat | i < PieceCount(|f.data|, max) ensures Fragment(f, i, max, id, base) in before + frags {
      assert frags[i] in frags;
    }
  }

  /** What the holder gets of this compound are fragments of f. */
  lemma HeardFragments(sets: seq<FrameSet>, which: seq<nat>, f: Frame, max: nat, id: nat, base: nat)
    requires max > 0 && Carried(Flat(sets), f, max, id, base) && forall j :: 0 <= j < |which| ==> which[j] < |sets|
    ensures FromFragments(Fragmentary(Heard(Chosen(sets, which))), f, max, id, base)
  {
    hide PieceCount, Fragment, Fragmentary, Heard, Flat;
    var frames := Heard(Chosen(sets, which));
    var arrivals := Fragmentary(frames);
    FragmentaryElements(frames);
    FlatElements(sets);
    forall k | 0 <= k < |arrivals| && arrivals[k].compoundId == id
      ensures arrivals[k].index < PieceCount(|f.data|, max) && arrivals[k] == Visible(Fragment(f, arrivals[k].index, max, id, base))
    {
      var x := arrivals[k];
      HeardElements(Chosen(sets, which), x);
      var i, p :| 0 <= i < |which| && 0 <= p < |Chosen(sets, which)[i].frames| && x == Visible(Chosen(sets, which)[i].frames[p]);
      var g := sets[which[i]].frames[p];
      assert g in Flat(sets);
    }
  }

  /** When every datagram has arrived at least once, every fragment has. */
  lemma EverythingHeard(sets: seq<FrameSet>, which: seq<nat>, f: Frame, max: nat, id: nat, base: nat)
    requires max > 0 && Carried(Flat(sets), f, max, id, base) && forall j :: 0 <= j < |which| ==> which[j] < |sets|
    requires forall i: nat :: i < |sets| ==> i in which
    ensures UpTo(PieceCount(|f.data|, max)) <= Arrived(Fragmentary(Heard(Chosen(sets, which))), id)
  {
    hide PieceCount, Piece, Fragmentary, Heard, Flat;
    var frames := Heard(Chosen(sets, which));
    FragmentaryElements(frames);
    FlatElements(sets);
    forall i: nat | i < PieceCount(|f.data|, max) ensures i in Arrived(Fragmentary(frames), id) {
      var g := Fragment(f, i, max, id, base);
      var s: nat :| s < |sets| && g in sets[s].frames;
      assert s in which;
      var p :| 0 <= p < |sets[s].frames| && g == sets[s].frames[p];
      var j :| 0 <= j < |which| && which[j] == s;
      assert Visible(g) == Visible(Chosen(sets, which)[j].frames[p]);
      HeardElements(Chosen(sets, which), Visible(g));
      IndexArrived(Fragmentary(frames), Visible(g), id);
    }
  }

  lemma {:induction false} IndexArrived(arrivals: seq<Frame>, x: Frame, id: nat)
    requires x in arrivals && x.compoundId == id
    ensures x.index in Arrived(arrivals, id)
  {
    var t, last := arrivals[..|arrivals| - 1], arrivals[|arrivals| - 1];
    assert arrivals == t + [last];
    if x in t {
      IndexArrived(t, x, id);
    }
  }

  /** Without a completed round the arrivals are what is collected, and that is not everything. */
  lemma {:induction false} NoRound(arrivals: seq<Frame>, id: nat, n: nat)
    requires n > 0 && Rounds(arrivals, id, n) == 0
    ensures Collected(arrivals, id, n) == Arrived(arrivals, id) != UpTo(n)
  {
    if arrivals == [] {
      assert 0 in UpTo(n);
    } else {
      NoRound(arrivals[..|arrivals| - 1], id, n);
    }
  }

  lemma ArrivedBelow(arrivals: seq<Frame>, f: Frame, max: nat, id: nat, base: nat)
    requires max > 0 && FromFragments(arrivals, f, max, id, base)
    ensures forall x :: x in Arrived(arrivals, id) ==> x < PieceCount(|f.data|, max)
  {
    hide PieceCount, FromFragments, Fragments;
    ArrivalsGenuine(arrivals, f, max, id, base);
    GenuineIndices(arrivals, Fragments(f, PieceCount(|f.data|, max), max, id, base), id);
  }

  /**
   * The receiving end takes datagrams of the sender, in any order and any number of times: of this
   * payload it delivers nothing until the last missing fragment comes, then exactly the payload.
   */
  method HandleDatagrams(h: FrameHolder, sender: Sender, which: seq<nat>, ghost f: Frame, ghost max: nat, id: nat, ghost base: nat)
    returns (delivered: seq<seq<byte>>)
    requires sender.Valid() && h.frames == [] && max > 0 && Carried(Flat(sender.sets), f, max, id, base)
    requires |sender.sent| == |sender.sets| && forall j :: 0 <= j < |which| ==> which[j] < |sender.sent|
    modifies h
    ensures var arrivals, n := Fragmentary(Heard(Chosen(sender.sets, which))), PieceCount(|f.data|, max);
      && delivered == Times(f.data, Rounds(arrivals, id, n))
      && (LastArrived(arrivals, id, n) ==> delivered == [f.data])
      && (!(UpTo(n) <= Arrived(arrivals, id)) ==> delivered == [])
    ensures (forall i: nat :: i < |sender.sent| ==> i in which) ==> delivered != []
  {
    hide Carried, FromFragments, PieceCount, Rounds, Arrived, LastArrived, Fragmentary, Heard, FrameSetBytes, FrameSetOk, Fitting, UpTo;
    SetsReadable(sender);
    ghost var sets := Chosen(sender.sets, which);
    var sent := sender.sent;
    var datagrams := seq(|which|, j requires 0 <= j < |which| && which[j] < |sent| => sent[which[j]]);
    var frames := ReadAll(datagrams, sets);
    var arrivals := TakeFragments(frames);
    HeardFragments(sender.sets, which, f, max, id, base);
    delivered := Deliver(h, f, max, id, base, arrivals);
    SomethingDelivered(sender.sets, which, f, max, id, base);
  }

  lemma SomethingDelivered(sets: seq<FrameSet>, which: seq<nat>, f: Frame, max: nat, id: nat, base: nat)
    requires max > 0 && Carried(Flat(sets), f, max, id, base) && forall j :: 0 <= j < |which| ==> which[j] < |sets|
    ensures (forall i: nat :: i < |sets| ==> i in which) ==>
      Rounds(Fragmentary(Heard(Chosen(sets, which))), id, PieceCount(|f.data|, max)) > 0
  {
    hide Carried, FromFragments, PieceCount, Rounds, Arrived, Fragmentary, Heard, Flat, UpTo;
    if forall i: nat :: i < |sets| ==> i in which {
      HeardFragments(sets, which, f, max, id, base);
      EverythingHeard(sets, which, f, max, id, base);
      ArrivedBelow(Fragmentary(Heard(Chosen(sets, which))), f, max, id, base);
      SomeRound(Fragmentary(Heard(Chosen(sets, which))), id, PieceCount(|f.data|, max));
    }
  }

  lemma SomeRound(arrivals: seq<Frame>, id: nat, n: nat)
    requires n > 0 && UpTo(n) <= Arrived(arrivals, id) && forall x :: x in Arrived(arrivals, id) ==> x < n
    ensures Rounds(arrivals, id, n) > 0
  {
    hide Arrived;
    if Rounds(arrivals, id, n) == 0 {
      NoRound(arrivals, id, n);
    }
  }

  lemma SetsReadable(sender: Sender)
    requires sender.Valid()
    ensures |sender.sent| == |sender.sets|
    ensures forall i :: 0 <= i < |sender.sets| ==> FrameSetOk(sender.sets[i]) && sender.sent[i] == FrameSetBytes(sender.sets[i])
  {
  }

  /**
   * From end to end. The payload is handed to the connection; whatever waited is sent with it. Of all
   * datagrams ever sent, the network delivers those that route says. Every delivery is the payload;
   * there is one when everything arrives, and none when a fragment is missing.
   */
  method Transmit(c: Connection, frame: Frame, h: FrameHolder, route: nat -> seq<nat>) returns (delivered: seq<seq<byte>>)
    requires c.Shape() && c.ChannelsOk() && c.sender.Valid()
    requires CountersOk(c.sender.sequenceNumber, c.reliableIndex, |frame.data|, c.sender.mtu)
    requires frame.reliability < 8 && frame.orderChannel < CHANNELS && !frame.fragmented && FrameOk(frame.(data := []))
    requires |frame.data| > c.sender.mtu - 60 && h.frames == [] && Unused(c.sender.Traffic(), c.compoundId % 65536)
    requires forall n, j :: 0 <= j < |route(n)| ==> route(n)[j] < n
    modifies c, c.sender, c.orderChannels, c.sequenceChannels, h
    ensures |c.sender.sent| == |c.sender.sets| && old(c.sender.sets) <= c.sender.sets
    ensures var which, id, n := route(|c.sender.sent|), old(c.compoundId) % 65536, PieceCount(|frame.data|, c.sender.mtu - 60);
      (forall j :: 0 <= j < |which| ==> which[j] < |c.sender.sets|)
      && var arrivals := Fragmentary(Heard(Chosen(c.sender.sets, which)));
      && delivered == Times(frame.data, Rounds(arrivals, id, n))
      && (LastArrived(arrivals, id, n) ==> delivered == [frame.data])
      && (!(UpTo(n) <= Arrived(arrivals, id)) ==> delivered == [])
    ensures (forall i: nat :: i < |c.sender.sent| ==> i in route(|c.sender.sent|)) ==> delivered != []
  {
    hide Sender.Valid, CountersOk, Unused, Carried, PieceCount, Rounds, Arrived, LastArrived, Fragmentary, Heard, FrameOk, UpTo, Times, Chosen,
      Fragments, Connection.ChannelsOk;
    var id := c.compoundId % 65536;
    ghost var before, base := c.sender.Traffic(), c.reliableIndex;
    ghost var f := Stamped(frame, c.orderChannels[frame.orderChannel], c.sequenceChannels[frame.orderChannel]);
    c.MtuOk();
    c.AddToQueue(frame);
    ghost var max := c.sender.mtu - 60;
    SentCarries(before, f, max, id, base);
    assert Flat(c.sender.sets) + [] == Flat(c.sender.sets);
    SetsReadable(c.sender);
    var which := route(|c.sender.sent|);
    delivered := HandleDatagrams(h, c.sender, which, f, max, id, base);
  }
}
