/**
 * Handing a payload to a connection: indices are stamped, and a payload larger
 * than the MTU allows is cut into fragments.
 */
module RakConnections {
  import opened Bits
  import opened Sequences
  import opened RakFrames
  import opened RakSenders
  import opened RakHolders
  import opened Reassembly

  const CHANNELS := 32

  /** One more than the payload fills: an exact multiple of max gets an empty last piece. */
  function PieceCount(size: nat, max: nat): (n: nat)
    requires max > 0
    ensures n > 0
  {
    size / max + 1
  }

  function PieceEnd(size: nat, i: nat, max: nat): nat {
    if (i + 1) * max < size then (i + 1) * max else size
  }

  /** Bytes of the i-th piece; behind an exact multiple of max comes an empty one. */
  function Piece(data: seq<byte>, i: nat, max: nat): seq<byte>
    requires max > 0 && i < PieceCount(|data|, max)
  {
    PieceStarts(|data|, i, max);
    data[i * max..PieceEnd(|data|, i, max)]
  }

  /** The last piece is what is left over. */
  lemma LastPiece(data: seq<byte>, max: nat)
    requires max > 0
    ensures |Piece(data, PieceCount(|data|, max) - 1, max)| == |data| % max
    ensures forall i: nat :: i < PieceCount(|data|, max) - 1 ==> |Piece(data, i, max)| == max
  {
    hide Piece;
    forall i: nat | i < PieceCount(|data|, max) ensures |Piece(data, i, max)| == if i < |data| / max then max else |data| % max {
      PieceLength(data, i, max);
    }
  }

  lemma PieceLength(data: seq<byte>, i: nat, max: nat)
    requires max > 0 && i < PieceCount(|data|, max)
    ensures |Piece(data, i, max)| == if i < |data| / max then max else |data| % max
  {
    PieceStarts(|data|, i, max);
    Divided(|data|, max, i);
  }

  lemma Divided(n: nat, d: nat, i: nat)
    requires d > 0
    ensures n - n / d * d == n % d && (i + 1) * d - i * d == d
  {
  }

  lemma PieceStarts(size: nat, i: nat, max: nat)
    requires max > 0 && i < PieceCount(size, max)
    ensures i * max <= PieceEnd(size, i, max) <= size
    ensures PieceEnd(size, i, max) == if i < size / max then (i + 1) * max else size
    ensures PieceEnd(size, i, max) - i * max <= max
  {
    var q := size / max;
    MulAtLeast(max, i, q);
    if i < q {
      MulAtLeast(max, i + 1, q);
    }
  }

  /** The i-th fragment of a stamped frame. */
  function Fragment(f: Frame, i: nat, max: nat, id: nat, base: nat): Frame
    requires max > 0 && i < PieceCount(|f.data|, max)
  {
    var r := f.reliability;
    Frame(r, true, if IsReliable(r) then base + i else 0, if IsSequenced(r) then f.sequencedIndex else 0,
          if IsOrdered(r) then f.orderedIndex else 0, if IsOrdered(r) then f.orderChannel else 0,
          PieceCount(|f.data|, max), id, i, Piece(f.data, i, max))
  }

  function Fragments(f: Frame, n: nat, max: nat, id: nat, base: nat): (r: seq<Frame>)
    requires max > 0 && n <= PieceCount(|f.data|, max)
    ensures |r| == n && forall i :: 0 <= i < n ==> r[i] == Fragment(f, i, max, id, base)
  {
    if n == 0 then [] else Fragments(f, n - 1, max, id, base) + [Fragment(f, n - 1, max, id, base)]
  }

  lemma {:induction false} JoinPieces(f: Frame, n: nat, max: nat, id: nat, base: nat)
    requires max > 0 && n <= PieceCount(|f.data|, max)
    ensures Join(Fragments(f, n, max, id, base)) == if n == 0 then [] else f.data[..PieceEnd(|f.data|, n - 1, max)]
  {
    if n > 0 {
      var t := Fragments(f, n - 1, max, id, base);
      var x := Fragment(f, n - 1, max, id, base);
      JoinPieces(f, n - 1, max, id, base);
      assert (t + [x])[..n - 1] == t;
      PieceStarts(|f.data|, n - 1, max);
      if n > 1 {
        PieceStarts(|f.data|, n - 2, max);
      }
      assert f.data[..PieceEnd(|f.data|, n - 1, max)]
        == f.data[..(n - 1) * max] + f.data[(n - 1) * max..PieceEnd(|f.data|, n - 1, max)];
    }
  }

  /** The fragments are one compound, and joining them gives the payload back. */
  lemma FragmentsAreCompound(f: Frame, max: nat, id: nat, base: nat)
    requires max > 0
    ensures IsCompound(Fragments(f, PieceCount(|f.data|, max), max, id, base), id)
    ensures Join(Fragments(f, PieceCount(|f.data|, max), max, id, base)) == f.data
  {
    var n := PieceCount(|f.data|, max);
    JoinPieces(f, n, max, id, base);
    PieceStarts(|f.data|, n - 1, max);
    assert f.data[..|f.data|] == f.data;
  }

  /** What arrives of this compound are fragments of f as a reader of their bytes sees them. */
  ghost predicate FromFragments(arrivals: seq<Frame>, f: Frame, max: nat, id: nat, base: nat)
    requires max > 0
  {
    forall k :: 0 <= k < |arrivals| && arrivals[k].compoundId == id ==>
      arrivals[k].index < PieceCount(|f.data|, max) && arrivals[k] == Visible(Fragment(f, arrivals[k].index, max, id, base))
  }

  lemma ArrivalsGenuine(arrivals: seq<Frame>, f: Frame, max: nat, id: nat, base: nat)
    requires max > 0 && FromFragments(arrivals, f, max, id, base)
    ensures AllGenuine(arrivals, Fragments(f, PieceCount(|f.data|, max), max, id, base), id)
  {
    hide PieceCount, Piece;
    var frags := Fragments(f, PieceCount(|f.data|, max), max, id, base);
    forall k | 0 <= k < |arrivals| ensures Genuine(arrivals[k], frags, id) {
      var x := arrivals[k];
      if x.compoundId == id {
        assert Visible(Fragment(f, x.index, max, id, base)) == Fragment(f, x.index, max, id, base);
      }
    }
  }

  /** This arrival brings the last missing one of n fragments. */
  ghost predicate LastArrived(arrivals: seq<Frame>, id: nat, n: nat) {
    && arrivals != []
    && var before, last := arrivals[..|arrivals| - 1], arrivals[|arrivals| - 1];
      last.compoundId == id && last.index !in Arrived(before, id) && Arrived(before, id) + {last.index} == UpTo(n)
  }

  /**
   * Fragmentation and reassembly together: a payload cut into fragments comes back exactly, when and
   * only when the last fragment arrives, whatever the order, the duplicates and the other compounds.
   */
  method Deliver(h: FrameHolder, ghost f: Frame, ghost max: nat, id: nat, ghost base: nat, arrivals: seq<Frame>) returns (delivered: seq<seq<byte>>)
    requires max > 0 && h.frames == [] && FromFragments(arrivals, f, max, id, base)
    modifies h
    ensures delivered == Times(f.data, Rounds(arrivals, id, PieceCount(|f.data|, max)))
    ensures LastArrived(arrivals, id, PieceCount(|f.data|, max)) ==> delivered == [f.data]
    ensures !(UpTo(PieceCount(|f.data|, max)) <= Arrived(arrivals, id)) ==> delivered == []
  {
    hide PieceCount, Piece, Arrived, Rounds, FromFragments, AllGenuine, IsCompound;
    ghost var n := PieceCount(|f.data|, max);
    FragmentsAreCompound(f, max, id, base);
    ArrivalsGenuine(arrivals, f, max, id, base);
    delivered := ReceiveAll(h, arrivals, id, Fragments(f, n, max, id, base));
    RoundsOnce(arrivals, id, n);
  }

  lemma RoundsOnce(arrivals: seq<Frame>, id: nat, n: nat)
    ensures LastArrived(arrivals, id, n) ==> Rounds(arrivals, id, n) == 1
    ensures !(UpTo(n) <= Arrived(arrivals, id)) ==> Rounds(arrivals, id, n) == 0
  {
    hide Arrived, Rounds;
    if LastArrived(arrivals, id, n) {
      var before, last := arrivals[..|arrivals| - 1], arrivals[|arrivals| - 1];
      assert last.index in UpTo(n);
      LastMissing(before, last, n);
      assert before + [last] == arrivals;
    }
    if !(UpTo(n) <= Arrived(arrivals, id)) {
      var missing :| missing in UpTo(n) && missing !in Arrived(arrivals, id);
      NothingYet(arrivals, id, n, missing);
    }
  }

  /** Fragments and whole frames are small enough for the sender's queue. */
  lemma FragmentOffered(f: Frame, i: nat, mtu: nat, id: nat, base: nat)
    requires 60 < mtu <= 8191 + 60 && i < PieceCount(|f.data|, mtu - 60) < 0x1_0000_0000
    requires f.reliability < 8 && f.sequencedIndex < 0x100_0000 && f.orderedIndex < 0x100_0000
    requires base + i < 0x100_0000 && f.orderChannel < 256 && id < 65536
    ensures Offered(Fragment(f, i, mtu - 60, id, base), mtu)
  {
    PieceStarts(|f.data|, i, mtu - 60);
  }

  lemma WholeOffered(f: Frame, mtu: nat)
    requires 60 < mtu <= 8191 + 60 && |f.data| <= mtu - 60 && !f.fragmented
    requires f.reliability < 8 && f.sequencedIndex < 0x100_0000 && f.orderedIndex < 0x100_0000 && f.reliableIndex < 0x100_0000
    requires f.orderChannel < 256 && f.compoundId < 65536 && f.compoundSize < 0x1_0000_0000 && f.index < 0x1_0000_0000
    ensures Offered(f, mtu)
  {
  }

  /** The frame with the indices its reliability asks for. */
  function Stamped(f: Frame, order: nat, sequence: nat): Frame {
    if IsSequenced(f.reliability) then f.(orderedIndex := order, sequencedIndex := sequence)
    else if IsOrdered(f.reliability) then f.(orderedIndex := order)
    else f
  }

  /** Room in the 24-bit counters for everything a payload of this size may use. */
  predicate CountersOk(sequenceNumber: nat, reliableIndex: nat, size: nat, mtu: nat)
    requires mtu > 60
  {
    var n := PieceCount(size, mtu - 60);
    sequenceNumber + 2 * n < 0x100_0000 && reliableIndex + n < 0x100_0000
  }

  /** Where the i-th piece starts. */
  function At(i: nat, max: nat): nat {
    i * max
  }

  lemma NextMultiple(i: nat, max: nat)
    ensures (i + 1) * max == i * max + max && At(i + 1, max) == At(i, max) + max && At(0, max) == 0
  {
  }

  lemma CounterRoom(sequenceNumber: nat, reliableIndex: nat, size: nat, mtu: nat, i: nat)
    requires mtu > 60 && CountersOk(sequenceNumber, reliableIndex, size, mtu) && i < PieceCount(size, mtu - 60)
    ensures sequenceNumber + 2 * i + 2 < 0x100_0000 && reliableIndex + i < 0x100_0000 && PieceCount(size, mtu - 60) < 0x1_0000_0000
  {
  }

  lemma FragmentsSnoc(f: Frame, n: nat, max: nat, id: nat, base: nat)
    requires max > 0 && n < PieceCount(|f.data|, max)
    ensures multiset(Fragments(f, n + 1, max, id, base))
      == multiset(Fragments(f, n, max, id, base)) + multiset{Fragment(f, n, max, id, base)}
    ensures Fragments(f, n + 1, max, id, base) == Fragments(f, n, max, id, base) + [Fragment(f, n, max, id, base)]
  {
  }

  /** The connection before the first fragment goes out. */
  datatype Start = Start(reliableIndex: nat, id: nat, sequenceNumber: nat, given: multiset<Frame>, acked: multiset<Frame>, lost: multiset<Frame>,
                         traffic: seq<Frame>, sets: seq<FrameSet>)

  class Connection {
    const sender: Sender
    const orderChannels: array<nat>
    const sequenceChannels: array<nat>
    var reliableIndex: nat
    /** 32 bits here, 16 bits on the wire. */
    var compoundId: nat

    ghost predicate Shape()
    {
      orderChannels.Length == CHANNELS && sequenceChannels.Length == CHANNELS && orderChannels != sequenceChannels
    }

    ghost predicate ChannelsOk()
      reads orderChannels, sequenceChannels
      requires Shape()
    {
      forall c :: 0 <= c < CHANNELS ==> orderChannels[c] < 0x100_0000 - 1 && sequenceChannels[c] < 0x100_0000 - 1
    }

    constructor (mtu: nat)
      requires 60 < mtu <= 8191 + 60
      ensures Shape() && ChannelsOk() && fresh(sender) && sender.Valid() && sender.mtu == mtu && sender.given == multiset{}
      ensures reliableIndex == 0 && compoundId == 0 && sender.sequenceNumber == 0 && NumberedInOrder()
      ensures orderChannels.Length == sequenceChannels.Length == 32
      ensures forall c :: 0 <= c < 32 ==> orderChannels[c] == 0 && sequenceChannels[c] == 0
    {
      sender := new Sender(mtu);
      orderChannels := new nat[CHANNELS](_ => 0);
      sequenceChannels := new nat[CHANNELS](_ => 0);
      reliableIndex, compoundId := 0, 0;
    }

    /** Order and sequence indices: a sequenced frame does not move the order of its channel on. */
    method Stamp(frame: Frame) returns (f: Frame)
      requires Shape() && ChannelsOk() && frame.orderChannel < CHANNELS
      modifies orderChannels, sequenceChannels
      ensures var c, r := frame.orderChannel, frame.reliability;
        && f == Stamped(frame, old(orderChannels[c]), old(sequenceChannels[c]))
        && sequenceChannels[..] == Moved(old(sequenceChannels[..]), c, IsSequenced(r))
        && orderChannels[..] == Moved(old(orderChannels[..]), c, IsOrdered(r) && !IsSequenced(r))
    {
      var c := frame.orderChannel;
      f := frame;
      if IsSequenced(frame.reliability) {
        f := f.(orderedIndex := orderChannels[c], sequencedIndex := sequenceChannels[c]);
        sequenceChannels[c] := sequenceChannels[c] + 1;
      } else if IsOrdered(frame.reliability) {
        f := f.(orderedIndex := orderChannels[c]);
        orderChannels[c] := orderChannels[c] + 1;
      }
    }

    /** Cuts a stamped frame into fragments and sends each of them at once. */
    method SendFragments(f: Frame)
      requires sender.Valid() && f.reliability < 8 && f.sequencedIndex < 0x100_0000 && f.orderedIndex < 0x100_0000 && f.orderChannel < 256
      requires CountersOk(sender.sequenceNumber, reliableIndex, |f.data|, sender.mtu)
      modifies this`reliableIndex, sender
      ensures sender.Valid()
      ensures var n := PieceCount(|f.data|, sender.mtu - 60);
        sender.given == old(sender.given) + multiset(Fragments(f, n, sender.mtu - 60, compoundId % 65536, old(reliableIndex)))
      ensures sender.acked == old(sender.acked) && sender.lost == old(sender.lost)
      ensures reliableIndex == old(reliableIndex) + (if IsReliable(f.reliability) then PieceCount(|f.data|, sender.mtu - 60) else 0)
      ensures var n := PieceCount(|f.data|, sender.mtu - 60);
        sender.Traffic() == old(sender.Traffic()) + Fragments(f, n, sender.mtu - 60, compoundId % 65536, old(reliableIndex))
      ensures sender.queue == [] && old(sender.sets) <= sender.sets
    {
      hide Sender.Valid, CountersOk, Fragments, IsReliable, PieceCount, At, Progress, Sender.Traffic;
      MtuOk();
      var maxSize := sender.mtu - 60;
      var count := PieceCount(|f.data|, maxSize);
      ghost var start := Start(reliableIndex, compoundId % 65536, sender.sequenceNumber, sender.given, sender.acked, sender.lost,
                                    sender.Traffic(), sender.sets);
      var at: nat := 0;
      StartProgress(f, maxSize, start);
      for i := 0 to count
        invariant Progress(f, i, maxSize, at, start)
      {
        NextFragmentOut(f, i, count, maxSize, at, start);
        at := at + maxSize;
      }
      EndProgress(f, count, maxSize, at, start);
    }

    /** The first i fragments are out. */
    ghost predicate Progress(f: Frame, i: nat, max: nat, at: nat, start: Start)
      reads this, sender
    {
      && sender.Valid() && max > 0 && i <= PieceCount(|f.data|, max) && at == At(i, max) && start.id == compoundId % 65536
      && sender.acked == start.acked && sender.lost == start.lost && sender.sequenceNumber <= start.sequenceNumber + 2 * i
      && reliableIndex == start.reliableIndex + (if IsReliable(f.reliability) then i else 0)
      && sender.given == start.given + multiset(Fragments(f, i, max, start.id, start.reliableIndex))
      && sender.Traffic() == start.traffic + Fragments(f, i, max, start.id, start.reliableIndex)
      && start.sets <= sender.sets && (i > 0 ==> sender.queue == [])
    }

    lemma StartProgress(f: Frame, max: nat, start: Start)
      requires sender.Valid() && max > 0
      requires start == Start(reliableIndex, compoundId % 65536, sender.sequenceNumber, sender.given, sender.acked, sender.lost,
                                    sender.Traffic(), sender.sets)
      ensures Progress(f, 0, max, 0, start)
    {
      hide Sender.Valid, Fragment;
      NextMultiple(0, max);
    }

    lemma EndProgress(f: Frame, i: nat, max: nat, at: nat, start: Start)
      requires Progress(f, i, max, at, start)
      ensures sender.Valid() && max > 0 && i <= PieceCount(|f.data|, max) && sender.acked == start.acked && sender.lost == start.lost
      ensures reliableIndex == start.reliableIndex + (if IsReliable(f.reliability) then i else 0)
      ensures sender.given == start.given + multiset(Fragments(f, i, max, start.id, start.reliableIndex))
      ensures sender.Traffic() == start.traffic + Fragments(f, i, max, start.id, start.reliableIndex)
      ensures start.sets <= sender.sets && (i > 0 ==> sender.queue == [])
    {
      hide Sender.Valid, Fragments, PieceCount, At, Sender.Traffic;
    }

    method NextFragmentOut(f: Frame, i: nat, count: nat, maxSize: nat, at: nat, ghost start: Start)
      requires f.reliability < 8 && f.sequencedIndex < 0x100_0000 && f.orderedIndex < 0x100_0000 && f.orderChannel < 256
      requires maxSize == sender.mtu - 60 > 0 && count == PieceCount(|f.data|, maxSize) && i < count
      requires Progress(f, i, maxSize, at, start) && CountersOk(start.sequenceNumber, start.reliableIndex, |f.data|, sender.mtu)
      modifies this`reliableIndex, sender
      ensures Progress(f, i + 1, maxSize, at + maxSize, start)
    {
      hide Sender.Valid, CountersOk, Fragments, IsReliable, PieceCount, At, Fragment, Sender.Traffic;
      CounterRoom(start.sequenceNumber, start.reliableIndex, |f.data|, sender.mtu, i);
      NextMultiple(i, maxSize);
      FragmentsSnoc(f, i, maxSize, start.id, start.reliableIndex);
      SendOne(f, i, count, maxSize, at, start.reliableIndex, start.id);
    }

    /** Sends the i-th fragment. */
    method SendOne(f: Frame, i: nat, count: nat, maxSize: nat, at: nat, ghost base: nat, ghost id: nat)
      requires sender.Valid() && f.reliability < 8 && f.sequencedIndex < 0x100_0000 && f.orderedIndex < 0x100_0000 && f.orderChannel < 256
      requires maxSize == sender.mtu - 60 > 0 && count == PieceCount(|f.data|, maxSize) < 0x1_0000_0000 && i < count && at == At(i, maxSize)
      requires id == compoundId % 65536 && reliableIndex == base + (if IsReliable(f.reliability) then i else 0)
      requires sender.sequenceNumber + 2 < 0x100_0000 && base + i < 0x100_0000
      modifies this`reliableIndex, sender
      ensures sender.Valid() && sender.given == old(sender.given) + multiset{Fragment(f, i, maxSize, id, base)}
      ensures sender.acked == old(sender.acked) && sender.lost == old(sender.lost)
      ensures sender.sequenceNumber <= old(sender.sequenceNumber) + 2
      ensures sender.Traffic() == old(sender.Traffic()) + [Fragment(f, i, maxSize, id, base)]
      ensures sender.queue == [] && old(sender.sets) <= sender.sets
      ensures reliableIndex == base + (if IsReliable(f.reliability) then i + 1 else 0)
    {
      hide Sender.Valid, Offered, TooMany, Piece, Fragment, IsReliable, Sender.Traffic;
      MtuOk();
      FragmentOffered(f, i, sender.mtu, id, base);
      var fragment := NextFragment(f, i, count, maxSize, at, base, id);
      sender.AppendFrame(fragment, true);
    }

    lemma MtuOk()
      requires sender.Valid()
      ensures 60 < sender.mtu <= 8191 + 60
    {
    }

    /** Fills in the i-th fragment. */
    method NextFragment(f: Frame, i: nat, count: nat, maxSize: nat, at: nat, ghost base: nat, ghost id: nat) returns (fragment: Frame)
      requires maxSize > 0 && count == PieceCount(|f.data|, maxSize) && i < count && at == At(i, maxSize) && id == compoundId % 65536
      requires reliableIndex == base + (if IsReliable(f.reliability) then i else 0)
      modifies this`reliableIndex
      ensures fragment == Fragment(f, i, maxSize, id, base)
      ensures reliableIndex == base + (if IsReliable(f.reliability) then i + 1 else 0)
    {
      hide Piece;
      var piece := PieceOf(f.data, i, count, maxSize, at);
      fragment := Frame(f.reliability, true, 0, 0, 0, 0, count, compoundId % 65536, i, piece);
      if IsReliable(f.reliability) {
        fragment := fragment.(reliableIndex := reliableIndex);
        reliableIndex := reliableIndex + 1;
      }
      if IsOrdered(f.reliability) {
        fragment := fragment.(orderedIndex := f.orderedIndex, orderChannel := f.orderChannel);
      }
      if IsSequenced(f.reliability) {
        fragment := fragment.(sequencedIndex := f.sequencedIndex);
      }
    }

    /** The bytes of the i-th piece: a full one, or what the padding leaves of the last one. */
    method PieceOf(data: seq<byte>, i: nat, count: nat, maxSize: nat, at: nat) returns (piece: seq<byte>)
      requires maxSize > 0 && count == PieceCount(|data|, maxSize) && i < count && at == At(i, maxSize)
      ensures piece == Piece(data, i, maxSize)
    {
      PieceStarts(|data|, i, maxSize);
      PadBytes(|data|, maxSize);
      NextMultiple(i, maxSize);
      var padBytes := count * maxSize - |data|;
      var size := if i == count - 1 then maxSize - padBytes else maxSize;
      piece := data[at..at + size];
    }

    /** Hands a payload to the queue: whole if it fits, otherwise as fragments of a new compound. */
    method AddToQueue(frame: Frame)
      requires Shape() && ChannelsOk() && sender.Valid() && CountersOk(sender.sequenceNumber, reliableIndex, |frame.data|, sender.mtu)
      requires frame.reliability < 8 && frame.orderChannel < CHANNELS && !frame.fragmented && FrameOk(frame.(data := []))
      modifies this, sender, orderChannels, sequenceChannels
      ensures sender.Valid() && sender.acked == old(sender.acked) && sender.lost == old(sender.lost)
      ensures var f := Stamped(frame, old(orderChannels[frame.orderChannel]), old(sequenceChannels[frame.orderChannel]));
        sender.given == old(sender.given) + multiset(Pieces(f, sender.mtu - 60, old(compoundId) % 65536, old(reliableIndex)))
      ensures var f := Stamped(frame, old(orderChannels[frame.orderChannel]), old(sequenceChannels[frame.orderChannel]));
        sender.Traffic() == old(sender.Traffic()) + Pieces(f, sender.mtu - 60, old(compoundId) % 65536, old(reliableIndex))
      ensures old(sender.sets) <= sender.sets
      ensures var f := Stamped(frame, old(orderChannels[frame.orderChannel]), old(sequenceChannels[frame.orderChannel]));
        if |frame.data| > sender.mtu - 60 then sender.queue == []
        else sender.queue != [] && sender.queue[|sender.queue| - 1] == Whole(f, old(reliableIndex))
      ensures compoundId == if |frame.data| > sender.mtu - 60 then (old(compoundId) + 1) % 0x1_0000_0000 else old(compoundId)
      ensures reliableIndex == old(reliableIndex) + (if frame.reliability in {2, 3, 4, 6, 7} then
        if |frame.data| > sender.mtu - 60 then PieceCount(|frame.data|, sender.mtu - 60) else 1 else 0)
      ensures sequenceChannels[..] == Moved(old(sequenceChannels[..]), frame.orderChannel, frame.reliability in {1, 4})
      ensures orderChannels[..] == Moved(old(orderChannels[..]), frame.orderChannel, frame.reliability in {3, 7})
      ensures old(NumberedInOrder()) ==> NumberedInOrder()
    {
      hide Sender.Valid, FrameOk, CountersOk, IsReliable, IsOrdered, IsSequenced, Pieces, Sender.Traffic, Moved, PieceCount, ReliableNumbers;
      MtuOk();
      FieldsOk(frame);
      Kinds(frame.reliability);
      var f := Stamp(frame);
      ghost var traffic, index := sender.Traffic(), reliableIndex;
      Submit(f);
      PiecesNumbered(f, sender.mtu - 60, old(compoundId) % 65536, index);
      NumbersAppend(traffic, Pieces(f, sender.mtu - 60, old(compoundId) % 65536, index));
    }

    /** The reliable frames handed over so far are numbered from 0, in the order in which they go out. */
    ghost predicate NumberedInOrder()
      reads this, sender
    {
      ReliableNumbers(sender.Traffic()) == UpFrom(0, reliableIndex)
    }

    /** Queues a stamped frame. */
    method Submit(frame: Frame)
      requires sender.Valid() && CountersOk(sender.sequenceNumber, reliableIndex, |frame.data|, sender.mtu)
      requires frame.reliability < 8 && !frame.fragmented && FieldsFit(frame)
      modifies this, sender
      ensures sender.Valid() && sender.acked == old(sender.acked) && sender.lost == old(sender.lost)
      ensures sender.given == old(sender.given) + multiset(Pieces(frame, sender.mtu - 60, old(compoundId) % 65536, old(reliableIndex)))
      ensures sender.Traffic() == old(sender.Traffic()) + Pieces(frame, sender.mtu - 60, old(compoundId) % 65536, old(reliableIndex))
      ensures old(sender.sets) <= sender.sets
      ensures if |frame.data| > sender.mtu - 60 then sender.queue == []
        else sender.queue != [] && sender.queue[|sender.queue| - 1] == Whole(frame, old(reliableIndex))
      ensures compoundId == if |frame.data| > sender.mtu - 60 then (old(compoundId) + 1) % 0x1_0000_0000 else old(compoundId)
      ensures reliableIndex == old(reliableIndex) + Numbers(frame, sender.mtu - 60)
    {
      hide Sender.Valid, Offered, TooMany, FrameOk, Fragments, IsReliable, CountersOk, FieldsFit, Sender.Traffic;
      MtuOk();
      if |frame.data| > sender.mtu - 60 {
        FitsFields(frame);
        SendFragments(frame);
        compoundId := (compoundId + 1) % 0x1_0000_0000;
      } else {
        SendWhole(frame);
      }
    }

    lemma FitsFields(f: Frame)
      requires FieldsFit(f)
      ensures f.sequencedIndex < 0x100_0000 && f.orderedIndex < 0x100_0000 && f.orderChannel < 256
    {
    }

    method SendWhole(frame: Frame)
      requires sender.Valid() && CountersOk(sender.sequenceNumber, reliableIndex, |frame.data|, sender.mtu)
      requires frame.reliability < 8 && !frame.fragmented && FieldsFit(frame) && |frame.data| <= sender.mtu - 60
      modifies this`reliableIndex, sender
      ensures sender.Valid() && sender.acked == old(sender.acked) && sender.lost == old(sender.lost)
      ensures sender.given == old(sender.given) + multiset{Whole(frame, old(reliableIndex))}
      ensures sender.Traffic() == old(sender.Traffic()) + [Whole(frame, old(reliableIndex))] && old(sender.sets) <= sender.sets
      ensures sender.queue != [] && sender.queue[|sender.queue| - 1] == Whole(frame, old(reliableIndex))
      ensures reliableIndex == old(reliableIndex) + Numbers(frame, sender.mtu - 60)
    {
      hide Sender.Valid, Offered, TooMany, FrameOk, IsReliable, CountersOk, Sender.Traffic;
      MtuOk();
      CounterRoom(sender.sequenceNumber, reliableIndex, |frame.data|, sender.mtu, 0);
      var f := frame;
      if IsReliable(f.reliability) {
        f := f.(reliableIndex := reliableIndex);
        reliableIndex := reliableIndex + 1;
      }
      WholeOffered(f, sender.mtu);
      sender.AppendFrame(f, false);
    }
  }

  function Whole(f: Frame, index: nat): Frame {
    if IsReliable(f.reliability) then f.(reliableIndex := index) else f
  }

  /** The frames that carry a stamped frame's payload. */
  function Pieces(f: Frame, max: nat, id: nat, index: nat): seq<Frame>
    requires max > 0
  {
    if |f.data| > max then Fragments(f, PieceCount(|f.data|, max), max, id, index) else [Whole(f, index)]
  }

  /** How many reliable numbers a payload uses up. */
  function Numbers(f: Frame, max: nat): nat
    requires max > 0
  {
    if !IsReliable(f.reliability) then 0 else if |f.data| > max then PieceCount(|f.data|, max) else 1
  }

  /** The reliable numbers of some frames, in order. */
  function ReliableNumbers(frames: seq<Frame>): seq<nat> {
    if frames == [] then []
    else
      var r, f := ReliableNumbers(frames[..|frames| - 1]), frames[|frames| - 1];
      if IsReliable(f.reliability) then r + [f.reliableIndex] else r
  }

  function UpFrom(a: nat, n: nat): seq<nat> {
    seq(n, i requires i >= 0 => a + i)
  }

  lemma {:induction false} NumbersAppend(a: seq<Frame>, b: seq<Frame>)
    ensures ReliableNumbers(a + b) == ReliableNumbers(a) + ReliableNumbers(b)
  {
    if b == [] {
      assert a + b == a;
    } else {
      NumbersAppend(a, b[..|b| - 1]);
      assert (a + b)[..|a + b| - 1] == a + b[..|b| - 1];
    }
  }

  lemma {:induction false} FragmentsNumbered(f: Frame, n: nat, max: nat, id: nat, base: nat)
    requires max > 0 && n <= PieceCount(|f.data|, max)
    ensures ReliableNumbers(Fragments(f, n, max, id, base)) == if IsReliable(f.reliability) then UpFrom(base, n) else []
  {
    hide PieceCount, Piece, Fragment, Fragments, ReliableNumbers, IsReliable, UpFrom;
    if n > 0 {
      FragmentsNumbered(f, n - 1, max, id, base);
      OneFragmentMore(f, n - 1, max, id, base);
      FragmentNumber(f, n - 1, max, id, base);
      NumbersSnoc(Fragments(f, n - 1, max, id, base), Fragment(f, n - 1, max, id, base));
      OneNumberMore(base, n - 1);
    } else {
      NoFragments(f, max, id, base);
    }
  }

  lemma OneNumberMore(a: nat, n: nat)
    ensures UpFrom(a, n + 1) == UpFrom(a, n) + [a + n]
  {
  }

  lemma NoFragments(f: Frame, max: nat, id: nat, base: nat)
    requires max > 0
    ensures ReliableNumbers(Fragments(f, 0, max, id, base)) == [] && UpFrom(base, 0) == []
  {
  }

  lemma OneFragmentMore(f: Frame, n: nat, max: nat, id: nat, base: nat)
    requires max > 0 && n < PieceCount(|f.data|, max)
    ensures Fragments(f, n + 1, max, id, base) == Fragments(f, n, max, id, base) + [Fragment(f, n, max, id, base)]
  {
    hide PieceCount, Piece, Fragment;
  }

  lemma FragmentNumber(f: Frame, i: nat, max: nat, id: nat, base: nat)
    requires max > 0 && i < PieceCount(|f.data|, max)
    ensures var r := Fragment(f, i, max, id, base);
      r.reliability == f.reliability && (IsReliable(f.reliability) ==> r.reliableIndex == base + i)
  {
  }

  lemma NumbersSnoc(frames: seq<Frame>, f: Frame)
    ensures ReliableNumbers(frames + [f]) == ReliableNumbers(frames) + (if IsReliable(f.reliability) then [f.reliableIndex] else [])
  {
    assert (frames + [f])[..|frames|] == frames;
  }

  lemma PiecesNumbered(f: Frame, max: nat, id: nat, base: nat)
    requires max > 0
    ensures ReliableNumbers(Pieces(f, max, id, base)) == UpFrom(base, Numbers(f, max))
  {
    hide Fragments, PieceCount;
    if |f.data| > max {
      FragmentsNumbered(f, PieceCount(|f.data|, max), max, id, base);
    } else {
      assert [Whole(f, base)][..0] == [];
    }
  }

  /** The counter of one channel moves on. */
  function Moved(counters: seq<nat>, c: nat, on: bool): seq<nat> {
    if on && c < |counters| then counters[c := counters[c] + 1] else counters
  }

  /** Which kinds are reliable, sequenced and ordered. */
  lemma Kinds(reliability: nat)
    ensures IsReliable(reliability) <==> reliability in {2, 3, 4, 6, 7}
    ensures IsSequenced(reliability) <==> reliability in {1, 4}
    ensures IsOrdered(reliability) <==> reliability in {1, 3, 4, 7}
  {
  }

  lemma PadBytes(size: nat, max: nat)
    requires max > 0
    ensures PieceCount(size, max) * max - size == max - size % max
  {
    NextMultiple(size / max, max);
  }

  predicate FieldsFit(f: Frame) {
    && f.sequencedIndex < 0x100_0000 && f.orderedIndex < 0x100_0000 && f.reliableIndex < 0x100_0000
    && f.orderChannel < 256 && f.compoundId < 65536 && f.compoundSize < 0x1_0000_0000 && f.index < 0x1_0000_0000
  }

  lemma FieldsOk(f: Frame)
    requires FrameOk(f.(data := []))
    ensures FieldsFit(f)
  {
  }
}
