/**
 * The receiving side of a connection: frame sets are booked as they arrive, and every tick
 * sends what is acknowledged and what is missing. The packets may get lost, come more than
 * once, and overtake each other on their way to the other end.
 */
module RakReceivers {
  import opened Bits
  import opened Sequences
  import opened BinaryStreams
  import opened RakFrames
  import opened RakSenders
  import opened Acks
  import opened RakHandlers
  import opened RakArrivals

  lemma RangeSteps(q: seq<nat>, lo: nat, hi: nat)
    ensures hi <= lo ==> AppendedRange(q, lo, hi) == q
    ensures lo <= hi ==> AppendedRange(q, lo, hi + 1) == Appended(AppendedRange(q, lo, hi), hi)
  {
  }

  lemma MinusSnoc(q: seq<nat>, i: nat, n: nat)
    requires i < |q|
    ensures Minus(q[..i + 1], n) == Minus(q[..i], n) + (if q[i] == n then [] else [q[i]])
  {
    assert q[..i + 1][..i] == q[..i];
  }

  lemma {:induction false} NothingToTake(q: seq<nat>, n: nat)
    requires n !in q
    ensures Minus(q, n) == q
  {
    if q != [] {
      NothingToTake(q[..|q| - 1], n);
    }
  }

  class Receiver {
    /** One more than the number of the last frame set. */
    var expected: nat
    var acks: seq<nat>
    var nacks: seq<nat>
    /** Datagrams handed to the socket. */
    var sent: seq<seq<byte>>
    ghost var events: seq<Event>

    constructor ()
      ensures Valid() && events == [] && sent == []
    {
      expected, acks, nacks, sent, events := 0, [], [], [], [];
    }

    static method IsIn(q: seq<nat>, n: nat) returns (found: bool)
      ensures found <==> n in q
    {
      var i := 0;
      while i < |q|
        invariant i <= |q| && n !in q[..i]
      {
        if q[i] == n {
          return true;
        }
        i := i + 1;
      }
      found := false;
    }

    method AppendAck(n: nat)
      modifies this`acks
      ensures acks == Appended(old(acks), n)
    {
      var found := IsIn(acks, n);
      if !found {
        acks := acks + [n];
      }
    }

    method AppendNack(n: nat)
      modifies this`nacks
      ensures nacks == Appended(old(nacks), n)
    {
      var found := IsIn(nacks, n);
      if !found {
        nacks := nacks + [n];
      }
    }

    method DeductNack(n: nat)
      requires NoRepeats(nacks)
      modifies this`nacks
      ensures nacks == Minus(old(nacks), n) && NoRepeats(nacks) && |nacks| == |old(nacks)| - (if n in old(nacks) then 1 else 0)
    {
      assert Minus([], n) == [];
      hide Minus, NoRepeats;
      MinusElements(nacks, n);
      var found := IsIn(nacks, n);
      if found {
        var kept: seq<nat> := [];
        var i := 0;
        while i < |nacks|
          invariant nacks == old(nacks) && nacks[..0] == [] && i <= |nacks| && kept == Minus(nacks[..i], n)
        {
          MinusSnoc(nacks, i, n);
          assert kept + [] == kept;
          if nacks[i] != n {
            kept := kept + [nacks[i]];
          }
          i := i + 1;
        }
        assert nacks[..i] == nacks;
        nacks := kept;
      } else {
        NothingToTake(nacks, n);
      }
    }

    /** The queues and everything sent are those behind the events so far. */
    ghost predicate Valid()
      reads this
    {
      && expected == Expected(events) && acks == AckQueue(events) && nacks == NackQueue(events)
      && SentAs(sent, Packets(events))
    }

    /** Books frame set n: acknowledged, no longer missing, and the numbers behind the expected one are asked for. */
    method HandleSet(n: nat)
      requires Valid()
      modifies this
      ensures Valid() && events == old(events) + [Arrive(n)] && sent == old(sent)
    {
      hide Minus, Appended, AppendedRange, NoRepeats, AckQueue, NackQueue, Expected, Packets, SentAs;
      QueuedExactly(events, n);
      Snoc(events, Arrive(n));
      DeductNack(n);
      AppendAck(n);
      ghost var q := nacks;
      var missing := expected + 1;
      if n != expected {
        RangeSteps(q, expected + 1, missing);
        while missing < n
          invariant expected + 1 <= missing && (missing <= n || missing == expected + 1)
          invariant nacks == AppendedRange(q, expected + 1, missing)
          modifies this`nacks
        {
          RangeSteps(q, expected + 1, missing);
          AppendNack(missing);
          missing := missing + 1;
        }
      }
      RangeSteps(q, expected + 1, n);
      assert Packets(events) + [] == Packets(events);
      expected := n + 1;
      events := events + [Arrive(n)];
    }

    /** Sends both queues and empties them. */
    method SendQueues()
      requires Valid() && |acks| < 65536 && |nacks| < 65536
      modifies this
      ensures Valid() && events == old(events) + [Tick] && acks == nacks == [] && old(sent) <= sent
    {
      hide AckQueue, NackQueue, Expected, Packets, SentAs, Carries;
      Snoc(events, Tick);
      ghost var packets := Packets(events);
      if |acks| > 0 {
        var bytes := PutPacket(false, acks);
        PacketSnoc(sent, packets, bytes, Packet(false, acks));
        sent := sent + [bytes];
      }
      ghost var told := packets + Flushed(false, acks);
      assert packets + [] == packets;
      acks := [];
      if |nacks| > 0 {
        var bytes := PutPacket(true, nacks);
        PacketSnoc(sent, told, bytes, Packet(true, nacks));
        sent := sent + [bytes];
      }
      assert told + [] == told;
      assert told + Flushed(true, nacks) == packets + (Flushed(false, old(acks)) + Flushed(true, nacks));
      nacks := [];
      events := events + [Tick];
    }

    /** Any run: whatever sets arrive, in whatever order and how often, with ticks anywhere between them. */
    method HandleEvents(run: seq<Event>)
      requires Valid() && events == [] && forall i :: 0 <= i <= |run| ==> Sendable(run[..i])
      modifies this
      ensures Valid() && events == run
    {
      hide Valid, Sendable;
      var i := 0;
      while i < |run|
        invariant i <= |run| && Valid() && events == run[..i]
      {
        assert run[..i + 1] == run[..i] + [run[i]];
        assert Sendable(run[..i]);
        if run[i].Arrive? {
          HandleSet(run[i].n);
        } else {
          QueuesFit();
          SendQueues();
        }
        i := i + 1;
      }
      assert run[..i] == run;
    }

    lemma QueuesFit()
      requires Valid() && Sendable(events)
      ensures |acks| < 65536 && |nacks| < 65536
    {
    }
  }

  /** The sizes of the queues have 16 bits. */
  predicate Sendable(events: seq<Event>) {
    |AckQueue(events)| < 65536 && |NackQueue(events)| < 65536
  }

  /** The bytes are the packet's, its numbers in order. */
  ghost predicate Carries(bytes: seq<byte>, p: Packet) {
    exists nums: seq<nat> ::
      Ascending(nums) && multiset(nums) == multiset(p.numbers) && |nums| < 65536 && bytes == AckBytes(p.nack, Runs(nums))
  }

  ghost predicate SentAs(sent: seq<seq<byte>>, packets: seq<Packet>) {
    |sent| == |packets| && forall i :: 0 <= i < |sent| ==> Carries(sent[i], packets[i])
  }

  lemma PacketSnoc(sent: seq<seq<byte>>, packets: seq<Packet>, bytes: seq<byte>, p: Packet)
    requires SentAs(sent, packets) && Carries(bytes, p)
    ensures SentAs(sent + [bytes], packets + [p])
  {
    hide Carries;
  }

  method PutPacket(nack: bool, numbers: seq<nat>) returns (bytes: seq<byte>)
    requires 0 < |numbers| < 65536
    ensures Carries(bytes, Packet(nack, numbers))
  {
    hide AckBytes, Runs, Ascending;
    var a := new nat[|numbers|](i requires 0 <= i < |numbers| => numbers[i]);
    assert a[..] == numbers;
    var s := new BinaryStream();
    PutAcknowledge(a, nack, s);
    bytes := s.buffer;
    assert [] + AckBytes(nack, Runs(a[..])) == AckBytes(nack, Runs(a[..]));
  }

  /** The other end takes such a packet: acknowledged sets are forgotten, missing ones sent again. */
  method HandlePacket(bytes: seq<byte>, sender: Sender, ghost p: Packet)
    requires Carries(bytes, p) && sender.Valid() && forall x :: x in p.numbers ==> x < 0x100_0000
    requires p.nack ==> sender.sequenceNumber + |p.numbers| < 0x100_0000
    modifies sender
    ensures sender.Valid() && sender.given == old(sender.given) && sender.queue == old(sender.queue)
    ensures !p.nack ==> sender.lost == old(sender.lost) && sender.sequenceNumber == old(sender.sequenceNumber)
    ensures !p.nack ==>
      forall x :: x in sender.recovery <==> x in old(sender.recovery) && x.sequenceNumber !in p.numbers
    ensures p.nack ==> sender.acked == old(sender.acked) && sender.sequenceNumber <= old(sender.sequenceNumber) + |p.numbers|
    ensures p.nack ==> old(sender.sent) <= sender.sent && SentAgain(sender.sent, sender.sets, |old(sender.sent)|, old(sender.sequenceNumber))
    ensures p.nack ==> Repeated(old(sender.recovery), old(sender.sets), p.numbers, sender.recovery, sender.sets)
    ensures p.nack ==>
      sender.lost == old(sender.lost) + (if 0 in p.numbers then multiset(Numbered(old(sender.recovery), 0).frames) else multiset{})
  {
    hide AckBytes, Runs, Ascending, Sender.Valid, Numbered, AllFrames, Repeated, Exact, SentAgain;
    ghost var nums: seq<nat> :|
      Ascending(nums) && multiset(nums) == multiset(p.numbers) && |nums| < 65536 && bytes == AckBytes(p.nack, Runs(nums));
    SameNumbers(nums, p.numbers);
    forall i | 0 <= i < |nums| ensures nums[i] < 0x100_0000 {
      assert nums[i] in nums;
    }
    var s := new BinaryStream();
    s.PutBytes(bytes);
    assert s.Ahead() == AckBytes(p.nack, Runs(nums)) + [];
    PacketId(p.nack, Runs(nums));
    if bytes[0] == ID_NACK {
      HandleNackPacket(s, sender, nums, []);
      SameReport(old(sender.recovery), old(sender.sets), nums, p.numbers, sender.recovery, sender.sets);
    } else {
      HandleAckPacket(s, sender, nums, []);
    }
  }

  lemma PacketId(nack: bool, runs: seq<Run>)
    ensures |AckBytes(nack, runs)| > 0 && AckBytes(nack, runs)[0] == if nack then ID_NACK else ID_ACK
  {
  }

  /** How many numbers the chosen packets ask for. */
  function Asks(packets: seq<Packet>, which: seq<nat>): nat
    requires forall j :: 0 <= j < |which| ==> which[j] < |packets|
  {
    if which == [] then 0
    else
      var p := packets[which[|which| - 1]];
      Asks(packets, which[..|which| - 1]) + if p.nack then |p.numbers| else 0
  }

  /** One of the chosen packets names x. */
  ghost predicate Named(packets: seq<Packet>, which: seq<nat>, x: nat) {
    exists j :: 0 <= j < |which| && which[j] < |packets| && x in packets[which[j]].numbers
  }

  /** Only acknowledgements are chosen. */
  predicate OnlyAcks(packets: seq<Packet>, which: seq<nat>) {
    forall j :: 0 <= j < |which| ==> which[j] < |packets| && !packets[which[j]].nack
  }

  /** Every acknowledgement is chosen. */
  predicate AllAcks(packets: seq<Packet>, which: seq<nat>) {
    forall i: nat :: i < |packets| && !packets[i].nack ==> i in which
  }

  lemma NamedSnoc(packets: seq<Packet>, which: seq<nat>, i: nat, x: nat)
    requires i < |which| && which[i] < |packets|
    ensures Named(packets, which[..i + 1], x) <==> Named(packets, which[..i], x) || x in packets[which[i]].numbers
    ensures OnlyAcks(packets, which[..i + 1]) <==> OnlyAcks(packets, which[..i]) && !packets[which[i]].nack
  {
    assert forall j :: 0 <= j < i ==> which[..i + 1][j] == which[..i][j];
    assert which[..i + 1][i] == which[i];
  }

  lemma AsksSnoc(packets: seq<Packet>, which: seq<nat>, i: nat)
    requires i < |which| && forall j :: 0 <= j < |which| ==> which[j] < |packets|
    ensures Asks(packets, which[..i + 1]) == Asks(packets, which[..i]) + if packets[which[i]].nack then |packets[which[i]].numbers| else 0
  {
    assert which[..i + 1][..i] == which[..i];
  }

  lemma {:induction false} AsksGrow(packets: seq<Packet>, which: seq<nat>, i: nat)
    requires i <= |which| && forall j :: 0 <= j < |which| ==> which[j] < |packets|
    ensures Asks(packets, which[..i]) <= Asks(packets, which)
    decreases |which| - i
  {
    if i < |which| {
      AsksSnoc(packets, which, i);
      AsksGrow(packets, which, i + 1);
    } else {
      assert which[..i] == which;
    }
  }

  /** When all acknowledgements are through and none waits, what they name is what has arrived. */
  lemma AllNamed(events: seq<Event>, which: seq<nat>, x: nat)
    requires OnlyAcks(Packets(events), which) && AllAcks(Packets(events), which) && AckQueue(events) == []
    ensures Named(Packets(events), which, x) <==> x in Arrivals(events)
  {
    hide Packets, AckQueue;
    AckedExactly(events, x);
    var packets := Packets(events);
    if Told(packets, false, x) {
      var i :| 0 <= i < |packets| && packets[i].nack == false && x in packets[i].numbers;
      var j :| 0 <= j < |which| && which[j] == i;
    }
  }

  /**
   * A receiver's packets reach the other end in any order, some never and some more than once. Whatever
   * they ask for, no frame is lost. When only acknowledgements come through, exactly the sets they name
   * are forgotten: with all of them, the sets that have arrived.
   */
  method HandlePackets(r: Receiver, sender: Sender, which: seq<nat>)
    requires r.Valid() && sender.Valid() && forall j :: 0 <= j < |which| ==> which[j] < |r.sent|
    requires forall n :: n in Arrivals(r.events) ==> n < 0x100_0000
    requires |Packets(r.events)| == |r.sent| && sender.sequenceNumber + Asks(Packets(r.events), which) < 0x100_0000
    modifies sender
    ensures sender.Valid() && sender.given == old(sender.given) && sender.queue == old(sender.queue) && sender.lost == old(sender.lost)
    ensures OnlyAcks(Packets(r.events), which) ==>
      forall x :: x in sender.recovery <==> x in old(sender.recovery) && !Named(Packets(r.events), which, x.sequenceNumber)
    ensures OnlyAcks(Packets(r.events), which) && AllAcks(Packets(r.events), which) && r.acks == [] ==>
      forall x :: x in sender.recovery <==> x in old(sender.recovery) && x.sequenceNumber !in Arrivals(r.events)
  {
    hide Sender.Valid, Repeated, SentAgain, Carries, Packets, Asks, Named, OnlyAcks, AllAcks, Arrivals, AckQueue, NackQueue;
    ghost var packets := Packets(r.events);
    NoneNamed(packets);
    var i := 0;
    while i < |which|
      invariant i <= |which| && sender.Valid() && sender.given == old(sender.given) && sender.queue == old(sender.queue)
      invariant sender.lost == old(sender.lost) && sender.sequenceNumber <= old(sender.sequenceNumber) + Asks(packets, which[..i])
      invariant OnlyAcks(packets, which[..i]) ==>
        forall x :: x in sender.recovery <==> x in old(sender.recovery) && !Named(packets, which[..i], x.sequenceNumber)
    {
      ghost var p := packets[which[i]];
      AsksSnoc(packets, which, i);
      AsksGrow(packets, which, i + 1);
      forall x | x in p.numbers ensures x < 0x100_0000 {
        SentBelow(r.events, which[i], x, 0x100_0000);
      }
      NoZero(r.events, which[i]);
      forall x: FrameSet
        ensures Named(packets, which[..i + 1], x.sequenceNumber) <==> Named(packets, which[..i], x.sequenceNumber) || x.sequenceNumber in p.numbers
        ensures OnlyAcks(packets, which[..i + 1]) <==> OnlyAcks(packets, which[..i]) && !p.nack
      {
        NamedSnoc(packets, which, i, x.sequenceNumber);
      }
      NamedSnoc(packets, which, i, 0);
      HandlePacket(r.sent[which[i]], sender, p);
      i := i + 1;
    }
    assert which[..i] == which;
    forall x: FrameSet | OnlyAcks(packets, which) && AllAcks(packets, which) && r.acks == []
      ensures Named(packets, which, x.sequenceNumber) <==> x.sequenceNumber in Arrivals(r.events)
    {
      AllNamed(r.events, which, x.sequenceNumber);
    }
  }

  lemma NoneNamed(packets: seq<Packet>)
    ensures Asks(packets, []) == 0 && OnlyAcks(packets, []) && forall x: nat :: !Named(packets, [], x)
  {
  }

  lemma NoZero(events: seq<Event>, i: nat)
    requires i < |Packets(events)|
    ensures Packets(events)[i].nack ==> 0 !in Packets(events)[i].numbers
  {
    hide Packets;
    ZeroNeverAsked(events);
  }
}
