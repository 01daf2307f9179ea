/**
 * Which frame sets a receiver acknowledges and which missing ones it asks for, over any
 * run of arrivals and ticks. Every tick sends both queues and empties them. What is asked
 * for is not all that is missing, and not only what is missing.
 */
module RakArrivals {
  import opened Bits
  import opened Sequences

  /** A number joins a queue unless it is there already. */
  function Appended(q: seq<nat>, n: nat): seq<nat> {
    if n in q then q else q + [n]
  }

  /** The numbers from lo up to hi join a queue. */
  function AppendedRange(q: seq<nat>, lo: nat, hi: nat): seq<nat> {
    if hi <= lo then q else Appended(AppendedRange(q, lo, hi - 1), hi - 1)
  }

  function Minus(q: seq<nat>, n: nat): seq<nat> {
    if q == [] then []
    else
      var r := Minus(q[..|q| - 1], n);
      if q[|q| - 1] == n then r else r + [q[|q| - 1]]
  }

  /** A frame set arrives, or the queues are sent. */
  datatype Event = Arrive(n: nat) | Tick

  /** What a tick sends: acknowledged numbers, or missing ones. */
  datatype Packet = Packet(nack: bool, numbers: seq<nat>)

  function Arrivals(events: seq<Event>): seq<nat> {
    if events == [] then []
    else
      var before, e := events[..|events| - 1], events[|events| - 1];
      if e.Arrive? then Arrivals(before) + [e.n] else Arrivals(before)
  }

  /** The number expected behind these sets: one more than the last one, even if that came late. */
  function Next(arrivals: seq<nat>): nat {
    if arrivals == [] then 0 else arrivals[|arrivals| - 1] + 1
  }

  function Expected(events: seq<Event>): nat {
    Next(Arrivals(events))
  }

  /** The queue of acknowledgements. */
  function AckQueue(events: seq<Event>): seq<nat> {
    if events == [] then []
    else
      var before, e := events[..|events| - 1], events[|events| - 1];
      if e.Arrive? then Appended(AckQueue(before), e.n) else []
  }

  /** The queue of missing sets to ask for. */
  function NackQueue(events: seq<Event>): seq<nat> {
    if events == [] then []
    else
      var before, e := events[..|events| - 1], events[|events| - 1];
      if e.Arrive? then AppendedRange(Minus(NackQueue(before), e.n), Expected(before) + 1, e.n) else []
  }

  /** A queue with something in it is sent as one packet. */
  function Flushed(nack: bool, q: seq<nat>): seq<Packet> {
    if q == [] then [] else [Packet(nack, q)]
  }

  /** Everything sent. */
  function Packets(events: seq<Event>): seq<Packet> {
    if events == [] then []
    else
      var before, e := events[..|events| - 1], events[|events| - 1];
      Packets(before) + if e.Tick? then Flushed(false, AckQueue(before)) + Flushed(true, NackQueue(before)) else []
  }

  /** One of the packets names x. */
  ghost predicate Told(packets: seq<Packet>, nack: bool, x: nat) {
    exists i :: 0 <= i < |packets| && packets[i].nack == nack && x in packets[i].numbers
  }

  lemma ToldAppend(a: seq<Packet>, b: seq<Packet>, nack: bool, x: nat)
    ensures Told(a + b, nack, x) <==> Told(a, nack, x) || Told(b, nack, x)
  {
    if Told(a, nack, x) {
      var i :| 0 <= i < |a| && a[i].nack == nack && x in a[i].numbers;
      assert (a + b)[i].nack == nack;
    }
    if Told(b, nack, x) {
      var i :| 0 <= i < |b| && b[i].nack == nack && x in b[i].numbers;
      assert (a + b)[|a| + i].nack == nack;
    }
  }

  lemma ToldFlushed(kind: bool, q: seq<nat>, nack: bool, x: nat)
    ensures Told(Flushed(kind, q), nack, x) <==> kind == nack && x in q
  {
    if x in q {
      assert Flushed(kind, q)[0].nack == kind;
    }
  }

  lemma SnocArrivals(t: seq<Event>, e: Event)
    ensures Arrivals(t + [e]) == if e.Arrive? then Arrivals(t) + [e.n] else Arrivals(t)
    ensures Expected(t + [e]) == if e.Arrive? then e.n + 1 else Expected(t)
  {
    assert (t + [e])[..|t|] == t;
  }

  lemma SnocQueues(t: seq<Event>, e: Event)
    ensures AckQueue(t + [e]) == if e.Arrive? then Appended(AckQueue(t), e.n) else []
    ensures NackQueue(t + [e]) == if e.Arrive? then AppendedRange(Minus(NackQueue(t), e.n), Expected(t) + 1, e.n) else []
  {
    hide Appended, AppendedRange, Minus, Expected;
    assert (t + [e])[..|t|] == t;
  }

  lemma SnocPackets(t: seq<Event>, e: Event)
    ensures Packets(t + [e]) == Packets(t) + if e.Tick? then Flushed(false, AckQueue(t)) + Flushed(true, NackQueue(t)) else []
  {
    hide AckQueue, NackQueue, Flushed;
    assert (t + [e])[..|t|] == t;
  }

  /** One event more. */
  lemma Snoc(t: seq<Event>, e: Event)
    ensures Arrivals(t + [e]) == if e.Arrive? then Arrivals(t) + [e.n] else Arrivals(t)
    ensures Expected(t + [e]) == if e.Arrive? then e.n + 1 else Expected(t)
    ensures AckQueue(t + [e]) == if e.Arrive? then Appended(AckQueue(t), e.n) else []
    ensures NackQueue(t + [e]) == if e.Arrive? then AppendedRange(Minus(NackQueue(t), e.n), Expected(t) + 1, e.n) else []
    ensures Packets(t + [e]) == Packets(t) + if e.Tick? then Flushed(false, AckQueue(t)) + Flushed(true, NackQueue(t)) else []
  {
    hide Appended, AppendedRange, Minus, Flushed, Arrivals, Expected, AckQueue, NackQueue, Packets;
    SnocArrivals(t, e);
    SnocQueues(t, e);
    SnocPackets(t, e);
  }

  lemma ToldSnoc(t: seq<Event>, e: Event, nack: bool, x: nat)
    ensures Told(Packets(t + [e]), nack, x)
      <==> Told(Packets(t), nack, x) || (e.Tick? && x in if nack then NackQueue(t) else AckQueue(t))
  {
    hide Told, Flushed, Packets, AckQueue, NackQueue;
    Snoc(t, e);
    var a, n := Flushed(false, AckQueue(t)), Flushed(true, NackQueue(t));
    ToldAppend(Packets(t), a + n, nack, x);
    ToldAppend(a, n, nack, x);
    ToldFlushed(false, AckQueue(t), nack, x);
    ToldFlushed(true, NackQueue(t), nack, x);
    assert Packets(t) + [] == Packets(t);
  }

  lemma AppendedElements(q: seq<nat>, n: nat)
    ensures NoRepeats(q) ==> NoRepeats(Appended(q, n))
    ensures forall x :: x in Appended(q, n) <==> x in q || x == n
  {
  }

  lemma {:induction false} RangeElements(q: seq<nat>, lo: nat, hi: nat)
    ensures NoRepeats(q) ==> NoRepeats(AppendedRange(q, lo, hi))
    ensures forall x :: x in AppendedRange(q, lo, hi) <==> x in q || lo <= x < hi
  {
    hide Appended, NoRepeats;
    if lo < hi {
      RangeElements(q, lo, hi - 1);
      AppendedElements(AppendedRange(q, lo, hi - 1), hi - 1);
    }
  }

  lemma {:induction false} MinusElements(q: seq<nat>, n: nat)
    ensures forall x :: x in Minus(q, n) <==> x in q && x != n
    ensures NoRepeats(q) ==> NoRepeats(Minus(q, n)) && |Minus(q, n)| == |q| - (if n in q then 1 else 0)
  {
    if q != [] {
      var t, x := q[..|q| - 1], q[|q| - 1];
      assert q == t + [x];
      MinusElements(t, n);
      assert NoRepeats(q) ==> NoRepeats(t) && x !in t;
      RepeatsSnoc(Minus(t, n), x);
    }
  }

  lemma RepeatsSnoc(q: seq<nat>, x: nat)
    ensures NoRepeats(q) && x !in q ==> NoRepeats(q + [x])
  {
  }

  /** Over any run, what is acknowledged or waits to be is what has arrived, and nothing waits twice. */
  lemma {:induction false} AckedExactly(events: seq<Event>, x: nat)
    ensures Told(Packets(events), false, x) || x in AckQueue(events) <==> x in Arrivals(events)
    ensures NoRepeats(AckQueue(events))
  {
    hide Appended, NoRepeats, Told;
    if events == [] {
      NothingYet(events, x);
    } else {
      var t, e := events[..|events| - 1], events[|events| - 1];
      assert events == t + [e];
      AckedExactly(t, x);
      Snoc(t, e);
      ToldSnoc(t, e, false, x);
      NothingYet([], x);
      if e.Arrive? {
        AppendedElements(AckQueue(t), e.n);
      }
    }
  }

  /** Event k is an arrival beyond x, but not directly behind x's predecessor. */
  ghost predicate Jumps(events: seq<Event>, x: nat, k: nat) {
    k < |events| && events[k].Arrive? && Expected(events[..k]) < x < events[k].n
  }

  /** And x has not come since. */
  ghost predicate Wanted(events: seq<Event>, x: nat, k: nat) {
    Jumps(events, x, k) && forall j :: k <= j < |events| ==> events[j] != Arrive(x)
  }

  /** Nor has the queue been sent. */
  ghost predicate Waits(events: seq<Event>, x: nat, k: nat) {
    Wanted(events, x, k) && forall j :: k <= j < |events| ==> !events[j].Tick?
  }

  /** An arrival jumps beyond x, and x does not come before tick t. */
  ghost predicate AskedBy(events: seq<Event>, x: nat, k: nat, t: nat) {
    t < |events| && events[t].Tick? && Wanted(events[..t], x, k)
  }

  lemma NothingYet(none: seq<Event>, x: nat)
    ensures none == [] ==> Packets(none) == [] && !Told(Packets(none), false, x) && !Told(Packets(none), true, x)
    ensures none == [] ==> AckQueue(none) == NackQueue(none) == Arrivals(none) == []
    ensures none == [] ==> forall k: nat :: !Wanted(none, x, k) && !Jumps(none, x, k)
    ensures none == [] ==> forall k: nat, t: nat :: !AskedBy(none, x, k, t)
    ensures NoRepeats([])
  {
  }

  lemma JumpsSnoc(t: seq<Event>, e: Event, x: nat, k: nat)
    ensures Jumps(t + [e], x, k) <==> Jumps(t, x, k) || (k == |t| && e.Arrive? && Expected(t) < x < e.n)
  {
    hide Expected;
    var s := t + [e];
    assert s[..|t|] == t && s[|t|] == e;
    if k < |t| {
      assert s[..k] == t[..k] && s[k] == t[k];
    }
  }

  lemma WantedSnoc(t: seq<Event>, e: Event, x: nat, k: nat)
    ensures Wanted(t + [e], x, k) <==> (Wanted(t, x, k) && e != Arrive(x)) || (k == |t| && e.Arrive? && Expected(t) < x < e.n)
    ensures Waits(t + [e], x, k) <==> e.Arrive? && ((Waits(t, x, k) && e != Arrive(x)) || (k == |t| && Expected(t) < x < e.n))
  {
    hide Jumps, Expected;
    var s := t + [e];
    JumpsSnoc(t, e, x, k);
    JumpsInside(t, x, k);
    assert s[|t|] == e && forall j :: 0 <= j < |t| ==> s[j] == t[j];
  }

  lemma JumpsInside(t: seq<Event>, x: nat, k: nat)
    ensures Jumps(t, x, k) ==> k < |t|
  {
  }

  /** What waits to be asked for. */
  lemma {:induction false} QueuedExactly(events: seq<Event>, x: nat)
    ensures NoRepeats(NackQueue(events))
    ensures x in NackQueue(events) <==> exists k: nat :: Waits(events, x, k)
  {
    hide AppendedRange, Minus, NoRepeats, Wanted, Waits, Expected, NackQueue;
    NothingYet(events, x);
    NothingYet([], x);
    if events == [] {
      NoneWaits(x);
    } else {
      var t, e := events[..|events| - 1], events[|events| - 1];
      assert events == t + [e];
      QueuedExactly(t, x);
      Snoc(t, e);
      forall k: nat ensures Waits(events, x, k) <==> e.Arrive? && ((Waits(t, x, k) && e != Arrive(x)) || (k == |t| && Expected(t) < x < e.n)) {
        WantedSnoc(t, e, x, k);
      }
      if e.Arrive? {
        MinusElements(NackQueue(t), e.n);
        RangeElements(Minus(NackQueue(t), e.n), Expected(t) + 1, e.n);
        assert Expected(t) < x < e.n ==> Waits(events, x, |t|);
      }
    }
  }

  lemma NoneWaits(x: nat)
    ensures forall k: nat :: !Waits([], x, k)
  {
  }

  lemma AskedBySnoc(s: seq<Event>, e: Event, x: nat, k: nat, t: nat)
    ensures AskedBy(s + [e], x, k, t) <==> AskedBy(s, x, k, t) || (t == |s| && e.Tick? && Wanted(s, x, k))
  {
    hide Wanted;
    assert (s + [e])[..|s|] == s;
    if t < |s| {
      assert (s + [e])[..t] == s[..t];
    }
  }

  /** What is wanted either still waits or was asked for at the first tick behind the jump. */
  lemma WantedOrAsked(events: seq<Event>, x: nat, k: nat) returns (t: nat)
    requires Wanted(events, x, k)
    ensures Waits(events, x, k) || AskedBy(events, x, k, t)
  {
    t := 0;
    if !Waits(events, x, k) {
      t :| k <= t < |events| && events[t].Tick?;
      assert t != k;
      assert events[..t][..k] == events[..k];
    }
  }

  /** Over any run with any ticks, exactly which sets are asked for. */
  lemma {:induction false} AskedExactly(events: seq<Event>, x: nat)
    ensures Told(Packets(events), true, x) <==> exists k: nat, t: nat :: AskedBy(events, x, k, t)
  {
    hide Told, Packets, Wanted, Waits, AskedBy, NackQueue;
    NothingYet(events, x);
    if events != [] {
      var s, e := events[..|events| - 1], events[|events| - 1];
      assert events == s + [e];
      AskedExactly(s, x);
      ToldSnoc(s, e, true, x);
      QueuedExactly(s, x);
      forall k: nat, t: nat ensures AskedBy(events, x, k, t) <==> AskedBy(s, x, k, t) || (t == |s| && e.Tick? && Wanted(s, x, k)) {
        AskedBySnoc(s, e, x, k, t);
      }
      forall k: nat | Waits(s, x, k) ensures Wanted(s, x, k) {
        WaitsWanted(s, x, k);
      }
      forall k: nat | Wanted(s, x, k) ensures Waits(s, x, k) || exists t: nat :: AskedBy(s, x, k, t) {
        var t := WantedOrAsked(s, x, k);
      }
      assert e.Tick? ==> forall k: nat :: Wanted(s, x, k) ==> AskedBy(events, x, k, |s|);
    }
  }

  lemma WaitsWanted(events: seq<Event>, x: nat, k: nat)
    ensures Waits(events, x, k) ==> Wanted(events, x, k)
  {
  }

  /** Asked for, or waiting to be. */
  ghost predicate EverAsked(events: seq<Event>, x: nat) {
    Told(Packets(events), true, x) || x in NackQueue(events)
  }

  /** A set that never comes is asked for if some arrival jumps beyond it, and only then. */
  lemma AskedIfJumped(events: seq<Event>, x: nat)
    requires x !in Arrivals(events)
    ensures EverAsked(events, x) <==> exists k: nat :: Jumps(events, x, k)
  {
    hide Told, Packets, NackQueue, Jumps, Waits, AskedBy;
    AskedExactly(events, x);
    QueuedExactly(events, x);
    forall k: nat | Jumps(events, x, k) ensures Wanted(events, x, k) {
      forall j | k <= j < |events| ensures events[j] != Arrive(x) {
        ArrivalAt(events, j);
      }
    }
    forall k: nat, t: nat | AskedBy(events, x, k, t) ensures Jumps(events, x, k) {
      AskedByJump(events, x, k, t);
    }
    forall k: nat | Waits(events, x, k) ensures Jumps(events, x, k) {
      WaitsWanted(events, x, k);
    }
    forall k: nat | Jumps(events, x, k) ensures EverAsked(events, x) {
      var t := WantedOrAsked(events, x, k);
    }
  }

  lemma AskedByJump(events: seq<Event>, x: nat, k: nat, t: nat)
    ensures AskedBy(events, x, k, t) ==> Jumps(events, x, k) && k < t
  {
    if AskedBy(events, x, k, t) {
      assert events[..t][..k] == events[..k];
    }
  }

  lemma {:induction false} ArrivalAt(events: seq<Event>, j: nat)
    requires j < |events|
    ensures events[j].Arrive? ==> events[j].n in Arrivals(events)
  {
    var t, e := events[..|events| - 1], events[|events| - 1];
    if j < |t| {
      ArrivalAt(t, j);
      assert t[j] == events[j];
    }
  }

  /** Arrival a is beyond x, but not directly behind x's predecessor. */
  ghost predicate JumpAt(arrivals: seq<nat>, x: nat, a: nat) {
    a < |arrivals| && Next(arrivals[..a]) < x < arrivals[a]
  }

  lemma JumpAtSnoc(arrivals: seq<nat>, n: nat, x: nat, a: nat)
    ensures JumpAt(arrivals + [n], x, a) <==> JumpAt(arrivals, x, a) || (a == |arrivals| && Next(arrivals) < x < n)
  {
    assert (arrivals + [n])[..|arrivals|] == arrivals;
    if a < |arrivals| {
      assert (arrivals + [n])[..a] == arrivals[..a];
    }
  }

  /** Ticks do not matter to the jumps. */
  lemma {:induction false} JumpsOfArrivals(events: seq<Event>, x: nat)
    ensures (exists k: nat :: Jumps(events, x, k)) <==> exists a: nat :: JumpAt(Arrivals(events), x, a)
  {
    hide Jumps, JumpAt;
    if events == [] {
      NothingYet(events, x);
      NoJump(x);
    } else {
      var t, e := events[..|events| - 1], events[|events| - 1];
      assert events == t + [e];
      JumpsOfArrivals(t, x);
      Snoc(t, e);
      forall k: nat ensures Jumps(events, x, k) <==> Jumps(t, x, k) || (k == |t| && e.Arrive? && Expected(t) < x < e.n) {
        JumpsSnoc(t, e, x, k);
      }
      if e.Arrive? {
        forall a: nat
          ensures JumpAt(Arrivals(t) + [e.n], x, a) <==> JumpAt(Arrivals(t), x, a) || (a == |Arrivals(t)| && Expected(t) < x < e.n)
        {
          JumpAtSnoc(Arrivals(t), e.n, x, a);
        }
        assert Expected(t) < x < e.n ==> Jumps(events, x, |t|) && JumpAt(Arrivals(t) + [e.n], x, |Arrivals(t)|);
      }
    }
  }

  lemma NoJump(x: nat)
    ensures forall a: nat :: !JumpAt([], x, a)
  {
  }

  /** Sets in order: only the first arrival beyond a missing one can ask for it. */
  lemma OneChance(arrivals: seq<nat>, x: nat, k: nat, a: nat)
    requires StrictlyAscending(arrivals) && x !in arrivals && k < |arrivals| && arrivals[k] > x
    requires forall i :: 0 <= i < k ==> arrivals[i] < x
    ensures JumpAt(arrivals, x, a) <==> a == k && x != 0 && x - 1 !in arrivals
  {
    if 0 < a <= |arrivals| {
      assert arrivals[..a][a - 1] == arrivals[a - 1];
    }
    if a == k {
      forall i | 0 <= i < |arrivals| ensures arrivals[i] == x - 1 ==> i == k - 1 {
        assert i < k - 1 ==> arrivals[i] < arrivals[k - 1] < x;
      }
    }
  }

  /** Sets in order, over any run: a missing one is asked for unless it is the first missing one of its gap. */
  lemma InOrderAsked(events: seq<Event>, x: nat)
    requires StrictlyAscending(Arrivals(events)) && x !in Arrivals(events) && x + 1 < Expected(events)
    ensures EverAsked(events, x) <==> x != 0 && x - 1 !in Arrivals(events)
  {
    hide EverAsked, Jumps, JumpAt, StrictlyAscending;
    AskedIfJumped(events, x);
    JumpsOfArrivals(events, x);
    var arrivals := Arrivals(events);
    var k := Beyond(arrivals, x);
    forall a: nat ensures JumpAt(arrivals, x, a) <==> a == k && x != 0 && x - 1 !in arrivals {
      OneChance(arrivals, x, k, a);
    }
    assert JumpAt(arrivals, x, k) <==> x != 0 && x - 1 !in arrivals;
  }

  /** The first arrival beyond x. */
  lemma Beyond(arrivals: seq<nat>, x: nat) returns (k: nat)
    requires StrictlyAscending(arrivals) && x !in arrivals && x + 1 < Next(arrivals)
    ensures k < |arrivals| && arrivals[k] > x && forall i :: 0 <= i < k ==> arrivals[i] < x
  {
    k := 0;
    while arrivals[k] < x
      invariant k < |arrivals| && forall i :: 0 <= i < k ==> arrivals[i] < x
      decreases |arrivals| - k
    {
      assert arrivals[k] != x && k < |arrivals| - 1;
      k := k + 1;
    }
  }

  /** So sets that arrive in order are all asked for only if none is missing. */
  lemma AskedAllIffNoGap(events: seq<Event>)
    requires StrictlyAscending(Arrivals(events))
    ensures (forall x: nat :: x + 1 < Expected(events) && x !in Arrivals(events) ==> EverAsked(events, x))
      <==> forall x: nat :: x + 1 < Expected(events) ==> x in Arrivals(events)
  {
    hide EverAsked, StrictlyAscending, Arrivals;
    if x: nat :| x + 1 < Expected(events) && x !in Arrivals(events) {
      var y := GapStart(Arrivals(events), x);
      InOrderAsked(events, y);
    }
  }

  lemma GapStart(arrivals: seq<nat>, x: nat) returns (y: nat)
    requires x !in arrivals
    ensures y <= x && y !in arrivals && (y == 0 || y - 1 in arrivals)
  {
    y := x;
    while y > 0 && y - 1 !in arrivals
      invariant y <= x && y !in arrivals
    {
      y := y - 1;
    }
  }

  /** Set 1 is missing between sets 0 and 2, and nobody asks for it. */
  lemma OneMissing()
    ensures Arrivals([Arrive(0), Arrive(2), Tick]) == [0, 2] && !EverAsked([Arrive(0), Arrive(2), Tick], 1)
  {
    ThreeEvents(Arrive(0), Arrive(2));
    assert Arrivals([Arrive(0)]) == [0];
    AskedExactly([Arrive(0), Arrive(2), Tick], 1);
    forall k: nat, t: nat ensures !AskedBy([Arrive(0), Arrive(2), Tick], 1, k, t) {
      AskedByJump([Arrive(0), Arrive(2), Tick], 1, k, t);
    }
  }

  lemma ThreeEvents(a: Event, b: Event)
    ensures [a, b, Tick][..2] == [a, b] && [a, b, Tick][..1] == [a, b][..1] == [a] && [a, b, Tick][..0] == [a][..0] == []
  {
  }

  /** Set 2 is asked for although it is there: set 0 came again and moved the expected number back. */
  lemma AskedThoughReceived()
    ensures var events := [Arrive(2), Arrive(0), Arrive(3), Tick];
      2 in Arrivals(events) && Told(Packets(events), true, 2)
  {
    hide Told, Packets, Arrivals, Expected;
    var events, s := [Arrive(2), Arrive(0), Arrive(3), Tick], [Arrive(2), Arrive(0), Arrive(3)];
    ArrivalAt(events, 0);
    AskedExactly(events, 2);
    SnocArrivals([Arrive(2)], Arrive(0));
    assert s[..2] == [Arrive(2)] + [Arrive(0)];
    assert Wanted(s, 2, 2);
    assert events[..3] == s;
    assert AskedBy(events, 2, 2, 3);
  }

  /** Nobody ever asks for set 0, the one that would be dropped. */
  lemma ZeroNeverAsked(events: seq<Event>)
    ensures !EverAsked(events, 0)
  {
    hide Told, Packets, AskedBy, Waits;
    AskedExactly(events, 0);
    QueuedExactly(events, 0);
    forall k: nat ensures !Jumps(events, 0, k) {
    }
    forall k: nat, t: nat ensures !AskedBy(events, 0, k, t) {
      AskedByJump(events, 0, k, t);
    }
    forall k: nat ensures !Waits(events, 0, k) {
      WaitsWanted(events, 0, k);
    }
  }

  /** Only numbers below one that has arrived are ever sent. */
  lemma SentBelow(events: seq<Event>, i: nat, x: nat, bound: nat)
    requires i < |Packets(events)| && x in Packets(events)[i].numbers && forall n :: n in Arrivals(events) ==> n < bound
    ensures x < bound
  {
    hide Packets, AskedBy, AckQueue, Wanted;
    if Packets(events)[i].nack {
      AskedExactly(events, x);
      var k: nat, t: nat :| AskedBy(events, x, k, t);
      AskedByJump(events, x, k, t);
      ArrivalAt(events, k);
    } else {
      AckedExactly(events, x);
    }
  }
}
