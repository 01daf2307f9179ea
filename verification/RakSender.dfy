/**
 * The sending side of a connection: frames wait in a queue, go out in numbered
 * frame sets, and stay in the recovery queue until they are acknowledged.
 */
module RakSenders {
  import opened Bits
  import opened BinaryStreams
  import opened RakFrames

  /** All frames of some frame sets. */
  ghost function AllFrames(sets: seq<FrameSet>): multiset<Frame> {
    if sets == [] then multiset{} else AllFrames(sets[..|sets| - 1]) + multiset(sets[|sets| - 1].frames)
  }

  predicate HasNumber(sets: seq<FrameSet>, n: nat) {
    exists i :: 0 <= i < |sets| && sets[i].sequenceNumber == n
  }

  /** The sets without those numbered n. */
  function Without(sets: seq<FrameSet>, n: nat): (r: seq<FrameSet>)
    ensures |r| <= |sets|
  {
    if sets == [] then []
    else
      var r := Without(sets[..|sets| - 1], n);
      if sets[|sets| - 1].sequenceNumber == n then r else r + [sets[|sets| - 1]]
  }

  /** The set numbered n, or the empty set 0 that stands for none. */
  function Numbered(sets: seq<FrameSet>, n: nat): FrameSet {
    if sets == [] then FrameSet(0, [])
    else if sets[|sets| - 1].sequenceNumber == n then sets[|sets| - 1]
    else Numbered(sets[..|sets| - 1], n)
  }

  /** Distinct numbers below next, and no set without frames. */
  ghost predicate RecoveryOk(sets: seq<FrameSet>, next: nat) {
    && (forall i, j :: 0 <= i < j < |sets| ==> sets[i].sequenceNumber != sets[j].sequenceNumber)
    && (forall i :: 0 <= i < |sets| ==> sets[i].sequenceNumber < next && sets[i].frames != [])
  }

  lemma {:induction false} WithoutAbsent(sets: seq<FrameSet>, n: nat)
    requires forall x :: x in sets ==> x.sequenceNumber != n
    ensures Without(sets, n) == sets && Numbered(sets, n) == FrameSet(0, [])
  {
    if sets != [] {
      WithoutAbsent(sets[..|sets| - 1], n);
    }
  }

  lemma {:induction false} WithoutElements(sets: seq<FrameSet>, n: nat)
    ensures forall x :: x in Without(sets, n) <==> x in sets && x.sequenceNumber != n
  {
    if sets != [] {
      WithoutElements(sets[..|sets| - 1], n);
      assert sets == sets[..|sets| - 1] + [sets[|sets| - 1]];
    }
  }

  lemma {:induction false} WithoutDistinct(sets: seq<FrameSet>, n: nat, next: nat)
    requires RecoveryOk(sets, next)
    ensures RecoveryOk(Without(sets, n), next) && !HasNumber(Without(sets, n), n)
  {
    if sets != [] {
      hide RecoveryOk, HasNumber;
      var t, x := sets[..|sets| - 1], sets[|sets| - 1];
      LastIsNew(sets, next);
      WithoutDistinct(t, n, next);
      WithoutElements(t, n);
      RecoverySnoc(Without(t, n), x, next);
      HasNumberSnoc(Without(t, n), x, n);
    }
  }

  lemma RecoverySnoc(sets: seq<FrameSet>, x: FrameSet, next: nat)
    requires RecoveryOk(sets, next) && x.sequenceNumber < next && x.frames != []
    requires forall y :: y in sets ==> y.sequenceNumber != x.sequenceNumber
    ensures RecoveryOk(sets + [x], next)
  {
  }

  lemma HasNumberSnoc(sets: seq<FrameSet>, x: FrameSet, n: nat)
    ensures HasNumber(sets + [x], n) <==> HasNumber(sets, n) || x.sequenceNumber == n
  {
    if HasNumber(sets, n) {
      var i :| 0 <= i < |sets| && sets[i].sequenceNumber == n;
      assert (sets + [x])[i].sequenceNumber == n;
    }
    if x.sequenceNumber == n {
      assert (sets + [x])[|sets|].sequenceNumber == n;
    }
  }

  lemma LastIsNew(sets: seq<FrameSet>, next: nat)
    requires RecoveryOk(sets, next) && sets != []
    ensures RecoveryOk(sets[..|sets| - 1], next) && sets[|sets| - 1].sequenceNumber < next && sets[|sets| - 1].frames != []
    ensures forall x :: x in sets[..|sets| - 1] ==> x.sequenceNumber != sets[|sets| - 1].sequenceNumber
  {
  }

  /** Taking a set out splits the frames: its own, and the rest. */
  lemma {:induction false} FramesSplit(sets: seq<FrameSet>, n: nat, next: nat)
    requires RecoveryOk(sets, next)
    ensures AllFrames(sets) == AllFrames(Without(sets, n)) + multiset(Numbered(sets, n).frames)
    ensures HasNumber(sets, n) ==>
      Numbered(sets, n) in sets && Numbered(sets, n).sequenceNumber == n && |Without(sets, n)| == |sets| - 1
    ensures !HasNumber(sets, n) ==> Without(sets, n) == sets && Numbered(sets, n) == FrameSet(0, [])
  {
    hide HasNumber, RecoveryOk;
    if sets == [] {
      assert !HasNumber([], n) by { NoSets(n); }
    } else {
      var t, x := sets[..|sets| - 1], sets[|sets| - 1];
      assert sets == t + [x];
      LastIsNew(sets, next);
      HasNumberSnoc(t, x, n);
      if x.sequenceNumber == n {
        WithoutAbsent(t, n);
      } else {
        FramesSplit(t, n, next);
        AllFramesSnoc(Without(t, n), x);
      }
    }
  }

  lemma NoSets(n: nat)
    ensures !HasNumber([], n)
  {
  }

  lemma AllFramesSnoc(sets: seq<FrameSet>, fs: FrameSet)
    ensures AllFrames(sets + [fs]) == AllFrames(sets) + multiset(fs.frames)
  {
    assert (sets + [fs])[..|sets|] == sets;
  }

  /** With this frame the waiting ones would not fit one datagram any more. */
  predicate TooMany(f: Frame, waiting: seq<Frame>, mtu: nat) {
    4 + FrameSize(f) + FramesSize(waiting) + 36 > mtu
  }

  /** A fragment of a reliable sequenced frame, the one frame whose fields exceed the reckoning. */
  predicate Oversize(f: Frame) {
    f.fragmented && f.reliability == 4
  }

  /** What a frame may take when it is given to the queue of a connection with this MTU. */
  predicate Offered(f: Frame, mtu: nat) {
    FrameOk(f) && 4 + FrameSize(f) + 36 <= (if Oversize(f) then mtu + 3 else mtu)
  }

  /** The frames of one datagram: within the MTU less 36 bytes, or a single oversize fragment. */
  predicate Fitting(frames: seq<Frame>, mtu: nat) {
    && FramesOk(frames)
    && (4 + FramesSize(frames) + 36 <= mtu
        || (|frames| == 1 && Oversize(frames[0]) && 4 + FramesSize(frames) + 36 <= mtu + 3))
  }

  lemma FramesSizeSnoc(frames: seq<Frame>, f: Frame)
    ensures FramesSize(frames + [f]) == FramesSize(frames) + FrameSize(f)
  {
    assert (frames + [f])[..|frames|] == frames;
  }

  /** A frame joins the waiting ones if they still fit together, and otherwise waits alone. */
  lemma FittingSnoc(frames: seq<Frame>, f: Frame, mtu: nat)
    requires FramesOk(frames) && Offered(f, mtu)
    ensures 4 + FrameSize(f) + FramesSize(frames) + 36 <= mtu ==> Fitting(frames + [f], mtu)
    ensures Fitting([f], mtu)
  {
    hide FrameSize, FrameOk;
    FramesSizeSnoc(frames, f);
    FramesSizeSnoc([], f);
    assert [] + [f] == [f];
  }

  ghost predicate AllFitting(sets: seq<FrameSet>, mtu: nat) {
    forall i :: 0 <= i < |sets| ==> Fitting(sets[i].frames, mtu)
  }

  /** The datagrams sent are these frame sets, each fitting one datagram. */
  ghost predicate SentOk(sent: seq<seq<byte>>, sets: seq<FrameSet>, mtu: nat) {
    && |sent| == |sets|
    && forall i :: 0 <= i < |sets| ==> FrameSetOk(sets[i]) && Fitting(sets[i].frames, mtu) && sent[i] == FrameSetBytes(sets[i])
  }

  /** What goes out stays within the MTU less 36 bytes, or less 33 for a single oversize fragment. */
  lemma SentBounds(sent: seq<seq<byte>>, sets: seq<FrameSet>, mtu: nat)
    requires SentOk(sent, sets, mtu)
    ensures forall i :: 0 <= i < |sent| ==>
      |sent[i]| + 36 <= mtu || (|sets[i].frames| == 1 && Oversize(sets[i].frames[0]) && |sent[i]| + 33 <= mtu)
  {
    hide FrameSetBytes, FrameSetOk;
    forall i | 0 <= i < |sent|
      ensures |sent[i]| + 36 <= mtu || (|sets[i].frames| == 1 && Oversize(sets[i].frames[0]) && |sent[i]| + 33 <= mtu)
    {
      FrameSetSize(sets[i]);
    }
  }

  lemma SentSnoc(sent: seq<seq<byte>>, sets: seq<FrameSet>, fs: FrameSet, mtu: nat)
    requires SentOk(sent, sets, mtu) && FrameSetOk(fs) && Fitting(fs.frames, mtu)
    ensures SentOk(sent + [FrameSetBytes(fs)], sets + [fs], mtu)
  {
    hide FrameSetBytes, FrameSetOk, Fitting;
  }

  /** The sets whose numbers are not reported. */
  function Unnamed(sets: seq<FrameSet>, numbers: seq<nat>): seq<FrameSet> {
    if sets == [] then []
    else
      var r := Unnamed(sets[..|sets| - 1], numbers);
      if sets[|sets| - 1].sequenceNumber in numbers then r else r + [sets[|sets| - 1]]
  }

  /** The reported numbers of sets that can be sent again, each once and in the order of the report. */
  ghost function Missing(sets: seq<FrameSet>, numbers: seq<nat>): (r: seq<nat>)
    ensures |r| <= |numbers|
  {
    if numbers == [] then []
    else
      var r, n := Missing(sets, numbers[..|numbers| - 1]), numbers[|numbers| - 1];
      if n != 0 && HasNumber(sets, n) && n !in r then r + [n] else r
  }

  /** The same frames under new numbers, from next on. */
  function Renumbered(sets: seq<FrameSet>, missing: seq<nat>, next: nat): (r: seq<FrameSet>)
    ensures |r| == |missing|
    ensures forall k :: 0 <= k < |r| ==> r[k] == FrameSet(next + k, Numbered(sets, missing[k]).frames)
  {
    seq(|missing|, k requires 0 <= k < |missing| => FrameSet(next + k, Numbered(sets, missing[k]).frames))
  }

  /** The report names no number that a set is only given while the report is handled. */
  ghost predicate NamesOnlySent(sets: seq<FrameSet>, numbers: seq<nat>, next: nat) {
    forall i :: 0 <= i < |numbers| ==> !(next <= numbers[i] < next + |Missing(sets, numbers[..i])|)
  }

  /** All frames of some sets, in order. */
  function Flat(sets: seq<FrameSet>): seq<Frame> {
    if sets == [] then [] else Flat(sets[..|sets| - 1]) + sets[|sets| - 1].frames
  }

  lemma FlatSnoc(sets: seq<FrameSet>, fs: FrameSet)
    ensures Flat(sets + [fs]) == Flat(sets) + fs.frames
  {
    assert (sets + [fs])[..|sets|] == sets;
  }

  class Sender {
    const mtu: nat
    var sequenceNumber: nat
    var queue: seq<Frame>
    var recovery: seq<FrameSet>
    /** Datagrams handed to the socket. */
    var sent: seq<seq<byte>>
    ghost var sets: seq<FrameSet>
    /** Frames ever given to the queue, those acknowledged, and those dropped with frame set 0. */
    ghost var given: multiset<Frame>
    ghost var acked: multiset<Frame>
    ghost var lost: multiset<Frame>

    /** No frame is forgotten: it waits, can be sent again, was acknowledged, or went with frame set 0. */
    ghost predicate Conserved()
      reads this
    {
      given == multiset(queue) + AllFrames(recovery) + acked + lost
    }

    /** What was sent, followed by what waits. */
    ghost function Traffic(): seq<Frame>
      reads this
    {
      Flat(sets) + queue
    }

    ghost predicate Valid()
      reads this
    {
      && 60 < mtu <= 8191 + 60
      && sequenceNumber < 0x100_0000
      && RecoveryOk(recovery, sequenceNumber)
      && (queue == [] || Fitting(queue, mtu)) && AllFitting(recovery, mtu) && SentOk(sent, sets, mtu)
      && Conserved()
    }

    constructor (mtu: nat)
      requires 60 < mtu <= 8191 + 60
      ensures Valid() && this.mtu == mtu && queue == [] && recovery == [] && sent == [] && sets == [] && sequenceNumber == 0
      ensures given == multiset{} && acked == multiset{} && lost == multiset{}
    {
      this.mtu := mtu;
      sequenceNumber, queue, recovery, sent, sets := 0, [], [], [], [];
      given, acked, lost := multiset{}, multiset{}, multiset{};
    }

    method IsInRecovery(n: nat) returns (found: bool)
      ensures found == HasNumber(recovery, n)
    {
      var i := 0;
      while i < |recovery|
        invariant i <= |recovery| && forall k :: 0 <= k < i ==> recovery[k].sequenceNumber != n
      {
        if recovery[i].sequenceNumber == n {
          return true;
        }
        i := i + 1;
      }
      found := false;
    }

    method AppendRecovery(fs: FrameSet)
      modifies this`recovery
      ensures recovery == if old(HasNumber(recovery, fs.sequenceNumber)) then old(recovery) else old(recovery) + [fs]
    {
      var found := IsInRecovery(fs.sequenceNumber);
      if !found {
        recovery := recovery + [fs];
      }
    }

    /** Takes the set numbered n out of the recovery queue, if it is there. */
    method PopRecovery(n: nat) returns (fs: FrameSet)
      modifies this`recovery
      ensures recovery == Without(old(recovery), n) && fs == Numbered(old(recovery), n)
    {
      fs := FrameSet(0, []);
      var found := IsInRecovery(n);
      if !found {
        AbsentStays(recovery, n);
        return;
      }
      var kept: seq<FrameSet> := [];
      var i := 0;
      while i < |recovery|
        invariant i <= |recovery| && kept == Without(recovery[..i], n) && fs == Numbered(recovery[..i], n)
      {
        assert recovery[..i + 1][..i] == recovery[..i];
        if recovery[i].sequenceNumber != n {
          kept := kept + [recovery[i]];
        } else {
          fs := recovery[i];
        }
        i := i + 1;
      }
      assert recovery[..i] == recovery;
      recovery := kept;
    }

    /** Writes a frame set and hands it to the socket. */
    method Send(fs: FrameSet)
      requires FrameSetOk(fs) && SentOk(sent, sets, mtu) && Fitting(fs.frames, mtu)
      modifies this`sent, this`sets
      ensures sent == old(sent) + [FrameSetBytes(fs)] && sets == old(sets) + [fs] && SentOk(sent, sets, mtu)
    {
      hide FrameSetBytes, FramesOk, FramesSize, SentOk;
      var s := new BinaryStream();
      PutFrameSet(s, fs);
      SentSnoc(sent, sets, fs, mtu);
      sets := sets + [fs];
      sent := sent + [s.buffer];
      assert [] + FrameSetBytes(fs) == FrameSetBytes(fs);
    }

    /** Sends the waiting frames as one numbered set and keeps the set for recovery. */
    method SendQueue()
      requires Valid() && sequenceNumber + 1 < 0x100_0000
      modifies this
      ensures Valid() && queue == [] && given == old(given) && acked == old(acked) && lost == old(lost)
      ensures Traffic() == old(Traffic()) && old(sets) <= sets
      ensures old(queue) == [] ==> recovery == old(recovery) && sent == old(sent) && sequenceNumber == old(sequenceNumber)
      ensures old(queue) != [] ==>
        && sequenceNumber == old(sequenceNumber) + 1
        && recovery == old(recovery) + [FrameSet(old(sequenceNumber), old(queue))]
        && FrameSetOk(FrameSet(old(sequenceNumber), old(queue)))
        && sent == old(sent) + [FrameSetBytes(FrameSet(old(sequenceNumber), old(queue)))]
    {
      hide FrameSetBytes, FramesOk, FramesSize, AllFrames, HasNumber, SentOk, RecoveryOk, Flat;
      if |queue| > 0 {
        var fs := FrameSet(sequenceNumber, queue);
        FreshNumber(recovery, fs, sequenceNumber);
        AllFramesSnoc(recovery, fs);
        FittingOk(queue, mtu);
        sequenceNumber := sequenceNumber + 1;
        AppendRecovery(fs);
        Send(fs);
        FlatSnoc(old(sets), fs);
        queue := [];
      }
    }

    /** What the waiting frames take together. */
    method QueueSize(start: nat) returns (size: nat)
      ensures size == start + FramesSize(queue)
    {
      size := start;
      var i := 0;
      while i < |queue|
        invariant i <= |queue| && size == start + FramesSize(queue[..i])
      {
        assert queue[..i + 1][..i] == queue[..i];
        size := size + FrameSize(queue[i]);
        i := i + 1;
      }
      assert queue[..i] == queue;
    }

    /** Puts a frame into the queue; what was waiting goes out first if they would not fit one datagram. */
    method Enqueue(frame: Frame)
      requires Valid() && Offered(frame, mtu) && sequenceNumber + 1 < 0x100_0000
      modifies this
      ensures Valid() && given == old(given) + multiset{frame} && acked == old(acked) && lost == old(lost)
      ensures Traffic() == old(Traffic()) + [frame] && old(sets) <= sets
      ensures var flush := old(queue) != [] && TooMany(frame, old(queue), mtu);
        && sequenceNumber == old(sequenceNumber) + (if flush then 1 else 0)
        && recovery == old(recovery) + (if flush then [FrameSet(old(sequenceNumber), old(queue))] else [])
      ensures queue == if TooMany(frame, old(queue), mtu) then [frame] else old(queue) + [frame]
    {
      hide FrameSize, FrameOk, FramesSize, AllFrames, Valid, Offered, Fitting, Flat;
      QueueInValid();
      var size := QueueSize(4 + FrameSize(frame));
      FittingSnoc(queue, frame, mtu);
      if size > mtu - 36 {
        SendQueue();
        assert [] + [frame] == [frame];
      }
      assert recovery + [] == recovery && old(recovery) + [] == old(recovery);
      Push(frame);
    }

    lemma QueueInValid()
      requires Valid()
      ensures FramesOk(queue) && mtu > 60
    {
      QueueOk(queue, mtu);
    }

    method Push(frame: Frame)
      requires Valid() && Fitting(queue + [frame], mtu)
      modifies this`queue, this`given
      ensures Valid() && queue == old(queue) + [frame] && given == old(given) + multiset{frame}
    {
      hide FrameSize, FrameOk, FramesSize, AllFrames, SentOk, RecoveryOk, Fitting, AllFitting;
      queue := queue + [frame];
      given := given + multiset{frame};
    }

    /** Gives a frame to the queue, and sends everything at once when asked to. */
    method AppendFrame(frame: Frame, now: bool)
      requires Valid() && Offered(frame, mtu) && sequenceNumber + 2 < 0x100_0000
      modifies this
      ensures Valid() && given == old(given) + multiset{frame} && acked == old(acked) && lost == old(lost)
      ensures Traffic() == old(Traffic()) + [frame] && old(sets) <= sets
      ensures var flush, waiting := old(queue) != [] && TooMany(frame, old(queue), mtu), old(queue);
        var earlier := old(recovery) + (if flush then [FrameSet(old(sequenceNumber), waiting)] else []);
        var n := old(sequenceNumber) + (if flush then 1 else 0);
        var last := if TooMany(frame, waiting, mtu) then [frame] else waiting + [frame];
        && queue == (if now then [] else last) && sequenceNumber == n + (if now then 1 else 0)
        && recovery == earlier + (if now then [FrameSet(n, last)] else [])
    {
      hide FrameSize, FrameOk, FramesSize, AllFrames, SentOk, RecoveryOk, Offered, AllFitting, Fitting, FrameSetBytes;
      Enqueue(frame);
      if now {
        SendQueue();
      }
    }

    /** An acknowledged set needs no recovery. */
    method DeductRecovery(n: nat)
      requires Valid()
      modifies this
      ensures Valid() && recovery == Without(old(recovery), n) && acked == old(acked) + multiset(Numbered(old(recovery), n).frames)
      ensures lost == old(lost) && given == old(given) && queue == old(queue) && sent == old(sent) && sequenceNumber == old(sequenceNumber)
    {
      hide AllFrames, SentOk, RecoveryOk, AllFitting, Fitting, Without, Numbered, HasNumber;
      TakenOut(recovery, n, sequenceNumber, mtu);
      var fs := PopRecovery(n);
      acked := acked + multiset(fs.frames);
    }

    /** Handles acknowledged numbers: the recovery queue loses exactly their sets. */
    method HandleAck(numbers: seq<nat>)
      requires Valid()
      modifies this
      ensures Valid() && forall x :: x in recovery <==> x in old(recovery) && x.sequenceNumber !in numbers
      ensures lost == old(lost) && given == old(given) && queue == old(queue) && sent == old(sent) && sequenceNumber == old(sequenceNumber)
    {
      hide Valid, Without, Numbered;
      var i := 0;
      while i < |numbers|
        invariant i <= |numbers| && Valid() && forall x :: x in recovery <==> x in old(recovery) && x.sequenceNumber !in numbers[..i]
        invariant lost == old(lost) && given == old(given) && queue == old(queue) && sent == old(sent)
        invariant sequenceNumber == old(sequenceNumber)
      {
        WithoutElements(recovery, numbers[i]);
        DeductRecovery(numbers[i]);
        assert numbers[..i + 1] == numbers[..i] + [numbers[i]];
        i := i + 1;
      }
      assert numbers[..i] == numbers;
    }

    /**
     * Sends the set numbered n again under a fresh number. Number 0 also stands for "no such set",
     * so the set that really has it is dropped.
     */
    method Resend(n: nat)
      requires Valid() && sequenceNumber + 1 < 0x100_0000
      modifies this
      ensures Valid() && given == old(given) && acked == old(acked) && queue == old(queue)
      ensures !old(HasNumber(recovery, n)) ==>
        recovery == old(recovery) && sent == old(sent) && sequenceNumber == old(sequenceNumber) && lost == old(lost)
      ensures old(HasNumber(recovery, n)) && n != 0 ==>
        var fs := FrameSet(old(sequenceNumber), Numbered(old(recovery), n).frames);
        && recovery == Without(old(recovery), n) + [fs] && sequenceNumber == old(sequenceNumber) + 1 && lost == old(lost)
        && FrameSetOk(fs) && sent == old(sent) + [FrameSetBytes(fs)] && sets == old(sets) + [fs]
      ensures !old(HasNumber(recovery, n)) || n == 0 ==> sets == old(sets)
      ensures old(HasNumber(recovery, n)) && n == 0 ==>
        && recovery == Without(old(recovery), 0) && lost == old(lost) + multiset(Numbered(old(recovery), 0).frames)
        && sent == old(sent) && sequenceNumber == old(sequenceNumber)
    {
      hide AllFrames, SentOk, RecoveryOk, AllFitting, Fitting, Without, Numbered, HasNumber, FrameSetBytes, FramesOk;
      TakenOut(recovery, n, sequenceNumber, mtu);
      var fs := PopRecovery(n);
      if fs.sequenceNumber != 0 && |fs.frames| != 0 {
        fs := fs.(sequenceNumber := sequenceNumber);
        Rekeyed(recovery, fs, sequenceNumber, mtu);
        AppendRecovery(fs);
        sequenceNumber := sequenceNumber + 1;
        Send(fs);
      } else {
        lost := lost + multiset(fs.frames);
      }
    }

    /**
     * Handles numbers reported missing. Every set named is sent again with its frames, and stands in the
     * recovery queue under the number it was sent with; the others stay. Only the frames of frame set 0 can
     * get lost. As many sets are sent as the report names if and only if it names no number given just now.
     */
    method HandleNack(numbers: seq<nat>)
      requires Valid() && sequenceNumber + |numbers| < 0x100_0000
      modifies this
      ensures Valid() && given == old(given) && acked == old(acked) && queue == old(queue)
      ensures old(sent) <= sent && old(sets) <= sets && sequenceNumber - old(sequenceNumber) == |sent| - |old(sent)| <= |numbers|
      ensures SentAgain(sent, sets, |old(sent)|, old(sequenceNumber))
      ensures Repeated(old(recovery), old(sets), numbers, recovery, sets)
      ensures Exact(old(recovery), old(sets), old(sequenceNumber), numbers, recovery, sets, sequenceNumber)
      ensures lost == old(lost) + (if 0 in numbers then multiset(Numbered(old(recovery), 0).frames) else multiset{})
      ensures AllFrames(recovery) + lost == old(AllFrames(recovery) + lost)
    {
      hide Valid, Without, Numbered, AllFrames, HasNumber, FrameSetBytes, FrameSetOk, Repeated, Exact, RecoveryOk, Numbering;
      ghost var first := multiset(Numbered(recovery, 0).frames);
      var i := 0;
      PartsInValid();
      NothingReported(recovery, sets, sequenceNumber);
      while i < |numbers|
        invariant i <= |numbers| && Valid() && given == old(given) && acked == old(acked) && queue == old(queue)
        invariant sequenceNumber <= old(sequenceNumber) + i && old(sent) <= sent
        invariant lost == old(lost) + (if 0 in numbers[..i] then first else multiset{})
        invariant multiset(Numbered(recovery, 0).frames) == if 0 in numbers[..i] then multiset{} else first
        invariant Numbering(old(sets), old(sequenceNumber), sets, sequenceNumber)
        invariant Repeated(old(recovery), old(sets), numbers[..i], recovery, sets)
        invariant Exact(old(recovery), old(sets), old(sequenceNumber), numbers[..i], recovery, sets, sequenceNumber)
      {
        PartsInValid();
        ZeroKept(recovery, numbers[i], sequenceNumber);
        ghost var r, s, n := recovery, sets, sequenceNumber;
        Resend(numbers[i]);
        assert numbers[..i + 1] == numbers[..i] + [numbers[i]];
        NumberingStep(old(sets), old(sequenceNumber), r, s, n, numbers[i], recovery, sets, sequenceNumber);
        RepeatedStep(old(recovery), old(sets), old(sequenceNumber), numbers[..i], r, s, n, numbers[i], recovery, sets, sequenceNumber);
        ExactStep(old(recovery), old(sets), old(sequenceNumber), numbers[..i], r, s, n, numbers[i], recovery, sets, sequenceNumber);
        i := i + 1;
      }
      assert numbers[..i] == numbers;
      Balance();
      PartsInValid();
      NumberingParts(old(sets), old(sequenceNumber), sets, sequenceNumber);
    }

    lemma PartsInValid()
      requires Valid()
      ensures RecoveryOk(recovery, sequenceNumber) && |sent| == |sets|
      ensures forall k :: 0 <= k < |sent| ==> FrameSetOk(sets[k]) && sent[k] == FrameSetBytes(sets[k])
    {
      hide FrameSetBytes, FrameSetOk, RecoveryOk, Fitting, AllFitting, AllFrames;
    }

    twostate lemma Balance()
      requires old(Valid()) && Valid() && given == old(given) && acked == old(acked) && queue == old(queue)
      ensures AllFrames(recovery) + lost == old(AllFrames(recovery) + lost)
    {
      hide AllFrames, SentOk, RecoveryOk, AllFitting, Fitting;
      Cancel(multiset(queue), AllFrames(recovery), old(AllFrames(recovery)), acked, lost, old(lost));
    }
  }

  lemma Cancel(q: multiset<Frame>, a: multiset<Frame>, b: multiset<Frame>, k: multiset<Frame>, l: multiset<Frame>, m: multiset<Frame>)
    requires q + a + k + l == q + b + k + m
    ensures a + l == b + m
  {
    forall x: Frame ensures (a + l)[x] == (b + m)[x] {
      assert (q + a + k + l)[x] == (q + b + k + m)[x];
    }
  }

  lemma {:induction false} NumberedWithout(sets: seq<FrameSet>, n: nat, m: nat)
    ensures Numbered(Without(sets, n), m) == if m == n then FrameSet(0, []) else Numbered(sets, m)
  {
    if sets != [] {
      var t, x := sets[..|sets| - 1], sets[|sets| - 1];
      NumberedWithout(t, n, m);
      NumberedSnoc(Without(t, n), x, m);
    }
  }

  lemma NumberedSnoc(sets: seq<FrameSet>, fs: FrameSet, m: nat)
    ensures Numbered(sets + [fs], m) == if fs.sequenceNumber == m then fs else Numbered(sets, m)
  {
    assert (sets + [fs])[..|sets|] == sets;
  }

  /** One reported number is handled: the set that has it is sent again under the next number, or dropped if it is set 0. */
  ghost predicate Resent(r: seq<FrameSet>, s: seq<FrameSet>, next: nat, n: nat, r': seq<FrameSet>, s': seq<FrameSet>, next': nat) {
    if !HasNumber(r, n) then r' == r && s' == s && next' == next
    else if n == 0 then r' == Without(r, 0) && s' == s && next' == next
    else
      var fs := FrameSet(next, Numbered(r, n).frames);
      r' == Without(r, n) + [fs] && s' == s + [fs] && next' == next + 1
  }

  /** The sets sent since s0 are numbered from n0 on. */
  ghost predicate Numbering(s0: seq<FrameSet>, n0: nat, s: seq<FrameSet>, next: nat) {
    s0 <= s && next - n0 == |s| - |s0| && forall k :: |s0| <= k < |s| ==> s[k].sequenceNumber == n0 + k - |s0|
  }

  lemma NumberingParts(s0: seq<FrameSet>, n0: nat, s: seq<FrameSet>, next: nat)
    requires Numbering(s0, n0, s, next)
    ensures s0 <= s && next - n0 == |s| - |s0| && forall k :: |s0| <= k < |s| ==> s[k].sequenceNumber == n0 + k - |s0|
  {
  }

  lemma NumberingStep(s0: seq<FrameSet>, n0: nat, r: seq<FrameSet>, s: seq<FrameSet>, next: nat, n: nat,
                      r': seq<FrameSet>, s': seq<FrameSet>, next': nat)
    requires Numbering(s0, n0, s, next) && Resent(r, s, next, n, r', s', next')
    ensures Numbering(s0, n0, s', next')
  {
    hide HasNumber, Without, Numbered;
  }

  /** From datagram n on, these sets were sent, numbered from next on. */
  ghost predicate SentAgain(sent: seq<seq<byte>>, sets: seq<FrameSet>, n: nat, next: nat) {
    && n <= |sent| == |sets|
    && forall k :: n <= k < |sent| ==>
      sets[k].sequenceNumber == next + k - n && FrameSetOk(sets[k]) && sent[k] == FrameSetBytes(sets[k])
  }

  /** One of the sets sent since s0 has these frames and waits for its acknowledgement. */
  ghost predicate SentSince(frames: seq<Frame>, s0: seq<FrameSet>, r: seq<FrameSet>, s: seq<FrameSet>) {
    exists k :: |s0| <= k < |s| && s[k].frames == frames && s[k] in r
  }

  /**
   * What a report does to the recovery queue: the sets it names were sent again since, but for set 0;
   * the others are still there; and there is nothing else.
   */
  ghost predicate Repeated(r0: seq<FrameSet>, s0: seq<FrameSet>, numbers: seq<nat>, r: seq<FrameSet>, s: seq<FrameSet>) {
    && |s0| <= |s|
    && (forall x :: x in r0 && x.sequenceNumber !in numbers ==> x in r)
    && (forall x :: x in r0 && x.sequenceNumber in numbers && x.sequenceNumber != 0 ==> SentSince(x.frames, s0, r, s))
    && (forall x :: x in r ==> (x in r0 && x.sequenceNumber !in numbers) || x in s[|s0|..])
  }

  lemma NumberedIs(sets: seq<FrameSet>, x: FrameSet, next: nat)
    requires RecoveryOk(sets, next) && x in sets
    ensures HasNumber(sets, x.sequenceNumber) && Numbered(sets, x.sequenceNumber) == x && x.sequenceNumber < next
  {
    hide Numbered, Without, AllFrames;
    var i :| 0 <= i < |sets| && sets[i] == x;
    assert HasNumber(sets, x.sequenceNumber);
    FramesSplit(sets, x.sequenceNumber, next);
  }

  lemma RepeatedStep(r0: seq<FrameSet>, s0: seq<FrameSet>, n0: nat, numbers: seq<nat>, r: seq<FrameSet>, s: seq<FrameSet>, next: nat, n: nat,
                     r': seq<FrameSet>, s': seq<FrameSet>, next': nat)
    requires Repeated(r0, s0, numbers, r, s) && RecoveryOk(r0, n0) && RecoveryOk(r, next)
    requires Numbering(s0, n0, s, next) && Resent(r, s, next, n, r', s', next')
    ensures Repeated(r0, s0, numbers + [n], r', s')
  {
    hide Numbered, Without, RecoveryOk, HasNumber;
    WithoutElements(r, n);
    assert s <= s';
    if |s'| > |s| {
      assert s'[|s0|..][|s| - |s0|] == s'[|s|] && s'[|s|] in r';
    }
    forall x | x in r' ensures (x in r0 && x.sequenceNumber !in numbers + [n]) || x in s'[|s0|..] {
      if x in r {
        NumberedIs(r, x, next);
        assert x in s[|s0|..] ==> x in s'[|s0|..];
      }
    }
    forall x | x in r0 && x.sequenceNumber in numbers + [n] && x.sequenceNumber != 0 ensures SentSince(x.frames, s0, r', s') {
      NumberedIs(r0, x, n0);
      if x.sequenceNumber in numbers {
        var k :| |s0| <= k < |s| && s[k].frames == x.frames && s[k] in r;
        NumberedIs(r, s[k], next);
        assert s'[k] == s[k];
      } else {
        NumberedIs(r, x, next);
      }
    }
  }

  lemma NothingReported(r: seq<FrameSet>, s: seq<FrameSet>, next: nat)
    ensures Numbering(s, next, s, next) && Repeated(r, s, [], r, s) && Exact(r, s, next, [], r, s, next)
  {
    hide HasNumber, Numbered;
    NoneNamed(r);
    assert Unnamed(r, []) + [] == r && s + [] == s;
  }

  lemma {:induction false} NoneNamed(sets: seq<FrameSet>)
    ensures Unnamed(sets, []) == sets
  {
    if sets != [] {
      NoneNamed(sets[..|sets| - 1]);
    }
  }

  /** Queue, sets sent and next number, exactly. */
  ghost predicate Exact(r0: seq<FrameSet>, s0: seq<FrameSet>, n0: nat, numbers: seq<nat>, r: seq<FrameSet>, s: seq<FrameSet>, next: nat) {
    var missing := Missing(r0, numbers);
    if NamesOnlySent(r0, numbers, n0) then
      && r == Unnamed(r0, numbers) + Renumbered(r0, missing, n0) && s == s0 + Renumbered(r0, missing, n0)
      && next == n0 + |missing|
    else
      next > n0 + |missing|
  }

  lemma {:induction false} UnnamedSnoc(sets: seq<FrameSet>, numbers: seq<nat>, n: nat)
    ensures Unnamed(sets, numbers + [n]) == Without(Unnamed(sets, numbers), n)
  {
    if sets != [] {
      var t, x := sets[..|sets| - 1], sets[|sets| - 1];
      UnnamedSnoc(t, numbers, n);
      if x.sequenceNumber !in numbers {
        assert (Unnamed(t, numbers) + [x])[..|Unnamed(t, numbers)|] == Unnamed(t, numbers);
      }
    }
  }

  lemma {:induction false} UnnamedElements(sets: seq<FrameSet>, numbers: seq<nat>)
    ensures forall x :: x in Unnamed(sets, numbers) <==> x in sets && x.sequenceNumber !in numbers
  {
    if sets != [] {
      UnnamedElements(sets[..|sets| - 1], numbers);
      assert sets == sets[..|sets| - 1] + [sets[|sets| - 1]];
    }
  }

  lemma {:induction false} WithoutAppend(a: seq<FrameSet>, b: seq<FrameSet>, n: nat)
    requires !HasNumber(b, n)
    ensures Without(a + b, n) == Without(a, n) + b && Numbered(a + b, n) == Numbered(a, n)
  {
    if b == [] {
      assert a + b == a;
    } else {
      var t, x := b[..|b| - 1], b[|b| - 1];
      assert b == t + [x];
      HasNumberSnoc(t, x, n);
      WithoutAppend(a, t, n);
      assert (a + b)[..|a + b| - 1] == a + t;
    }
  }

  lemma {:induction false} MissingElements(sets: seq<FrameSet>, numbers: seq<nat>)
    ensures forall n :: n in Missing(sets, numbers) <==> n in numbers && n != 0 && HasNumber(sets, n)
  {
    hide HasNumber;
    if numbers != [] {
      MissingElements(sets, numbers[..|numbers| - 1]);
      assert numbers == numbers[..|numbers| - 1] + [numbers[|numbers| - 1]];
    }
  }

  lemma ReportSnoc(r0: seq<FrameSet>, n0: nat, numbers: seq<nat>, n: nat)
    ensures Missing(r0, numbers + [n])
      == Missing(r0, numbers) + (if n != 0 && HasNumber(r0, n) && n !in numbers then [n] else [])
    ensures NamesOnlySent(r0, numbers + [n], n0)
      <==> NamesOnlySent(r0, numbers, n0) && !(n0 <= n < n0 + |Missing(r0, numbers)|)
  {
    hide HasNumber;
    MissingElements(r0, numbers);
    var more := numbers + [n];
    assert more[..|numbers|] == numbers;
    assert Missing(r0, numbers) + [] == Missing(r0, numbers);
    assert forall i :: 0 <= i < |numbers| ==> more[i] == numbers[i] && more[..i] == numbers[..i];
  }

  lemma HasMember(sets: seq<FrameSet>, n: nat) returns (x: FrameSet)
    requires HasNumber(sets, n)
    ensures x in sets && x.sequenceNumber == n
  {
    var i :| 0 <= i < |sets| && sets[i].sequenceNumber == n;
    x := sets[i];
  }

  lemma NumbersBelow(sets: seq<FrameSet>, n: nat, next: nat)
    requires RecoveryOk(sets, next) && n >= next
    ensures !HasNumber(sets, n)
  {
  }

  /** A report that was no news before, or names a number given just now, sends more sets than it names. */
  lemma ExactStepMore(r0: seq<FrameSet>, s0: seq<FrameSet>, n0: nat, numbers: seq<nat>, r: seq<FrameSet>, s: seq<FrameSet>, next: nat, n: nat,
                      r': seq<FrameSet>, s': seq<FrameSet>, next': nat)
    requires Exact(r0, s0, n0, numbers, r, s, next) && Resent(r, s, next, n, r', s', next')
    requires RecoveryOk(r0, n0) && RecoveryOk(r, next) && Repeated(r0, s0, numbers, r, s)
    requires !NamesOnlySent(r0, numbers + [n], n0)
    ensures Exact(r0, s0, n0, numbers + [n], r', s', next')
  {
    hide HasNumber, Numbered, Without, RecoveryOk, Unnamed, NamesOnlySent, Missing;
    ReportSnoc(r0, n0, numbers, n);
    MissingElements(r0, numbers);
    var missing := Missing(r0, numbers);
    if NamesOnlySent(r0, numbers, n0) {
      NumbersBelow(r0, n, n0);
      var u, f := Unnamed(r0, numbers), Renumbered(r0, missing, n0);
      assert r[|u| + (n - n0)] == f[n - n0];
      NumberedIs(r, f[n - n0], next);
      assert missing[0] in missing;
      if n0 == 0 {
        NumbersBelow(r0, missing[0], n0);
      }
    } else if n != 0 && HasNumber(r0, n) && n !in numbers {
      var x := HasMember(r0, n);
      NumberedIs(r, x, next);
    }
  }

  lemma ExactStep(r0: seq<FrameSet>, s0: seq<FrameSet>, n0: nat, numbers: seq<nat>, r: seq<FrameSet>, s: seq<FrameSet>, next: nat, n: nat,
                  r': seq<FrameSet>, s': seq<FrameSet>, next': nat)
    requires Exact(r0, s0, n0, numbers, r, s, next) && Resent(r, s, next, n, r', s', next')
    requires RecoveryOk(r0, n0) && RecoveryOk(r, next) && Repeated(r0, s0, numbers, r, s)
    ensures Exact(r0, s0, n0, numbers + [n], r', s', next')
  {
    hide HasNumber, Numbered, Without, RecoveryOk, Unnamed, NamesOnlySent, Missing, Repeated;
    ReportSnoc(r0, n0, numbers, n);
    if !NamesOnlySent(r0, numbers + [n], n0) {
      ExactStepMore(r0, s0, n0, numbers, r, s, next, n, r', s', next');
      return;
    }
    var missing := Missing(r0, numbers);
    var u, f := Unnamed(r0, numbers), Renumbered(r0, missing, n0);
    NotAmong(f, n0, n);
    WithoutAppend(u, f, n);
    UnnamedSnoc(r0, numbers, n);
    StillThere(r0, n0, numbers, f, r, next, n);
    if !HasNumber(r, n) {
      AbsentStays(r, n);
      assert Without(u, n) == (Without(u, n) + f)[..|u|] == u;
    } else if n != 0 {
      var fs := FrameSet(next, Numbered(r, n).frames);
      assert Renumbered(r0, missing + [n], n0) == f + [fs];
      assert Without(u, n) + f + [fs] == Without(u, n) + (f + [fs]) && s0 + f + [fs] == s0 + (f + [fs]);
    }
  }

  lemma NotAmong(f: seq<FrameSet>, n0: nat, n: nat)
    requires forall k :: 0 <= k < |f| ==> f[k].sequenceNumber == n0 + k
    requires !(n0 <= n < n0 + |f|)
    ensures !HasNumber(f, n)
  {
  }

  /** A set is still there under its own number if and only if the report has not named it so far. */
  lemma StillThere(r0: seq<FrameSet>, n0: nat, numbers: seq<nat>, f: seq<FrameSet>, r: seq<FrameSet>, next: nat, n: nat)
    requires RecoveryOk(r0, n0) && RecoveryOk(r, next) && r == Unnamed(r0, numbers) + f && !HasNumber(f, n)
    ensures HasNumber(r, n) <==> HasNumber(r0, n) && n !in numbers
    ensures HasNumber(r, n) ==> Numbered(r, n) == Numbered(r0, n)
  {
    hide HasNumber, Numbered, RecoveryOk, Unnamed;
    UnnamedElements(r0, numbers);
    if HasNumber(r, n) {
      var x := HasMember(r, n);
      NoneHas(f, n);
      NumberedIs(r0, x, n0);
      NumberedIs(r, x, next);
    }
    if HasNumber(r0, n) && n !in numbers {
      var x := HasMember(r0, n);
      assert x in r;
      NumberedIs(r, x, next);
    }
  }

  lemma NoneHas(sets: seq<FrameSet>, n: nat)
    requires !HasNumber(sets, n)
    ensures forall x :: x in sets ==> x.sequenceNumber != n
  {
  }

  /** Resending set n leaves set 0 alone, unless n is 0. */
  lemma ZeroKept(sets: seq<FrameSet>, n: nat, next: nat)
    requires RecoveryOk(sets, next)
    ensures Numbered(Without(sets, 0), 0) == FrameSet(0, [])
    ensures HasNumber(sets, n) && n != 0 ==>
      Numbered(Without(sets, n) + [FrameSet(next, Numbered(sets, n).frames)], 0) == Numbered(sets, 0)
    ensures !HasNumber(sets, 0) ==> Numbered(sets, 0) == FrameSet(0, [])
  {
    hide Without, Numbered, RecoveryOk;
    NumberedWithout(sets, n, 0);
    NumberedWithout(sets, 0, 0);
    NumberedSnoc(Without(sets, n), FrameSet(next, Numbered(sets, n).frames), 0);
    if HasNumber(sets, n) {
      BelowNext(sets, n, next);
    }
    if !HasNumber(sets, 0) {
      AbsentStays(sets, 0);
    }
  }

  lemma BelowNext(sets: seq<FrameSet>, n: nat, next: nat)
    requires RecoveryOk(sets, next) && HasNumber(sets, n)
    ensures n < next
  {
  }

  lemma Rekeyed(sets: seq<FrameSet>, fs: FrameSet, next: nat, mtu: nat)
    requires RecoveryOk(sets, next) && AllFitting(sets, mtu) && fs.sequenceNumber == next && fs.frames != [] && Fitting(fs.frames, mtu)
    ensures !HasNumber(sets, next) && RecoveryOk(sets + [fs], next + 1) && AllFitting(sets + [fs], mtu)
    ensures AllFrames(sets + [fs]) == AllFrames(sets) + multiset(fs.frames) && FramesOk(fs.frames)
  {
    hide AllFrames;
    FreshNumber(sets, fs, next);
    AllFramesSnoc(sets, fs);
  }

  /** What is left when a set is taken out is as good as before. */
  lemma TakenOut(sets: seq<FrameSet>, n: nat, next: nat, mtu: nat)
    requires RecoveryOk(sets, next) && AllFitting(sets, mtu)
    ensures RecoveryOk(Without(sets, n), next) && AllFitting(Without(sets, n), mtu) && !HasNumber(Without(sets, n), n)
    ensures AllFrames(sets) == AllFrames(Without(sets, n)) + multiset(Numbered(sets, n).frames)
    ensures HasNumber(sets, n) ==>
      && Numbered(sets, n).sequenceNumber == n && Numbered(sets, n).frames != [] && Fitting(Numbered(sets, n).frames, mtu)
    ensures !HasNumber(sets, n) ==> Numbered(sets, n) == FrameSet(0, []) && Without(sets, n) == sets
  {
    hide AllFrames, Fitting, HasNumber, Without, Numbered;
    FramesSplit(sets, n, next);
    WithoutDistinct(sets, n, next);
    WithoutElements(sets, n);
    var r := Without(sets, n);
    forall i | 0 <= i < |r| ensures Fitting(r[i].frames, mtu) {
      assert r[i] in sets;
    }
  }

  lemma QueueOk(frames: seq<Frame>, mtu: nat)
    requires frames == [] || Fitting(frames, mtu)
    ensures FramesOk(frames)
  {
  }

  /** The next number is new, so the guarded append keeps the set. */
  lemma FreshNumber(sets: seq<FrameSet>, fs: FrameSet, next: nat)
    requires RecoveryOk(sets, next) && fs.sequenceNumber == next && fs.frames != []
    ensures !HasNumber(sets, next) && RecoveryOk(sets + [fs], next + 1)
  {
  }

  lemma FittingOk(frames: seq<Frame>, mtu: nat)
    requires Fitting(frames, mtu)
    ensures FramesOk(frames)
  {
  }

  lemma AbsentStays(sets: seq<FrameSet>, n: nat)
    requires !HasNumber(sets, n)
    ensures Without(sets, n) == sets && Numbered(sets, n) == FrameSet(0, [])
  {
    forall x | x in sets ensures x.sequenceNumber != n {
      var i :| 0 <= i < |sets| && sets[i] == x;
    }
    WithoutAbsent(sets, n);
  }
}
