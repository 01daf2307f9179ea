/**
 * Acknowledgements as the sender receives them: what is parsed from the packet is
 * taken out of the recovery queue, or sent again.
 */
module RakHandlers {
  import opened Bits
  import opened Sequences
  import opened BinaryStreams
  import opened RakFrames
  import opened RakSenders
  import opened Acks

  lemma SetOfRuns(nums: seq<nat>)
    requires Ascending(nums) && |nums| < 65536 && forall i :: 0 <= i < |nums| ==> nums[i] < 0x100_0000
    ensures RunsOk(Runs(nums)) && Expand(Runs(nums)) == Distinct(nums) && |Distinct(nums)| <= |nums|
    ensures forall x :: x in Distinct(nums) <==> x in nums
  {
    hide Expand, Runs;
    RunsInRange(nums);
    RunsExpand(nums);
    DistinctOfAscending(nums);
  }

  /** Parses an acknowledgement and forgets exactly the sets it names. */
  method HandleAckPacket(s: BinaryStream, sender: Sender, ghost nums: seq<nat>, ghost rest: seq<byte>)
    requires s.Valid() && sender.Valid()
    requires Ascending(nums) && |nums| < 65536 && forall i :: 0 <= i < |nums| ==> nums[i] < 0x100_0000
    requires s.Ahead() == AckBytes(false, Runs(nums)) + rest
    modifies s`offset, sender
    ensures s.Valid() && s.Ahead() == rest && sender.Valid()
    ensures sender.queue == old(sender.queue) && sender.sequenceNumber == old(sender.sequenceNumber)
    ensures forall x :: x in sender.recovery <==> x in old(sender.recovery) && x.sequenceNumber !in nums
    ensures sender.lost == old(sender.lost) && sender.given == old(sender.given)
  {
    hide Expand, Runs, AckBytes, Sender.Valid, RunsOk;
    SetOfRuns(nums);
    var numbers := GetAcknowledge(s, false, Runs(nums), rest);
    sender.HandleAck(numbers);
  }

  /**
   * Parses a report of missing sets and sends every set it names again, once and in ascending order; only
   * the frames of set 0 can get lost.
   */
  method HandleNackPacket(s: BinaryStream, sender: Sender, ghost nums: seq<nat>, ghost rest: seq<byte>)
    requires s.Valid() && sender.Valid()
    requires Ascending(nums) && |nums| < 65536 && forall i :: 0 <= i < |nums| ==> nums[i] < 0x100_0000
    requires s.Ahead() == AckBytes(true, Runs(nums)) + rest && sender.sequenceNumber + |nums| < 0x100_0000
    modifies s`offset, sender
    ensures s.Valid() && s.Ahead() == rest && sender.Valid() && sender.given == old(sender.given)
    ensures sender.acked == old(sender.acked) && sender.queue == old(sender.queue)
    ensures old(sender.sent) <= sender.sent
    ensures sender.sequenceNumber - old(sender.sequenceNumber) == |sender.sent| - |old(sender.sent)| <= |nums|
    ensures SentAgain(sender.sent, sender.sets, |old(sender.sent)|, old(sender.sequenceNumber))
    ensures Repeated(old(sender.recovery), old(sender.sets), nums, sender.recovery, sender.sets)
    ensures Exact(old(sender.recovery), old(sender.sets), old(sender.sequenceNumber), Distinct(nums),
              sender.recovery, sender.sets, sender.sequenceNumber)
    ensures sender.lost == old(sender.lost) + (if 0 in nums then multiset(Numbered(old(sender.recovery), 0).frames) else multiset{})
    ensures AllFrames(sender.recovery) + sender.lost == old(AllFrames(sender.recovery) + sender.lost)
  {
    hide Expand, Runs, AckBytes, Sender.Valid, RunsOk, AllFrames, Numbered, Repeated, Exact, SentAgain;
    SetOfRuns(nums);
    var numbers := GetAcknowledge(s, true, Runs(nums), rest);
    sender.HandleNack(numbers);
    SameReport(old(sender.recovery), old(sender.sets), numbers, nums, sender.recovery, sender.sets);
  }

  /** Order and repetitions in the report do not matter to what is sent again. */
  lemma SameReport(r0: seq<FrameSet>, s0: seq<FrameSet>, a: seq<nat>, b: seq<nat>, r: seq<FrameSet>, s: seq<FrameSet>)
    requires Repeated(r0, s0, a, r, s) && forall x :: x in a <==> x in b
    ensures Repeated(r0, s0, b, r, s)
  {
    hide SentSince;
  }

  /** From one end to the other: what the receiver acknowledges, the sender forgets, and nothing else. */
  method Acknowledge(received: array<nat>, sender: Sender)
    requires 0 < received.Length < 65536 && forall i :: 0 <= i < received.Length ==> received[i] < 0x100_0000
    requires sender.Valid()
    modifies received, sender
    ensures sender.Valid() && sender.lost == old(sender.lost) && sender.given == old(sender.given)
    ensures forall x :: x in sender.recovery <==> x in old(sender.recovery) && x.sequenceNumber !in old(received[..])
  {
    hide Expand, Runs, AckBytes, Sender.Valid, RunsOk, Ascending;
    ghost var nums := received[..];
    var s := new BinaryStream();
    PutAcknowledge(received, false, s);
    SameNumbers(received[..], nums);
    forall i | 0 <= i < received.Length ensures received[..][i] < 0x100_0000 {
      assert received[..][i] in received[..];
    }
    assert s.Ahead() == AckBytes(false, Runs(received[..])) + [];
    HandleAckPacket(s, sender, received[..], []);
  }

  /** The exception: the very first set, reported missing before it is acknowledged, is gone. */
  method FirstSetIsLost(frame: Frame) returns (sender: Sender)
    requires Offered(frame, 1400)
    ensures sender.Valid() && sender.recovery == [] && sender.queue == [] && sender.given == sender.lost == multiset{frame}
  {
    hide AllFrames;
    sender := new Sender(1400);
    sender.AppendFrame(frame, true);
    ghost var fs := FrameSet(0, [frame]);
    assert sender.recovery == [fs] && [fs][..0] == [];
    assert sender.recovery[0].sequenceNumber == 0;
    sender.Resend(0);
  }
}
