/**
 * Acknowledgements: sequence numbers are sorted in place, packed into maximal
 * runs of consecutive numbers, and unpacked again.
 */
module Acks {
  import opened Bits
  import opened Sequences
  import opened BinaryStreams
  import opened RakFrames

  const ID_ACK := 0xC0
  const ID_NACK := 0xA0

  /** The first i numbers are in place: ascending, and none larger than any number behind them. */
  predicate InPlace(s: seq<nat>, i: nat) {
    i <= |s| && forall p, q :: 0 <= p < i && p < q < |s| ==> s[p] <= s[q]
  }

  /** Position i holds the least of positions i to j - 1. */
  predicate LeastOf(s: seq<nat>, i: nat, j: nat) {
    i < j <= |s| && forall q :: i < q < j ==> s[i] <= s[q]
  }

  lemma ExchangeKeeps(s: seq<nat>, t: seq<nat>, i: nat, j: nat)
    requires InPlace(s, i) && LeastOf(s, i, j) && j < |s|
    requires t == if s[i] > s[j] then s[i := s[j]][j := s[i]] else s
    ensures InPlace(t, i) && LeastOf(t, i, j + 1) && multiset(t) == multiset(s)
  {
  }

  /** Sorts by exchanging each number with every smaller one behind it. */
  method ExchangeSort(a: array<nat>)
    modifies a
    ensures Ascending(a[..]) && multiset(a[..]) == old(multiset(a[..]))
  {
    var i := 0;
    while i < a.Length
      invariant i <= a.Length && InPlace(a[..], i) && multiset(a[..]) == old(multiset(a[..]))
    {
      var j := i + 1;
      while j < a.Length
        invariant i < j <= a.Length && InPlace(a[..], i) && LeastOf(a[..], i, j) && multiset(a[..]) == old(multiset(a[..]))
      {
        hide InPlace, LeastOf;
        ghost var s := a[..];
        if a[i] > a[j] {
          a[i], a[j] := a[j], a[i];
        }
        ExchangeKeeps(s, a[..], i, j);
        j := j + 1;
      }
      i := i + 1;
    }
  }

  /** The numbers without repetitions, in order. */
  function Distinct(s: seq<nat>): (d: seq<nat>)
    ensures |d| <= |s|
  {
    if s == [] then []
    else
      var d := Distinct(s[..|s| - 1]);
      if d != [] && d[|d| - 1] == s[|s| - 1] then d else d + [s[|s| - 1]]
  }

  lemma {:induction false} DistinctOfAscending(s: seq<nat>)
    requires Ascending(s)
    ensures StrictlyAscending(Distinct(s)) && forall x :: x in Distinct(s) <==> x in s
    ensures s != [] ==> Distinct(s) != [] && Distinct(s)[|Distinct(s)| - 1] == s[|s| - 1]
  {
    if s != [] {
      var t := s[..|s| - 1];
      DistinctOfAscending(t);
      assert s == t + [s[|s| - 1]];
      var d := Distinct(t);
      if d != [] {
        assert d[|d| - 1] in t;
      }
    }
  }

  datatype Run = Run(first: nat, last: nat)

  /** The numbers of a run. */
  function Numbers(first: nat, last: nat): (s: seq<nat>)
    decreases last
  {
    if last < first then [] else if last == first then [first] else Numbers(first, last - 1) + [last]
  }

  function Expand(runs: seq<Run>): seq<nat> {
    if runs == [] then [] else Expand(runs[..|runs| - 1]) + Numbers(runs[|runs| - 1].first, runs[|runs| - 1].last)
  }

  /** The runs once x, not below the last number, is added. */
  function AddNumber(runs: seq<Run>, x: nat): seq<Run> {
    if runs == [] then [Run(x, x)]
    else
      var r := runs[|runs| - 1];
      if x == r.last then runs
      else if x == r.last + 1 then runs[..|runs| - 1] + [Run(r.first, x)]
      else runs + [Run(x, x)]
  }

  function Runs(s: seq<nat>): seq<Run> {
    if s == [] then [] else AddNumber(Runs(s[..|s| - 1]), s[|s| - 1])
  }

  /** Runs are in order, and at least one number is missing between any two of them. */
  predicate Maximal(runs: seq<Run>) {
    && (forall i :: 0 <= i < |runs| ==> runs[i].first <= runs[i].last)
    && (forall i :: 0 < i < |runs| ==> runs[i - 1].last + 1 < runs[i].first)
  }

  lemma ExpandSnoc(runs: seq<Run>, r: Run)
    ensures Expand(runs + [r]) == Expand(runs) + Numbers(r.first, r.last)
  {
    assert (runs + [r])[..|runs|] == runs;
  }

  lemma NumbersSnoc(a: nat, b: nat)
    requires a <= b
    ensures Numbers(a, b + 1) == Numbers(a, b) + [b + 1]
    ensures Numbers(a, b) != [] && Numbers(a, b)[|Numbers(a, b)| - 1] == b
  {
  }

  /** Adding a number adds it to the expansion, unless it repeats the last one. */
  lemma AddExpand(runs: seq<Run>, x: nat)
    requires Maximal(runs) && (runs != [] ==> runs[|runs| - 1].last <= x)
    ensures Maximal(AddNumber(runs, x)) && AddNumber(runs, x) != [] && AddNumber(runs, x)[|AddNumber(runs, x)| - 1].last == x
    ensures |AddNumber(runs, x)| <= |runs| + 1
    ensures Expand(AddNumber(runs, x)) == if runs != [] && runs[|runs| - 1].last == x then Expand(runs) else Expand(runs) + [x]
  {
    hide Expand;
    ExpandSnoc(runs, Run(x, x));
    if runs == [] {
      assert runs + [Run(x, x)] == [Run(x, x)];
    } else {
      var init, r := runs[..|runs| - 1], runs[|runs| - 1];
      assert runs == init + [r];
      ExpandSnoc(init, r);
      ExpandSnoc(init, Run(r.first, x));
      NumbersSnoc(r.first, r.last);
    }
  }

  /** Packing ascending numbers into runs loses nothing but repetitions, and the runs are maximal. */
  lemma {:induction false} RunsExpand(s: seq<nat>)
    requires Ascending(s)
    ensures Expand(Runs(s)) == Distinct(s) && Maximal(Runs(s)) && |Runs(s)| <= |s|
    ensures s != [] ==> Runs(s) != [] && Runs(s)[|Runs(s)| - 1].last == s[|s| - 1]
  {
    hide Expand, AddNumber, Maximal;
    if s == [] {
      assert Expand([]) == [] && Maximal([]) by { NoRuns(); }
    } else {
      var t, x := s[..|s| - 1], s[|s| - 1];
      RunsExpand(t);
      DistinctOfAscending(t);
      AddExpand(Runs(t), x);
      assert t == [] ==> Runs(t) == [] && Distinct(t) == [];
    }
  }

  lemma NoRuns()
    ensures Expand([]) == [] && Maximal([])
  {
  }

  /** A run on the wire: a marked single number, or both ends. */
  function RunBytes(r: Run): seq<byte> {
    if r.first == r.last then [1] + Le(r.first, 3) else [0] + Le(r.first, 3) + Le(r.last, 3)
  }

  function RunsBytes(runs: seq<Run>): seq<byte> {
    if runs == [] then [] else RunsBytes(runs[..|runs| - 1]) + RunBytes(runs[|runs| - 1])
  }

  lemma RunsBytesSnoc(runs: seq<Run>, r: Run)
    ensures RunsBytes(runs + [r]) == RunsBytes(runs) + RunBytes(r)
  {
    assert (runs + [r])[..|runs|] == runs;
  }

  lemma {:induction false} RunsBytesCons(runs: seq<Run>)
    requires runs != []
    ensures RunsBytes(runs) == RunBytes(runs[0]) + RunsBytes(runs[1..])
  {
    hide RunBytes;
    var n := |runs| - 1;
    if n == 0 {
      assert runs[..0] == [] && runs[1..] == [];
    } else {
      RunsBytesCons(runs[..n]);
      assert runs[..n][1..] == runs[1..][..n - 1];
    }
  }

  function AckBytes(nack: bool, runs: seq<Run>): seq<byte> {
    [if nack then ID_NACK else ID_ACK] + Be(|runs|, 2) + RunsBytes(runs)
  }

  /** An acknowledgement byte by byte: its id, the number of runs, high byte first, and each run with its numbers, low byte first. */
  lemma AckLayout(nack: bool, runs: seq<Run>)
    ensures AckBytes(nack, runs) == [if nack then 0xA0 else 0xC0, |runs| / 256 % 256, |runs| % 256] + RunsBytes(runs)
    ensures runs != [] ==>
      var r := runs[|runs| - 1];
      var first, last := [r.first % 256, r.first / 256 % 256, r.first / 65536 % 256], [r.last % 256, r.last / 256 % 256, r.last / 65536 % 256];
      RunsBytes(runs) == RunsBytes(runs[..|runs| - 1]) + (if r.first == r.last then [1] + first else [0] + first + last)
  {
    hide Le, Be;
    BeBytes2(|runs|);
    if runs != [] {
      LeBytes3(runs[|runs| - 1].first);
      LeBytes3(runs[|runs| - 1].last);
    }
  }

  method PutRun(s: BinaryStream, first: nat, last: nat)
    modifies s`buffer
    ensures s.buffer == old(s.buffer) + RunBytes(Run(first, last))
  {
    hide Le;
    if first == last {
      s.PutByte(1);
      s.PutTriadLe(first);
    } else {
      s.PutByte(0);
      s.PutTriadLe(first);
      s.PutTriadLe(last);
    }
  }

  /** Packs sorted numbers, one run at a time; a run is written once the next number does not continue it. */
  method PutRuns(a: array<nat>, s: BinaryStream) returns (count: nat)
    requires a.Length > 0 && Ascending(a[..])
    modifies s`buffer
    ensures count == |Runs(a[..])| && s.buffer == old(s.buffer) + RunsBytes(Runs(a[..]))
  {
    hide RunBytes, RunsBytes;
    ghost var all, start := a[..], s.buffer;
    var first, last := a[0], a[0];
    count := 0;
    ghost var done: seq<Run> := [];
    NoneWritten(all);
    assert start + [] == start;
    var i := 1;
    while i < a.Length
      invariant 1 <= i <= a.Length && a[..] == all && last == a[i - 1]
      invariant Runs(all[..i]) == done + [Run(first, last)] && count == |done| && s.buffer == start + RunsBytes(done)
    {
      assert all[..i + 1][..i] == all[..i];
      var current := a[i];
      assert last <= current;
      var diff := current - last;
      if diff == 1 {
        last := current;
      } else if diff > 1 {
        PutRun(s, first, last);
        RunsBytesSnoc(done, Run(first, last));
        done := done + [Run(first, last)];
        first, last := current, current;
        count := count + 1;
      }
      i := i + 1;
    }
    assert all[..i] == all;
    PutRun(s, first, last);
    RunsBytesSnoc(done, Run(first, last));
    count := count + 1;
  }

  lemma NoneWritten(s: seq<nat>)
    requires |s| > 0
    ensures Runs(s[..1]) == [] + [Run(s[0], s[0])] && RunsBytes([]) == []
  {
    assert s[..1][..0] == [];
  }

  /** Sorts the numbers in place and writes them as runs. */
  method PutAcknowledge(a: array<nat>, nack: bool, s: BinaryStream)
    requires 0 < a.Length < 65536
    modifies a, s`buffer
    ensures Ascending(a[..]) && multiset(a[..]) == old(multiset(a[..]))
    ensures s.buffer == old(s.buffer) + AckBytes(nack, Runs(a[..]))
  {
    hide Be, Runs, RunsBytes, Ascending;
    ghost var start := s.buffer;
    ExchangeSort(a);
    s.PutByte(if nack then ID_NACK else ID_ACK);
    var temp := new BinaryStream();
    var count := PutRuns(a, temp);
    s.PutShortBe(count);
    s.PutBytes(temp.buffer);
    assert [] + RunsBytes(Runs(a[..])) == RunsBytes(Runs(a[..]));
    assert s.buffer == start + AckBytes(nack, Runs(a[..]));
  }

  /** The runs of numbers that fit three bytes. */
  predicate RunsOk(runs: seq<Run>) {
    |runs| < 65536 && forall i :: 0 <= i < |runs| ==> runs[i].first <= runs[i].last < 0x100_0000
  }

  lemma ReadMark(r: Run, rest: seq<byte>, ahead: seq<byte>)
    requires ahead == RunBytes(r) + rest
    ensures |ahead| >= 4 && (ahead[0] != 0 <==> r.first == r.last)
    ensures ahead[1..] == Le(r.first, 3) + ((if r.first == r.last then [] else Le(r.last, 3)) + rest)
  {
    hide Le;
    if r.first == r.last {
      assert [1] + Le(r.first, 3) + rest == [1] + (Le(r.first, 3) + ([] + rest));
    } else {
      assert [0] + Le(r.first, 3) + Le(r.last, 3) + rest == [0] + (Le(r.first, 3) + (Le(r.last, 3) + rest));
    }
  }

  /** Reads one run and appends its numbers. */
  method GetRun(s: BinaryStream, before: seq<nat>, ghost r: Run, ghost rest: seq<byte>) returns (numbers: seq<nat>)
    requires s.Valid() && r.first <= r.last < 0x100_0000 && s.Ahead() == RunBytes(r) + rest
    modifies s`offset
    ensures s.Valid() && s.Ahead() == rest && numbers == before + Numbers(r.first, r.last)
  {
    hide Le, FromLe, Pow256, RunBytes;
    ByteSizes();
    ReadMark(r, rest, s.Ahead());
    ghost var tail := (if r.first == r.last then [] else Le(r.last, 3)) + rest;
    var isSingle := s.GetByte();
    ReadLe(r.first, 3, tail, s.Ahead());
    var index := s.GetTriadLe();
    if isSingle != 0 {
      numbers := before + [index];
      assert [] + rest == rest;
    } else {
      ReadLe(r.last, 3, rest, s.Ahead());
      var end := s.GetTriadLe();
      numbers := AppendRange(before, index, end);
    }
  }

  method AppendRange(before: seq<nat>, first: nat, end: nat) returns (numbers: seq<nat>)
    requires first <= end
    ensures numbers == before + Numbers(first, end)
  {
    numbers := before;
    var index := first;
    while index <= end
      invariant first <= index <= end + 1 && numbers == before + (if index > first then Numbers(first, index - 1) else [])
    {
      numbers := numbers + [index];
      index := index + 1;
    }
  }

  /** Reads an acknowledgement back into the numbers of its runs. */
  method GetAcknowledge(s: BinaryStream, ghost nack: bool, ghost runs: seq<Run>, ghost rest: seq<byte>) returns (numbers: seq<nat>)
    requires s.Valid() && RunsOk(runs) && s.Ahead() == AckBytes(nack, runs) + rest
    modifies s`offset
    ensures s.Valid() && s.Ahead() == rest && numbers == Expand(runs)
  {
    hide Be, FromBe, Pow256, RunBytes, RunsBytes, Expand;
    ByteSizes();
    ghost var id := [(if nack then ID_NACK else ID_ACK) as byte];
    assert id + Be(|runs|, 2) + RunsBytes(runs) + rest == id + (Be(|runs|, 2) + (RunsBytes(runs) + rest));
    assert s.Ahead()[1..] == Be(|runs|, 2) + (RunsBytes(runs) + rest);
    var packetId := s.GetByte();
    ReadBe(|runs|, 2, RunsBytes(runs) + rest, s.Ahead());
    var count := s.GetShortBe();
    numbers := GetRuns(s, count, runs, rest);
  }

  /** The records of a packet. */
  method GetRuns(s: BinaryStream, count: nat, ghost runs: seq<Run>, ghost rest: seq<byte>) returns (numbers: seq<nat>)
    requires s.Valid() && RunsOk(runs) && count == |runs| && s.Ahead() == RunsBytes(runs) + rest
    modifies s`offset
    ensures s.Valid() && s.Ahead() == rest && numbers == Expand(runs)
  {
    hide RunBytes, RunsBytes, Expand;
    numbers := [];
    assert runs[0..] == runs && runs[..0] == [];
    NoRuns();
    for i := 0 to count
      invariant s.Valid() && s.Ahead() == RunsBytes(runs[i..]) + rest && numbers == Expand(runs[..i])
    {
      RunsBytesCons(runs[i..]);
      assert runs[i..][1..] == runs[i + 1..];
      ghost var tail := RunsBytes(runs[i + 1..]);
      assert RunBytes(runs[i]) + tail + rest == RunBytes(runs[i]) + (tail + rest);
      numbers := GetRun(s, numbers, runs[i], tail + rest);
      ExpandSnoc(runs[..i], runs[i]);
      assert runs[..i] + [runs[i]] == runs[..i + 1];
    }
    assert runs[count..] == [] && runs[..count] == runs;
    assert RunsBytes([]) + rest == rest by { NoRunBytes(rest); }
  }

  lemma NoRunBytes(rest: seq<byte>)
    ensures RunsBytes([]) + rest == rest
  {
  }

  lemma {:induction false} RunsInRange(s: seq<nat>)
    requires Ascending(s) && |s| < 65536 && forall i :: 0 <= i < |s| ==> s[i] < 0x100_0000
    ensures RunsOk(Runs(s))
  {
    hide Expand;
    RunsExpand(s);
    if s != [] {
      var t := s[..|s| - 1];
      RunsInRange(t);
      RunsExpand(t);
    }
  }

  /**
   * An acknowledgement, encoded and decoded, gives exactly the distinct numbers in ascending order.
   */
  method AckRoundTrip(a: array<nat>, nack: bool) returns (numbers: seq<nat>)
    requires 0 < a.Length < 65536 && forall i :: 0 <= i < a.Length ==> a[i] < 0x100_0000
    modifies a
    ensures StrictlyAscending(numbers) && forall x :: x in numbers <==> x in old(a[..])
  {
    hide Expand, AckBytes;
    ghost var given := a[..];
    var s := new BinaryStream();
    PutAcknowledge(a, nack, s);
    ghost var runs := Runs(a[..]);
    SameNumbers(a[..], given);
    forall i | 0 <= i < a.Length ensures a[..][i] < 0x100_0000 {
      assert a[..][i] in a[..];
    }
    RunsInRange(a[..]);
    RunsExpand(a[..]);
    DistinctOfAscending(a[..]);
    assert s.Ahead() == AckBytes(nack, runs) + [];
    numbers := GetAcknowledge(s, nack, runs, []);
  }

  lemma SameNumbers(s: seq<nat>, t: seq<nat>)
    requires multiset(s) == multiset(t)
    ensures |s| == |t| && forall x :: x in s <==> x in t
  {
    assert |multiset(s)| == |s|;
    forall x ensures x in s <==> x in t {
      assert x in multiset(s) <==> x in multiset(t);
    }
  }
}
