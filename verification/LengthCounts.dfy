/**
 * How many codes there are of each length.
 */
module LengthCounts {
  import opened Bits
  import opened Canonical
  import opened HuffmanTree
  import opened MinRedundancy
  import opened LengthLimit
  import opened LimitCost

  /** The length counters of a list of lengths. */
  function NumCodes(lens: seq<nat>): (num: seq<nat>)
    ensures |num| == MAX_SUPPORTED + 1
  {
    if lens == [] then seq(MAX_SUPPORTED + 1, _ => 0)
    else
      var rest := NumCodes(lens[1..]);
      if lens[0] <= MAX_SUPPORTED then rest[lens[0] := rest[lens[0]] + 1] else rest
  }

  lemma {:induction false} ZeroSums(hi: nat)
    requires hi <= MAX_SUPPORTED
    ensures Total(seq(MAX_SUPPORTED + 1, _ => 0), hi) == 0 && KraftUpTo(seq(MAX_SUPPORTED + 1, _ => 0), hi, MAX_SUPPORTED) == 0
  {
    if hi > 0 {
      ZeroSums(hi - 1);
    }
  }

  /** The counters carry the number of codes and the Kraft sum. */
  lemma {:induction false} NumCodesSums(lens: seq<nat>)
    requires forall i :: 0 <= i < |lens| ==> 1 <= lens[i] <= MAX_SUPPORTED
    ensures Total(NumCodes(lens), MAX_SUPPORTED) == |lens|
    ensures KraftUpTo(NumCodes(lens), MAX_SUPPORTED, MAX_SUPPORTED) == Kraft(lens)
  {
    if lens == [] {
      ZeroSums(MAX_SUPPORTED);
    } else {
      hide KraftUpTo, Total, Pow2;
      NumCodesSums(lens[1..]);
      var rest := NumCodes(lens[1..]);
      ChangeAt(rest, lens[0], rest[lens[0]] + 1, MAX_SUPPORTED, MAX_SUPPORTED);
    }
  }

  lemma {:induction false} CountCons(lens: seq<nat>, k: nat)
    requires lens != []
    ensures Count(lens, k) == (if lens[0] == k then 1 else 0) + Count(lens[1..], k)
  {
    var n := |lens| - 1;
    if n > 0 {
      CountCons(lens[..n], k);
      assert lens[..n][1..] == lens[1..][..n - 1];
    } else {
      assert lens[1..] == [] && lens[..0] == [];
    }
  }

  /** The counters count. */
  lemma {:induction false} NumCodesCount(lens: seq<nat>, k: nat)
    requires k <= MAX_SUPPORTED
    ensures NumCodes(lens)[k] == Count(lens, k)
  {
    if lens != [] {
      NumCodesCount(lens[1..], k);
      CountCons(lens, k);
    }
  }

  lemma {:induction false} AtMostStep(lens: seq<nat>, l: nat)
    ensures AtMost(lens, l + 1) == AtMost(lens, l) + Count(lens, l + 1)
    ensures (forall i :: 0 <= i < |lens| ==> lens[i] >= 1) ==> AtMost(lens, 0) == 0
  {
    if lens != [] {
      AtMostStep(lens[1..], l);
      CountCons(lens, l + 1);
    }
  }

  /** Counters that count give the number of lengths up to each level. */
  lemma {:induction false} CountsTally(num: seq<nat>, lens: seq<nat>, h: nat)
    requires h < |num| && (forall i :: 0 <= i < |lens| ==> lens[i] >= 1) && forall k :: 1 <= k <= h ==> Count(lens, k) == num[k]
    ensures Tallies(num, lens, h)
  {
    hide AtMost, Count;
    if h > 0 {
      CountsTally(num, lens, h - 1);
      AtMostStep(lens, h - 1);
    } else {
      AtMostStep(lens, 0);
    }
  }
}
