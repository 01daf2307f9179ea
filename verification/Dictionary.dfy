/**
 * The dictionary half of the compressor: the ring, the lookahead window, the
 * hash chains and the match finder.
 */
module Dictionaries {
  import opened Bits
  import opened Lz
  import opened Window
  import opened Chains

  function OldestOf(lo: nat, end: nat): nat {
    if end - DICT_SIZE > lo then end - DICT_SIZE else lo
  }

  lemma SlotOfPos(p: nat)
    ensures p % UINT32_MOD % DICT_SIZE == p % DICT_SIZE
  {
    var q := p / UINT32_MOD;
    assert p == DICT_SIZE * (131072 * q) + p % UINT32_MOD;
  }

  lemma SlotOfEnd(p: nat, n: nat)
    ensures (p % UINT32_MOD + n) % UINT32_MOD % DICT_SIZE == (p + n) % DICT_SIZE
  {
    var q, r := p / UINT32_MOD, p % UINT32_MOD;
    assert p + n == DICT_SIZE * (131072 * q) + (r + n);
    SlotOfPos(r + n);
  }

  /** Reckoning with positions in 32 bits. */
  lemma Wrap(p: nat, n: int)
    requires p + n >= 0
    ensures (p % UINT32_MOD + n) % UINT32_MOD == (p + n) % UINT32_MOD
  {
    var q, m, t := p / UINT32_MOD, (p % UINT32_MOD + n) / UINT32_MOD, (p % UINT32_MOD + n) % UINT32_MOD;
    assert p + n == UINT32_MOD * (q + m) + t;
  }

  lemma LinkOfPos(p: nat)
    ensures p % UINT32_MOD % 65536 == p % 65536
  {
    var q := p / UINT32_MOD;
    assert p == 65536 * (65536 * q) + p % UINT32_MOD;
  }

  /** Two neighbouring bytes of the source, where the ring has them. */
  lemma TwoBytes(d: seq<byte>, src: seq<byte>, lo: nat, k: nat)
    requires Covers(d, src, lo) && lo <= k && k + 1 < |src|
    ensures var insPos := k % UINT32_MOD;
      d[insPos % DICT_SIZE] == src[k] && d[(insPos + 1) % DICT_SIZE] == src[k + 1]
  {
    SlotOfPos(k);
    SlotOfEnd(k, 1);
    assert Holds(d, src, k) && Holds(d, src, k + 1);
    hide Covers, Holds;
    NextSlot(k);
  }

  lemma NextSlot(k: nat)
    ensures (k % UINT32_MOD + 1) % DICT_SIZE == (k + 1) % DICT_SIZE
  {
    AddMultiple(k % UINT32_MOD + 1, 131072 * (k / UINT32_MOD));
  }

  lemma AddMultiple(x: nat, y: nat)
    ensures (x + DICT_SIZE * y) % DICT_SIZE == x % DICT_SIZE
  {
  }

  /** The hash rolled on over two bytes and a third one is the hash of the three. */
  lemma RolledHash(x: bv15, a: byte, b: byte, c: byte)
    ensures HashStep(HashStep(HashStep(x, a), b), c) as nat == Hash(a, b, c) < DICT_SIZE
  {
    HashRolls(x, a, b, c);
  }

  lemma HashOf(src: seq<byte>, p: nat)
    requires p + 3 <= |src|
    ensures HashStep(HashStep(src[p] as bv15, src[p + 1]), src[p + 2]) as nat == HashAt(src, p) < DICT_SIZE
  {
  }

  lemma HashIs(src: seq<byte>, a: byte, b: byte, c: byte)
    requires |src| >= 3 && src[|src| - 3] == a && src[|src| - 2] == b && src[|src| - 1] == c
    ensures HashAt(src, |src| - 3) == Hash(a, b, c)
  {
    hide Hash;
  }

  lemma HashStarts(a: byte, b: byte)
    ensures HashStep(HashStep(0, a), b) == HashStep(a as bv15, b)
  {
  }

  /** Position p of the source has this slot of the ring. */
  predicate InSlot(slot: nat, p: nat) {
    slot == p % DICT_SIZE
  }

  class Dictionary {
    const dict: array<byte>
    const next: array<uint16>
    const hash: array<uint16>
    /** Probe limits for short and for long initial matches. */
    const maxProbes0: nat
    const maxProbes1: nat
    var lookaheadPos: nat
    var lookaheadSize: nat
    var dictSize: nat
    /** Every byte taken from the input so far, and from where on positions are linked. */
    ghost var source: seq<byte>
    ghost var floor: nat

    /** Source position of the next byte to encode. */
    ghost function Pos(): nat
      reads this
      requires lookaheadSize <= |source|
    {
      |source| - lookaheadSize
    }

    ghost predicate Shape()
      reads this
    {
      && dict.Length == DICT_LEN && next.Length == DICT_SIZE && hash.Length == DICT_SIZE
      && next != hash
      && maxProbes0 >= 1 && maxProbes1 >= 1
      && lookaheadSize <= |source| && lookaheadSize <= MAX_MATCH_LEN
      && dictSize <= Pos()
      && lookaheadPos == Pos() % UINT32_MOD
    }

    /** All positions since floor whose three bytes are known are linked, and the dictionary reaches back to it unless it is full. */
    ghost predicate ChainsOk()
      reads this, next, hash
      requires lookaheadSize <= |source| && dictSize <= Pos()
    {
      ChainsTo(LinkedEnd())
    }

    ghost predicate ChainsTo(end: nat)
      reads this, next, hash
      requires lookaheadSize <= |source| && dictSize <= Pos()
    {
      && floor + dictSize <= Pos() && (floor + dictSize == Pos() || dictSize >= DICT_SIZE - MAX_MATCH_LEN)
      && Linked(next[..], hash[..], source, floor, end)
    }

    /** Positions below are linked. */
    ghost function LinkedEnd(): nat
      reads this
    {
      if |source| >= floor + 2 then |source| - 2 else floor
    }

    ghost predicate Valid()
      reads this, dict, next, hash
    {
      && Shape()
      && dictSize + lookaheadSize <= DICT_SIZE
      && Covers(dict[..], source, Pos() - dictSize)
      && ChainsOk()
    }

    constructor (probes: nat)
      ensures Valid() && source == [] && lookaheadSize == 0 && dictSize == 0
      ensures 3 * (maxProbes0 - 2) < probes % 4096 <= 3 * (maxProbes0 - 1)
      ensures 3 * (maxProbes1 - 2) < probes % 4096 / 4 <= 3 * (maxProbes1 - 1)
      ensures fresh(dict) && fresh(next) && fresh(hash)
    {
      dict := new byte[DICT_LEN](_ => 0);
      next := new uint16[DICT_SIZE](_ => 0);
      hash := new uint16[DICT_SIZE](_ => 0);
      maxProbes0 := 1 + (probes % 4096 + 2) / 3;
      maxProbes1 := 1 + (probes % 4096 / 4 + 2) / 3;
      lookaheadPos, lookaheadSize, dictSize := 0, 0, 0;
      source, floor := [], 0;
      new;
      NothingLinked(next[..], hash[..], [], 0);
    }

    /** A match that the source really contains at the current position. */
    ghost predicate GoodMatch(dist: nat, len: nat)
      reads this
      requires lookaheadSize <= |source|
    {
      1 <= dist <= dictSize && len <= lookaheadSize && Repeats(source, Pos(), dist, len)
    }

    /** These candidates are the front of the chain. */
    ghost predicate OnChain(dists: seq<nat>)
      reads this, next
    {
      && next.Length == DICT_SIZE && lookaheadSize <= |source| && dictSize <= Pos()
      && DistsOk(source, Pos(), lookaheadSize, dists)
      && dists == Chain(next[..], Pos() % DICT_SIZE, lookaheadPos, dictSize, |dists|)
    }

    /** Behind these candidates the chain has led to this slot. */
    ghost predicate LedTo(dists: seq<nat>, slot: nat)
      reads this, next
    {
      OnChain(dists) && slot == SlotAfter(next[..], Pos() % DICT_SIZE, |dists|)
    }

    /** The chain has no more candidates. */
    ghost predicate Ended(dists: seq<nat>)
      reads this, next
      requires next.Length == DICT_SIZE && lookaheadSize <= |source|
    {
      ChainEnds(next[..], Pos() % DICT_SIZE, lookaheadPos, dictSize, dists)
    }

    /** The best of these candidates. */
    ghost function BestOf(len0: nat, dists: seq<nat>): Found
      reads this
      requires lookaheadSize <= |source| && DistsOk(source, Pos(), lookaheadSize, dists)
    {
      Best(source, Pos(), lookaheadSize, len0, dists)
    }

    ghost function LookedAt(len0: nat, dists: seq<nat>): nat
      reads this
      requires 1 <= len0 && lookaheadSize <= |source| && DistsOk(source, Pos(), lookaheadSize, dists)
    {
      Looked(source, Pos(), lookaheadSize, len0, dists)
    }

    /** More candidates were tried, and none of them was worth looking at. */
    ghost predicate Fruitless(len0: nat, dists: seq<nat>, seen: seq<nat>)
      reads this, next
    {
      && 1 <= len0 && OnChain(dists) && OnChain(seen) && |dists| <= |seen|
      && BestOf(len0, seen) == BestOf(len0, dists) && LookedAt(len0, seen) == LookedAt(len0, dists)
    }

    /** What one probe has to know: the length to beat, and the two bytes that a longer match must have. */
    ghost predicate Probing(matchLen: nat, c0: byte, c1: byte, len0: nat, dists: seq<nat>)
      reads this, dict, next, hash
    {
      && Valid() && OnChain(dists) && 1 <= len0 && 1 <= matchLen == BestOf(len0, dists).len < lookaheadSize
      && c0 == source[Pos() + matchLen] && c1 == source[Pos() + matchLen - 1]
    }

    /** One probe: follows the link at a slot, and compares two bytes at the end of the best match there. */
    method Probe(from: nat, matchLen: nat, c0: byte, c1: byte, ghost len0: nat, ghost dists: seq<nat>)
      returns (stop: bool, found: bool, probePos: nat, dist: nat, ghost seen: seq<nat>)
      requires Probing(matchLen, c0, c1, len0, dists) && LedTo(dists, from)
      ensures OnChain(seen)
      ensures if stop || dist == 0 then
          seen == dists && Ended(dists) && (stop <==> !found)
        else
          && seen == dists + [dist] && LedTo(seen, probePos) && dist <= dictSize && probePos == (Pos() - dist) % DICT_SIZE
          && (found <==> EndAgrees(source, Pos(), dist, matchLen)) && (!found ==> Fruitless(len0, dists, seen))
    {
      hide Probing, LedTo, OnChain, Ended, Fruitless, EndAgrees;
      ProbedLink(from, matchLen, c0, c1, len0, dists);
      ProbedBytes(next[from], matchLen, c0, c1, len0, dists);
      stop, found, probePos, dist, seen := true, false, from, 0, dists;
      var nextProbePos := next[from];
      if nextProbePos == 0 {
        return;
      }
      dist := (lookaheadPos - nextProbePos) % 65536;
      if dist > dictSize {
        return;
      }
      stop := false;
      probePos := nextProbePos % DICT_SIZE;
      found := dict[probePos + matchLen] == c0 && dict[probePos + matchLen - 1] == c1;
      if dist != 0 {
        seen := dists + [dist];
      }
    }

    /** What the link at a slot means: where the chain goes on, or that it ends. */
    lemma ProbedLink(from: nat, matchLen: nat, c0: byte, c1: byte, len0: nat, dists: seq<nat>)
      requires Probing(matchLen, c0, c1, len0, dists) && LedTo(dists, from)
      ensures from < next.Length == DICT_SIZE && OnChain(dists)
      ensures var link, dist := next[from], Back(lookaheadPos, next[from]);
        if !LeadsOn(link, lookaheadPos, dictSize) then Ended(dists)
        else
          && LedTo(dists + [dist], link % DICT_SIZE) && OnChain(dists + [dist])
          && (!EndAgrees(source, Pos(), dist, matchLen) ==> Fruitless(len0, dists, dists + [dist]))
    {
      hide Valid, Chain, SlotAfter, Best, Looked, CommonLen, Back;
      ProbingShape(matchLen, c0, c1, len0, dists);
      ChainSnoc(next[..], Pos() % DICT_SIZE, lookaheadPos, dictSize, dists);
      var link, dist := next[from], Back(lookaheadPos, next[from]);
      if LeadsOn(link, lookaheadPos, dictSize) {
        OneMore(source, Pos(), lookaheadSize, len0, dists, dist);
      }
    }

    /** What the bytes there mean. */
    lemma ProbedBytes(link: uint16, matchLen: nat, c0: byte, c1: byte, len0: nat, dists: seq<nat>)
      requires Probing(matchLen, c0, c1, len0, dists)
      ensures DICT_SIZE + matchLen <= dict.Length && 1 <= matchLen && Pos() + matchLen < |source|
      ensures var dist, slot := Back(lookaheadPos, link), link % DICT_SIZE;
        var agree := dict[slot + matchLen] == c0 && dict[slot + matchLen - 1] == c1;
        && (dist == 0 ==> agree)
        && (1 <= dist <= dictSize ==>
              dist <= Pos() && slot == (Pos() - dist) % DICT_SIZE && (agree <==> EndAgrees(source, Pos(), dist, matchLen)))
    {
      hide Valid, OnChain, Best, Back;
      ProbingShape(matchLen, c0, c1, len0, dists);
      if Back(lookaheadPos, link) <= dictSize {
        EndBytes(matchLen, link);
      }
    }

    lemma ProbingShape(matchLen: nat, c0: byte, c1: byte, len0: nat, dists: seq<nat>)
      requires Probing(matchLen, c0, c1, len0, dists)
      ensures next.Length == DICT_SIZE && DICT_SIZE + matchLen <= dict.Length && lookaheadSize <= |source| && dictSize <= Pos()
    {
      hide ChainsOk, Covers, Best, Chain;
    }

    /** The two bytes at the end of a match, where the ring has them for the position that a link stands for. */
    lemma EndBytes(matchLen: nat, link: uint16)
      requires Valid() && 1 <= matchLen < lookaheadSize && Back(lookaheadPos, link) <= dictSize
      ensures var dist, slot := Back(lookaheadPos, link), link % DICT_SIZE;
        && slot == (Pos() - dist) % DICT_SIZE && slot + matchLen < dict.Length
        && dict[slot + matchLen] == source[Pos() + matchLen - dist] && dict[slot + matchLen - 1] == source[Pos() + matchLen - 1 - dist]
    {
      hide ChainsOk, Covers;
      var dist := Back(lookaheadPos, link);
      ProbeSlot(Pos(), link);
      ReadThrough(dict[..], source, Pos() - dictSize, Pos() - dist, matchLen);
      ReadThrough(dict[..], source, Pos() - dictSize, Pos() - dist, matchLen - 1);
    }

    /** A candidate worth looking at was found, the ones before it were not; the rounds fit the probes made. */
    ghost predicate Hit(matchLen: nat, len0: nat, dists: seq<nat>, seen: seq<nat>, probePos: nat, dist: nat, rounds: nat, roundsLeft: nat)
      reads this, next
    {
      && seen != [] && Fruitless(len0, dists, seen[..|seen| - 1]) && seen[|seen| - 1] == dist && LedTo(seen, probePos)
      && 1 <= dist <= dictSize && probePos == (Pos() - dist) % DICT_SIZE
      && 1 <= matchLen && Pos() + matchLen < |source| && EndAgrees(source, Pos(), dist, matchLen)
      && 1 <= roundsLeft < rounds && |seen| - |dists| <= 3 * (rounds - roundsLeft) <= |seen| - |dists| + 2
    }

    /** No such candidate was found, since the chain ended or the rounds are used up. */
    ghost predicate Missed(len0: nat, dists: seq<nat>, seen: seq<nat>, rounds: nat)
      reads this, next
    {
      && Fruitless(len0, dists, seen)
      && |seen| - |dists| <= 3 * (rounds - 1) && (Ended(seen) || |seen| - |dists| == 3 * (rounds - 1))
    }

    /**
     * Walks the hash chain, three probes a round, to the next position whose bytes at the
     * end of the current best match agree. Stops for good when the rounds are used up.
     */
    method NextCandidate(from: nat, matchLen: nat, c0: byte, c1: byte, rounds: nat, ghost len0: nat, ghost dists: seq<nat>)
      returns (found: bool, probePos: nat, dist: nat, roundsLeft: nat, ghost seen: seq<nat>)
      requires Probing(matchLen, c0, c1, len0, dists) && LedTo(dists, from) && rounds >= 1
      ensures if found && dist != 0 then Hit(matchLen, len0, dists, seen, probePos, dist, rounds, roundsLeft)
        else Missed(len0, dists, seen, rounds)
    {
      hide OnChain, Valid, EndAgrees, BestOf, LookedAt, Ended;
      StartProbing(matchLen, c0, c1, len0, dists);
      found, probePos, dist, roundsLeft, seen := false, from, 0, rounds, dists;
      while !found
        invariant 1 <= roundsLeft <= rounds
        invariant if !found then
            && Probing(matchLen, c0, c1, len0, seen) && LedTo(seen, probePos)
            && Fruitless(len0, dists, seen) && |seen| - |dists| == 3 * (rounds - roundsLeft)
          else dist != 0 && Hit(matchLen, len0, dists, seen, probePos, dist, rounds, roundsLeft)
        decreases roundsLeft, if found then 0 else 1
      {
        roundsLeft := roundsLeft - 1;
        if roundsLeft == 0 {
          return;
        }
        var k := 0;
        while k < 3 && !found
          invariant k <= 3
          invariant if !found then
              && Probing(matchLen, c0, c1, len0, seen) && LedTo(seen, probePos)
              && Fruitless(len0, dists, seen) && |seen| - |dists| == 3 * (rounds - 1 - roundsLeft) + k
            else dist != 0 && Hit(matchLen, len0, dists, seen, probePos, dist, rounds, roundsLeft)
        {
          ghost var before := seen;
          var stop;
          stop, found, probePos, dist, seen := Probe(probePos, matchLen, c0, c1, len0, seen);
          if stop || dist == 0 {
            return;
          }
          assert seen[..|seen| - 1] == before;
          ProbingOn(matchLen, c0, c1, len0, before, seen);
          k := k + 1;
        }
      }
    }

    lemma StartProbing(matchLen: nat, c0: byte, c1: byte, len0: nat, dists: seq<nat>)
      requires Probing(matchLen, c0, c1, len0, dists)
      ensures Fruitless(len0, dists, dists) && 1 <= matchLen && Pos() + matchLen < |source|
    {
      hide Valid, OnChain;
      ProbingShape(matchLen, c0, c1, len0, dists);
    }

    lemma ProbingOn(matchLen: nat, c0: byte, c1: byte, len0: nat, dists: seq<nat>, seen: seq<nat>)
      requires Probing(matchLen, c0, c1, len0, dists)
      ensures Fruitless(len0, dists, seen) ==> Probing(matchLen, c0, c1, len0, seen)
    {
      hide Valid, OnChain;
    }

    /** Compares byte by byte from two slots, at most n bytes. */
    method CommonLength(a: nat, b: nat, n: nat) returns (len: nat)
      requires a + n <= dict.Length && b + n <= dict.Length
      ensures len <= n && SameBytes(dict[..], a, b, len)
      ensures len < n ==> dict[a + len] != dict[b + len]
    {
      len := 0;
      while len < n && dict[a + len] == dict[b + len]
        invariant len <= n
        invariant SameBytes(dict[..], a, b, len)
      {
        len := len + 1;
      }
    }

    /** Compared byte by byte in the ring, the candidate repeats this much. */
    lemma CommonInRing(pos: nat, probePos: nat, dist: nat, len: nat)
      requires Valid() && 1 <= dist <= dictSize && len <= lookaheadSize && InSlot(pos, Pos()) && InSlot(probePos, Pos() - dist)
      requires SameBytes(dict[..], pos, probePos, len)
      requires len < lookaheadSize ==> dict[pos + len] != dict[probePos + len]
      ensures CommonLen(source, Pos(), dist, lookaheadSize) == len
    {
      hide ChainsOk, CommonLen, Repeats, SameBytes;
      MatchRepeats(dict[..], source, Pos() - dictSize, Pos(), dist, len);
      if len < lookaheadSize {
        Differs(pos, probePos, dist, len);
      }
      CommonIs(source, Pos(), dist, lookaheadSize, len);
    }

    lemma Differs(pos: nat, probePos: nat, dist: nat, len: nat)
      requires Valid() && 1 <= dist <= dictSize && len < lookaheadSize && InSlot(pos, Pos()) && InSlot(probePos, Pos() - dist)
      requires len < MAX_MATCH_LEN && dict[pos + len] != dict[probePos + len]
      ensures source[Pos() + len] != source[Pos() - dist + len]
    {
      hide ChainsOk;
      ReadThrough(dict[..], source, Pos() - dictSize, Pos(), len);
      ReadThrough(dict[..], source, Pos() - dictSize, Pos() - dist, len);
    }

    /** How often the search goes on behind a candidate, or three. */
    function Rounds(len0: nat): nat {
      if len0 >= 32 then maxProbes1 else maxProbes0
    }

    /** A search along the chain from a length to beat: what it tried, and the best of that. */
    ghost predicate Searched(len0: nat, dist: nat, len: nat, seen: seq<nat>)
      reads this, next
    {
      && OnChain(seen) && 1 <= len0 && Rounds(len0) >= 1 && BestOf(len0, seen) == Found(dist, len)
      && Tried(next[..], Pos() % DICT_SIZE, lookaheadPos, dictSize, Rounds(len0), source, Pos(), lookaheadSize, len0, seen)
    }

    /** In the middle of a search: so many probes fit the rounds used. */
    ghost predicate Searching(len0: nat, dist: nat, len: nat, seen: seq<nat>, left: nat)
      reads this, next
    {
      && OnChain(seen) && 1 <= len0 && BestOf(len0, seen) == Found(dist, len) && len < lookaheadSize
      && 1 <= left <= Rounds(len0) && |seen| <= 3 * (Rounds(len0) - left) <= |seen| + 2 * LookedAt(len0, seen)
    }

    lemma StartSearch(len0: nat)
      requires Valid() && 1 <= len0
      ensures OnChain([]) && LedTo([], lookaheadPos % DICT_SIZE) && InSlot(lookaheadPos % DICT_SIZE, Pos())
      ensures if len0 < lookaheadSize then Searching(len0, 0, len0, [], Rounds(len0)) else Searched(len0, 0, len0, [])
    {
      hide ChainsOk, Covers;
      SlotOfPos(Pos());
      NoneTried(source, Pos(), lookaheadSize, len0);
    }

    /** The search goes on behind a candidate, or ends with one that cannot be beaten. */
    lemma SearchHit(len0: nat, dist: nat, len: nat, seen: seq<nat>, left: nat, more: seq<nat>, probePos: nat, d: nat, left': nat)
      requires Searching(len0, dist, len, seen, left) && Hit(len, len0, seen, more, probePos, d, left, left')
      ensures var n := CommonLen(source, Pos(), d, lookaheadSize);
        var b := if n > len then Found(d, n) else Found(dist, len);
        if b.len == lookaheadSize then Searched(len0, b.dist, b.len, more) else Searching(len0, b.dist, b.len, more, left')
    {
      hide Chain, SlotAfter, Best, Looked, CommonLen;
      var mid := more[..|more| - 1];
      assert more == mid + [d];
      OneMore(source, Pos(), lookaheadSize, len0, mid, d);
    }

    lemma SearchMissed(len0: nat, dist: nat, len: nat, seen: seq<nat>, left: nat, more: seq<nat>)
      requires Searching(len0, dist, len, seen, left) && Missed(len0, seen, more, left)
      ensures Searched(len0, dist, len, more)
    {
      hide Chain, SlotAfter, Best, Looked, CommonLen;
    }

    /** What a search has found is a match. */
    lemma SearchedGood(len0: nat, dist: nat, len: nat, seen: seq<nat>)
      requires Searched(len0, dist, len, seen)
      ensures (dist == 0 && len == len0) || (len0 < len && GoodMatch(dist, len))
    {
      hide SlotAfter, Looked, CommonLen, ChainEnds;
    }

    /**
     * The best match longer than matchLen0 among the candidates on the chain, the first of several, whatever the
     * chains hold. The chain is followed until it ends, a match cannot be beaten, or the rounds are used up.
     */
    method FindMatch(matchLen0: nat) returns (matchDist: nat, matchLen: nat, ghost seen: seq<nat>)
      requires Valid() && 1 <= matchLen0 < MAX_MATCH_LEN
      ensures Searched(matchLen0, matchDist, matchLen, seen)
    {
      hide Linked, Covers, Searching, Searched, Hit, Missed, LedTo, OnChain, InSlot, CommonLen, Probing;
      StartSearch(matchLen0);
      var maxMatchLen := lookaheadSize;
      matchDist, matchLen, seen := 0, matchLen0, [];
      var pos := lookaheadPos % DICT_SIZE;
      var probePos: nat := pos;
      var probesLeft: nat := if matchLen >= 32 then maxProbes1 else maxProbes0;
      var c0, c1 := dict[pos + matchLen], dict[pos + matchLen - 1];
      if maxMatchLen <= matchLen {
        return;
      }
      while true
        invariant Searching(matchLen0, matchDist, matchLen, seen, probesLeft) && LedTo(seen, probePos)
        invariant InSlot(pos, Pos()) && 1 <= matchLen < maxMatchLen && c0 == dict[pos + matchLen] && c1 == dict[pos + matchLen - 1]
        decreases probesLeft
      {
        ghost var before, left := seen, probesLeft;
        BeatBytes(pos, matchLen0, matchDist, matchLen, seen, probesLeft);
        var found, dist;
        found, probePos, dist, probesLeft, seen := NextCandidate(probePos, matchLen, c0, c1, probesLeft, matchLen0, seen);
        if !found || dist == 0 {
          SearchMissed(matchLen0, matchDist, matchLen, before, left, seen);
          return;
        }
        HitFacts(matchLen, matchLen0, before, seen, probePos, dist, left, probesLeft);
        var probeLen := CommonLength(pos, probePos, maxMatchLen);
        CommonInRing(pos, probePos, dist, probeLen);
        SearchHit(matchLen0, matchDist, matchLen, before, left, seen, probePos, dist, probesLeft);
        if probeLen > matchLen {
          matchDist, matchLen := dist, probeLen;
          if matchLen == maxMatchLen {
            return;
          }
          c0, c1 := dict[pos + matchLen], dict[pos + matchLen - 1];
        }
      }
    }

    lemma HitFacts(matchLen: nat, len0: nat, dists: seq<nat>, seen: seq<nat>, probePos: nat, dist: nat, rounds: nat, roundsLeft: nat)
      requires Hit(matchLen, len0, dists, seen, probePos, dist, rounds, roundsLeft)
      ensures LedTo(seen, probePos) && 1 <= dist <= dictSize <= Pos() && InSlot(probePos, Pos() - dist) && probePos < DICT_SIZE
      ensures roundsLeft < rounds
    {
      hide Chain, SlotAfter, Best, Looked, DistsOk;
    }

    /** The two bytes that a longer match must have. */
    lemma BeatBytes(pos: nat, len0: nat, dist: nat, len: nat, seen: seq<nat>, left: nat)
      requires Valid() && Searching(len0, dist, len, seen, left) && InSlot(pos, Pos())
      ensures 1 <= left && 1 <= len && pos + len < dict.Length
      ensures Probing(len, dict[pos + len], dict[pos + len - 1], len0, seen)
    {
      hide ChainsOk, Chain, Looked;
      ReadThrough(dict[..], source, Pos() - dictSize, Pos(), len);
      ReadThrough(dict[..], source, Pos() - dictSize, Pos(), len - 1);
    }

    /**
     * What a search cannot miss: the nearest earlier positions whose next three bytes have the same hash are
     * tried, as many as there are rounds at least, and nothing that repeats there is longer than what is found.
     */
    lemma NearestTried(len0: nat, dist: nat, len: nat, seen: seq<nat>, i: nat)
      requires Valid() && Searched(len0, dist, len, seen) && lookaheadSize >= MIN_MATCH_LEN
      requires i < |Earlier(source, floor, Pos(), HashAt(source, Pos()), dictSize, Pos())| && i + 1 < Rounds(len0)
      ensures CommonLen(source, Pos(), Earlier(source, floor, Pos(), HashAt(source, Pos()), dictSize, Pos())[i], lookaheadSize) <= len
    {
      hide Covers, HashAt, Earlier, Chain, SlotAfter, Linked, Tried, Best, CommonLen, DistsOk;
      var e := Earlier(source, floor, Pos(), HashAt(source, Pos()), dictSize, Pos());
      ChainNothing(next[..], Pos() % DICT_SIZE, Pos() % UINT32_MOD, dictSize);
      ChainLeads(next[..], hash[..], source, floor, LinkedEnd(), Pos(), dictSize, Pos(), []);
      assert [] + e == e;
      TriedEnough(next[..], Pos() % DICT_SIZE, lookaheadPos, dictSize, Rounds(len0), source, Pos(), lookaheadSize, len0, seen, e, i);
    }

    /** The run of the previous byte that starts at the current position; below 3 it is dropped. */
    method RunLength() returns (matchDist: nat, matchLen: nat)
      requires Valid() && dictSize > 0
      ensures var n := CommonLen(source, Pos(), 1, lookaheadSize);
        if n >= MIN_MATCH_LEN then matchDist == 1 && matchLen == n else matchDist == 0 && matchLen == 0
    {
      hide ChainsOk, CommonLen;
      var curPos := lookaheadPos % DICT_SIZE;
      SlotOfPos(Pos());
      RingSlot(Pos() - 1, 1);
      var c := dict[(curPos - 1) % DICT_SIZE];
      assert Holds(dict[..], source, Pos() - 1);
      assert c == source[Pos() - 1];
      matchDist, matchLen := 0, 0;
      while matchLen < lookaheadSize && dict[curPos + matchLen] == c
        invariant matchLen <= lookaheadSize
        invariant forall i :: Pos() - 1 <= i < Pos() + matchLen ==> source[i] == c
      {
        ReadThrough(dict[..], source, Pos() - dictSize, Pos(), matchLen);
        matchLen := matchLen + 1;
      }
      if matchLen < lookaheadSize {
        ReadThrough(dict[..], source, Pos() - dictSize, Pos(), matchLen);
      }
      CommonIs(source, Pos(), 1, lookaheadSize, matchLen);
      if matchLen < MIN_MATCH_LEN {
        matchLen := 0;
      } else {
        matchDist := 1;
      }
    }

    /** The next byte to encode. */
    method Current() returns (c: byte)
      requires Valid() && lookaheadSize > 0
      ensures c == source[Pos()]
    {
      SlotOfPos(Pos());
      assert Holds(dict[..], source, Pos());
      c := dict[lookaheadPos % DICT_SIZE];
    }

    /** Links position insPos, whose third byte was stored last, into the chain of its hash. */
    method LinkPosition(h: bv15, insPos: nat)
      requires Shape() && |source| >= floor + 3 && ChainsTo(|source| - 3)
      requires insPos == (|source| - 3) % UINT32_MOD && h as nat == HashAt(source, |source| - 3) < DICT_SIZE
      modifies next, hash
      ensures Shape() && ChainsOk()
    {
      hide Linked, Hash, HashAt;
      ghost var end := |source| - 3;
      SlotOfPos(end);
      LinkOfPos(end);
      LinkStep(next[..], hash[..], source, floor, end, h as nat);
      next[insPos % DICT_SIZE] := hash[h as nat];
      hash[h as nat] := insPos % 65536;
    }

    /** Stores one input byte behind the lookahead, mirrored when it lands at the start of the ring. */
    method Store(c: byte)
      requires Shape() && lookaheadSize < MAX_MATCH_LEN
      requires Covers(dict[..], source, Oldest()) && ChainsOk()
      modifies this`lookaheadSize, this`source, dict
      ensures Shape() && source == old(source) + [c] && lookaheadSize == old(lookaheadSize) + 1
      ensures Pos() == old(Pos()) && Covers(dict[..], source, Oldest()) && ChainsTo(old(LinkedEnd()))
    {
      hide Linked;
      LinkedMore(next[..], hash[..], source, source + [c], floor, LinkedEnd());
      ghost var nexts, hashes := next[..], hash[..];
      var dstPos := (lookaheadPos + lookaheadSize) % UINT32_MOD % DICT_SIZE;
      SlotOfEnd(Pos(), lookaheadSize);
      WriteCovers(dict[..], source, Oldest(), c, OldestOf(Pos() - dictSize, |source| + 1));
      ghost var before := dict[..];
      dict[dstPos] := c;
      if dstPos < MIRROR {
        dict[DICT_SIZE + dstPos] := c;
      }
      assert dict[..] == Written(before, dstPos, c);
      lookaheadSize := lookaheadSize + 1;
      source := source + [c];
      assert next[..] == nexts && hash[..] == hashes;
    }

    /** Oldest source position the ring still holds while it is being filled. */
    ghost function Oldest(): nat
      reads this
      requires lookaheadSize <= |source| && dictSize <= Pos()
    {
      OldestOf(Pos() - dictSize, |source|)
    }

    /** Input taken so far by a filling loop: src[from..i], behind what was there before. */
    twostate predicate Filled(src: seq<byte>, from: nat, i: nat)
      requires old(lookaheadSize <= |source|)
      reads this, dict, next, hash
    {
      && from <= i <= |src| && Shape() && Covers(dict[..], source, Oldest()) && ChainsOk()
      && source == old(source) + src[from..i] && floor == old(floor)
      && Pos() == old(Pos()) && dictSize == old(dictSize) && lookaheadPos == old(lookaheadPos)
    }

    /** Stores a byte and links the position two before it, whose hash it completes. */
    method StoreLinked(c: byte, h: bv15, insPos: nat)
      requires Shape() && lookaheadSize < MAX_MATCH_LEN && Covers(dict[..], source, Oldest()) && ChainsOk()
      requires |source| >= floor + 2 && insPos == (|source| - 2) % UINT32_MOD
      requires h as nat == Hash(source[|source| - 2], source[|source| - 1], c) < DICT_SIZE
      modifies this`lookaheadSize, this`source, dict, next, hash
      ensures Shape() && source == old(source) + [c] && lookaheadSize == old(lookaheadSize) + 1
      ensures Pos() == old(Pos()) && Covers(dict[..], source, Oldest()) && ChainsOk()
    {
      hide Linked, Covers, Hash, HashAt;
      HashIs(source + [c], source[|source| - 2], source[|source| - 1], c);
      Store(c);
      LinkPosition(h, insPos);
    }

    /** The filling loop once two bytes are known: the hash rolls. */
    method FillRolling(src: seq<byte>, from: nat) returns (i: nat)
      requires Valid() && from <= |src| && lookaheadSize + dictSize >= MIN_MATCH_LEN - 1
      modifies this`lookaheadSize, this`source, dict, next, hash
      ensures Filled(src, from, i)
      ensures i == |src| || lookaheadSize == MAX_MATCH_LEN
    {
      hide Linked, Hash, HashStep, HashAt, Covers;
      i := from;
      var insPos: nat := (lookaheadPos + lookaheadSize - 2) % UINT32_MOD;
      LastTwo();
      var h := HashStep(dict[insPos % DICT_SIZE] as bv15, dict[(insPos + 1) % DICT_SIZE]);
      var n := if |src| - from < MAX_MATCH_LEN - lookaheadSize then |src| - from else MAX_MATCH_LEN - lookaheadSize;
      ghost var x: bv15, at: nat := 0, |source| - 2;
      HashStarts(source[at], source[at + 1]);
      while i < from + n
        invariant from <= i <= from + n
        invariant Filled(src, from, i) && |source| == at + 2 >= floor + 2
        invariant insPos == at % UINT32_MOD
        invariant h == HashStep(HashStep(x, source[at]), source[at + 1])
        invariant lookaheadSize == old(lookaheadSize) + (i - from)
      {
        var c := src[i];
        i := i + 1;
        RolledHash(x, source[at], source[at + 1], c);
        Wrap(at, 1);
        x, at := HashStep(x, source[at]), at + 1;
        h := HashStep(h, c);
        StoreLinked(c, h, insPos);
        insPos := (insPos + 1) % UINT32_MOD;
      }
    }

    /** The last two bytes stored, where the ring has them. */
    lemma LastTwo()
      requires Valid() && lookaheadSize + dictSize >= 2
      ensures |source| >= floor + 2
      ensures var insPos := (lookaheadPos + lookaheadSize - 2) % UINT32_MOD;
        insPos == (|source| - 2) % UINT32_MOD
        && dict[insPos % DICT_SIZE] == source[|source| - 2] && dict[(insPos + 1) % DICT_SIZE] == source[|source| - 1]
    {
      hide Linked, Covers;
      Wrap(Pos(), lookaheadSize - 2);
      TwoBytes(dict[..], source, Pos() - dictSize, |source| - 2);
    }

    /** The filling loop at the start of the input: every hash is computed from three bytes. */
    method FillStart(src: seq<byte>, from: nat) returns (i: nat)
      requires Valid() && from <= |src| && lookaheadSize + dictSize < MIN_MATCH_LEN - 1
      modifies this`lookaheadSize, this`source, dict, next, hash
      ensures Filled(src, from, i)
      ensures i == |src| || lookaheadSize == MAX_MATCH_LEN
    {
      hide Linked, Hash, HashStep;
      i := from;
      while i < |src| && lookaheadSize < MAX_MATCH_LEN
        invariant Filled(src, from, i) && lookaheadSize + dictSize == |source| - floor
      {
        var c := src[i];
        i := i + 1;
        Store(c);
        if lookaheadSize + dictSize >= MIN_MATCH_LEN {
          var insPos := (lookaheadPos + (lookaheadSize - 1) - 2) % UINT32_MOD;
          LastThree(c);
          LinkPosition(HashStep(HashStep(dict[insPos % DICT_SIZE] as bv15, dict[(insPos + 1) % DICT_SIZE]), c), insPos);
        }
      }
    }

    /** The last three bytes stored: two where the ring has them, and the one just taken. */
    lemma LastThree(c: byte)
      requires Shape() && Covers(dict[..], source, Oldest()) && floor + 3 <= |source| && Oldest() + 3 <= |source| && c == source[|source| - 1]
      ensures var insPos := (lookaheadPos + (lookaheadSize - 1) - 2) % UINT32_MOD;
        insPos == (|source| - 3) % UINT32_MOD
        && HashStep(HashStep(dict[insPos % DICT_SIZE] as bv15, dict[(insPos + 1) % DICT_SIZE]), c) as nat
          == HashAt(source, |source| - 3) < DICT_SIZE
    {
      hide Linked, Covers;
      Wrap(Pos(), lookaheadSize - 3);
      TwoBytes(dict[..], source, Oldest(), |source| - 3);
      assert lookaheadPos + (lookaheadSize - 1) - 2 == lookaheadPos + (lookaheadSize - 3);
      HashOf(source, |source| - 3);
    }

    /**
     * Reads input until the lookahead is full or the input is used up, and shrinks the
     * dictionary by what was overwritten.
     */
    method Fill(src: seq<byte>, from: nat) returns (i: nat)
      requires Valid() && from <= |src|
      modifies this`lookaheadSize, this`dictSize, this`source, dict, next, hash
      ensures Valid() && from <= i <= |src| && source == old(source) + src[from..i]
      ensures Pos() == old(Pos()) && dictSize <= old(dictSize) && floor == old(floor)
      ensures i == |src| || lookaheadSize == MAX_MATCH_LEN
    {
      if lookaheadSize + dictSize >= MIN_MATCH_LEN - 1 {
        i := FillRolling(src, from);
      } else {
        i := FillStart(src, from);
      }
      hide Linked;
      ghost var lo := Oldest();
      if DICT_SIZE - lookaheadSize < dictSize {
        dictSize := DICT_SIZE - lookaheadSize;
      }
      CoversFrom(dict[..], source, lo, Pos() - dictSize);
    }

    /** Moves the lookahead forward. */
    method Advance(n: nat)
      requires Valid() && n <= lookaheadSize
      modifies this`lookaheadPos, this`lookaheadSize, this`dictSize
      ensures Valid() && lookaheadSize == old(lookaheadSize) - n && dictSize == old(dictSize) + n
      ensures Pos() == old(Pos()) + n && lookaheadPos == Pos() % 0x1_0000_0000
    {
      hide Linked, Covers;
      ghost var nexts, hashes, bytes := next[..], hash[..], dict[..];
      lookaheadPos := (lookaheadPos + n) % UINT32_MOD;
      lookaheadSize := lookaheadSize - n;
      dictSize := if dictSize + n < DICT_SIZE then dictSize + n else DICT_SIZE;
    }

    /** Forgets all earlier input, so that no later match reaches back. */
    method Forget()
      requires Valid() && lookaheadSize == 0
      modifies this`dictSize, this`floor, next, hash
      ensures Valid() && dictSize == 0 && forall k :: 0 <= k < DICT_SIZE ==> next[k] == 0 && hash[k] == 0
    {
      hide Linked;
      CoversFrom(dict[..], source, Pos() - dictSize, Pos());
      ghost var ring := dict[..];
      for i := 0 to DICT_SIZE
        invariant dict[..] == ring && forall k :: 0 <= k < i ==> hash[k] == 0
      {
        hash[i] := 0;
      }
      for i := 0 to DICT_SIZE
        invariant dict[..] == ring && forall k :: 0 <= k < DICT_SIZE ==> hash[k] == 0
        invariant forall k :: 0 <= k < i ==> next[k] == 0
      {
        next[i] := 0;
      }
      dictSize := 0;
      floor := |source|;
      NothingLinked(next[..], hash[..], source, floor);
    }
  }
}
