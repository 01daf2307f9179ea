/**
 * The hash chains of the dictionary: what they hold while input is taken, where they lead, and the best
 * match along the way.
 */
module Chains {
  import opened Bits
  import opened Lz
  import opened Window

  /** One step of the 15-bit rolling hash. */
  function HashStep(h: bv15, c: byte): bv15 {
    (h << 5) ^ (c as bv15)
  }

  /** The hash of three bytes. */
  function Hash(a: byte, b: byte, c: byte): nat {
    HashStep(HashStep(a as bv15, b), c) as nat
  }

  /** The hash of the three bytes at position p. */
  function HashAt(src: seq<byte>, p: nat): nat
    requires p + 3 <= |src|
  {
    Hash(src[p], src[p + 1], src[p + 2])
  }

  /** The bits of the byte that drops out are shifted out. */
  lemma HashRolls(h0: bv15, b1: byte, b2: byte, b3: byte)
    ensures HashStep(HashStep(HashStep(h0, b1), b2), b3) == HashStep(HashStep(b1 as bv15, b2), b3)
  {
    RollBits(h0, b1 as bv15, b2 as bv15, b3 as bv15);
  }

  /** The hash is three bytes, five bits apart, over each other. */
  lemma HashMeaning(a: byte, b: byte, c: byte)
    ensures Hash(a, b, c) == (((a as bv15) << 10) ^ ((b as bv15) << 5) ^ (c as bv15)) as nat
  {
    ShiftTwice(a as bv15, b as bv15, c as bv15);
  }

  lemma ShiftTwice(x: bv15, y: bv15, z: bv15)
    ensures (((x << 5) ^ y) << 5) ^ z == (x << 10) ^ (y << 5) ^ z
  {
  }

  lemma RollBits(h: bv15, x: bv15, y: bv15, z: bv15)
    ensures (((((h << 5) ^ x) << 5) ^ y) << 5) ^ z == (((x << 5) ^ y) << 5) ^ z
  {
  }

  /** The last position from floor on and below end whose three bytes have this hash, or -1. */
  ghost function Latest(src: seq<byte>, floor: nat, end: nat, h: nat): (p: int)
    requires end + 2 <= |src| || end <= floor
    ensures p == -1 || (floor <= p < end && HashAt(src, p) == h)
    ensures forall q: nat :: floor <= q < end && p < q ==> HashAt(src, q) != h
    decreases end
  {
    if end <= floor then -1
    else if HashAt(src, end - 1) == h then end - 1
    else Latest(src, floor, end - 1, h)
  }

  /** What stands for a position in the chains: 16 bits, 0 also meaning none. */
  function Link(p: int): uint16 {
    if p < 0 then 0 else p % 65536
  }

  /**
   * All positions from floor up to end are linked: every hash leads to the last position that has it,
   * every position of the ring to the one before with the same hash.
   */
  ghost predicate Linked(next: seq<uint16>, hash: seq<uint16>, src: seq<byte>, floor: nat, end: nat) {
    && |next| == |hash| == DICT_SIZE && floor <= end && (end + 2 <= |src| || end == floor)
    && (forall h: nat :: h < DICT_SIZE ==> hash[h] == Link(Latest(src, floor, end, h)))
    && (forall p: nat :: floor <= p < end <= p + DICT_SIZE ==> next[p % DICT_SIZE] == Link(Latest(src, floor, p, HashAt(src, p))))
  }

  lemma HashMore(src: seq<byte>, more: seq<byte>, p: nat)
    requires p + 3 <= |src| && src <= more
    ensures HashAt(more, p) == HashAt(src, p)
  {
    assert more[p] == src[p] && more[p + 1] == src[p + 1] && more[p + 2] == src[p + 2];
    hide Hash, HashAt;
    SameHash(src, more, p);
  }

  lemma SameHash(a: seq<byte>, b: seq<byte>, p: nat)
    requires p + 3 <= |a| && p + 3 <= |b| && a[p] == b[p] && a[p + 1] == b[p + 1] && a[p + 2] == b[p + 2]
    ensures HashAt(a, p) == HashAt(b, p)
  {
  }

  lemma {:induction false} LatestMore(src: seq<byte>, more: seq<byte>, floor: nat, end: nat, h: nat)
    requires (end + 2 <= |src| || end <= floor) && src <= more
    ensures Latest(more, floor, end, h) == Latest(src, floor, end, h)
    decreases end
  {
    hide HashAt;
    if floor < end {
      HashMore(src, more, end - 1);
      LatestMore(src, more, floor, end - 1, h);
    }
  }

  /** More input leaves the chains right. */
  lemma LinkedMore(next: seq<uint16>, hash: seq<uint16>, src: seq<byte>, more: seq<byte>, floor: nat, end: nat)
    requires Linked(next, hash, src, floor, end) && src <= more
    ensures Linked(next, hash, more, floor, end)
  {
    hide Latest, HashAt;
    forall h: nat | h < DICT_SIZE ensures hash[h] == Link(Latest(more, floor, end, h)) {
      LatestMore(src, more, floor, end, h);
    }
    forall p: nat | floor <= p < end <= p + DICT_SIZE
      ensures next[p % DICT_SIZE] == Link(Latest(more, floor, p, HashAt(more, p)))
    {
      HashMore(src, more, p);
      LatestMore(src, more, floor, p, HashAt(src, p));
    }
  }

  /** Nothing is linked yet. */
  lemma NothingLinked(next: seq<uint16>, hash: seq<uint16>, src: seq<byte>, floor: nat)
    requires |next| == |hash| == DICT_SIZE && forall i :: 0 <= i < DICT_SIZE ==> hash[i] == 0
    ensures Linked(next, hash, src, floor, floor)
  {
    hide HashAt;
  }

  /** Linking the next position into the chain of its hash. */
  lemma LinkStep(next: seq<uint16>, hash: seq<uint16>, src: seq<byte>, floor: nat, end: nat, h: nat)
    requires Linked(next, hash, src, floor, end) && end + 3 <= |src| && h == HashAt(src, end) < DICT_SIZE
    ensures Linked(next[end % DICT_SIZE := hash[h]], hash[h := end % 65536], src, floor, end + 1)
  {
    hide HashAt;
    var next', hash' := next[end % DICT_SIZE := hash[h]], hash[h := end % 65536];
    forall p: nat | floor <= p < end + 1 <= p + DICT_SIZE
      ensures next'[p % DICT_SIZE] == Link(Latest(src, floor, p, HashAt(src, p)))
    {
      if p < end {
        DistinctSlots(p, end);
      }
    }
  }

  /** The slot reached after following k links. */
  function SlotAfter(next: seq<uint16>, slot: nat, k: nat): (s: nat)
    requires |next| == DICT_SIZE && slot < DICT_SIZE
    ensures s < DICT_SIZE
  {
    if k == 0 then slot else next[SlotAfter(next, slot, k - 1)] % DICT_SIZE
  }

  /** How far back a link leads from position pos, both in 16 bits. */
  function Back(pos: nat, link: uint16): nat {
    (pos - link) % 65536
  }

  /** The chain goes on over this link: it is set, and leads back, but not beyond max. */
  predicate LeadsOn(link: uint16, pos: nat, max: nat) {
    link != 0 && 1 <= Back(pos, link) <= max
  }

  /** The distances of the candidates on a chain, the first n at most. */
  function Chain(next: seq<uint16>, slot: nat, pos: nat, max: nat, n: nat): (r: seq<nat>)
    requires |next| == DICT_SIZE && slot < DICT_SIZE
    ensures |r| <= n && forall i :: 0 <= i < |r| ==> 1 <= r[i] <= max
  {
    if n == 0 then []
    else
      var c := Chain(next, slot, pos, max, n - 1);
      var link := next[SlotAfter(next, slot, n - 1)];
      if |c| == n - 1 && LeadsOn(link, pos, max) then c + [Back(pos, link)] else c
  }

  /** The chain has no more candidates than these. */
  ghost predicate ChainEnds(next: seq<uint16>, slot: nat, pos: nat, max: nat, dists: seq<nat>)
    requires |next| == DICT_SIZE && slot < DICT_SIZE
  {
    !LeadsOn(next[SlotAfter(next, slot, |dists|)], pos, max)
  }

  /** One more link. */
  lemma ChainSnoc(next: seq<uint16>, slot: nat, pos: nat, max: nat, dists: seq<nat>)
    requires |next| == DICT_SIZE && slot < DICT_SIZE && dists == Chain(next, slot, pos, max, |dists|)
    ensures var link := next[SlotAfter(next, slot, |dists|)];
      SlotAfter(next, slot, |dists| + 1) == link % DICT_SIZE
      && (LeadsOn(link, pos, max) ==> dists + [Back(pos, link)] == Chain(next, slot, pos, max, |dists| + 1))
  {
  }

  /** How many bytes at p repeat those d before, at most max. */
  function CommonLen(src: seq<byte>, p: nat, d: nat, max: nat): (n: nat)
    requires 1 <= d <= p && p + max <= |src|
    ensures n <= max && Repeats(src, p, d, n)
    ensures n < max ==> src[p + n] != src[p + n - d]
  {
    if max == 0 then 0
    else
      var n := CommonLen(src, p, d, max - 1);
      if n == max - 1 && src[p + n] == src[p + n - d] then max else n
  }

  /** It is as long as any repetition. */
  lemma CommonLongest(src: seq<byte>, p: nat, d: nat, max: nat, n: nat)
    requires 1 <= d <= p && p + max <= |src| && n <= max && Repeats(src, p, d, n)
    ensures n <= CommonLen(src, p, d, max)
  {
  }

  lemma CommonIs(src: seq<byte>, p: nat, d: nat, max: nat, n: nat)
    requires 1 <= d <= p && p + max <= |src| && n <= max && Repeats(src, p, d, n)
    requires n < max ==> src[p + n] != src[p + n - d]
    ensures CommonLen(src, p, d, max) == n
  {
    CommonLongest(src, p, d, max, n);
  }

  ghost predicate DistsOk(src: seq<byte>, p: nat, max: nat, dists: seq<nat>) {
    p + max <= |src| && forall i :: 0 <= i < |dists| ==> 1 <= dists[i] <= p
  }

  datatype Found = Found(dist: nat, len: nat)

  /** The longest match among these distances, the first of several; distance 0 if none is longer than len0. */
  ghost function Best(src: seq<byte>, p: nat, max: nat, len0: nat, dists: seq<nat>): (b: Found)
    requires DistsOk(src, p, max, dists)
    ensures b.len >= len0 && (b.dist == 0 ==> b.len == len0)
    ensures b.dist != 0 ==> b.dist in dists && len0 < b.len <= max && b.dist <= p && Repeats(src, p, b.dist, b.len)
  {
    if dists == [] then Found(0, len0)
    else
      var d := dists[|dists| - 1];
      var b := Best(src, p, max, len0, dists[..|dists| - 1]);
      var n := CommonLen(src, p, d, max);
      if n > b.len then Found(d, n) else b
  }

  /** Nothing longer is missed. */
  lemma {:induction false} BestLongest(src: seq<byte>, p: nat, max: nat, len0: nat, dists: seq<nat>, i: nat, n: nat)
    requires DistsOk(src, p, max, dists) && i < |dists| && n <= max && Repeats(src, p, dists[i], n)
    ensures n <= Best(src, p, max, len0, dists).len
  {
    if i == |dists| - 1 {
      CommonLongest(src, p, dists[i], max, n);
    } else {
      BestLongest(src, p, max, len0, dists[..|dists| - 1], i, n);
    }
  }

  /** The two bytes at the end of a match of length len agree with those d before: the candidate is looked at. */
  predicate EndAgrees(src: seq<byte>, p: nat, d: nat, len: nat)
    requires 1 <= len && 1 <= d <= p && p + len < |src|
  {
    src[p + len] == src[p + len - d] && src[p + len - 1] == src[p + len - 1 - d]
  }

  /** How many of the candidates are looked at; a round of three probes ends with each of them. */
  ghost function Looked(src: seq<byte>, p: nat, max: nat, len0: nat, dists: seq<nat>): nat
    requires DistsOk(src, p, max, dists) && 1 <= len0
  {
    if dists == [] then 0
    else
      var t, d := dists[..|dists| - 1], dists[|dists| - 1];
      var len := Best(src, p, max, len0, t).len;
      Looked(src, p, max, len0, t) + if len < max && EndAgrees(src, p, d, len) then 1 else 0
  }

  /** A candidate that is not looked at is no better. */
  lemma NotLooked(src: seq<byte>, p: nat, d: nat, max: nat, len: nat)
    requires 1 <= len < max && 1 <= d <= p && p + max <= |src| && !EndAgrees(src, p, d, len)
    ensures CommonLen(src, p, d, max) <= len
  {
  }

  /** One more candidate: no better, and not looked at, or looked at and as long as it repeats. */
  lemma OneMore(src: seq<byte>, p: nat, max: nat, len0: nat, dists: seq<nat>, d: nat)
    requires DistsOk(src, p, max, dists) && 1 <= d <= p && 1 <= len0 && Best(src, p, max, len0, dists).len < max
    ensures DistsOk(src, p, max, dists + [d])
    ensures var b := Best(src, p, max, len0, dists);
      if EndAgrees(src, p, d, b.len) then
        && Looked(src, p, max, len0, dists + [d]) == Looked(src, p, max, len0, dists) + 1
        && Best(src, p, max, len0, dists + [d])
          == (if CommonLen(src, p, d, max) > b.len then Found(d, CommonLen(src, p, d, max)) else b)
      else
        Looked(src, p, max, len0, dists + [d]) == Looked(src, p, max, len0, dists) && Best(src, p, max, len0, dists + [d]) == b
  {
    hide CommonLen;
    var more := dists + [d];
    assert more[..|dists|] == dists;
    var b := Best(src, p, max, len0, dists);
    if !EndAgrees(src, p, d, b.len) {
      NotLooked(src, p, d, max, b.len);
    }
  }

  lemma NoneTried(src: seq<byte>, p: nat, max: nat, len0: nat)
    requires p + max <= |src| && 1 <= len0
    ensures DistsOk(src, p, max, []) && Best(src, p, max, len0, []) == Found(0, len0) && Looked(src, p, max, len0, []) == 0
  {
  }

  /**
   * The candidates tried with this many rounds of up to three probes: the chain from the front, until it ends,
   * a match as long as possible is found, or the rounds are used up.
   */
  ghost predicate Tried(next: seq<uint16>, slot: nat, pos: nat, reach: nat, rounds: nat,
                        src: seq<byte>, p: nat, max: nat, len0: nat, dists: seq<nat>)
    requires |next| == DICT_SIZE && slot < DICT_SIZE && rounds >= 1 && 1 <= len0 && DistsOk(src, p, max, dists)
  {
    && dists == Chain(next, slot, pos, reach, |dists|) && |dists| <= 3 * (rounds - 1)
    && (Best(src, p, max, len0, dists).len < max ==>
          || ChainEnds(next, slot, pos, reach, dists)
          || |dists| + 2 * Looked(src, p, max, len0, dists) >= 3 * (rounds - 1))
  }

  /**
   * Going back from p: the distances of the earlier positions below x with hash h, nearest first, as far as max
   * and up to one that looks like no position in 16 bits.
   */
  ghost function Earlier(src: seq<byte>, floor: nat, p: nat, h: nat, max: nat, x: nat): (r: seq<nat>)
    requires x <= p && p + 2 <= |src|
    ensures forall i :: 0 <= i < |r| ==> 1 <= r[i] <= p - floor
    decreases x
  {
    var q := Latest(src, floor, x, h);
    if q < 0 || p - q > max || q % 65536 == 0 then [] else [p - q] + Earlier(src, floor, p, h, max, q)
  }

  /** A position in the ring leads to the one before with the same hash. */
  lemma LinkBack(next: seq<uint16>, hash: seq<uint16>, src: seq<byte>, floor: nat, end: nat, p: nat, x: nat)
    requires Linked(next, hash, src, floor, end) && floor <= x < end <= x + DICT_SIZE && x <= p
    ensures var q := Latest(src, floor, x, HashAt(src, x));
      next[x % DICT_SIZE] == Link(q) && (0 <= q && p - q < 65536 ==> Back(p % UINT32_MOD, Link(q)) == p - q)
  {
    hide Latest, HashAt;
    var q := Latest(src, floor, x, HashAt(src, x));
    if 0 <= q && p - q < 65536 {
      BackExact(p, q);
    }
  }

  lemma BackExact(p: nat, q: nat)
    requires q <= p < q + 65536
    ensures Back(p % UINT32_MOD, q % 65536) == p - q
  {
    var a, b := p / UINT32_MOD, q / 65536;
    assert p % UINT32_MOD - q % 65536 == 65536 * (b - 65536 * a) + (p - q);
  }

  /** The chains lead to all of these positions, one after the other. */
  lemma {:induction false} ChainLeads(next: seq<uint16>, hash: seq<uint16>, src: seq<byte>, floor: nat, end: nat,
                                      p: nat, max: nat, x: nat, dists: seq<nat>)
    requires Linked(next, hash, src, floor, end) && floor <= x <= p < end && p + 3 <= |src| && p - x <= max && end <= p - max + DICT_SIZE
    requires HashAt(src, x) == HashAt(src, p)
    requires dists == Chain(next, p % DICT_SIZE, p % UINT32_MOD, max, |dists|)
    requires SlotAfter(next, p % DICT_SIZE, |dists|) == x % DICT_SIZE
    ensures var more := dists + Earlier(src, floor, p, HashAt(src, p), max, x);
      more == Chain(next, p % DICT_SIZE, p % UINT32_MOD, max, |more|)
    decreases x
  {
    hide Latest, HashAt, Linked, Chain, SlotAfter;
    var h := HashAt(src, p);
    var q := Latest(src, floor, x, h);
    LatestKnown(src, floor, x, h);
    if q < 0 || p - q > max || q % 65536 == 0 {
      assert dists + [] == dists;
    } else {
      LinkBack(next, hash, src, floor, end, p, x);
      LinkedSizes(next, hash, src, floor, end);
      ChainSnoc(next, p % DICT_SIZE, p % UINT32_MOD, max, dists);
      LinkSlot(q);
      ChainLeads(next, hash, src, floor, end, p, max, q, dists + [p - q]);
      assert dists + [p - q] + Earlier(src, floor, p, h, max, q) == dists + ([p - q] + Earlier(src, floor, p, h, max, q));
    }
  }

  lemma LatestKnown(src: seq<byte>, floor: nat, x: nat, h: nat)
    requires x + 2 <= |src| || x <= floor
    ensures var q := Latest(src, floor, x, h);
      q == -1 || (floor <= q < x && HashAt(src, q) == h)
  {
  }

  lemma LinkedSizes(next: seq<uint16>, hash: seq<uint16>, src: seq<byte>, floor: nat, end: nat)
    requires Linked(next, hash, src, floor, end)
    ensures |next| == DICT_SIZE
  {
  }

  lemma LinkSlot(q: nat)
    ensures Link(q) % DICT_SIZE == q % DICT_SIZE
  {
    assert q == DICT_SIZE * (2 * (q / 65536)) + q % 65536;
  }

  lemma ChainNothing(next: seq<uint16>, slot: nat, pos: nat, max: nat)
    requires |next| == DICT_SIZE && slot < DICT_SIZE
    ensures Chain(next, slot, pos, max, 0) == [] && SlotAfter(next, slot, 0) == slot
  {
  }

  /** Two fronts of one chain: one continues the other. */
  lemma {:induction false} ChainFront(next: seq<uint16>, slot: nat, pos: nat, max: nat, a: seq<nat>, n: nat)
    requires |next| == DICT_SIZE && slot < DICT_SIZE && a == Chain(next, slot, pos, max, |a|) && n <= |a|
    ensures a[..n] == Chain(next, slot, pos, max, n)
    ensures n < |a| ==> LeadsOn(next[SlotAfter(next, slot, n)], pos, max)
  {
    hide SlotAfter, LeadsOn;
    if n < |a| {
      var t := a[..|a| - 1];
      assert t == Chain(next, slot, pos, max, |t|);
      ChainFront(next, slot, pos, max, t, n);
      assert t[..n] == a[..n];
    }
  }

  lemma {:induction false} LookedFew(src: seq<byte>, p: nat, max: nat, len0: nat, dists: seq<nat>)
    requires DistsOk(src, p, max, dists) && 1 <= len0
    ensures Looked(src, p, max, len0, dists) <= |dists|
  {
    hide Best, EndAgrees;
    if dists != [] {
      LookedFew(src, p, max, len0, dists[..|dists| - 1]);
    }
  }

  /** Of the candidates on the chain a search tries at least as many as it has rounds, unless nothing can be longer. */
  lemma TriedEnough(next: seq<uint16>, slot: nat, pos: nat, reach: nat, rounds: nat,
                    src: seq<byte>, p: nat, max: nat, len0: nat, seen: seq<nat>, e: seq<nat>, i: nat)
    requires |next| == DICT_SIZE && slot < DICT_SIZE && rounds >= 1 && 1 <= len0 && DistsOk(src, p, max, seen)
    requires Tried(next, slot, pos, reach, rounds, src, p, max, len0, seen)
    requires e == Chain(next, slot, pos, reach, |e|) && i < |e| && i + 1 < rounds && 1 <= e[i] <= p
    ensures CommonLen(src, p, e[i], max) <= Best(src, p, max, len0, seen).len
  {
    hide Chain, SlotAfter, Best, Looked, LeadsOn;
    LookedFew(src, p, max, len0, seen);
    var n := CommonLen(src, p, e[i], max);
    if Best(src, p, max, len0, seen).len < max {
      if |seen| <= i {
        ChainFront(next, slot, pos, reach, e, |seen|);
      } else {
        ChainFront(next, slot, pos, reach, seen, i + 1);
        ChainFront(next, slot, pos, reach, e, i + 1);
        assert seen[..i + 1][i] == e[..i + 1][i];
        BestLongest(src, p, max, len0, seen, i, n);
      }
    }
  }
}
