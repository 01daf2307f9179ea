/**
 * The sliding dictionary: a ring of DICT_SIZE bytes whose first MAX_MATCH_LEN - 1
 * bytes are mirrored behind its end, so that a match never has to wrap.
 */
module Window {
  import opened Bits
  import opened Lz

  const MIRROR := MAX_MATCH_LEN - 1
  const DICT_LEN := DICT_SIZE + MIRROR

  type uint16 = x: int | 0 <= x < 65536

  const UINT32_MOD := 0x1_0000_0000

  /** The ring slot of source position k, and its mirror if it has one, hold byte k. */
  predicate Holds(d: seq<byte>, src: seq<byte>, k: nat)
    requires |d| == DICT_LEN && k < |src|
  {
    d[k % DICT_SIZE] == src[k] && (k % DICT_SIZE < MIRROR ==> d[DICT_SIZE + k % DICT_SIZE] == src[k])
  }

  /** The dictionary holds the last part of src, from position lo on. */
  ghost predicate Covers(d: seq<byte>, src: seq<byte>, lo: nat) {
    && |d| == DICT_LEN && lo <= |src| <= lo + DICT_SIZE
    && forall k :: lo <= k < |src| ==> Holds(d, src, k)
  }

  /** Reading i bytes past a ring slot, through the mirror where the ring ends. */
  lemma ReadThrough(d: seq<byte>, src: seq<byte>, lo: nat, p: nat, i: nat)
    requires Covers(d, src, lo) && lo <= p + i < |src| && i < MAX_MATCH_LEN
    ensures p % DICT_SIZE + i < |d| && d[p % DICT_SIZE + i] == src[p + i]
  {
    assert Holds(d, src, p + i);
    RingSlot(p, i);
  }

  lemma RingSlot(p: nat, i: nat)
    requires i < MAX_MATCH_LEN
    ensures var s := p % DICT_SIZE + i;
      (p + i) % DICT_SIZE == if s < DICT_SIZE then s else s - DICT_SIZE
  {
  }

  function Written(d: seq<byte>, slot: nat, c: byte): (r: seq<byte>)
    requires |d| == DICT_LEN && slot < DICT_SIZE
  {
    if slot < MIRROR then d[slot := c][DICT_SIZE + slot := c] else d[slot := c]
  }

  /** One more byte: the oldest position drops out when the ring is full. */
  lemma WriteCovers(d: seq<byte>, src: seq<byte>, lo: nat, c: byte, lo': nat)
    requires Covers(d, src, lo) && lo <= lo' <= |src| && |src| + 1 <= lo' + DICT_SIZE
    ensures Covers(Written(d, |src| % DICT_SIZE, c), src + [c], lo')
  {
    var d' := Written(d, |src| % DICT_SIZE, c);
    var src' := src + [c];
    forall k | lo' <= k < |src'| ensures Holds(d', src', k) {
      if k < |src| {
        assert Holds(d, src, k);
        DistinctSlots(k, |src|);
      }
    }
  }

  lemma DistinctSlots(j: nat, k: nat)
    requires j < k < j + DICT_SIZE
    ensures j % DICT_SIZE != k % DICT_SIZE
  {
  }

  /** Going back by a 16-bit difference from a 32-bit position counter reaches the probed slot. */
  lemma ProbeSlot(p: nat, probe: uint16)
    ensures var dist := (p % UINT32_MOD - probe) % 65536;
      dist <= p ==> (p - dist) % DICT_SIZE == probe % DICT_SIZE
  {
    var dist := (p % UINT32_MOD - probe) % 65536;
    var q, m := p / UINT32_MOD, (p % UINT32_MOD - probe) / 65536;
    assert p - dist == DICT_SIZE * (131072 * q + 2 * m) + probe;
  }

  predicate SameBytes(d: seq<byte>, a: nat, b: nat, n: nat)
    requires a + n <= |d| && b + n <= |d|
  {
    forall j :: a <= j < a + n ==> d[j] == d[j - a + b]
  }

  /** Equal dictionary bytes at the current and at an earlier slot are a repetition in the source. */
  lemma MatchRepeats(d: seq<byte>, src: seq<byte>, lo: nat, p: nat, dist: nat, n: nat)
    requires Covers(d, src, lo) && 1 <= dist && lo + dist <= p && p + n <= |src| && n <= MAX_MATCH_LEN
    requires SameBytes(d, p % DICT_SIZE, (p - dist) % DICT_SIZE, n)
    ensures Repeats(src, p, dist, n)
  {
    forall k | p <= k < p + n ensures src[k] == src[k - dist] {
      ReadThrough(d, src, lo, p, k - p);
      ReadThrough(d, src, lo, p - dist, k - p);
      assert d[p % DICT_SIZE + (k - p)] == d[(p - dist) % DICT_SIZE + (k - p)];
    }
  }

  /** Forgetting the oldest positions. */
  lemma CoversFrom(d: seq<byte>, src: seq<byte>, lo: nat, lo': nat)
    requires Covers(d, src, lo) && lo <= lo' <= |src|
    ensures Covers(d, src, lo')
  {
  }
}
