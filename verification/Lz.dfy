/**
 * LZ77 tokens and their meaning: a token list, read from the front, rebuilds a
 * byte string (RFC 1951, section 3.2.3).
 */
module Lz {
  import opened Bits

  const MIN_MATCH_LEN := 3
  const MAX_MATCH_LEN := 258
  const DICT_SIZE := 32768

  datatype Token = Literal(lit: byte) | Match(len: nat, dist: nat)

  /** Byte-by-byte copy from dist bytes back; the source may overlap what is being written. */
  function CopyBack(out: seq<byte>, dist: nat, len: nat): (r: seq<byte>)
    requires 1 <= dist <= |out|
    ensures |r| == |out| + len && out <= r
  {
    if len == 0 then out
    else
      var shorter := CopyBack(out, dist, len - 1);
      shorter + [shorter[|shorter| - dist]]
  }

  /** A token can follow n bytes of output. */
  predicate Fits(t: Token, n: nat) {
    t.Match? ==> MIN_MATCH_LEN <= t.len <= MAX_MATCH_LEN && 1 <= t.dist <= DICT_SIZE && t.dist <= n
  }

  function TokenLen(t: Token): nat {
    if t.Literal? then 1 else t.len
  }

  function Apply(out: seq<byte>, t: Token): (r: seq<byte>)
    requires Fits(t, |out|)
    ensures |r| == |out| + TokenLen(t) && out <= r
  {
    match t
    case Literal(b) => out + [b]
    case Match(len, dist) => CopyBack(out, dist, len)
  }

  function TotalLen(ts: seq<Token>): nat {
    if ts == [] then 0 else TotalLen(ts[..|ts| - 1]) + TokenLen(ts[|ts| - 1])
  }

  lemma TotalLenSnoc(ts: seq<Token>, t: Token)
    ensures TotalLen(ts + [t]) == TotalLen(ts) + TokenLen(t)
  {
    assert (ts + [t])[..|ts|] == ts;
  }

  /** Every token fits where it stands when the list starts after n bytes of output. */
  predicate WellFormed(ts: seq<Token>, n: nat) {
    ts == [] || (WellFormed(ts[..|ts| - 1], n) && Fits(ts[|ts| - 1], n + TotalLen(ts[..|ts| - 1])))
  }

  function Expand(ts: seq<Token>, out: seq<byte>): (r: seq<byte>)
    requires WellFormed(ts, |out|)
    ensures |r| == |out| + TotalLen(ts) && out <= r
  {
    if ts == [] then out else Apply(Expand(ts[..|ts| - 1], out), ts[|ts| - 1])
  }

  lemma ExpandSnoc(ts: seq<Token>, t: Token, out: seq<byte>)
    requires WellFormed(ts, |out|) && Fits(t, |out| + TotalLen(ts))
    ensures WellFormed(ts + [t], |out|)
    ensures TotalLen(ts + [t]) == TotalLen(ts) + TokenLen(t)
    ensures Expand(ts + [t], out) == Apply(Expand(ts, out), t)
  {
    assert (ts + [t])[..|ts|] == ts;
  }

  lemma {:induction false} TotalLenAppend(ts: seq<Token>, us: seq<Token>)
    ensures TotalLen(ts + us) == TotalLen(ts) + TotalLen(us)
  {
    if us == [] {
      assert ts + us == ts;
    } else {
      assert (ts + us)[..|ts + us| - 1] == ts + us[..|us| - 1];
      TotalLenAppend(ts, us[..|us| - 1]);
    }
  }

  /** Expansion of a concatenation is expansion in two steps. */
  lemma {:induction false} ExpandAppend(ts: seq<Token>, us: seq<Token>, out: seq<byte>)
    requires WellFormed(ts, |out|) && WellFormed(us, |out| + TotalLen(ts))
    ensures WellFormed(ts + us, |out|)
    ensures Expand(ts + us, out) == Expand(us, Expand(ts, out))
  {
    if us == [] {
      assert ts + us == ts;
    } else {
      var us' := us[..|us| - 1];
      assert (ts + us)[..|ts + us| - 1] == ts + us';
      ExpandAppend(ts, us', out);
      TotalLenAppend(ts, us');
    }
  }

  lemma {:induction false} WellFormedSplit(ts: seq<Token>, us: seq<Token>, n: nat)
    requires WellFormed(ts + us, n)
    ensures WellFormed(ts, n) && WellFormed(us, n + TotalLen(ts))
  {
    if us == [] {
      assert ts + us == ts;
    } else {
      var us' := us[..|us| - 1];
      assert (ts + us)[..|ts + us| - 1] == ts + us';
      WellFormedSplit(ts, us', n);
      TotalLenAppend(ts, us');
    }
  }

  /** A prefix of the tokens expands to a prefix of the output. */
  lemma {:induction false} ExpandPrefix(ts: seq<Token>, k: nat, out: seq<byte>)
    requires WellFormed(ts, |out|) && k <= |ts|
    ensures WellFormed(ts[..k], |out|) && TotalLen(ts[..k]) <= TotalLen(ts)
    ensures Expand(ts[..k], out) <= Expand(ts, out)
  {
    if k == |ts| {
      assert ts[..k] == ts;
    } else {
      ExpandPrefix(ts[..|ts| - 1], k, out);
      assert ts[..|ts| - 1][..k] == ts[..k];
    }
  }

  /** src has, at position p, the n bytes that stand dist bytes earlier. */
  ghost predicate Repeats(src: seq<byte>, p: nat, dist: nat, n: nat) {
    1 <= dist <= p && p + n <= |src|
    && forall i :: p <= i < p + n ==> src[i] == src[i - dist]
  }

  /** Copying back extends a source prefix to a longer one exactly if the source repeats itself there. */
  lemma {:induction false} CopyRepeats(src: seq<byte>, p: nat, dist: nat, n: nat)
    requires 1 <= dist <= p && p + n <= |src|
    ensures CopyBack(src[..p], dist, n) == src[..p + n] <==> Repeats(src, p, dist, n)
  {
    if n > 0 {
      CopyRepeats(src, p, dist, n - 1);
      var m := p + n - 1;
      var shorter := CopyBack(src[..p], dist, n - 1);
      assert src[..p + n] == src[..m] + [src[m]];
      assert src[..p + n][..m] == src[..m];
      assert shorter == src[..m] ==> shorter[m - dist] == src[m - dist];
    }
  }

  /** The tokens rebuild exactly the first n source bytes. */
  ghost predicate Rebuilds(ts: seq<Token>, src: seq<byte>, n: int) {
    0 <= n <= |src| && WellFormed(ts, 0) && Expand(ts, []) == src[..n]
  }

  lemma LiteralExtends(ts: seq<Token>, src: seq<byte>, n: nat)
    requires Rebuilds(ts, src, n) && n < |src|
    ensures Rebuilds(ts + [Literal(src[n])], src, n + 1)
  {
    ExpandSnoc(ts, Literal(src[n]), []);
    assert src[..n + 1] == src[..n] + [src[n]];
  }

  lemma MatchExtends(ts: seq<Token>, src: seq<byte>, n: nat, len: nat, dist: nat)
    requires Rebuilds(ts, src, n) && Repeats(src, n, dist, len)
    requires MIN_MATCH_LEN <= len <= MAX_MATCH_LEN && dist <= DICT_SIZE
    ensures Rebuilds(ts + [Match(len, dist)], src, n + len)
  {
    assert |Expand(ts, [])| == n;
    ExpandSnoc(ts, Match(len, dist), []);
    CopyRepeats(src, n, dist, len);
  }
}
