/**
 * The parser: one step looks for a match at the current position and records a literal, a match,
 * or keeps a match pending. What was recorded always expands to the input parsed so far.
 */
module Compressors {
  import opened Bits
  import opened Lz
  import opened Window
  import opened Chains
  import opened TokenBuffers
  import opened Dictionaries

  /** What a step of the parser went by: the match used, the one found, the candidates tried, and how far it went. */
  datatype Choice = Choice(dist: nat, len: nat, found: Found, seen: seq<nat>, move: nat)

  class Compressor {
    const d: Dictionary
    const codes: TokenBuffer
    const greedy: bool
    const filterMatches: bool
    const rleMatches: bool
    const rawBlocks: bool
    var savedMatchLen: nat
    var savedMatchDist: nat
    var savedLit: byte
    /** Tokens of the blocks flushed so far. */
    ghost var done: seq<Token>

    ghost function Repr(): set<object>
    {
      {this, d, d.dict, d.next, d.hash, codes, codes.buf, codes.litCount, codes.distCount}
    }

    ghost predicate Separate()
    {
      && d.dict as object != codes.buf && d.next as object != codes.buf && d.hash as object != codes.buf
      && d.dict as object != codes.litCount && d.next as object != codes.litCount && d.hash as object != codes.litCount
      && d.dict as object != codes.distCount && d.next as object != codes.distCount && d.hash as object != codes.distCount
    }

    /** How much of the source the recorded tokens stand for: a pending match holds one byte back. */
    ghost function Encoded(): int
      reads this, d
      requires d.lookaheadSize <= |d.source|
    {
      d.Pos() - (if savedMatchLen != 0 then 1 else 0)
    }

    /** The pending match starts at the byte before the lookahead. */
    ghost predicate SavedOk()
      reads this, d
      requires d.lookaheadSize <= |d.source|
    {
      savedMatchLen != 0 ==>
        && d.Pos() >= 1 && MIN_MATCH_LEN <= savedMatchLen < 128
        && 1 <= savedMatchDist <= DICT_SIZE
        && savedLit == d.source[d.Pos() - 1]
        && Repeats(d.source, d.Pos() - 1, savedMatchDist, savedMatchLen)
    }

    /** Every token recorded so far, flushed or not. */
    ghost function Recorded(): seq<Token>
      reads this, codes
    {
      done + codes.tokens
    }

    /** The parser's invariant: what is recorded stands for the source up to the position parsed. */
    ghost predicate Parsing()
      reads Repr()
    {
      && Separate()
      && d.Valid() && codes.Valid()
      && SavedOk() && Rebuilds(Recorded(), d.source, Encoded())
    }

    /** Room is left for the tokens of one more step. */
    ghost predicate Valid()
      reads Repr()
    {
      Parsing() && codes.codeEnd <= LZ_CODE_BUF_SIZE - 8
    }

    method EmitLiteral(lit: byte, ghost n: nat)
      requires codes.Valid() && codes.codeEnd + 2 <= LZ_CODE_BUF_SIZE
      requires Rebuilds(Recorded(), d.source, n) && n < |d.source| && lit == d.source[n]
      modifies codes, codes.buf, codes.litCount
      ensures codes.Valid() && codes.codeEnd <= old(codes.codeEnd) + 2
      ensures Rebuilds(Recorded(), d.source, n + 1) && codes.tokens == old(codes.tokens) + [Literal(lit)]
    {
      hide TokenBuffer.Valid, Rebuilds;
      LiteralExtends(Recorded(), d.source, n);
      codes.RecordLiteral(lit);
      assert Recorded() == old(Recorded()) + [Literal(lit)];
    }

    method EmitMatch(len: nat, dist: nat, ghost n: nat)
      requires codes.Valid() && codes.codeEnd + 4 <= LZ_CODE_BUF_SIZE
      requires MIN_MATCH_LEN <= len <= MAX_MATCH_LEN && 1 <= dist <= DICT_SIZE
      requires Rebuilds(Recorded(), d.source, n) && Repeats(d.source, n, dist, len)
      modifies codes, codes.buf, codes.litCount, codes.distCount
      ensures codes.Valid() && codes.codeEnd <= old(codes.codeEnd) + 4
      ensures Rebuilds(Recorded(), d.source, n + len) && codes.tokens == old(codes.tokens) + [Match(len, dist)]
    {
      hide TokenBuffer.Valid, Rebuilds;
      MatchExtends(Recorded(), d.source, n, len, dist);
      codes.RecordMatch(len, dist);
      assert Recorded() == old(Recorded()) + [Match(len, dist)];
    }

    /** What the parser looks for a match longer than. */
    function LenToBeat(): nat
      reads this`savedMatchLen
    {
      if savedMatchLen != 0 then savedMatchLen else MIN_MATCH_LEN - 1
    }

    /** What the search in this mode finds: nothing in raw blocks, a run of the last byte, or the best on the chain. */
    ghost predicate Sought(found: Found, seen: seq<nat>)
      reads this`savedMatchLen, d, d.next
      requires d.lookaheadSize <= |d.source| && d.dictSize <= d.Pos()
    {
      if rawBlocks || (rleMatches && d.dictSize == 0) then found == Found(0, LenToBeat())
      else if rleMatches then
        var n := CommonLen(d.source, d.Pos(), 1, d.lookaheadSize);
        found == if n >= MIN_MATCH_LEN then Found(1, n) else Found(0, 0)
      else
        d.Searched(LenToBeat(), found.dist, found.len, seen)
    }

    /** Matches that do not pay: three bytes from far away, short ones when filtering, and one at the ring's own slot. */
    ghost predicate Dropped(found: Found)
      reads d
      requires d.lookaheadSize <= |d.source|
    {
      (found.len == MIN_MATCH_LEN && found.dist >= 8192) || InSlot(found.dist, d.Pos()) || (filterMatches && found.len <= 5)
    }

    /** The match the parser goes on with. */
    ghost predicate Chosen(dist: nat, len: nat, found: Found, seen: seq<nat>)
      reads this`savedMatchLen, d, d.next
    {
      && d.lookaheadSize <= |d.source| && d.dictSize <= d.Pos() && Sought(found, seen)
      && Found(dist, len) == if Dropped(found) then Found(0, 0) else found
    }

    /** A match for the current position that the parser may use, or none. */
    method ChooseMatch() returns (matchDist: nat, matchLen: nat, ghost found: Found, ghost seen: seq<nat>)
      requires d.Valid() && d.lookaheadSize > 0 && SavedOk()
      ensures matchDist != 0 ==> matchLen >= MIN_MATCH_LEN && d.GoodMatch(matchDist, matchLen)
      ensures matchDist == 0 ==> savedMatchLen == 0 || matchLen <= savedMatchLen
      ensures Chosen(matchDist, matchLen, found, seen)
    {
      hide Dictionary.ChainsOk, Covers, Dictionary.Searched, CommonLen;
      matchDist, seen := 0, [];
      matchLen := if savedMatchLen != 0 then savedMatchLen else MIN_MATCH_LEN - 1;
      if rleMatches || rawBlocks {
        if d.dictSize != 0 && !rawBlocks {
          matchDist, matchLen := d.RunLength();
        }
      } else {
        matchDist, matchLen, seen := d.FindMatch(matchLen);
        d.SearchedGood(LenToBeat(), matchDist, matchLen, seen);
      }
      found := Found(matchDist, matchLen);
      SlotOfPos(d.Pos());
      if (matchLen == MIN_MATCH_LEN && matchDist >= 8192)
        || d.lookaheadPos % DICT_SIZE == matchDist
        || (filterMatches && matchLen <= 5)
      {
        matchDist, matchLen := 0, 0;
      }
    }

    /** After a step: what was decided, before the lookahead has moved by lenToMove. */
    ghost predicate Decided(lenToMove: nat)
      reads this, d, codes
    {
      && d.lookaheadSize <= |d.source| && 1 <= lenToMove <= d.lookaheadSize
      && (savedMatchLen != 0 ==>
           && lenToMove == 1 && MIN_MATCH_LEN <= savedMatchLen < 128
           && 1 <= savedMatchDist <= DICT_SIZE && savedLit == d.source[d.Pos()]
           && Repeats(d.source, d.Pos(), savedMatchDist, savedMatchLen))
      && Rebuilds(Recorded(), d.source, d.Pos() + (if savedMatchLen != 0 then 0 else lenToMove))
    }

    /** What becomes of a pending match: it is used unless this one is longer. */
    twostate predicate PendingStep(matchDist: nat, matchLen: nat, lenToMove: nat)
      reads this, codes
    {
      if matchLen <= old(savedMatchLen) then
        && codes.tokens == old(codes.tokens) + [Match(old(savedMatchLen), old(savedMatchDist))]
        && savedMatchLen == 0 && lenToMove == old(savedMatchLen) - 1
      else if matchLen >= 128 then
        && codes.tokens == old(codes.tokens) + [Literal(old(savedLit)), Match(matchLen, matchDist)]
        && savedMatchLen == 0 && lenToMove == matchLen
      else
        && codes.tokens == old(codes.tokens) + [Literal(old(savedLit))]
        && savedMatchLen == matchLen && savedMatchDist == matchDist && lenToMove == 1
    }

    /** What happens when none is pending. */
    twostate predicate FreshStep(matchDist: nat, matchLen: nat, lenToMove: nat)
      reads this, codes
      requires old(d.lookaheadSize <= |d.source| && d.lookaheadSize > 0)
    {
      if matchDist == 0 then
        codes.tokens == old(codes.tokens) + [Literal(old(d.source[d.Pos()]))] && savedMatchLen == 0 && lenToMove == 1
      else if greedy || rleMatches || matchLen >= 128 then
        codes.tokens == old(codes.tokens) + [Match(matchLen, matchDist)] && savedMatchLen == 0 && lenToMove == matchLen
      else
        codes.tokens == old(codes.tokens) && savedMatchLen == matchLen && savedMatchDist == matchDist && lenToMove == 1
    }

    /** A match is pending: a longer one at the current position replaces it, otherwise it is used. */
    method DecidePending(matchDist: nat, matchLen: nat) returns (lenToMove: nat)
      requires Valid() && d.lookaheadSize > 0 && savedMatchLen != 0
      requires matchDist != 0 ==> matchLen >= MIN_MATCH_LEN && d.GoodMatch(matchDist, matchLen)
      requires matchDist == 0 ==> matchLen <= savedMatchLen
      modifies this`savedMatchLen, this`savedMatchDist, this`savedLit, codes, codes.buf, codes.litCount, codes.distCount
      ensures codes.Valid() && codes.codeEnd <= old(codes.codeEnd) + 6 && Decided(lenToMove)
      ensures PendingStep(matchDist, matchLen, lenToMove)
    {
      hide TokenBuffer.Valid, Rebuilds, Covers;
      lenToMove := 1;
      if matchLen > savedMatchLen {
        EmitLiteral(savedLit, d.Pos() - 1);
        if matchLen >= 128 {
          EmitMatch(matchLen, matchDist, d.Pos());
          savedMatchLen := 0;
          lenToMove := matchLen;
        } else {
          savedLit := d.Current();
          savedMatchDist, savedMatchLen := matchDist, matchLen;
        }
      } else {
        EmitMatch(savedMatchLen, savedMatchDist, d.Pos() - 1);
        lenToMove := savedMatchLen - 1;
        savedMatchLen := 0;
      }
    }

    /** No match is pending: a literal, a match used at once, or a new pending match. */
    method DecideFresh(matchDist: nat, matchLen: nat) returns (lenToMove: nat)
      requires Valid() && d.lookaheadSize > 0 && savedMatchLen == 0
      requires matchDist != 0 ==> matchLen >= MIN_MATCH_LEN && d.GoodMatch(matchDist, matchLen)
      modifies this`savedMatchLen, this`savedMatchDist, this`savedLit, codes, codes.buf, codes.litCount, codes.distCount
      ensures codes.Valid() && codes.codeEnd <= old(codes.codeEnd) + 6 && Decided(lenToMove)
      ensures FreshStep(matchDist, matchLen, lenToMove)
    {
      hide TokenBuffer.Valid, Rebuilds, Covers;
      lenToMove := 1;
      if matchDist == 0 {
        var lit := d.Current();
        EmitLiteral(lit, d.Pos());
      } else if greedy || rleMatches || matchLen >= 128 {
        EmitMatch(matchLen, matchDist, d.Pos());
        lenToMove := matchLen;
      } else {
        savedLit := d.Current();
        savedMatchDist, savedMatchLen := matchDist, matchLen;
      }
    }

    /** One step of the lazy parser: records tokens, or keeps a match pending to try the next byte first. */
    method ParseStep() returns (ghost choice: Choice)
      requires Valid() && d.lookaheadSize > 0
      modifies this`savedMatchLen, this`savedMatchDist, this`savedLit
      modifies d`lookaheadPos, d`lookaheadSize, d`dictSize, codes, codes.buf, codes.litCount, codes.distCount
      ensures Parsing()
      ensures codes.codeEnd <= old(codes.codeEnd) + 6
      ensures d.source == old(d.source) && choice.move > 0 && d.Pos() == old(d.Pos()) + choice.move
      ensures old(Chosen(choice.dist, choice.len, choice.found, choice.seen))
      ensures if old(savedMatchLen) != 0 then PendingStep(choice.dist, choice.len, choice.move)
        else FreshStep(choice.dist, choice.len, choice.move)
    {
      hide TokenBuffer.Valid, Rebuilds, Covers, Dictionary.ChainsOk, Sought, Dropped;
      var matchDist, matchLen;
      ghost var found, seen;
      matchDist, matchLen, found, seen := ChooseMatch();
      var lenToMove;
      if savedMatchLen != 0 {
        lenToMove := DecidePending(matchDist, matchLen);
      } else {
        lenToMove := DecideFresh(matchDist, matchLen);
      }
      choice := Choice(matchDist, matchLen, found, seen, lenToMove);
      assert d.Valid();
      d.Advance(lenToMove);
    }

    constructor (probes: nat, greedy: bool, filterMatches: bool, rleMatches: bool, rawBlocks: bool)
      ensures Valid() && fresh(Repr()) && d.source == [] && done == []
      ensures this.greedy == greedy && this.filterMatches == filterMatches && this.rleMatches == rleMatches && this.rawBlocks == rawBlocks
      ensures 3 * (d.maxProbes0 - 2) < probes % 4096 <= 3 * (d.maxProbes0 - 1)
      ensures 3 * (d.maxProbes1 - 2) < probes % 4096 / 4 <= 3 * (d.maxProbes1 - 1)
    {
      d := new Dictionary(probes);
      codes := new TokenBuffer();
      this.greedy, this.filterMatches, this.rleMatches, this.rawBlocks := greedy, filterMatches, rleMatches, rawBlocks;
      savedMatchLen, savedMatchDist, savedLit := 0, 0, 0;
      done := [];
    }

    /** Behind a flush: nothing is pending in the token buffer, what was recorded is done. */
    method Restart()
      requires Separate() && d.Valid() && SavedOk() && Rebuilds(Recorded(), d.source, Encoded())
      requires codes.buf.Length == LZ_CODE_BUF_SIZE && codes.litCount.Length == 288 && codes.distCount.Length == 288
        && codes.litCount != codes.distCount
      modifies this`done, codes, codes.litCount, codes.distCount
      ensures Parsing() && done == old(Recorded()) && codes.tokens == [] && codes.codeEnd == 1
      ensures Recorded() == old(Recorded())
    {
      hide TokenBuffer.Valid, Rebuilds, Covers;
      done := done + codes.tokens;
      codes.Reset();
      assert done + [] == done;
    }

    /** Takes input into the lookahead; what was recorded and what is pending still stand for the same bytes. */
    method Take(src: seq<byte>, from: nat) returns (i: nat)
      requires Valid() && from <= |src|
      modifies d`lookaheadSize, d`dictSize, d`source, d.dict, d.next, d.hash
      ensures Valid() && from <= i <= |src| && d.source == old(d.source) + src[from..i]
      ensures d.Pos() == old(d.Pos()) && (i == |src| || d.lookaheadSize == MAX_MATCH_LEN)
    {
      hide TokenBuffer.Valid, Rebuilds, Covers, Repeats;
      ghost var before := d.source;
      i := d.Fill(src, from);
      RebuildsMore(Recorded(), before, d.source, Encoded());
      if savedMatchLen != 0 {
        RepeatsMore(before, d.source, d.Pos() - 1, savedMatchDist, savedMatchLen);
      }
    }
  }

  lemma RebuildsMore(ts: seq<Token>, src: seq<byte>, more: seq<byte>, n: int)
    requires Rebuilds(ts, src, n) && src <= more
    ensures Rebuilds(ts, more, n)
  {
    assert more[..|src|][..n] == more[..n];
  }

  lemma RepeatsMore(src: seq<byte>, more: seq<byte>, p: nat, dist: nat, n: nat)
    requires Repeats(src, p, dist, n) && src <= more
    ensures Repeats(more, p, dist, n) && src[p..] <= more[p..]
  {
  }
}
