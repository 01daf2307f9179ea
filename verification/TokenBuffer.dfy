/**
 * The packed token buffer of the compressor: one byte per literal, three per
 * match, and one flag byte in front of every eight tokens.
 */
module TokenBuffers {
  import opened Bits
  import opened Lz
  import opened Symbols

  const LZ_CODE_BUF_SIZE := 65536

  function Size(t: Token): nat {
    if t.Literal? then 1 else 3
  }

  /** Where the next token goes once ts are recorded; a full group reserves the next flag byte. */
  function End(ts: seq<Token>): (e: nat)
    ensures e >= 1
  {
    if ts == [] then 1
    else End(ts[..|ts| - 1]) + Size(ts[|ts| - 1]) + (if |ts| % 8 == 0 then 1 else 0)
  }

  /** First token of the group that token i belongs to. */
  function GroupStart(i: nat): (g: nat)
    ensures g <= i
  {
    i - i % 8
  }

  /** Position of the flag byte of the group that starts with token g. */
  function FlagsAt(ts: seq<Token>, g: nat): nat
    requires g <= |ts|
  {
    End(ts[..g]) - 1
  }

  /** How far the flags of token i's group still are from the low end of their byte. */
  function Shift(n: nat, i: nat): (k: nat)
    requires i < n
    ensures k < 8 && i % 8 + k < 8
  {
    if GroupStart(i) + 8 <= n then 0 else 8 - (n - GroupStart(i))
  }

  predicate TokenAt(buf: seq<byte>, p: nat, t: Token) {
    p + Size(t) <= |buf|
    && match t
       case Literal(b) => buf[p] == b
       case Match(len, dist) =>
         dist >= 1 && buf[p] == len - MIN_MATCH_LEN && buf[p + 1] == (dist - 1) % 256 && buf[p + 2] == (dist - 1) / 256
  }

  ghost predicate Recorded(buf: seq<byte>, ts: seq<Token>, i: nat)
    requires i < |ts|
  {
    && TokenAt(buf, End(ts[..i]), ts[i])
    && FlagsAt(ts, GroupStart(i)) < |buf|
    && ToBits(buf[FlagsAt(ts, GroupStart(i))], 8)[i % 8 + Shift(|ts|, i)] == ts[i].Match?
  }

  ghost predicate Packs(buf: seq<byte>, ts: seq<Token>) {
    forall i :: 0 <= i < |ts| ==> Recorded(buf, ts, i)
  }

  lemma {:induction false} EndMonotone(ts: seq<Token>, i: nat, j: nat)
    requires i < j <= |ts|
    ensures End(ts[..i]) + Size(ts[i]) + (if (i + 1) % 8 == 0 then 1 else 0) <= End(ts[..j])
    ensures i / 8 < j / 8 ==> End(ts[..i]) + Size(ts[i]) < End(ts[..j])
  {
    assert ts[..j][..j - 1] == ts[..j - 1];
    if i < j - 1 {
      EndMonotone(ts, i, j - 1);
    }
  }
  /** One more flag shifted in at the top of a flag byte. */
  lemma ShiftInFlag(b: byte, m: bool)
    ensures 0 <= b / 2 + (if m then 128 else 0) < 256
    ensures ToBits(b / 2 + (if m then 128 else 0), 8) == ToBits(b, 8)[1..] + [m]
  {
    var c: nat := b / 2;
    assert ToBits(b, 8)[1..] == ToBits(c, 7);
    assert Pow2(7) == 128 && Pow2(1) == 2 by { assert Pow2(3) == 8; }
    var mm: nat := if m then 1 else 0;
    ToBitsJoin(c, 7, mm, 1);
    assert ToBits(mm, 1) == [m];
  }

  /** buf' is buf with t written behind ts and its flag shifted into the open flag byte. */
  ghost predicate Step(buf: seq<byte>, buf': seq<byte>, ts: seq<Token>, t: Token) {
    var f := FlagsAt(ts, GroupStart(|ts|));
    && |buf'| == |buf| && f < |buf|
    && (forall p :: 0 <= p < |buf| && p != f && !(End(ts) <= p < End(ts) + Size(t)) ==> buf'[p] == buf[p])
    && TokenAt(buf', End(ts), t)
    && buf'[f] == buf[f] / 2 + (if t.Match? then 128 else 0)
  }

  lemma StepKeepsToken(buf: seq<byte>, buf': seq<byte>, ts: seq<Token>, t: Token, i: nat)
    requires i < |ts| && TokenAt(buf, End(ts[..i]), ts[i]) && Step(buf, buf', ts, t)
    ensures TokenAt(buf', End(ts[..i]), ts[i])
  {
    var g := GroupStart(|ts|);
    assert ts[..|ts|] == ts;
    EndMonotone(ts, i, |ts|);
    if i < g {
      EndMonotone(ts, i, g);
    } else if g < i {
      EndMonotone(ts, g, i);
    }
  }

  /** An earlier token is in a closed group, whose flags rest, or in the open one, whose flags move down by one. */
  lemma GroupCases(n: nat, i: nat)
    requires i < n
    ensures GroupStart(i) <= i && GroupStart(i) % 8 == 0 && GroupStart(n) % 8 == 0
    ensures (GroupStart(i) + 8 <= GroupStart(n) && Shift(n, i) == 0 && Shift(n + 1, i) == 0)
         || (GroupStart(i) == GroupStart(n) && Shift(n, i) == Shift(n + 1, i) + 1)
  {
  }

  lemma StepKeepsFlag(buf: seq<byte>, buf': seq<byte>, ts: seq<Token>, t: Token, i: nat)
    requires i < |ts| && Recorded(buf, ts, i) && Step(buf, buf', ts, t)
    ensures var b := buf'[FlagsAt(ts, GroupStart(i))];
      ToBits(b, 8)[i % 8 + Shift(|ts| + 1, i)] == ts[i].Match?
  {
    hide GroupStart, Shift, End, ToBits;
    var g, h := GroupStart(|ts|), GroupStart(i);
    GroupCases(|ts|, i);
    assert ts[..|ts|] == ts;
    if h == g {
      ShiftInFlag(buf[FlagsAt(ts, g)], t.Match?);
    } else {
      EndMonotone(ts, h, g);
      EndMonotone(ts, h, |ts|);
      assert buf'[FlagsAt(ts, h)] == buf[FlagsAt(ts, h)];
    }
  }

  lemma StepKeeps(buf: seq<byte>, buf': seq<byte>, ts: seq<Token>, t: Token, i: nat)
    requires i < |ts| && Recorded(buf, ts, i) && Step(buf, buf', ts, t)
    ensures Recorded(buf', ts + [t], i)
  {
    var us := ts + [t];
    StepKeepsToken(buf, buf', ts, t, i);
    StepKeepsFlag(buf, buf', ts, t, i);
    assert us[..i] == ts[..i] && us[..GroupStart(i)] == ts[..GroupStart(i)];
  }

  lemma StepPacks(buf: seq<byte>, buf': seq<byte>, ts: seq<Token>, t: Token)
    requires Packs(buf, ts) && Step(buf, buf', ts, t)
    ensures Packs(buf', ts + [t])
  {
    var us := ts + [t];
    forall i | 0 <= i < |us| ensures Recorded(buf', us, i) {
      if i < |ts| {
        StepKeeps(buf, buf', ts, t, i);
      } else {
        var g := GroupStart(i);
        assert us[..i] == ts && us[..g] == ts[..g];
        ShiftInFlag(buf[FlagsAt(ts, g)], t.Match?);
      }
    }
  }

  /** The token's length and distance fit their code, wherever it stands. */
  predicate InRange(t: Token) {
    t.Match? ==> MIN_MATCH_LEN <= t.len <= MAX_MATCH_LEN && 1 <= t.dist <= DICT_SIZE
  }

  predicate AllInRange(ts: seq<Token>) {
    forall i :: 0 <= i < |ts| ==> InRange(ts[i])
  }

  /** The literal/length symbol that stands for a token. */
  function LitSymbol(t: Token): (s: nat)
    requires InRange(t)
    ensures s < 286 && s != END_OF_BLOCK
  {
    if t.Literal? then t.lit else LenSym(t.len - MIN_MATCH_LEN)
  }

  /** How often literal/length symbol s stands for a token. */
  function LitOccurs(ts: seq<Token>, s: nat): (n: nat)
    requires AllInRange(ts)
    ensures n <= |ts|
  {
    if ts == [] then 0 else LitOccurs(ts[..|ts| - 1], s) + (if LitSymbol(ts[|ts| - 1]) == s then 1 else 0)
  }

  /** The token is a match whose distance symbol is s. */
  predicate UsesDist(t: Token, s: nat)
    requires InRange(t)
  {
    t.Match? && DistSym(t.dist - 1) == s
  }

  /** How often distance symbol s stands for a match. */
  function DistOccurs(ts: seq<Token>, s: nat): (n: nat)
    requires AllInRange(ts)
    ensures n <= |ts|
  {
    if ts == [] then 0 else DistOccurs(ts[..|ts| - 1], s) + (if UsesDist(ts[|ts| - 1], s) then 1 else 0)
  }

  /** The occurrence counters of the two alphabets (16-bit in the compressor). */
  ghost predicate Counted(lit: seq<nat>, dist: seq<nat>, ts: seq<Token>) {
    && |lit| == 288 && |dist| == 288 && AllInRange(ts) && |ts| < 65536
    && (forall s :: 0 <= s < 288 ==> lit[s] == LitOccurs(ts, s))
    && (forall s :: 0 <= s < 288 ==> dist[s] == DistOccurs(ts, s))
  }

  function Bump(counts: seq<nat>, s: nat): seq<nat>
    requires s < |counts|
  {
    counts[s := (counts[s] + 1) % 65536]
  }

  lemma CountedSnoc(lit: seq<nat>, dist: seq<nat>, ts: seq<Token>, t: Token)
    requires Counted(lit, dist, ts) && InRange(t) && |ts| + 1 < 65536
    ensures Counted(Bump(lit, LitSymbol(t)), if t.Match? then Bump(dist, DistSym(t.dist - 1)) else dist, ts + [t])
  {
    hide LenSym, DistSym;
    var us := ts + [t];
    assert us[..|us| - 1] == ts;
    var lit' := Bump(lit, LitSymbol(t));
    forall s | 0 <= s < 288 ensures lit'[s] == LitOccurs(us, s) {
      assert LitOccurs(us, s) == LitOccurs(ts, s) + (if LitSymbol(t) == s then 1 else 0);
    }
    var dist' := if t.Match? then Bump(dist, DistSym(t.dist - 1)) else dist;
    forall s | 0 <= s < 288 ensures dist'[s] == DistOccurs(us, s) {
      assert DistOccurs(us, s) == DistOccurs(ts, s) + (if UsesDist(t, s) then 1 else 0);
    }
  }

  lemma EmptyCounted(lit: seq<nat>, dist: seq<nat>)
    requires |lit| == 288 && |dist| == 288
    requires forall s :: 0 <= s < 288 ==> lit[s] == 0 && dist[s] == 0
    ensures Counted(lit, dist, [])
  {
  }

  /** The buffer with its write position, open flag byte and number of flags still free in it. */
  ghost predicate Layout(buf: seq<byte>, codeEnd: nat, flagsAt: nat, flagsLeft: nat, ts: seq<Token>) {
    && codeEnd == End(ts)
    && flagsAt == FlagsAt(ts, GroupStart(|ts|))
    && flagsLeft == 8 - |ts| % 8
    && |ts| < codeEnd
    && Packs(buf, ts)
  }

  lemma EmptyLayout(buf: seq<byte>)
    ensures Layout(buf, 1, 0, 8, [])
  {
  }

  lemma LayoutSnoc(buf: seq<byte>, codeEnd: nat, flagsAt: nat, flagsLeft: nat, ts: seq<Token>, t: Token, buf': seq<byte>)
    requires Layout(buf, codeEnd, flagsAt, flagsLeft, ts) && Step(buf, buf', ts, t)
    ensures if flagsLeft == 1
      then Layout(buf', codeEnd + Size(t) + 1, codeEnd + Size(t), 8, ts + [t])
      else Layout(buf', codeEnd + Size(t), flagsAt, flagsLeft - 1, ts + [t])
  {
    hide Packs, Step;
    var us := ts + [t];
    StepPacks(buf, buf', ts, t);
    assert us[..|us| - 1] == ts;
    assert us[..|us|] == us;
    var g := GroupStart(|ts|);
    assert us[..g] == ts[..g];
  }

  lemma FlagsBelowEnd(ts: seq<Token>)
    ensures FlagsAt(ts, GroupStart(|ts|)) < End(ts)
  {
    var g := GroupStart(|ts|);
    assert ts[..|ts|] == ts;
    if g < |ts| {
      EndMonotone(ts, g, |ts|);
    }
  }

  lemma WrittenMatch(buf: seq<byte>, ts: seq<Token>, t: Token, f: nat, p: nat)
    requires t.Match? && InRange(t)
    requires f == FlagsAt(ts, GroupStart(|ts|)) && p == End(ts) && f < p && p + 3 <= |buf|
    ensures var d := t.dist - 1;
      Step(buf, buf[p := t.len - 3][p + 1 := d % 256][p + 2 := d / 256][f := buf[f] / 2 + 128], ts, t)
  {
    hide End, GroupStart;
  }

  class TokenBuffer {
    const buf: array<byte>
    const litCount: array<nat>
    const distCount: array<nat>
    var codeEnd: nat
    var flagsAt: nat
    var flagsLeft: nat
    var totalLzBytes: nat
    /** What has been recorded since the last flush. */
    ghost var tokens: seq<Token>

    ghost predicate Valid()
      reads this, buf, litCount, distCount
    {
      && buf.Length == LZ_CODE_BUF_SIZE && litCount.Length == 288 && distCount.Length == 288
      && litCount != distCount
      && codeEnd <= LZ_CODE_BUF_SIZE
      && totalLzBytes == TotalLen(tokens)
      && Layout(buf[..], codeEnd, flagsAt, flagsLeft, tokens)
      && Counted(litCount[..], distCount[..], tokens)
    }

    constructor ()
      ensures Valid() && fresh(buf) && fresh(litCount) && fresh(distCount)
      ensures tokens == []
    {
      hide Counted, Layout;
      buf := new byte[LZ_CODE_BUF_SIZE](_ => 0);
      litCount := new nat[288](_ => 0);
      distCount := new nat[288](_ => 0);
      codeEnd, flagsAt, flagsLeft, totalLzBytes := 1, 0, 8, 0;
      tokens := [];
      new;
      EmptyCounted(litCount[..], distCount[..]);
      EmptyLayout(buf[..]);
    }

    method RecordLiteral(lit: byte)
      requires Valid() && codeEnd + 2 <= LZ_CODE_BUF_SIZE
      modifies this, buf, litCount
      ensures Valid() && tokens == old(tokens) + [Literal(lit)]
      ensures codeEnd <= old(codeEnd) + 2
    {
      hide LenSym, DistSym, Counted, Packs, End, GroupStart;
      ghost var t := Literal(lit);
      ghost var before := buf[..];
      FlagsBelowEnd(tokens);
      totalLzBytes := totalLzBytes + 1;
      buf[codeEnd] := lit;
      buf[flagsAt] := buf[flagsAt] / 2;
      assert Step(before, buf[..], tokens, t);
      LayoutSnoc(before, codeEnd, flagsAt, flagsLeft, tokens, t, buf[..]);
      codeEnd := codeEnd + 1;
      CloseFlag();
      CountedSnoc(litCount[..], distCount[..], tokens, t);
      litCount[lit] := (litCount[lit] + 1) % 65536;
      TotalLenSnoc(tokens, t);
      tokens := tokens + [t];
    }

    /** One flag of the open byte is spent; behind the eighth a new flag byte is reserved. */
    method CloseFlag()
      requires flagsLeft > 0
      modifies this`flagsLeft, this`flagsAt, this`codeEnd
      ensures if old(flagsLeft) == 1
        then flagsLeft == 8 && flagsAt == old(codeEnd) && codeEnd == old(codeEnd) + 1
        else flagsLeft == old(flagsLeft) - 1 && flagsAt == old(flagsAt) && codeEnd == old(codeEnd)
    {
      flagsLeft := flagsLeft - 1;
      if flagsLeft == 0 {
        flagsLeft := 8;
        flagsAt := codeEnd;
        codeEnd := codeEnd + 1;
      }
    }

    method RecordMatch(matchLen: nat, matchDist: nat)
      requires Valid() && codeEnd + 4 <= LZ_CODE_BUF_SIZE
      requires MIN_MATCH_LEN <= matchLen <= MAX_MATCH_LEN && 1 <= matchDist <= DICT_SIZE
      modifies this, buf, litCount, distCount
      ensures Valid() && tokens == old(tokens) + [Match(matchLen, matchDist)]
      ensures codeEnd <= old(codeEnd) + 4
    {
      hide LenSym, DistSym, Counted, Packs, End, GroupStart;
      hide Step;
      ghost var t := Match(matchLen, matchDist);
      ghost var before := buf[..];
      FlagsBelowEnd(tokens);
      totalLzBytes := totalLzBytes + matchLen;
      buf[codeEnd] := matchLen - MIN_MATCH_LEN;
      var dist := matchDist - 1;
      buf[codeEnd + 1] := dist % 256;
      buf[codeEnd + 2] := dist / 256;
      buf[flagsAt] := buf[flagsAt] / 2 + 128;
      WrittenMatch(before, tokens, t, flagsAt, codeEnd);
      assert buf[..] == before[codeEnd := matchLen - 3][codeEnd + 1 := dist % 256][codeEnd + 2 := dist / 256]
        [flagsAt := before[flagsAt] / 2 + 128];
      LayoutSnoc(before, codeEnd, flagsAt, flagsLeft, tokens, t, buf[..]);
      codeEnd := codeEnd + 3;
      CloseFlag();
      ghost var lit0, dist0 := litCount[..], distCount[..];
      CountedSnoc(lit0, dist0, tokens, t);
      distCount[DistSym(dist)] := (distCount[DistSym(dist)] + 1) % 65536;
      var sym := LenSym(matchLen - MIN_MATCH_LEN);
      litCount[sym] := (litCount[sym] + 1) % 65536;
      assert litCount[..] == Bump(lit0, LitSymbol(t));
      assert distCount[..] == Bump(dist0, DistSym(dist));
      TotalLenSnoc(tokens, t);
      tokens := tokens + [t];
    }

    /** Moves the flags of an unfinished group to the low end of their byte and gives back an unused flag byte. */
    method Align()
      requires Valid()
      modifies this`codeEnd, buf
      ensures tokens == old(tokens) && AllInRange(tokens)
      ensures codeEnd <= buf.Length && Readable(buf[..], codeEnd, tokens)
      ensures Counted(litCount[..], distCount[..], tokens) && totalLzBytes == TotalLen(tokens)
    {
      hide Packs, End;
      FlagsBelowEnd(tokens);
      ghost var before := buf[..];
      ghost var b := buf[flagsAt];
      HighByte(b, flagsLeft);
      buf[flagsAt] := High(buf[flagsAt], flagsLeft);
      ghost var shifted: byte := High(b, flagsLeft);
      assert buf[..] == before[flagsAt := shifted];
      AlignedReadable(before, codeEnd, flagsAt, flagsLeft, tokens, shifted, buf[..]);
      if flagsLeft == 8 {
        codeEnd := codeEnd - 1;
      }
    }

    /** Back to empty, behind a flushed block. */
    method Reset()
      requires buf.Length == LZ_CODE_BUF_SIZE && litCount.Length == 288 && distCount.Length == 288 && litCount != distCount
      modifies this, litCount, distCount
      ensures Valid() && tokens == [] && codeEnd == 1
    {
      hide Counted, Layout;
      for i := 0 to 288
        invariant forall j :: 0 <= j < i ==> litCount[j] == 0
      {
        litCount[i] := 0;
      }
      for i := 0 to 288
        invariant forall j :: 0 <= j < i ==> distCount[j] == 0
        invariant forall j :: 0 <= j < 288 ==> litCount[j] == 0
      {
        distCount[i] := 0;
      }
      codeEnd, flagsAt, flagsLeft, totalLzBytes := 1, 0, 8, 0;
      tokens := [];
      EmptyCounted(litCount[..], distCount[..]);
      EmptyLayout(buf[..]);
    }
  }

  /** Tokens as the block writer reads them: each flag at its own place in its byte. */
  ghost predicate Readable(buf: seq<byte>, codeEnd: nat, ts: seq<Token>) {
    && codeEnd == ReadAt(ts, |ts|)
    && forall i :: 0 <= i < |ts| ==> TokenReadable(buf, ts, i)
  }

  ghost predicate TokenReadable(buf: seq<byte>, ts: seq<Token>, i: nat)
    requires i < |ts|
  {
    && TokenAt(buf, End(ts[..i]), ts[i])
    && FlagsAt(ts, GroupStart(i)) < |buf|
    && ToBits(buf[FlagsAt(ts, GroupStart(i))], 8)[i % 8] == ts[i].Match?
  }

  /** Where reading stands before token i: in front of the flag byte when a group starts. */
  function ReadAt(ts: seq<Token>, i: nat): (p: nat)
    requires i <= |ts|
  {
    End(ts[..i]) - (if i % 8 == 0 then 1 else 0)
  }

  lemma HighByte(b: byte, n: nat)
    ensures 0 <= High(b, n) < 256
  {
    QuotientShrinks(b, Pow2(n));
  }

  lemma QuotientShrinks(v: nat, d: nat)
    requires d > 0
    ensures 0 <= v / d <= v
  {
    if v / d > v {
      MulAtLeast(v / d, 1, d);
    }
  }

  lemma ShiftedFlag(b: byte, n: nat, j: nat)
    requires n + j < 8 && High(b, n) < 256
    ensures ToBits(High(b, n), 8)[j] == ToBits(b, 8)[j + n]
  {
    BitAt(b, 8, j + n);
    BitAt(High(b, n), 8, j);
    HighHigh(b, n, j);
  }

  lemma {:induction false} HighHigh(v: nat, m: nat, n: nat)
    ensures High(High(v, m), n) == High(v, m + n)
    decreases n
  {
    if n == 0 {
      assert High(v, m) / 1 == High(v, m);
    } else {
      HighHigh(v, m, n - 1);
      DivideThenHalf(v, m + n - 1);
      DivideThenHalf(High(v, m), n - 1);
    }
  }

  lemma AlignedReadable(buf: seq<byte>, codeEnd: nat, flagsAt: nat, flagsLeft: nat, ts: seq<Token>, shifted: byte, buf': seq<byte>)
    requires Layout(buf, codeEnd, flagsAt, flagsLeft, ts) && flagsAt < |buf|
    requires shifted == High(buf[flagsAt], flagsLeft) && buf' == buf[flagsAt := shifted]
    ensures Readable(buf', codeEnd - (if flagsLeft == 8 then 1 else 0), ts)
  {
    hide Packs;
    assert ts[..|ts|] == ts;
    forall i | 0 <= i < |ts| ensures TokenReadable(buf', ts, i) {
      AlignedToken(buf, codeEnd, flagsAt, flagsLeft, ts, shifted, buf', i);
    }
  }

  lemma AlignedToken(buf: seq<byte>, codeEnd: nat, flagsAt: nat, flagsLeft: nat, ts: seq<Token>, shifted: byte, buf': seq<byte>, i: nat)
    requires Layout(buf, codeEnd, flagsAt, flagsLeft, ts) && flagsAt < |buf|
    requires shifted == High(buf[flagsAt], flagsLeft) && buf' == buf[flagsAt := shifted] && i < |ts|
    ensures TokenReadable(buf', ts, i)
  {
    assert Recorded(buf, ts, i);
    hide End, GroupStart, Shift, ToBits, High, Packs;
    GroupCases(|ts|, i);
    GroupShift(|ts|, i);
    FlagsElsewhere(ts, i);
    if GroupStart(|ts|) <= i {
      ShiftedFlag(buf[flagsAt], flagsLeft, i % 8);
    }
  }

  /** The open flag byte is no token's code, and no closed group's flag byte. */
  lemma FlagsElsewhere(ts: seq<Token>, i: nat)
    requires i < |ts|
    ensures var f := FlagsAt(ts, GroupStart(|ts|));
      if i < GroupStart(|ts|) then End(ts[..i]) + Size(ts[i]) <= f && FlagsAt(ts, GroupStart(i)) < f
      else f < End(ts[..i])
  {
    hide End, Shift;
    var g, h := GroupStart(|ts|), GroupStart(i);
    GroupCases(|ts|, i);
    GroupShift(|ts|, i);
    if i < g {
      EndMonotone(ts, i, g);
      EndMonotone(ts, h, g);
    } else if g < i {
      EndMonotone(ts, g, i);
    }
  }

  lemma GroupShift(n: nat, i: nat)
    requires i < n
    ensures i < GroupStart(n) ==> i / 8 < GroupStart(n) / 8 && GroupStart(i) < GroupStart(n)
    ensures GroupStart(n) <= i ==> GroupStart(i) == GroupStart(n)
    ensures GroupStart(i) == GroupStart(n) ==> Shift(n, i) == 8 - n % 8 && i % 8 + (8 - n % 8) < 8
  {
  }
}
