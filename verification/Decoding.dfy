/**
 * What the decompressor makes of any bits at all, one symbol at a time: no bit
 * buffer, no tables, no input bytes. The decompressor refines it.
 */
module Decoding {
  import opened Bits
  import opened Lz
  import opened Symbols
  import opened Canonical
  import opened Trie
  import opened HuffTables
  import opened CodeLengths
  import opened Blocks

  datatype Outcome = Success | Failed | InputEnded | OutputFull | WrongChecksum

  /** A value and the bits behind it, or the reason why there is none. */
  datatype Parse<T> = Parsed(value: T, rest: seq<Bit>) | Stop(why: Outcome)

  lemma {:induction false} FromBitsBound(s: seq<Bit>)
    ensures FromBits(s) < Pow2(|s|)
  {
    if s != [] {
      FromBitsBound(s[1..]);
    }
  }

  /** The next n bits as a number. */
  function Number(n: nat, ahead: seq<Bit>): (p: Parse<nat>)
    ensures p == Stop(InputEnded) || (p.Parsed? && |p.rest| + n == |ahead| && p.value < Pow2(n))
  {
    if |ahead| < n then Stop(InputEnded)
    else
      FromBitsBound(ahead[..n]);
      Parsed(FromBits(ahead[..n]), ahead[n..])
  }

  ghost predicate HasCode(sizes: seq<nat>, ahead: seq<Bit>) {
    exists s: nat :: Starts(sizes, s, ahead)
  }

  ghost predicate GoesAstray(sizes: seq<nat>, ahead: seq<Bit>) {
    exists n: nat :: Leaves(sizes, ahead, n)
  }

  /**
   * The next symbol. Bits that no code starts, in a code of one symbol or none, stand for symbol 0; they
   * are used up as far as they follow a long code, and need not be if there are enough for the longest one.
   */
  ghost function Symbol(sizes: seq<nat>, ahead: seq<Bit>): (p: Parse<nat>)
    ensures p == Stop(InputEnded) || (p.Parsed? && |p.rest| <= |ahead| && (p.value < |sizes| || p.value == 0))
    ensures p.Parsed? && p.value > 0 ==> HasCode(sizes, ahead)
    ensures HasCode(sizes, ahead) ==> p.Parsed? && |p.rest| < |ahead|
  {
    if HasCode(sizes, ahead) then
      var s: nat :| Starts(sizes, s, ahead);
      assert |CodeBits(sizes, s)| == sizes[s];
      Parsed(s, ahead[sizes[s]..])
    else if GoesAstray(sizes, ahead) then
      var n: nat :| Leaves(sizes, ahead, n);
      Parsed(0, ahead[n..])
    else if |ahead| >= MAX_CODE_SIZE then Parsed(0, ahead)
    else Stop(InputEnded)
  }

  /** Code lengths with one more operation applied. */
  ghost function OneOp(cl: seq<nat>, lens: seq<nat>, ahead: seq<Bit>): (p: Parse<seq<nat>>)
    requires |cl| == 19
    ensures p.Stop? ==> !p.why.Success?
    ensures p.Parsed? ==> |p.rest| <= |ahead| && |lens| < |p.value| <= |lens| + 138
  {
    match Symbol(cl, ahead)
    case Stop(why) => Stop(why)
    case Parsed(s, a) =>
      if s < 16 then Parsed(lens + [s], a)
      else if s == 16 && lens == [] then Stop(Failed)
      else
        match Number(ExtraWidth(s), a)
        case Stop(why) => Stop(why)
        case Parsed(v, b) =>
          ExtraSmall(s, v);
          Parsed(lens + Copies(if s == 16 then lens[|lens| - 1] else 0, v + ExtraBase(s)), b)
  }

  lemma ExtraSmall(sym: nat, v: nat)
    requires 16 <= sym <= 18 && v < Pow2(ExtraWidth(sym))
    ensures 3 <= v + ExtraBase(sym) <= 138
  {
    assert Pow2(2) == 4 && Pow2(3) == 8 && Pow2(7) == 128 by { assert Pow2(4) == 16; }
  }

  /** Code lengths up to total of them; an operation that goes beyond is an error. */
  ghost function Lengths(cl: seq<nat>, lens: seq<nat>, total: nat, ahead: seq<Bit>): (p: Parse<seq<nat>>)
    requires |cl| == 19
    ensures p.Stop? ==> !p.why.Success?
    ensures p.Parsed? ==> |p.rest| <= |ahead| && |p.value| == total
    decreases total - |lens|
  {
    if |lens| > total then Stop(Failed)
    else if |lens| == total then Parsed(lens, ahead)
    else
      match OneOp(cl, lens, ahead)
      case Stop(why) => Stop(why)
      case Parsed(more, a) => Lengths(cl, more, total, a)
  }

  /** The lengths of the code-length code, from place i of the sending order on. */
  ghost function ClLengths(cl: seq<nat>, i: nat, numCl: nat, ahead: seq<Bit>): (p: Parse<seq<nat>>)
    requires |cl| == 19 && numCl <= 19
    ensures p == Stop(InputEnded) || (p.Parsed? && |p.rest| <= |ahead| && |p.value| == 19)
    decreases numCl - i
  {
    if i >= numCl then Parsed(cl, ahead)
    else
      match Number(3, ahead)
      case Stop(why) => Stop(why)
      case Parsed(v, a) => ClLengths(Placed(cl, i, v), i + 1, numCl, a)
  }

  /** The i-th length sent, put at its place. */
  function Placed(sizes: seq<nat>, i: nat, x: nat): (r: seq<nat>)
    ensures |r| == |sizes|
  {
    if i < 19 && SWIZZLE[i] < |sizes| then sizes[SWIZZLE[i] := x] else sizes
  }

  datatype Counts = Counts(lit: nat, dist: nat, cl: nat)

  /** How many lengths of each kind follow. */
  ghost function HeaderCounts(ahead: seq<Bit>): (p: Parse<Counts>)
    ensures p == Stop(InputEnded) || (p.Parsed? && |p.rest| <= |ahead|
      && 257 <= p.value.lit <= 288 && 1 <= p.value.dist <= 32 && 4 <= p.value.cl <= 19)
  {
    assert Pow2(5) == 32 && Pow2(4) == 16;
    match Number(5, ahead)
    case Stop(why) => Stop(why)
    case Parsed(x, a) =>
      match Number(5, a)
      case Stop(why) => Stop(why)
      case Parsed(y, b) =>
        match Number(4, b)
        case Stop(why) => Stop(why)
        case Parsed(z, c) => Parsed(Counts(x + 257, y + 1, z + 4), c)
  }

  /** The lengths of the two codes of a block. */
  datatype Codes = Codes(lit: seq<nat>, dist: seq<nat>)

  ghost function ClCode(numCl: nat, ahead: seq<Bit>): (p: Parse<seq<nat>>)
    requires numCl <= 19
    ensures p.Stop? ==> !p.why.Success?
    ensures p.Parsed? ==> |p.rest| <= |ahead| && |p.value| == 19
  {
    match ClLengths(Copies(0, 19), 0, numCl, ahead)
    case Stop(why) => Stop(why)
    case Parsed(cl, a) => if Accepted(cl) then Parsed(cl, a) else Stop(Failed)
  }

  ghost function DynamicCodes(ahead: seq<Bit>): (p: Parse<Codes>)
    ensures p.Stop? ==> !p.why.Success?
    ensures p.Parsed? ==> |p.rest| <= |ahead| && |p.value.lit| <= 288 && |p.value.dist| <= 32
  {
    match HeaderCounts(ahead)
    case Stop(why) => Stop(why)
    case Parsed(n, a) =>
      match ClCode(n.cl, a)
      case Stop(why) => Stop(why)
      case Parsed(cl, b) =>
        match Lengths(cl, [], n.lit + n.dist, b)
        case Stop(why) => Stop(why)
        case Parsed(lens, c) =>
          if Accepted(lens[n.lit..]) && Accepted(lens[..n.lit]) then Parsed(Codes(lens[..n.lit], lens[n.lit..]), c)
          else Stop(Failed)
  }

  datatype Copy = Copy(len: nat, dist: nat)

  /** A match behind its length symbol. */
  ghost function MatchAt(dist: seq<nat>, sym: nat, ahead: seq<Bit>): (p: Parse<Copy>)
    requires |dist| <= 32 && 257 <= sym < 288
    ensures p == Stop(InputEnded) || (p.Parsed? && |p.rest| <= |ahead|)
  {
    match Number(LENGTH_EXTRA[sym - 257], ahead)
    case Stop(why) => Stop(why)
    case Parsed(x, a) =>
      match Symbol(dist, a)
      case Stop(why) => Stop(why)
      case Parsed(t, b) =>
        match Number(DIST_EXTRA[t], b)
        case Stop(why) => Stop(why)
        case Parsed(y, c) => Parsed(Copy(LENGTH_BASE[sym - 257] + x, DIST_BASE[t] + y), c)
  }

  /** Output so far, the bits still ahead, and how it ended. */
  datatype State = State(out: seq<byte>, rest: seq<Bit>, res: Outcome)

  /** The tokens of a block, up to its end; the output must not grow beyond size. */
  ghost function Tokens(lit: seq<nat>, dist: seq<nat>, out: seq<byte>, size: nat, ahead: seq<Bit>): (s: State)
    requires |lit| <= 288 && |dist| <= 32 && |out| <= size
    ensures |s.rest| <= |ahead| && |out| <= |s.out| <= size
    decreases |ahead|, size - |out|, 0
  {
    match Symbol(lit, ahead)
    case Stop(why) => State(out, ahead, why)
    case Parsed(sym, a) =>
      if sym >= 256 then Behind(lit, dist, sym, out, size, a)
      else if |out| >= size then State(out, a, OutputFull)
      else Tokens(lit, dist, out + [sym as byte], size, a)
  }

  /** What follows a symbol that is no literal. */
  ghost function Behind(lit: seq<nat>, dist: seq<nat>, sym: nat, out: seq<byte>, size: nat, ahead: seq<Bit>): (s: State)
    requires |lit| <= 288 && |dist| <= 32 && |out| <= size && 256 <= sym < 288
    ensures |s.rest| <= |ahead| && |out| <= |s.out| <= size
    decreases |ahead|, size - |out|, 1
  {
    if sym == END_OF_BLOCK then State(out, ahead, Success)
    else
      match MatchAt(dist, sym, ahead)
      case Stop(why) => State(out, ahead, why)
      case Parsed(c, a) =>
        if c.dist == 0 || c.dist > |out| then State(out, a, Failed)
        else if |out| + c.len > size then State(CopyBack(out, c.dist, size - |out|), a, OutputFull)
        else Tokens(lit, dist, CopyBack(out, c.dist, c.len), size, a)
  }

  /** The bits from the next byte boundary on: the data ends at one. */
  function Aligned(ahead: seq<Bit>): (r: seq<Bit>)
    ensures |r| <= |ahead| && |r| % 8 == 0
  {
    ahead[|ahead| % 8..]
  }

  /** n bytes as they are. */
  function StoredBytes(n: nat, out: seq<byte>, size: nat, ahead: seq<Bit>): (s: State)
    requires |out| <= size
    ensures |s.rest| <= |ahead| && |out| <= |s.out| <= size
  {
    if n == 0 then State(out, ahead, Success)
    else if |out| >= size then State(out, ahead, OutputFull)
    else
      assert Pow2(8) == 256 by { assert Pow2(4) == 16; }
      match Number(8, ahead)
      case Stop(why) => State(out, ahead, why)
      case Parsed(c, a) => StoredBytes(n - 1, out + [c as byte], size, a)
  }

  /** The length of a stored block, in front of its complement. */
  function StoredLength(ahead: seq<Bit>): (p: Parse<nat>)
    ensures p.Stop? ==> !p.why.Success?
    ensures p.Parsed? ==> |p.rest| <= |ahead|
  {
    match Number(16, ahead)
    case Stop(why) => Stop(why)
    case Parsed(n, a) =>
      match Number(16, a)
      case Stop(why) => Stop(why)
      case Parsed(m, b) => if n == 65535 - m then Parsed(n, b) else Stop(Failed)
  }

  function StoredBlock(out: seq<byte>, size: nat, ahead: seq<Bit>): (s: State)
    requires |out| <= size
    ensures |s.rest| <= |ahead| && |out| <= |s.out| <= size
  {
    match StoredLength(Aligned(ahead))
    case Stop(why) => State(out, ahead, why)
    case Parsed(n, a) => StoredBytes(n, out, size, a)
  }

  /** A block behind its type. */
  ghost function Content(kind: nat, out: seq<byte>, size: nat, ahead: seq<Bit>): (s: State)
    requires |out| <= size
    ensures |s.rest| <= |ahead| && |out| <= |s.out| <= size
  {
    if kind == 0 then StoredBlock(out, size, ahead)
    else if kind == 1 then Tokens(FixedLit(), FixedDist(), out, size, ahead)
    else if kind == 2 then
      match DynamicCodes(ahead)
      case Stop(why) => State(out, ahead, why)
      case Parsed(c, a) => Tokens(c.lit, c.dist, out, size, a)
    else State(out, ahead, Failed)
  }

  ghost function OneBlock(out: seq<byte>, size: nat, ahead: seq<Bit>): (s: State)
    requires |out| <= size
    ensures |s.rest| <= |ahead| && |out| <= |s.out| <= size && (s.res.Success? ==> |s.rest| < |ahead|)
  {
    match Number(3, ahead)
    case Stop(why) => State(out, ahead, why)
    case Parsed(x, a) => Content(x / 2, out, size, a)
  }

  /** The block ahead calls itself the final one. */
  predicate LastAhead(ahead: seq<Bit>) {
    ahead != [] && ahead[0]
  }

  /** Blocks up to the final one. */
  ghost function AllBlocks(out: seq<byte>, size: nat, ahead: seq<Bit>): (s: State)
    requires |out| <= size
    ensures |s.rest| <= |ahead| && |out| <= |s.out| <= size
    decreases |ahead|
  {
    var s := OneBlock(out, size, ahead);
    if !s.res.Success? || LastAhead(ahead) then s else AllBlocks(s.out, size, s.rest)
  }
}
