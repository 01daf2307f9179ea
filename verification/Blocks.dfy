/**
 * The bit strings of deflate blocks (RFC 1951, sections 3.2.3 to 3.2.7) and what
 * they expand to.
 */
module Blocks {
  import opened Bits
  import opened Lz
  import opened Symbols
  import opened TokenBuffers
  import opened Canonical
  import opened HuffTables
  import opened CodeLengths

  /** Both alphabets have a code for the token. */
  predicate Codable(lit: seq<nat>, dist: seq<nat>, t: Token) {
    && InRange(t) && Used(lit, LitSymbol(t))
    && (t.Match? ==> Used(dist, DistSym(t.dist - 1)))
  }

  predicate AllCodable(lit: seq<nat>, dist: seq<nat>, ts: seq<Token>) {
    forall i :: 0 <= i < |ts| ==> Codable(lit, dist, ts[i])
  }

  /** Extra bits of a match length. */
  function LenBits(len: nat): seq<Bit>
    requires MIN_MATCH_LEN <= len <= MAX_MATCH_LEN
  {
    var l: byte := len - MIN_MATCH_LEN;
    ToBits(Low(l, LenExtra(l)), LenExtra(l))
  }

  function DistBits(dist: nat): seq<Bit>
    requires 1 <= dist <= DICT_SIZE
  {
    ToBits(Low(dist - 1, DistExtra(dist - 1)), DistExtra(dist - 1))
  }

  function TokenBits(lit: seq<nat>, dist: seq<nat>, t: Token): seq<Bit>
    requires Codable(lit, dist, t)
  {
    if t.Literal? then CodeBits(lit, t.lit)
    else
      CodeBits(lit, LitSymbol(t)) + LenBits(t.len) + CodeBits(dist, DistSym(t.dist - 1)) + DistBits(t.dist)
  }

  function TokensBits(lit: seq<nat>, dist: seq<nat>, ts: seq<Token>): seq<Bit>
    requires AllCodable(lit, dist, ts)
  {
    if ts == [] then [] else TokensBits(lit, dist, ts[..|ts| - 1]) + TokenBits(lit, dist, ts[|ts| - 1])
  }

  lemma {:induction false} TokensBitsCons(lit: seq<nat>, dist: seq<nat>, ts: seq<Token>)
    requires AllCodable(lit, dist, ts) && ts != []
    ensures AllCodable(lit, dist, ts[1..])
    ensures TokensBits(lit, dist, ts) == TokenBits(lit, dist, ts[0]) + TokensBits(lit, dist, ts[1..])
  {
    hide Codable, TokenBits;
    var n := |ts| - 1;
    if n > 0 {
      var t := ts[..n];
      TokensBitsCons(lit, dist, t);
      assert t[1..] == ts[1..][..n - 1];
    } else {
      assert ts[..0] == [] && ts[1..] == [];
    }
  }

  /** Tokens and the end-of-block symbol. */
  function BodyBits(lit: seq<nat>, dist: seq<nat>, ts: seq<Token>): seq<Bit>
    requires AllCodable(lit, dist, ts) && Used(lit, END_OF_BLOCK)
  {
    TokensBits(lit, dist, ts) + CodeBits(lit, END_OF_BLOCK)
  }

  /** Code lengths of the fixed codes. */
  function FixedLitSize(s: nat): nat {
    if s <= 143 then 8 else if s <= 255 then 9 else if s <= 279 then 7 else 8
  }

  function FixedLit(): (r: seq<nat>)
    ensures |r| == 288 && forall s :: 0 <= s < 288 ==> r[s] == FixedLitSize(s)
  {
    seq(288, s requires s >= 0 => FixedLitSize(s))
  }

  function FixedDist(): (r: seq<nat>)
    ensures |r| == 32 && forall s :: 0 <= s < 32 ==> r[s] == 5
  {
    seq(32, _ => 5)
  }

  /** The order in which the code-length code lengths are sent. */
  const SWIZZLE: seq<nat> := [16, 17, 18, 0, 8, 7, 9, 6, 10, 5, 11, 4, 12, 3, 13, 2, 14, 1, 15]

  /** The first n code-length code lengths, three bits each. */
  function ClBits(cl: seq<nat>, n: nat): seq<Bit>
    requires |cl| == 19 && n <= 19
  {
    if n == 0 then [] else ClBits(cl, n - 1) + ToBits(cl[SWIZZLE[n - 1]], 3)
  }

  function OpBits(cl: seq<nat>, op: Op): seq<Bit>
    requires OpOk(op) && Used(cl, OpSymbol(op))
  {
    CodeBits(cl, OpSymbol(op)) + ToBits(OpExtra(op), ExtraWidth(OpSymbol(op)))
  }

  predicate OpsCodable(cl: seq<nat>, ops: seq<Op>) {
    forall i :: 0 <= i < |ops| ==> OpOk(ops[i]) && Used(cl, OpSymbol(ops[i]))
  }

  function OpsBits(cl: seq<nat>, ops: seq<Op>): seq<Bit>
    requires OpsCodable(cl, ops)
  {
    if ops == [] then [] else OpsBits(cl, ops[..|ops| - 1]) + OpBits(cl, ops[|ops| - 1])
  }

  lemma {:induction false} OpsBitsCons(cl: seq<nat>, ops: seq<Op>)
    requires OpsCodable(cl, ops) && ops != []
    ensures OpsCodable(cl, ops[1..])
    ensures OpsBits(cl, ops) == OpBits(cl, ops[0]) + OpsBits(cl, ops[1..])
  {
    hide OpBits, OpOk, OpSymbol, Used;
    var n := |ops| - 1;
    if n > 0 {
      var t := ops[..n];
      OpsBitsCons(cl, t);
      assert t[1..] == ops[1..][..n - 1];
    } else {
      assert ops[..0] == [] && ops[1..] == [];
    }
  }

  /** The code lengths of a dynamic block and how they are sent. */
  datatype Header = Header(lit: seq<nat>, dist: seq<nat>, cl: seq<nat>, numCl: nat, ops: seq<Op>)

  ghost predicate HeaderOk(h: Header) {
    && 257 <= |h.lit| <= 286 && 1 <= |h.dist| <= 30
    && Sizes(h.lit) && Sizes(h.dist) && Accepted(h.lit) && Accepted(h.dist)
    && ClOk(h.cl, h.numCl)
    && Sound(h.ops) && OpsCodable(h.cl, h.ops)
    && ExpandOps(h.ops) == h.lit + h.dist
  }

  ghost predicate ClOk(cl: seq<nat>, numCl: nat) {
    && |cl| == 19 && 4 <= numCl <= 19 && Accepted(cl)
    && (forall i :: 0 <= i < 19 ==> cl[i] < 8)
    && (forall i :: numCl <= i < 19 ==> cl[SWIZZLE[i]] == 0)
  }

  ghost function HeaderBits(h: Header): seq<Bit>
    requires HeaderOk(h)
  {
    ToBits(|h.lit| - 257, 5) + ToBits(|h.dist| - 1, 5) + ToBits(h.numCl - 4, 4)
    + ClBits(h.cl, h.numCl) + OpsBits(h.cl, h.ops)
  }

  datatype Block = Stored(data: seq<byte>) | Fixed(ts: seq<Token>) | Dynamic(ts: seq<Token>, header: Header)

  ghost predicate BlockOk(b: Block) {
    match b
    case Stored(data) => |data| < 65536
    case Fixed(ts) => AllCodable(FixedLit(), FixedDist(), ts)
    case Dynamic(ts, h) => HeaderOk(h) && AllCodable(h.lit, h.dist, ts) && Used(h.lit, END_OF_BLOCK)
  }

  function BlockType(b: Block): (t: nat)
    ensures t < 3
  {
    match b
    case Stored(_) => 0
    case Fixed(_) => 1
    case Dynamic(_, _) => 2
  }

  function Padding(pos: nat): (n: nat)
    ensures n < 8 && (pos + n) % 8 == 0
  {
    (8 - pos % 8) % 8
  }

  function StoredBits(data: seq<byte>, pos: nat): seq<Bit>
    requires |data| < 65536
  {
    ToBits(0, Padding(pos)) + ToBits(|data|, 16) + ToBits(65535 - |data|, 16) + BytesToBits(data)
  }

  /** A block that starts at bit position pos of the stream. */
  ghost function BlockBits(b: Block, final: bool, pos: nat): seq<Bit>
    requires BlockOk(b)
  {
    ToBits(if final then 1 else 0, 1) + ToBits(BlockType(b), 2) + ContentBits(b, pos + 3)
  }

  function FixedBodyBits(ts: seq<Token>): seq<Bit>
    requires AllCodable(FixedLit(), FixedDist(), ts)
  {
    BodyBits(FixedLit(), FixedDist(), ts)
  }

  ghost function ContentBits(b: Block, pos: nat): seq<Bit>
    requires BlockOk(b)
  {
    match b
    case Stored(data) => StoredBits(data, pos)
    case Fixed(ts) => FixedBodyBits(ts)
    case Dynamic(ts, h) => HeaderBits(h) + BodyBits(h.lit, h.dist, ts)
  }

  /** The block's tokens can be expanded behind n bytes of output. */
  predicate BlockFits(b: Block, n: nat) {
    b.Stored? || WellFormed(b.ts, n)
  }

  function BlockExpand(b: Block, out: seq<byte>): seq<byte>
    requires BlockFits(b, |out|)
  {
    if b.Stored? then out + b.data else Expand(b.ts, out)
  }

  /** A stream of blocks, only the last one marked final. */
  ghost predicate StreamOk(bs: seq<Block>, out: seq<byte>)
    decreases |bs|, 0
  {
    bs == [] || (StreamOk(bs[..|bs| - 1], out) && BlockOk(bs[|bs| - 1])
      && BlockFits(bs[|bs| - 1], |StreamExpand(bs[..|bs| - 1], out)|))
  }

  ghost function StreamExpand(bs: seq<Block>, out: seq<byte>): seq<byte>
    requires StreamOk(bs, out)
    decreases |bs|, 1
  {
    if bs == [] then out else BlockExpand(bs[|bs| - 1], StreamExpand(bs[..|bs| - 1], out))
  }

  ghost predicate BlocksOk(bs: seq<Block>) {
    forall i :: 0 <= i < |bs| ==> BlockOk(bs[i])
  }

  /** The bits of a stream that starts at position pos; the last block is final iff closed. */
  ghost function StreamBits(bs: seq<Block>, closed: bool, pos: nat): seq<Bit>
    requires BlocksOk(bs)
  {
    if bs == [] then []
    else
      StreamBits(bs[..|bs| - 1], false, pos)
      + BlockBits(bs[|bs| - 1], closed, pos + |StreamBits(bs[..|bs| - 1], false, pos)|)
  }

  lemma FixedCodable(t: Token)
    requires InRange(t)
    ensures Codable(FixedLit(), FixedDist(), t)
  {
  }
}
