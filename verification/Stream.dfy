/**
 * What the decompressor makes of a whole input: header, blocks up to the final
 * one, and the checksum (RFC 1950, section 2.2).
 */
module Streams {
  import opened Bits
  import opened Lz
  import opened Blocks
  import opened Decoding
  import opened Usuals
  import opened Readbacks
  import opened StoredReaders
  import opened Adlers
  import opened StreamEnds
  import opened StreamGrowth
  import opened Deflaters

  /** A zlib header as RFC 1950 has it: a multiple of 31, deflate, and no preset dictionary. */
  predicate HeaderFits(h0: nat, h1: nat) {
    (h0 * 256 + h1) % 31 == 0 && h0 % 16 == 8 && h1 / 32 % 2 == 0
  }

  /** The four bytes at this place are the checksum of the output. */
  predicate SumAt(input: seq<byte>, at: nat, output: seq<byte>) {
    at + 4 <= |input| && input[at..at + 4] == AdlerBytes(Adler(ADLER_INIT, output))
  }

  /** Output, how it ended, and on success how much of the input the stream took. */
  datatype Result = Result(out: seq<byte>, res: Outcome, used: nat)

  /** Everything there is to say about a call: any input, any size of the output buffer. */
  ghost function Decompressed(zlib: bool, input: seq<byte>, size: nat): Result {
    if zlib && |input| < 2 then Result([], InputEnded, 0)
    else if zlib && !HeaderFits(input[0], input[1]) then Result([], Failed, 0)
    else
      var s := AllBlocks([], size, Start(zlib, input));
      if !s.res.Success? then Result(s.out, s.res, 0) else Checked(zlib, input, s.out, PlaceOf(input, s.rest))
  }

  /** The first whole byte behind the blocks. */
  function PlaceOf(input: seq<byte>, rest: seq<Bit>): nat {
    if |rest| / 8 <= |input| then |input| - |rest| / 8 else 0
  }

  /** The checksum behind the blocks. */
  function Checked(zlib: bool, input: seq<byte>, out: seq<byte>, at: nat): Result {
    if !zlib then Result(out, Success, at)
    else if at + 4 > |input| then Result(out, InputEnded, 0)
    else if SumAt(input, at, out) then Result(out, Success, at + 4)
    else Result(out, WrongChecksum, 0)
  }

  /** The bits in front of the first block. */
  ghost function Start(zlib: bool, input: seq<byte>): seq<Bit>
    requires zlib ==> |input| >= 2
  {
    BytesToBits(if zlib then input[2..] else input)
  }

  /** The input keeps to the format as far as it is decompressed. */
  ghost predicate Usual(zlib: bool, input: seq<byte>, size: nat)
    requires zlib ==> |input| >= 2
  {
    UsualBlocks([], size, Start(zlib, input)) && UsualPadding(AllBlocks([], size, Start(zlib, input)).rest)
  }

  /** The bits of blocks j and on, the last block being final. */
  ghost function TailOf(bs: seq<Block>, j: nat, pos: nat): seq<Bit>
    requires BlocksOk(bs) && j <= |bs|
    decreases |bs| - j
  {
    if j == |bs| then []
    else
      var bb := BlockBits(bs[j], j == |bs| - 1, pos);
      bb + TailOf(bs, j + 1, pos + |bb|)
  }

  /** A closed stream, cut in front of block j. */
  lemma {:induction false} CutStream(bs: seq<Block>, j: nat, pos: nat)
    requires BlocksOk(bs) && j < |bs|
    ensures BlocksOk(bs[..j])
    ensures var s := StreamBits(bs[..j], false, pos);
      StreamBits(bs, true, pos) == s + TailOf(bs, j, pos + |s|)
    decreases |bs| - j
  {
    hide BlockOk, BlockBits;
    var s := StreamBits(bs[..j], false, pos);
    var at := pos + |s|;
    var bb := BlockBits(bs[j], j == |bs| - 1, at);
    if j == |bs| - 1 {
      assert bs[..|bs| - 1] == bs[..j];
      assert TailOf(bs, j, at) == bb + [];
    } else {
      CutStream(bs, j + 1, pos);
      assert bs[..j + 1][..j] == bs[..j];
      assert StreamBits(bs[..j + 1], false, pos) == s + bb;
      AssocBits(s, bb, TailOf(bs, j + 1, at + |bb|));
    }
  }

  lemma {:induction false} StreamPrefix(bs: seq<Block>, j: nat)
    requires StreamOk(bs, []) && j < |bs|
    ensures StreamOk(bs[..j], []) && BlockOk(bs[j])
    ensures BlockFits(bs[j], |StreamExpand(bs[..j], [])|)
    ensures StreamOk(bs[..j + 1], []) && StreamExpand(bs[..j + 1], []) == BlockExpand(bs[j], StreamExpand(bs[..j], []))
    ensures |StreamExpand(bs[..j + 1], [])| <= |StreamExpand(bs, [])|
  {
    hide BlockOk;
    assert bs[..j + 1][..j] == bs[..j];
    if j == |bs| - 1 {
      assert bs[..j + 1] == bs;
    } else {
      var t := bs[..|bs| - 1];
      StreamPrefix(t, j);
      assert t[..j] == bs[..j] && t[..j + 1] == bs[..j + 1];
    }
  }

  /** In front of block j of a stream that is being decoded: the bits ahead, and the output so far. */
  ghost predicate AtBlock(ahead: seq<Bit>, o: seq<byte>, size: nat, bs: seq<Block>, j: nat, pos: nat, rest: seq<Bit>) {
    && StreamOk(bs, []) && BlocksOk(bs) && j < |bs| && |StreamExpand(bs, [])| <= size
    && (pos + |ahead|) % 8 == 0 && ahead == TailOf(bs, j, pos) + rest
    && StreamOk(bs[..j], []) && o == StreamExpand(bs[..j], [])
  }

  /** The next block of the stream, and what is behind it. */
  lemma BlockNext(ahead: seq<Bit>, o: seq<byte>, size: nat, bs: seq<Block>, j: nat, pos: nat, rest: seq<Bit>)
    returns (b: Block, final: bool, after: seq<Bit>, target: seq<byte>, next: nat)
    requires AtBlock(ahead, o, size, bs, j, pos, rest)
    ensures BlockAt(b, final, pos, after, ahead) && Fitting(b, o, size, target) && |o| <= size
    ensures final == (j == |bs| - 1)
    ensures final ==> after == rest && target == StreamExpand(bs, [])
    ensures !final ==> AtBlock(after, target, size, bs, j + 1, next, rest)
  {
    hide BlockOk, BlockBits, BlockExpand, StreamOk, StreamExpand, BlockFits;
    StreamPrefix(bs, j);
    OutputGrows(bs, j);
    b, final := bs[j], j == |bs| - 1;
    var bb := BlockBits(b, final, pos);
    next := pos + |bb|;
    after := TailOf(bs, j + 1, next) + rest;
    target := StreamExpand(bs[..j + 1], []);
    AssocBits(bb, TailOf(bs, j + 1, next), rest);
    if final {
      assert bs[..j + 1] == bs;
      assert [] + rest == rest;
    }
  }

  lemma {:induction false} OutputGrows(bs: seq<Block>, j: nat)
    requires StreamOk(bs, []) && j <= |bs|
    ensures StreamOk(bs[..j], []) && |StreamExpand(bs[..j], [])| <= |StreamExpand(bs, [])|
    decreases |bs| - j
  {
    hide BlockOk, BlockFits, BlockExpand, StreamOk, StreamExpand;
    if j < |bs| {
      StreamPrefix(bs, j);
      OutputGrows(bs, j + 1);
      BlockGrows(bs[j], StreamExpand(bs[..j], []));
    } else {
      assert bs[..j] == bs;
    }
  }

  lemma BlockGrows(b: Block, o: seq<byte>)
    requires BlockFits(b, |o|)
    ensures |o| <= |BlockExpand(b, o)|
  {
  }

  /** All blocks of a stream are read back. */
  lemma {:induction false} BlocksRead(ahead: seq<Bit>, o: seq<byte>, size: nat, bs: seq<Block>, j: nat, pos: nat, rest: seq<Bit>)
    requires AtBlock(ahead, o, size, bs, j, pos, rest)
    ensures |o| <= size && StreamOk(bs, [])
    ensures AllBlocks(o, size, ahead) == State(StreamExpand(bs, []), rest, Success) && UsualBlocks(o, size, ahead)
    decreases |bs| - j
  {
    hide AtBlock, BlockAt, Fitting, StreamOk, StreamExpand, OneBlock, UsualBlock, LastAhead;
    InStream(ahead, o, size, bs, j, pos, rest);
    var b, final, after, target, next := BlockNext(ahead, o, size, bs, j, pos, rest);
    BlockRead(b, final, pos, after, ahead, o, size, target);
    if !final {
      BlocksRead(after, target, size, bs, j + 1, next, rest);
    }
  }

  lemma InStream(ahead: seq<Bit>, o: seq<byte>, size: nat, bs: seq<Block>, j: nat, pos: nat, rest: seq<Bit>)
    requires AtBlock(ahead, o, size, bs, j, pos, rest)
    ensures StreamOk(bs, []) && j < |bs|
  {
  }

  /** What stands before the blocks: nothing, or some compressor's header. */
  function Head(zlib: bool, header: seq<byte>): seq<Bit> {
    if zlib then BytesToBits(header) else []
  }

  predicate HeaderGood(zlib: bool, header: seq<byte>) {
    zlib ==> |header| == 2 && HeaderFits(header[0], header[1])
  }

  /** The blocks behind a header. */
  ghost function Framed(zlib: bool, header: seq<byte>, bs: seq<Block>): seq<Bit>
    requires BlocksOk(bs)
  {
    Head(zlib, header) + StreamBits(bs, true, |Head(zlib, header)|)
  }

  /** A compressed stream of these blocks behind this header. */
  ghost predicate WholeStream(zlib: bool, header: seq<byte>, bs: seq<Block>, body: seq<byte>) {
    && bs != [] && BlocksOk(bs) && StreamOk(bs, []) && HeaderGood(zlib, header)
    && var s := Framed(zlib, header, bs);
       BytesToBits(body) == s + EndBits(zlib, Adler(ADLER_INIT, StreamExpand(bs, [])), |s|)
  }

  /** The header that this compressor writes is a good one, and its streams are those behind it. */
  lemma OwnHeader(zlib: bool, bs: seq<Block>)
    requires bs != [] && BlocksOk(bs)
    ensures HeaderGood(zlib, ZLIB_HEADER) && Framed(zlib, ZLIB_HEADER, bs) == Stream(zlib, bs, true)
  {
    hide BytesToBits, StreamBits;
  }

  /** What follows the blocks: padding, checksum, and whatever comes behind the stream. */
  ghost function Epilogue(zlib: bool, bs: seq<Block>, trailing: seq<byte>): seq<Bit>
    requires BlocksOk(bs) && StreamOk(bs, [])
  {
    (if zlib then BytesToBits(AdlerBytes(Adler(ADLER_INIT, StreamExpand(bs, [])))) else []) + BytesToBits(trailing)
  }

  /** The parts of the input, front to back. */
  lemma InputParts(zlib: bool, header: seq<byte>, bs: seq<Block>, body: seq<byte>, trailing: seq<byte>)
    requires WholeStream(zlib, header, bs, body)
    ensures var pre := Head(zlib, header);
      var tail := TailOf(bs, 0, |pre|);
      BytesToBits(body + trailing) == pre + (tail + (ToBits(0, Padding(|pre + tail|)) + Epilogue(zlib, bs, trailing)))
  {
    hide BytesToBits, ToBits, StreamOk, StreamExpand, AdlerBytes, Adler, Head, BlocksOk, TailOf, Padding, Framed;
    BytesToBitsAppend(body, trailing);
    var pre := Head(zlib, header);
    StreamIsTail(zlib, header, bs);
    var tail := TailOf(bs, 0, |pre|);
    var sum := if zlib then BytesToBits(AdlerBytes(Adler(ADLER_INIT, StreamExpand(bs, [])))) else [];
    var pad := ToBits(0, Padding(|pre + tail|));
    assert EndBits(zlib, Adler(ADLER_INIT, StreamExpand(bs, [])), |pre + tail|) == pad + sum;
    InputAssoc(pre, tail, pad, sum, BytesToBits(trailing));
  }

  lemma InputAssoc(a: seq<Bit>, b: seq<Bit>, c: seq<Bit>, d: seq<Bit>, e: seq<Bit>)
    ensures a + b + (c + d) + e == a + (b + (c + (d + e)))
  {
  }

  lemma StreamIsTail(zlib: bool, header: seq<byte>, bs: seq<Block>)
    requires BlocksOk(bs) && bs != []
    ensures Framed(zlib, header, bs) == Head(zlib, header) + TailOf(bs, 0, |Head(zlib, header)|)
  {
    hide BlocksOk, Head;
    var pre := Head(zlib, header);
    CutStream(bs, 0, |pre|);
    NoBlocks(|pre|);
    assert bs[..0] == [];
    var tail := TailOf(bs, 0, |pre|);
    assert [] + tail == tail;
  }

  lemma StreamStarts(bs: seq<Block>, size: nat, start: nat, rest: seq<Bit>, ahead: seq<Bit>)
    requires BlocksOk(bs) && bs != [] && StreamOk(bs, []) && |StreamExpand(bs, [])| <= size
    requires ahead == TailOf(bs, 0, start) + rest && (start + |ahead|) % 8 == 0
    ensures AtBlock(ahead, [], size, bs, 0, start, rest)
  {
    hide BlocksOk, TailOf;
    assert bs[..0] == [];
  }

  /** What a stream for these blocks, read into a buffer of this size, must look like. */
  ghost predicate Given(zlib: bool, header: seq<byte>, bs: seq<Block>, body: seq<byte>, trailing: seq<byte>, input: seq<byte>, size: nat) {
    WholeStream(zlib, header, bs, body) && input == body + trailing && |StreamExpand(bs, [])| <= size
  }

  /** The bits of a given input, section by section. */
  lemma Sections(zlib: bool, header: seq<byte>, bs: seq<Block>, body: seq<byte>, trailing: seq<byte>, input: seq<byte>, size: nat)
    returns (end: nat, pad: seq<Bit>, rest: seq<Bit>)
    requires Given(zlib, header, bs, body, trailing, input, size)
    ensures HeaderGood(zlib, header) && (zlib ==> |input| >= 2 && input[..2] == header)
    ensures AtBlock(Start(zlib, input), [], size, bs, 0, |Head(zlib, header)|, pad)
    ensures pad == ToBits(0, Padding(end)) + rest && (end + |pad|) % 8 == 0
    ensures rest == Epilogue(zlib, bs, trailing)
    ensures |pad| <= 8 * |input| && BytesToBits(input)[8 * |input| - |rest|..] == rest
  {
    hide BytesToBits, ToBits, StreamOk, StreamExpand, Head, BlocksOk, TailOf, Epilogue, AtBlock, Padding, Pow2, EndBits, Framed, Start;
    InputParts(zlib, header, bs, body, trailing);
    var start := |Head(zlib, header)|;
    var tail := TailOf(bs, 0, start);
    end := |Head(zlib, header) + tail|;
    rest := Epilogue(zlib, bs, trailing);
    pad := ToBits(0, Padding(end)) + rest;
    SectionLengths(Head(zlib, header), tail, pad, BytesToBits(input), |input|);
    HeadAhead(zlib, header, input, tail + pad);
    StreamStarts(bs, size, start, pad, tail + pad);
    LastPart(Head(zlib, header), tail, ToBits(0, Padding(end)), rest);
  }

  lemma LastPart(a: seq<Bit>, b: seq<Bit>, c: seq<Bit>, d: seq<Bit>)
    ensures var s := a + (b + (c + d)); s[|s| - |d|..] == d
  {
  }

  lemma HeadAhead(zlib: bool, header: seq<byte>, input: seq<byte>, blocks: seq<Bit>)
    requires HeaderGood(zlib, header) && BytesToBits(input) == Head(zlib, header) + blocks
    ensures (zlib ==> |input| >= 2 && input[..2] == header) && Start(zlib, input) == blocks
  {
    hide BytesToBits;
    if zlib {
      BytesAhead(input, header, blocks);
    } else {
      assert [] + blocks == blocks;
    }
  }

  lemma SectionLengths(a: seq<Bit>, b: seq<Bit>, c: seq<Bit>, all: seq<Bit>, n: nat)
    requires all == a + (b + c) && |all| == 8 * n
    ensures (|a| + |b + c|) % 8 == 0 && (|a + b| + |c|) % 8 == 0
  {
  }

  /** Where the blocks end, only the checksum and the trailing bytes are left. */
  lemma AtEnd(zlib: bool, header: seq<byte>, bs: seq<Block>, body: seq<byte>, trailing: seq<byte>, input: seq<byte>, size: nat, rest: seq<Bit>)
    requires Given(zlib, header, bs, body, trailing, input, size) && Aligned(rest) == Epilogue(zlib, bs, trailing)
    requires zlib ==> |input| >= 2
    requires |rest| <= 8 * |input| && BytesToBits(input)[8 * |input| - |Aligned(rest)|..] == Aligned(rest)
    ensures Checked(zlib, input, StreamExpand(bs, []), PlaceOf(input, rest)) == Result(StreamExpand(bs, []), Success, |body|)
  {
    hide BytesToBits, StreamOk, StreamExpand, BlocksOk, Framed, EndBits, Adler, AdlerBytes;
    var at := PlaceOf(input, rest);
    assert |rest| / 8 == |Aligned(rest)| / 8;
    if zlib {
      var sum := AdlerBytes(Adler(ADLER_INIT, StreamExpand(bs, [])));
      BitsBehind(input, at);
      assert |Epilogue(zlib, bs, trailing)| == 32 + 8 * |trailing|;
      BytesAhead(input[at..], sum, BytesToBits(trailing));
      assert input[at..][..4] == input[at..at + 4];
    } else {
      assert [] + BytesToBits(trailing) == BytesToBits(trailing);
    }
  }

  /** A well-formed stream is decompressed as what it means, and no byte beyond it is used. */
  lemma StreamRead(zlib: bool, header: seq<byte>, bs: seq<Block>, body: seq<byte>, trailing: seq<byte>, input: seq<byte>, size: nat)
    requires Given(zlib, header, bs, body, trailing, input, size)
    ensures Decompressed(zlib, input, size) == Result(StreamExpand(bs, []), Success, |body|)
    ensures (zlib ==> |input| >= 2) && Usual(zlib, input, size)
  {
    hide BytesToBits, ToBits, AtBlock, Given, Pow2, Padding, Head, Epilogue, StreamExpand, StreamOk, Start, AllBlocks, UsualBlocks, Checked,
      PlaceOf, HeaderFits;
    var end, pad, rest := Sections(zlib, header, bs, body, trailing, input, size);
    BlocksRead(Start(zlib, input), [], size, bs, 0, |Head(zlib, header)|, pad);
    PaddingSkipped(end, pad, rest);
    AtEnd(zlib, header, bs, body, trailing, input, size, pad);
    if zlib {
      assert input[0] == input[..2][0] && input[1] == input[..2][1];
    }
  }

  lemma PaddingSkipped(end: nat, pad: seq<Bit>, rest: seq<Bit>)
    requires pad == ToBits(0, Padding(end)) + rest && (end + |pad|) % 8 == 0
    ensures Aligned(pad) == rest && UsualPadding(pad)
  {
    hide ToBits;
    PaddingAhead(end, pad);
    ZeroBits(Padding(end));
    assert pad[..|pad| % 8] == ToBits(0, Padding(end));
  }

  lemma BitsBehind(input: seq<byte>, at: nat)
    requires at <= |input|
    ensures BytesToBits(input)[8 * at..] == BytesToBits(input[at..])
  {
    hide BytesToBits;
    assert input == input[..at] + input[at..];
    BytesToBitsAppend(input[..at], input[at..]);
  }

}
