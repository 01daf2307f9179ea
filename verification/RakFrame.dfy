/**
 * Frames and frame sets on the wire: which fields a frame carries depends on its
 * reliability, and a frame set is parsed until its bytes run out.
 */
module RakFrames {
  import opened Bits
  import opened BinaryStreams

  const ID_FRAME_SET := 0x80
  /** Largest payload the 13-bit length field can announce. */
  const MAX_FRAME_DATA := 8191

  datatype Frame = Frame(reliability: nat, fragmented: bool, reliableIndex: nat, sequencedIndex: nat, orderedIndex: nat,
                         orderChannel: nat, compoundSize: nat, compoundId: nat, index: nat, data: seq<byte>)

  predicate IsReliable(reliability: nat) {
    reliability == 2 || reliability == 3 || reliability == 4 || reliability == 6 || reliability == 7
  }

  predicate IsSequenced(reliability: nat) {
    reliability == 1 || reliability == 4
  }

  predicate IsOrdered(reliability: nat) {
    reliability == 1 || reliability == 3 || reliability == 4 || reliability == 7
  }

  /** Every field fits its place on the wire. */
  predicate FrameOk(f: Frame) {
    && f.reliability < 8 && f.reliableIndex < 0x100_0000 && f.sequencedIndex < 0x100_0000 && f.orderedIndex < 0x100_0000
    && f.orderChannel < 256 && f.compoundSize < 0x1_0000_0000 && f.compoundId < 65536 && f.index < 0x1_0000_0000
    && |f.data| <= MAX_FRAME_DATA
  }

  /** The frame without the fields that are not sent. */
  function Visible(f: Frame): Frame {
    var r := f.reliability;
    Frame(r, f.fragmented, if IsReliable(r) then f.reliableIndex else 0, if IsSequenced(r) then f.sequencedIndex else 0,
          if IsOrdered(r) then f.orderedIndex else 0, if IsOrdered(r) then f.orderChannel else 0,
          if f.fragmented then f.compoundSize else 0, if f.fragmented then f.compoundId else 0,
          if f.fragmented then f.index else 0, f.data)
  }

  function HeadBytes(f: Frame): (s: seq<byte>)
    requires FrameOk(f)
    ensures |s| == 3
  {
    [f.reliability * 32 + (if f.fragmented then 16 else 0)] + Be(8 * |f.data|, 2)
  }

  function ReliableBytes(f: Frame): seq<byte> {
    if IsReliable(f.reliability) then Le(f.reliableIndex, 3) else []
  }

  function SequencedBytes(f: Frame): seq<byte> {
    if IsSequenced(f.reliability) then Le(f.sequencedIndex, 3) else []
  }

  function OrderedBytes(f: Frame): seq<byte> {
    if IsOrdered(f.reliability) then Le(f.orderedIndex, 3) + [f.orderChannel % 256] else []
  }

  function CompoundBytes(f: Frame): seq<byte> {
    if f.fragmented then Be(f.compoundSize, 4) + Be(f.compoundId, 2) + Be(f.index, 4) else []
  }

  function FrameBytes(f: Frame): seq<byte>
    requires FrameOk(f)
  {
    HeadBytes(f) + ReliableBytes(f) + SequencedBytes(f) + OrderedBytes(f) + CompoundBytes(f) + f.data
  }

  /** What the sender reckons a frame takes. */
  function FrameSize(f: Frame): nat {
    3 + |f.data|
    + (if IsReliable(f.reliability) then 3 else 0)
    + (if IsSequenced(f.reliability) then 3 else 0)
    + (if IsOrdered(f.reliability) then 4 else 0)
    + (if f.fragmented then 10 else 0)
  }

  /** The reckoning is right. */
  lemma FrameSizeExact(f: Frame)
    requires FrameOk(f)
    ensures |FrameBytes(f)| == FrameSize(f)
  {
    hide Be, Le;
  }

  /** The low three bytes of a number, low byte first, and the low two and four, high byte first. */
  function Triad(v: nat): seq<byte> {
    [v % 256, v / 256 % 256, v / 65536 % 256]
  }

  function Pair(v: nat): seq<byte> {
    [v / 256 % 256, v % 256]
  }

  function Quad(v: nat): seq<byte> {
    [v / 0x100_0000 % 256, v / 65536 % 256, v / 256 % 256, v % 256]
  }

  /** What a frame of each kind carries between its head and its payload, and in which order. */
  function KindBytes(f: Frame): seq<byte> {
    var reliable, sequenced, ordered := Triad(f.reliableIndex), Triad(f.sequencedIndex), Triad(f.orderedIndex) + [f.orderChannel % 256];
    match f.reliability
    case 1 => sequenced + ordered
    case 2 => reliable
    case 3 => reliable + ordered
    case 4 => reliable + sequenced + ordered
    case 6 => reliable
    case 7 => reliable + ordered
    case _ => []
  }

  /** A frame byte by byte. */
  lemma FrameLayout(f: Frame)
    requires FrameOk(f)
    ensures FrameBytes(f) ==
      [32 * f.reliability + (if f.fragmented then 16 else 0)] + Pair(8 * |f.data|) + KindBytes(f)
      + (if f.fragmented then Quad(f.compoundSize) + Pair(f.compoundId) + Quad(f.index) else []) + f.data
    ensures |FrameBytes(f)| == 3 + [0, 7, 3, 7, 10, 0, 3, 7][f.reliability] + (if f.fragmented then 10 else 0) + |f.data|
  {
    hide Le, Be, FrameOk, KindBytes, ReliableBytes, SequencedBytes, OrderedBytes;
    KindLength(f);
    BeBytes2(8 * |f.data|);
    LeBytes3(f.reliableIndex);
    LeBytes3(f.sequencedIndex);
    LeBytes3(f.orderedIndex);
    BeBytes4(f.compoundSize);
    BeBytes2(f.compoundId);
    BeBytes4(f.index);
    FrameFits(f);
    FrameTail(f);
  }

  lemma KindLength(f: Frame)
    requires FrameOk(f)
    ensures f.reliability < 8 && |KindBytes(f)| == [0, 7, 3, 7, 10, 0, 3, 7][f.reliability]
  {
  }

  lemma FrameFits(f: Frame)
    requires FrameOk(f)
    ensures f.reliability < 8
  {
  }

  /** The indices and the place in the compound, put together. */
  lemma FrameTail(f: Frame)
    requires f.reliability < 8
    requires forall v: nat :: v in {f.reliableIndex, f.sequencedIndex, f.orderedIndex} ==> Le(v, 3) == Triad(v)
    ensures ReliableBytes(f) + SequencedBytes(f) + OrderedBytes(f) == KindBytes(f)
  {
  }

  method PutFrame(s: BinaryStream, f: Frame)
    requires FrameOk(f)
    modifies s`buffer
    ensures s.buffer == old(s.buffer) + FrameBytes(f)
  {
    hide HeadBytes, ReliableBytes, SequencedBytes, OrderedBytes, CompoundBytes;
    ghost var start := s.buffer;
    PutHead(s, f);
    PutIndices(s, f);
    PutCompound(s, f);
    PutData(s, f.data);
    ghost var a, b, c, d := HeadBytes(f), ReliableBytes(f) + SequencedBytes(f) + OrderedBytes(f), CompoundBytes(f), f.data;
    assert start + a + b + c + d == start + (a + b + c + d);
    assert a + b == a + ReliableBytes(f) + SequencedBytes(f) + OrderedBytes(f);
  }

  method PutCompound(s: BinaryStream, f: Frame)
    modifies s`buffer
    ensures s.buffer == old(s.buffer) + CompoundBytes(f)
  {
    hide Be;
    if f.fragmented {
      s.PutIntBe(f.compoundSize);
      s.PutShortBe(f.compoundId);
      s.PutIntBe(f.index);
    }
  }

  method PutData(s: BinaryStream, data: seq<byte>)
    modifies s`buffer
    ensures s.buffer == old(s.buffer) + data
  {
    var i := 0;
    while i < |data|
      invariant i <= |data| && s.buffer == old(s.buffer) + data[..i]
    {
      s.PutByte(data[i]);
      i := i + 1;
    }
    assert data[..i] == data;
  }

  method PutHead(s: BinaryStream, f: Frame)
    requires FrameOk(f)
    modifies s`buffer
    ensures s.buffer == old(s.buffer) + HeadBytes(f)
  {
    hide Be;
    s.PutByte(f.reliability * 32 + (if f.fragmented then 16 else 0));
    s.PutShortBe(|f.data| * 8);
  }

  method PutIndices(s: BinaryStream, f: Frame)
    modifies s`buffer
    ensures s.buffer == old(s.buffer) + (ReliableBytes(f) + SequencedBytes(f) + OrderedBytes(f))
  {
    hide Le;
    if IsReliable(f.reliability) {
      s.PutTriadLe(f.reliableIndex);
    }
    if IsSequenced(f.reliability) {
      s.PutTriadLe(f.sequencedIndex);
    }
    if IsOrdered(f.reliability) {
      s.PutTriadLe(f.orderedIndex);
      s.PutByte(f.orderChannel);
    }
  }

  lemma ReadLe(x: nat, n: nat, rest: seq<byte>, ahead: seq<byte>)
    ensures ahead == Le(x, n) + rest && x < Pow256(n) ==> FromLe(ahead[..n]) == x && ahead[n..] == rest
  {
    if ahead == Le(x, n) + rest && x < Pow256(n) {
      LeRoundTrip(x, n);
      assert ahead[..n] == Le(x, n);
    }
  }

  lemma ReadBe(x: nat, n: nat, rest: seq<byte>, ahead: seq<byte>)
    ensures ahead == Be(x, n) + rest && x < Pow256(n) ==> FromBe(ahead[..n]) == x && ahead[n..] == rest
  {
    if ahead == Be(x, n) + rest && x < Pow256(n) {
      BeRoundTrip(x, n);
      assert ahead[..n] == Be(x, n);
    }
  }

  /** The parts of a frame that are still ahead, the rest of the packet behind them. */
  function IndicesAhead(f: Frame, rest: seq<byte>): seq<byte> {
    ReliableBytes(f) + (SequencedBytes(f) + (OrderedBytes(f) + CompoundAhead(f, rest)))
  }

  function CompoundAhead(f: Frame, rest: seq<byte>): seq<byte> {
    CompoundBytes(f) + (f.data + rest)
  }

  lemma FrameParts(f: Frame, rest: seq<byte>)
    requires FrameOk(f)
    ensures FrameBytes(f) + rest == HeadBytes(f) + IndicesAhead(f, rest)
  {
    hide HeadBytes, ReliableBytes, SequencedBytes, OrderedBytes, CompoundBytes;
    var a, b, c, d, e := HeadBytes(f), ReliableBytes(f), SequencedBytes(f), OrderedBytes(f), CompoundBytes(f);
    assert a + b + c + d + e + f.data + rest == a + (b + (c + (d + (e + (f.data + rest)))));
  }

  /** The flag byte and the length in bits. */
  method GetHead(s: BinaryStream, ghost f: Frame, ghost rest: seq<byte>) returns (reliability: nat, fragmented: bool, size: nat)
    requires s.Valid() && FrameOk(f) && s.Ahead() == HeadBytes(f) + rest
    modifies s`offset
    ensures s.Valid() && s.Ahead() == rest
    ensures reliability == f.reliability && fragmented == f.fragmented && size == |f.data|
  {
    hide Be, FromBe, Pow256;
    ByteSizes();
    ghost var lenBytes := Be(8 * |f.data|, 2);
    ghost var flags0 := f.reliability * 32 + (if f.fragmented then 16 else 0);
    assert [flags0 as byte] + lenBytes + rest == [flags0 as byte] + (lenBytes + rest);
    assert s.Ahead()[0] == flags0 && s.Ahead()[1..] == lenBytes + rest;
    var flags: nat := s.GetByte();
    ReadBe(8 * |f.data|, 2, rest, s.Ahead());
    var len := s.GetShortBe();
    reliability, fragmented, size := flags / 32, flags / 16 % 2 == 1, len / 8;
  }

  /** One three-byte index. */
  method GetIndex(s: BinaryStream, present: bool, ghost x: nat, ghost rest: seq<byte>) returns (v: nat)
    requires s.Valid() && s.Ahead() == (if present then Le(x, 3) else []) + rest && x < 0x100_0000
    modifies s`offset
    ensures s.Valid() && s.Ahead() == rest && v == if present then x else 0
  {
    hide Le, FromLe, Pow256;
    ByteSizes();
    v := 0;
    if present {
      ReadLe(x, 3, rest, s.Ahead());
      v := s.GetTriadLe();
    } else {
      assert [] + rest == rest;
    }
  }

  method GetOrder(s: BinaryStream, present: bool, ghost f: Frame, ghost rest: seq<byte>) returns (ordered: nat, channel: nat)
    requires s.Valid() && FrameOk(f) && present == IsOrdered(f.reliability) && s.Ahead() == OrderedBytes(f) + rest
    modifies s`offset
    ensures s.Valid() && s.Ahead() == rest
    ensures ordered == (if present then f.orderedIndex else 0) && channel == (if present then f.orderChannel else 0)
  {
    hide Le, FromLe, Pow256;
    ByteSizes();
    ordered, channel := 0, 0;
    if present {
      ghost var c: byte := f.orderChannel;
      assert Le(f.orderedIndex, 3) + [c] + rest == Le(f.orderedIndex, 3) + ([c] + rest);
      ReadLe(f.orderedIndex, 3, [c] + rest, s.Ahead());
      ordered := s.GetTriadLe();
      assert s.Ahead()[0] == c && s.Ahead()[1..] == rest;
      channel := s.GetByte();
    } else {
      assert [] + rest == rest;
    }
  }

  method GetCompound(s: BinaryStream, fragmented: bool, ghost f: Frame, ghost rest: seq<byte>) returns (size: nat, id: nat, index: nat)
    requires s.Valid() && FrameOk(f) && fragmented == f.fragmented && s.Ahead() == CompoundBytes(f) + rest
    modifies s`offset
    ensures s.Valid() && s.Ahead() == rest
    ensures size == (if fragmented then f.compoundSize else 0) && id == (if fragmented then f.compoundId else 0)
    ensures index == (if fragmented then f.index else 0)
  {
    hide Be, FromBe, Pow256;
    ByteSizes();
    size, id, index := 0, 0, 0;
    if fragmented {
      ghost var a, b, c := Be(f.compoundSize, 4), Be(f.compoundId, 2), Be(f.index, 4);
      assert a + b + c + rest == a + (b + (c + rest));
      ReadBe(f.compoundSize, 4, b + (c + rest), s.Ahead());
      size := s.GetIntBe();
      ReadBe(f.compoundId, 2, c + rest, s.Ahead());
      id := s.GetShortBe();
      ReadBe(f.index, 4, rest, s.Ahead());
      index := s.GetIntBe();
    } else {
      assert [] + rest == rest;
    }
  }

  /** Reads back a frame, but for the fields that were not sent. */
  method GetFrame(s: BinaryStream, ghost f: Frame, ghost rest: seq<byte>) returns (r: Frame)
    requires s.Valid() && FrameOk(f) && s.Ahead() == FrameBytes(f) + rest
    modifies s`offset
    ensures s.Valid() && s.Ahead() == rest && r == Visible(f)
  {
    hide Le, Be, FrameBytes, HeadBytes, OrderedBytes, CompoundBytes;
    FrameParts(f, rest);
    var reliability, fragmented, size := GetHead(s, f, IndicesAhead(f, rest));
    var reliable := GetIndex(s, IsReliable(reliability), f.reliableIndex, SequencedBytes(f) + (OrderedBytes(f) + CompoundAhead(f, rest)));
    var sequenced := GetIndex(s, IsSequenced(reliability), f.sequencedIndex, OrderedBytes(f) + CompoundAhead(f, rest));
    var ordered, channel := GetOrder(s, IsOrdered(reliability), f, CompoundAhead(f, rest));
    var compoundSize, compoundId, index := GetCompound(s, fragmented, f, f.data + rest);
    var data := GetData(s, size, f.data, rest);
    r := Frame(reliability, fragmented, reliable, sequenced, ordered, channel, compoundSize, compoundId, index, data);
  }

  method GetData(s: BinaryStream, size: nat, ghost data: seq<byte>, ghost rest: seq<byte>) returns (d: seq<byte>)
    requires s.Valid() && size == |data| && s.Ahead() == data + rest
    modifies s`offset
    ensures s.Valid() && s.Ahead() == rest && d == data
  {
    assert s.Ahead()[..size] == data && s.Ahead()[size..] == rest;
    d := s.GetBytes(size);
  }

  predicate FramesOk(frames: seq<Frame>) {
    forall i :: 0 <= i < |frames| ==> FrameOk(frames[i])
  }

  function FramesBytes(frames: seq<Frame>): seq<byte>
    requires FramesOk(frames)
  {
    if frames == [] then [] else FramesBytes(frames[..|frames| - 1]) + FrameBytes(frames[|frames| - 1])
  }

  function FramesSize(frames: seq<Frame>): nat {
    if frames == [] then 0 else FramesSize(frames[..|frames| - 1]) + FrameSize(frames[|frames| - 1])
  }

  function Visibles(frames: seq<Frame>): (r: seq<Frame>)
    ensures |r| == |frames| && forall i :: 0 <= i < |r| ==> r[i] == Visible(frames[i])
  {
    seq(|frames|, i requires 0 <= i < |frames| => Visible(frames[i]))
  }

  lemma {:induction false} FramesBytesCons(frames: seq<Frame>)
    requires FramesOk(frames) && frames != []
    ensures FramesBytes(frames) == FrameBytes(frames[0]) + FramesBytes(frames[1..])
  {
    hide FrameBytes, FrameOk;
    var n := |frames| - 1;
    if n == 0 {
      assert frames[..0] == [] && frames[1..] == [];
    } else {
      FramesBytesCons(frames[..n]);
      assert frames[..n][1..] == frames[1..][..n - 1];
    }
  }

  lemma {:induction false} FramesSizeExact(frames: seq<Frame>)
    requires FramesOk(frames)
    ensures |FramesBytes(frames)| == FramesSize(frames)
  {
    hide FrameBytes, FrameOk, FrameSize;
    if frames != [] {
      FramesSizeExact(frames[..|frames| - 1]);
      FrameSizeExact(frames[|frames| - 1]);
    }
  }

  datatype FrameSet = FrameSet(sequenceNumber: nat, frames: seq<Frame>)

  predicate FrameSetOk(fs: FrameSet) {
    fs.sequenceNumber < 0x100_0000 && FramesOk(fs.frames)
  }

  function FrameSetBytes(fs: FrameSet): seq<byte>
    requires FrameSetOk(fs)
  {
    [ID_FRAME_SET as byte] + Le(fs.sequenceNumber, 3) + FramesBytes(fs.frames)
  }

  /** A frame set takes four bytes and what its frames take. */
  lemma FrameSetSize(fs: FrameSet)
    requires FrameSetOk(fs)
    ensures |FrameSetBytes(fs)| == 4 + FramesSize(fs.frames)
  {
    hide FramesBytes, FramesSize;
    FramesSizeExact(fs.frames);
  }

  /** A frame set byte by byte: its id, its number, low byte first, and the frames one after the other. */
  lemma FrameSetLayout(fs: FrameSet)
    requires FrameSetOk(fs)
    ensures fs.frames == [] ==> FrameSetBytes(fs) == [0x80] + Triad(fs.sequenceNumber)
    ensures fs.frames != [] ==>
      && FrameSetOk(fs.(frames := fs.frames[..|fs.frames| - 1]))
      && FrameSetBytes(fs) == FrameSetBytes(fs.(frames := fs.frames[..|fs.frames| - 1])) + FrameBytes(fs.frames[|fs.frames| - 1])
  {
    hide FrameBytes, FrameOk, Le;
    LeBytes3(fs.sequenceNumber);
    assert ID_FRAME_SET as byte == 0x80;
  }

  method PutFrameSet(s: BinaryStream, fs: FrameSet)
    requires FrameSetOk(fs)
    modifies s`buffer
    ensures s.buffer == old(s.buffer) + FrameSetBytes(fs)
  {
    hide Le, FrameBytes, FrameOk;
    ghost var start := s.buffer;
    s.PutByte(ID_FRAME_SET);
    s.PutTriadLe(fs.sequenceNumber);
    ghost var head := s.buffer;
    var i := 0;
    while i < |fs.frames|
      invariant i <= |fs.frames| && s.buffer == head + FramesBytes(fs.frames[..i])
    {
      assert fs.frames[..i + 1][..i] == fs.frames[..i];
      PutFrame(s, fs.frames[i]);
      i := i + 1;
    }
    assert fs.frames[..i] == fs.frames;
    assert s.buffer == start + FrameSetBytes(fs);
  }

  /** Reads frames until the packet ends, and gets back exactly the frames of the set. */
  method GetFrameSet(s: BinaryStream, ghost fs: FrameSet) returns (r: FrameSet)
    requires s.Valid() && FrameSetOk(fs) && s.Ahead() == FrameSetBytes(fs)
    modifies s`offset
    ensures s.Valid() && s.Ahead() == [] && r == FrameSet(fs.sequenceNumber, Visibles(fs.frames))
  {
    hide Le, FromLe, FrameBytes, FrameOk, Visible, FramesBytes, Pow256;
    ghost var first: seq<byte> := [ID_FRAME_SET as byte];
    assert first + Le(fs.sequenceNumber, 3) + FramesBytes(fs.frames) == first + (Le(fs.sequenceNumber, 3) + FramesBytes(fs.frames));
    assert s.Ahead()[1..] == Le(fs.sequenceNumber, 3) + FramesBytes(fs.frames);
    var id := s.GetByte();
    ByteSizes();
    ReadLe(fs.sequenceNumber, 3, FramesBytes(fs.frames), s.Ahead());
    var sequenceNumber := s.GetTriadLe();
    var frames := GetFrames(s, fs.frames);
    r := FrameSet(sequenceNumber, frames);
  }

  method GetFrames(s: BinaryStream, ghost all: seq<Frame>) returns (frames: seq<Frame>)
    requires s.Valid() && FramesOk(all) && s.Ahead() == FramesBytes(all)
    modifies s`offset
    ensures s.Valid() && s.Ahead() == [] && frames == Visibles(all)
  {
    hide FrameBytes, FrameOk, Visible;
    frames := [];
    ghost var k := 0;
    assert all[0..] == all;
    while s.offset < |s.buffer|
      invariant s.Valid() && k <= |all| && s.Ahead() == FramesBytes(all[k..])
      invariant |frames| == k && forall i :: 0 <= i < k ==> frames[i] == Visible(all[i])
      decreases |all| - k
    {
      MoreFrames(all, k);
      ghost var rest := FramesBytes(all[k + 1..]);
      var f := GetFrame(s, all[k], rest);
      frames := frames + [f];
      k := k + 1;
    }
    NoMoreFrames(all, k);
  }

  lemma MoreFrames(all: seq<Frame>, k: nat)
    requires FramesOk(all) && k <= |all| && FramesBytes(all[k..]) != []
    ensures k < |all| && FrameOk(all[k]) && FramesBytes(all[k..]) == FrameBytes(all[k]) + FramesBytes(all[k + 1..])
  {
    hide FrameBytes;
    if k < |all| {
      FramesBytesCons(all[k..]);
      assert all[k..][1..] == all[k + 1..];
    }
  }

  /** Every frame takes at least three bytes, so none is left when no byte is. */
  lemma NoMoreFrames(all: seq<Frame>, k: nat)
    requires FramesOk(all) && k <= |all| && FramesBytes(all[k..]) == []
    ensures k == |all|
  {
    hide FrameBytes;
    if k < |all| {
      FramesBytesCons(all[k..]);
      FrameSizeExact(all[k]);
    }
  }
}
