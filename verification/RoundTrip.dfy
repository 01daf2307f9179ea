/**
 * Compressor and decompressor together: whatever is compressed, in whatever
 * pieces, with whatever flushes between them and with whatever settings, is what
 * decompression gives back; the compressed bytes go to an output function or into
 * buffers of any sizes.
 */
module RoundTrips {
  import opened Bits
  import opened BitIO
  import opened Lz
  import opened Blocks
  import opened StreamEnds
  import opened StreamGrowth
  import opened Compressors
  import opened Deflaters
  import opened Decoding
  import opened TableReaders
  import opened Inflaters
  import opened Streams
  import opened StreamReaders
  import opened Adlers
  import opened Sinks

  /** One call of the compressor; the size is that of the output buffer, if there is one. */
  datatype Call = Call(src: seq<byte>, size: nat, flush: Flush)

  /** One of the calls finishes the stream; those behind it are refused. */
  predicate Closed(calls: seq<Call>) {
    exists i :: 0 <= i < |calls| && calls[i].flush == Finish
  }

  /** The input that the calls took, each a piece of what it was offered. */
  ghost function Consumed(calls: seq<Call>, used: seq<nat>): seq<byte>
    requires Fits(calls, used)
  {
    if calls == [] then []
    else
      var n := |calls| - 1;
      Consumed(calls[..n], used[..n]) + calls[n].src[..used[n]]
  }

  ghost predicate Fits(calls: seq<Call>, used: seq<nat>) {
    |used| == |calls| && forall i :: 0 <= i < |calls| ==> used[i] <= |calls[i].src|
  }

  lemma ConsumedSnoc(calls: seq<Call>, i: nat, used: seq<nat>, u: nat)
    requires i < |calls| && Fits(calls[..i], used) && u <= |calls[i].src|
    ensures Fits(calls[..i + 1], used + [u])
    ensures Consumed(calls[..i + 1], used + [u]) == Consumed(calls[..i], used) + calls[i].src[..u]
  {
    assert calls[..i + 1][..i] == calls[..i] && (used + [u])[..i] == used;
  }

  /** With an output function: all input of the calls that are not refused. */
  function Input(calls: seq<Call>): seq<byte> {
    if calls == [] then []
    else
      var before := calls[..|calls| - 1];
      Input(before) + if Closed(before) then [] else calls[|calls| - 1].src
  }

  /** And what the last of the calls returns. */
  function Returned(calls: seq<Call>): Status
    requires calls != []
  {
    var before, call := calls[..|calls| - 1], calls[|calls| - 1];
    if Closed(before) then BadParam else if call.flush == Finish then Done else Okay
  }

  /** The calls return these statuses. */
  ghost predicate Statuses(calls: seq<Call>, st: seq<Status>) {
    |st| == |calls| && forall i :: 0 <= i < |st| ==> st[i] == Returned(calls[..i + 1])
  }

  lemma StatusesSnoc(calls: seq<Call>, i: nat, st: seq<Status>, s: Status)
    requires i < |calls| && Statuses(calls[..i], st) && s == Returned(calls[..i + 1])
    ensures Statuses(calls[..i + 1], st + [s])
  {
    hide Returned;
    forall k | 0 <= k < i + 1 ensures (st + [s])[k] == Returned(calls[..i + 1][..k + 1]) {
      assert calls[..i + 1][..k + 1] == calls[..k + 1];
      assert k < i ==> calls[..i][..k + 1] == calls[..k + 1];
    }
  }

  datatype Settings = Settings(probes: nat, greedy: bool, filterMatches: bool, rleMatches: bool, rawBlocks: bool, forceStatic: bool, zlib: bool, buffered: bool)

  /** A finished compressor has put out a whole stream for its input. */
  lemma FinishedStream(d: Deflater)
    requires d.Valid() && d.Over()
    ensures WholeStream(d.zlib, ZLIB_HEADER, d.blocks, d.sink.taken) && StreamExpand(d.blocks, []) == d.p.d.source
  {
    hide Stream, BytesToBits, StreamOk, StreamExpand, Adler, AdlerBytes;
    BlocksAllOk(d.blocks, []);
    OwnHeader(d.zlib, d.blocks);
    assert d.sink.taken + [] == d.sink.taken;
    EndBitsSame(d.zlib, d.adler, Adler(ADLER_INIT, d.p.d.source), |Stream(d.zlib, d.blocks, true)|);
  }

  lemma EndBitsSame(zlib: bool, a: uint32, b: uint32, pos: nat)
    requires zlib ==> a == b
    ensures EndBits(zlib, a, pos) == EndBits(zlib, b, pos)
  {
  }

  lemma ClosedSnoc(calls: seq<Call>, i: nat)
    requires i < |calls|
    ensures calls[..i + 1][..i] == calls[..i] && calls[..i + 1][i] == calls[i]
    ensures Closed(calls[..i + 1]) <==> Closed(calls[..i]) || calls[i].flush == Finish
    ensures Input(calls[..i + 1]) == Input(calls[..i]) + if Closed(calls[..i]) then [] else calls[i].src
    ensures Returned(calls[..i + 1]) == if Closed(calls[..i]) then BadParam else if calls[i].flush == Finish then Done else Okay
  {
    var more := calls[..i + 1];
    assert more[..i] == calls[..i] && more[i] == calls[i];
    if Closed(calls[..i]) {
      var k :| 0 <= k < i && calls[..i][k].flush == Finish;
      assert more[k].flush == Finish;
    }
    if Closed(more) {
      var k :| 0 <= k < |more| && more[k].flush == Finish;
      assert k < i ==> calls[..i][k].flush == Finish;
    }
  }

  /** What the calls amount to when there is an output function. */
  ghost predicate Direct(calls: seq<Call>, st: seq<Status>, source: seq<byte>, finished: bool, okay: bool) {
    Statuses(calls, st) && source == Input(calls) && finished == Closed(calls) && okay == !finished
  }

  lemma DirectSnoc(calls: seq<Call>, i: nat, st: seq<Status>, source: seq<byte>, finished: bool, okay: bool,
                   s: Status, source': seq<byte>, finished': bool, okay': bool)
    requires i < |calls| && Direct(calls[..i], st, source, finished, okay)
    requires if okay then source' == source + calls[i].src && finished' == (calls[i].flush == Finish) == (s == Done) && (s == Done || s == Okay)
             else s == BadParam && source' == source && finished' == finished
    requires okay ==> okay' == !finished'
    requires !okay ==> !okay'
    ensures Direct(calls[..i + 1], st + [s], source', finished', okay')
  {
    hide Closed, Input, Returned, Statuses;
    ClosedSnoc(calls, i);
    StatusesSnoc(calls, i, st, s);
  }

  lemma NoCalls()
    ensures Fits([], []) && Consumed([], []) == [] && Direct([], [], [], false, true) && !Closed([])
  {
  }

  /** Makes the calls. */
  method Feed(d: Deflater, calls: seq<Call>) returns (st: seq<Status>, used: seq<nat>)
    requires d.Valid() && d.status == Okay && d.p.d.source == [] && !d.wantsToFinish
    modifies d.Repr()
    ensures d.Valid() && Fits(calls, used) && d.p.d.source == Consumed(calls, used)
    ensures |st| == |calls| && (Done in st ==> d.Over())
    ensures !d.sink.buffered ==> Direct(calls, st, d.p.d.source, d.finished, d.status == Okay)
    ensures !Closed(calls) ==> d.status == Okay && !d.finished
  {
    hide Deflater.Valid, Deflater.Drained, Deflater.Repr, Closed, Input, Consumed, Fits, Statuses, Direct, Sink.All, Sink.Full, Deflater.Left,
      Deflater.Covered, Deflater.Separate, Deflater.Written, Deflater.Running, Deflater.Handed, Compressor.Valid, Adler, Deflater.Measure;
    st, used := [], [];
    NoCalls();
    d.ValidParts();
    assert calls[..0] == [];
    for i := 0 to |calls|
      invariant d.Valid() && Fits(calls[..i], used) && d.p.d.source == Consumed(calls[..i], used)
      invariant |st| == i && (Done in st ==> d.Over() && d.status != Okay)
      invariant !d.sink.buffered ==> Direct(calls[..i], st, d.p.d.source, d.finished, d.status == Okay)
      invariant !Closed(calls[..i]) ==> d.status == Okay && !d.finished && !d.wantsToFinish
    {
      var s, u := FeedOne(d, calls, i, st);
      ConsumedSnoc(calls, i, used, u);
      ClosedSnoc(calls, i);
      st, used := st + [s], used + [u];
    }
    assert calls[..|calls|] == calls;
  }

  /** Makes one call. */
  method FeedOne(d: Deflater, calls: seq<Call>, i: nat, ghost st: seq<Status>) returns (s: Status, u: nat)
    requires d.Valid() && i < |calls|
    requires !d.sink.buffered ==> Direct(calls[..i], st, d.p.d.source, d.finished, d.status == Okay)
    modifies d.Repr()
    ensures d.Valid() && u <= |calls[i].src| && d.p.d.source == old(d.p.d.source) + calls[i].src[..u] && s == d.status
    ensures (s == Done ==> d.Over()) && (old(d.status) != Okay ==> s == BadParam && d.Over() == old(d.Over()))
    ensures !d.sink.buffered ==> Direct(calls[..i + 1], st + [s], d.p.d.source, d.finished, d.status == Okay)
    ensures calls[i].flush != Finish && old(d.status == Okay && !d.finished && !d.wantsToFinish) ==>
      d.status == Okay && !d.finished && !d.wantsToFinish
  {
    hide Deflater.Valid, Deflater.Drained, Deflater.Repr, Direct, Sink.All, Sink.Full, Deflater.Left,
      Deflater.Covered, Deflater.Separate, Deflater.Written, Deflater.Running, Deflater.Handed, Compressor.Valid, Adler, Deflater.Measure;
    d.ValidParts();
    ghost var source, finished, okay := d.p.d.source, d.finished, d.status == Okay;
    s, u := d.Compress(calls[i].src, calls[i].size, calls[i].flush);
    d.ValidParts();
    assert calls[i].src[..|calls[i].src|] == calls[i].src && source + [] == source;
    if !d.sink.buffered {
      DirectSnoc(calls, i, st, source, finished, okay, s, d.p.d.source, d.finished, d.status == Okay);
    }
  }

  lemma ClosedIsDone(calls: seq<Call>, st: seq<Status>, i: nat)
    requires Statuses(calls, st) && i < |calls| && calls[i].flush == Finish
    ensures Done in st
    decreases i
  {
    if j :| 0 <= j < i && calls[j].flush == Finish {
      ClosedIsDone(calls, st, j);
    } else {
      assert calls[..i + 1][..i] == calls[..i] && calls[..i + 1][i] == calls[i];
      assert st[i] == Returned(calls[..i + 1]);
    }
  }

  /**
   * Compresses the input of several calls. Once a call has returned that all is done, what was put out is
   * the whole stream of the input taken. With an output function it is clear what every call returns, and
   * nothing is left behind.
   */
  method CompressAll(s: Settings, calls: seq<Call>) returns (output: seq<byte>, st: seq<Status>, used: seq<nat>, ghost blocks: seq<Block>)
    ensures |st| == |calls| && Fits(calls, used)
    ensures Done in st ==> WholeStream(s.zlib, ZLIB_HEADER, blocks, output) && StreamExpand(blocks, []) == Consumed(calls, used)
    ensures !s.buffered ==> Statuses(calls, st) && Consumed(calls, used) == Input(calls) && (Closed(calls) ==> Done in st)
  {
    hide Deflater.Valid, Deflater.Drained, WholeStream, Consumed, Input, Fits, Statuses;
    var d := Create(s.probes, s.greedy, s.filterMatches, s.rleMatches, s.rawBlocks, s.forceStatic, s.zlib, s.buffered);
    st, used := Feed(d, calls);
    output, blocks := d.sink.taken, d.blocks;
    if d.Over() {
      FinishedStream(d);
    }
    if !s.buffered && Closed(calls) {
      ghost var i :| 0 <= i < |calls| && calls[i].flush == Finish;
      ClosedIsDone(calls, st, i);
    }
  }

  /** Repeats finishing calls with a buffer of some bytes until all is done: that always comes to an end. */
  method FinishAll(d: Deflater, src: seq<byte>, room: nat)
    requires d.Valid() && d.status == Okay && !d.finished && room > 0
    modifies d.Repr()
    ensures d.Valid() && d.Over() && d.p.d.source == old(d.p.d.source) + src
  {
    hide Deflater.Valid, Deflater.Drained, Deflater.Repr, Sink.All, Sink.Full, Deflater.Left,
      Deflater.Covered, Deflater.Separate, Deflater.Written, Deflater.Running, Deflater.Handed, Compressor.Valid, Adler;
    var rest := src;
    assert d.p.d.source + rest == old(d.p.d.source) + src;
    while d.status == Okay
      invariant d.Valid() && d.p.d.source + rest == old(d.p.d.source) + src && (d.finished ==> rest == [])
      invariant d.status != Okay ==> d.Over()
      decreases d.status == Okay, d.Measure(rest, 0), |d.sink.remaining|
    {
      MeasureOf(d, rest);
      var st, used := d.Compress(rest, room, Finish);
      assert rest[..used] + rest[used..] == rest;
      MeasureLeft(d, rest, used);
      rest := rest[used..];
      MeasureOf(d, rest);
    }
  }

  lemma MeasureOf(d: Deflater, src: seq<byte>)
    ensures d.Measure(src, 0) >= 0
  {
  }

  lemma MeasureLeft(d: Deflater, src: seq<byte>, used: nat)
    requires used <= |src|
    ensures d.Measure(src[used..], 0) == d.Measure(src, used)
  {
  }

  /** Compresses in several calls that do not finish, and then finishes. */
  method CompressInPieces(s: Settings, calls: seq<Call>, last: seq<byte>, room: nat)
    returns (output: seq<byte>, used: seq<nat>, ghost blocks: seq<Block>)
    requires !Closed(calls) && room > 0
    ensures Fits(calls, used) && WholeStream(s.zlib, ZLIB_HEADER, blocks, output) && StreamExpand(blocks, []) == Consumed(calls, used) + last
    ensures !s.buffered ==> Consumed(calls, used) == Input(calls)
  {
    hide Deflater.Valid, Deflater.Drained, WholeStream, Consumed, Input, Fits, Statuses, Closed;
    var d := Create(s.probes, s.greedy, s.filterMatches, s.rleMatches, s.rawBlocks, s.forceStatic, s.zlib, s.buffered);
    var st;
    st, used := Feed(d, calls);
    FinishAll(d, last, room);
    output, blocks := d.sink.taken, d.blocks;
    FinishedStream(d);
  }

  /**
   * Compresses with an output function or with buffers of any sizes, lets anything follow the stream, and
   * decompresses into a buffer with room for the input: all input taken comes back, and exactly the stream
   * is consumed.
   */
  method RoundTrip(s: Settings, calls: seq<Call>, last: seq<byte>, room: nat, trailing: seq<byte>, size: nat)
    returns (res: Outcome, result: seq<byte>, used: seq<nat>, consumed: nat, streamSize: nat)
    requires !Closed(calls) && room > 0
    ensures Fits(calls, used) && (!s.buffered ==> Consumed(calls, used) == Input(calls))
    ensures |Consumed(calls, used) + last| <= size ==>
      res.Success? && result == Consumed(calls, used) + last && consumed == streamSize
  {
    hide WholeStream, Closed, Input, Consumed, Fits, StreamExpand, Decompressed, Usual, Disjoint, Ahead, BytesToBits, BitReader.Valid, Inflater.Shape, Arrays;
    ghost var blocks;
    var output;
    output, used, blocks := CompressInPieces(s, calls, last, room);
    var d := new Inflater(output + trailing, size);
    res := Decompress(d, s.zlib);
    result, consumed, streamSize := d.out[..d.outCur], d.r.cur, |output|;
    if |Consumed(calls, used) + last| <= size {
      StreamRead(s.zlib, ZLIB_HEADER, blocks, output, trailing, output + trailing, size);
    }
  }

  /** The same for any calls at all, once one of them has returned that all is done; those behind it are refused. */
  method RoundTripOfCalls(s: Settings, calls: seq<Call>, trailing: seq<byte>, size: nat)
    returns (res: Outcome, result: seq<byte>, st: seq<Status>, used: seq<nat>, consumed: nat, streamSize: nat)
    ensures |st| == |calls| && Fits(calls, used)
    ensures Done in st && |Consumed(calls, used)| <= size ==>
      res.Success? && result == Consumed(calls, used) && consumed == streamSize
    ensures !s.buffered ==> Statuses(calls, st) && Consumed(calls, used) == Input(calls) && (Closed(calls) ==> Done in st)
  {
    hide WholeStream, Closed, Input, Consumed, Fits, Statuses, StreamExpand, Decompressed, Usual, Disjoint, Ahead, BytesToBits, BitReader.Valid,
      Inflater.Shape, Arrays;
    ghost var blocks;
    var output;
    output, st, used, blocks := CompressAll(s, calls);
    var d := new Inflater(output + trailing, size);
    res := Decompress(d, s.zlib);
    result, consumed, streamSize := d.out[..d.outCur], d.r.cur, |output|;
    if Done in st && |Consumed(calls, used)| <= size {
      StreamRead(s.zlib, ZLIB_HEADER, blocks, output, trailing, output + trailing, size);
    }
  }
}
