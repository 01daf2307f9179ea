/**
 * The decompressor: blocks of literals and matches into an output buffer that
 * holds everything decoded so far.
 */
module Inflaters {
  import opened Bits
  import opened BitIO
  import opened Lz
  import opened Symbols
  import opened HuffTables
  import opened Decoding
  import opened HuffDecoders
  import opened Blocks
  import opened TableReaders
  import opened StoredReaders

  lemma CopyBackStep(o: seq<byte>, dist: nat, k: nat)
    requires 1 <= dist <= |o|
    ensures CopyBack(o, dist, k + 1) == CopyBack(o, dist, k) + [CopyBack(o, dist, k)[|o| + k - dist]]
  {
  }

  /** Copies a match three bytes at a time; the result is the byte-by-byte copy, overlap or not. */
  method CopyMatch(out: array<byte>, outCur: nat, dist: nat, len: nat)
    requires 1 <= dist <= outCur && outCur + len <= out.Length
    modifies out
    ensures out[..outCur + len] == CopyBack(old(out[..outCur]), dist, len)
  {
    hide CopyBack;
    ghost var o := out[..outCur];
    NothingCopied(o, dist);
    var cur, src, counter := outCur, outCur - dist, len;
    while counter > 2
      invariant 0 <= counter <= len && cur == outCur + (len - counter) && src == cur - dist
      invariant out[..cur] == CopyBack(o, dist, len - counter)
    {
      CopyOne(out, cur, src, o, dist, len - counter);
      CopyOne(out, cur + 1, src + 1, o, dist, len - counter + 1);
      CopyOne(out, cur + 2, src + 2, o, dist, len - counter + 2);
      cur := cur + 3;
      src := src + 3;
      counter := counter - 3;
    }
    if counter > 0 {
      CopyOne(out, cur, src, o, dist, len - counter);
      if counter > 1 {
        CopyOne(out, cur + 1, src + 1, o, dist, len - counter + 1);
      }
    }
  }

  method CopyOne(out: array<byte>, to: nat, from: nat, ghost o: seq<byte>, ghost dist: nat, ghost k: nat)
    requires 1 <= dist <= |o| && to == |o| + k < out.Length && from == to - dist && out[..to] == CopyBack(o, dist, k)
    modifies out
    ensures out[..to + 1] == CopyBack(o, dist, k + 1)
  {
    CopyBackStep(o, dist, k);
    out[to] := out[from];
  }

  lemma NothingCopied(o: seq<byte>, dist: nat)
    requires 1 <= dist <= |o|
    ensures CopyBack(o, dist, 0) == o
  {
  }

  /** Copies a match as far as the output has room. */
  method CopyUntilFull(out: array<byte>, outCur: nat, dist: nat, len: nat) returns (cur: nat)
    requires 1 <= dist <= outCur && outCur + len > out.Length && outCur <= out.Length
    modifies out
    ensures cur == out.Length && out[..] == CopyBack(old(out[..outCur]), dist, out.Length - outCur)
  {
    hide CopyBack;
    ghost var o := out[..outCur];
    NothingCopied(o, dist);
    cur := outCur;
    while cur < out.Length
      invariant outCur <= cur <= out.Length && out[..cur] == CopyBack(o, dist, cur - outCur)
    {
      CopyOne(out, cur, cur - dist, o, dist, cur - outCur);
      cur := cur + 1;
    }
    assert out[..cur] == out[..];
  }

  /** Extra bits are read only where there are any. */
  method ReadExtra(r: BitReader, n: nat) returns (ok: bool, v: nat)
    requires r.Valid()
    modifies r
    ensures r.Valid()
    ensures Number(n, old(r.Remaining())) == if ok then Parsed(v, r.Remaining()) else Stop(InputEnded)
  {
    hide Ahead, BytesToBits;
    ok, v := true, 0;
    if n > 0 {
      ok, v := ReadNumber(r, n);
    }
  }

  method NewTables() returns (lt: HuffTable, dt: HuffTable, cl: HuffTable, lens: array<nat>)
    ensures Disjoint(lt, dt, cl, lens)
    ensures fresh(Arrays(lt)) && fresh(Arrays(dt)) && fresh(Arrays(cl)) && fresh(lens)
  {
    lens := new nat[LEN_CODES_SIZE](_ => 0);
    lt := new HuffTable();
    dt := new HuffTable();
    cl := new HuffTable();
  }

  class Inflater {
    const r: BitReader
    const lt: HuffTable
    const dt: HuffTable
    const cl: HuffTable
    const lenCodes: array<nat>
    const out: array<byte>
    var outCur: nat

    ghost predicate Shape()
      reads this
    {
      Disjoint(lt, dt, cl, lenCodes) && outCur <= out.Length
    }

    /** What is decoded so far. */
    ghost function Output(): seq<byte>
      reads this, out
      requires outCur <= out.Length
    {
      out[..outCur]
    }

    constructor (input: seq<byte>, size: nat)
      ensures Shape() && r.Valid() && r.input == input && r.Remaining() == BytesToBits(input) && outCur == 0 && out.Length == size
      ensures r.cur == 0 && r.numBits == 0
      ensures fresh(r) && fresh(out) && fresh(lenCodes) && fresh(Arrays(lt)) && fresh(Arrays(dt)) && fresh(Arrays(cl))
    {
      hide BitReader.Valid, BitReader.Remaining, BytesToBits, Disjoint;
      var t0, t1, t2, lens := NewTables();
      lt, dt, cl, lenCodes := t0, t1, t2, lens;
      r := new BitReader(input);
      out := new byte[size];
      outCur := 0;
    }

    /** Puts one byte out. */
    method Put(c: byte)
      requires outCur < out.Length
      modifies this`outCur, out
      ensures outCur == old(outCur) + 1 && Output() == old(Output()) + [c]
    {
      out[outCur] := c;
      outCur := outCur + 1;
    }

    /** Everything stands as this outcome says. */
    ghost predicate At(s: State, res: Outcome)
      reads this, out, r
      requires outCur <= out.Length && r.cur <= |r.input|
    {
      res == s.res && Output() == s.out && (res.Success? ==> r.Remaining() == s.rest)
    }

    /** How the tokens ahead will turn out. */
    ghost function Now(): State
      reads this, out, r, lt, dt
      requires outCur <= out.Length && r.cur <= |r.input| && |lt.sizes| <= 288 && |dt.sizes| <= 32
    {
      Tokens(lt.sizes, dt.sizes, Output(), out.Length, r.Remaining())
    }

    /** The same behind a symbol: a literal has been put out. */
    ghost function Then(sym: nat): State
      reads this, out, r, lt, dt
      requires outCur <= out.Length && r.cur <= |r.input| && |lt.sizes| <= 288 && |dt.sizes| <= 32 && sym < 288
    {
      if sym < 256 then Now() else Behind(lt.sizes, dt.sizes, sym, Output(), out.Length, r.Remaining())
    }

    /** Tables for tokens. */
    ghost predicate Ready()
      reads this, r, lt, lt.lookUp, lt.tree, dt, dt.lookUp, dt.tree
    {
      Shape() && r.Valid() && r.cur <= |r.input| && lt.Valid() && dt.Valid() && |lt.sizes| <= 288 && |dt.sizes| <= 32
    }

    /** One literal/length symbol by the careful path; a literal is put out. */
    method SlowStep() returns (res: Outcome, sym: nat)
      requires Ready()
      modifies r, this`outCur, out
      ensures Ready() && outCur >= old(outCur)
      ensures if res.Success? then sym < 288 && Then(sym) == old(Now()) else At(old(Now()), res)
      ensures res.Success? ==> |r.Remaining()| <= |old(r.Remaining())|
      ensures res.Success? ==> if sym < 256 then outCur > old(outCur) else |r.Remaining()| < |old(r.Remaining())|
    {
      hide HuffTable.Valid, Ahead, BytesToBits, Disjoint, Pow2, Symbol, Behind, Tokens;
      TokensStep(lt.sizes, dt.sizes, Output(), out.Length, r.Remaining());
      var ok;
      ok, sym := HuffDecode(r, lt);
      if !ok {
        return InputEnded, sym;
      }
      if sym < 256 {
        if outCur >= out.Length {
          return OutputFull, sym;
        }
        Put(sym);
      }
      res := Success;
    }

    /** Up to two literal/length symbols from one refill of the bit buffer; the second one only behind a literal. */
    method TakeTwo() returns (first: nat, second: nat, ghost between: seq<Bit>)
      requires r.Valid() && lt.Valid() && r.cur + 4 <= |r.input|
      modifies r
      ensures r.Valid() && Symbol(lt.sizes, old(r.Remaining())) == Parsed(first, between)
      ensures if first < 256 then Symbol(lt.sizes, between) == Parsed(second, r.Remaining()) else second == first && r.Remaining() == between
    {
      hide HuffTable.Valid, Ahead, BytesToBits, Pow2, Symbol;
      if r.numBits < 30 {
        r.ReadFour();
      }
      first := TakeSymbol(r, lt);
      between, second := r.Remaining(), first;
      if first >= 256 {
        return;
      }
      second := TakeSymbol(r, lt);
    }

    /** Two symbols at once; stops behind the first one if it is no literal. */
    method FastStep() returns (sym: nat)
      requires Ready() && r.cur + 4 <= |r.input| && outCur + 2 <= out.Length
      modifies r, this`outCur, out
      ensures Ready() && sym < 288 && |r.Remaining()| <= |old(r.Remaining())| && outCur >= old(outCur)
      ensures Then(sym) == old(Now())
      ensures if sym < 256 then outCur > old(outCur) else |r.Remaining()| < |old(r.Remaining())|
    {
      hide HuffTable.Valid, BitReader.Valid, Ahead, BytesToBits, Disjoint, Pow2, Symbol, Behind, Tokens;
      TokensStep(lt.sizes, dt.sizes, Output(), out.Length, r.Remaining());
      var first;
      ghost var between;
      first, sym, between := TakeTwo();
      InsideInput(r);
      if first >= 256 {
        return;
      }
      TokensStep(lt.sizes, dt.sizes, Output() + [first as byte], out.Length, between);
      Put(first);
      if sym >= 256 {
        return;
      }
      Put(sym);
    }

    /** Decodes literals up to the next match or the end of the block. */
    method DecodeLiterals() returns (res: Outcome, sym: nat)
      requires Ready()
      modifies r, this`outCur, out
      ensures Ready()
      ensures if res.Success? then 256 <= sym < 288 && Then(sym) == old(Now()) else At(old(Now()), res)
      ensures res.Success? ==> |r.Remaining()| < |old(r.Remaining())|
    {
      hide HuffTable.Valid, BitReader.Valid, Ahead, BytesToBits, Pow2, Disjoint, Tokens, Behind;
      ghost var all, total := Now(), |r.Remaining()|;
      sym, res := 0, Success;
      while sym < 256
        invariant Ready() && sym < 288 && |r.Remaining()| <= total && (sym >= 256 ==> |r.Remaining()| < total)
        invariant res.Success? && Then(sym) == all
        decreases |r.Remaining()| + out.Length - outCur, if sym < 256 then 1 else 0
      {
        if |r.input| - r.cur < 4 || out.Length - outCur < 2 {
          res, sym := SlowStep();
          if !res.Success? {
            return;
          }
        } else {
          sym := FastStep();
        }
      }
    }

    /** Reads the rest of a match: the extra bits of its length, and its distance. */
    method ReadMatch(sym: nat) returns (res: Outcome, len: nat, dist: nat)
      requires r.Valid() && dt.Valid() && |dt.sizes| <= 32 && 257 <= sym < 288
      modifies r
      ensures r.Valid()
      ensures MatchAt(dt.sizes, sym, old(r.Remaining())) == if res.Success? then Parsed(Copy(len, dist), r.Remaining()) else Stop(res)
    {
      hide HuffTable.Valid, Ahead, BytesToBits, Symbol, Number, Pow2;
      len, dist := 0, 0;
      var ok, v := ReadExtra(r, LENGTH_EXTRA[sym - 257]);
      if !ok {
        return InputEnded, len, dist;
      }
      len := LENGTH_BASE[sym - 257] + v;
      var dsym;
      ok, dsym := HuffDecode(r, dt);
      if !ok {
        return InputEnded, len, dist;
      }
      ok, v := ReadExtra(r, DIST_EXTRA[dsym]);
      if !ok {
        return InputEnded, len, dist;
      }
      dist := DIST_BASE[dsym] + v;
      res := Success;
    }

    /** Copies a match into the output; the distance must stay inside what is there. */
    method PutMatch(len: nat, dist: nat) returns (res: Outcome)
      requires Shape()
      modifies this`outCur, out
      ensures Shape() && outCur >= old(outCur)
      ensures if dist == 0 || dist > old(outCur) then res == Failed && Output() == old(Output())
        else if old(outCur) + len > out.Length then
          res == OutputFull && Output() == CopyBack(old(Output()), dist, out.Length - old(outCur))
        else res == Success && Output() == CopyBack(old(Output()), dist, len)
    {
      hide Disjoint, CopyBack;
      if dist == 0 || dist > outCur || outCur == 0 {
        return Failed;
      }
      if outCur + len > out.Length {
        outCur := CopyUntilFull(out, outCur, dist, len);
        assert out[..outCur] == out[..];
        return OutputFull;
      }
      CopyMatch(out, outCur, dist, len);
      outCur := outCur + len;
      res := Success;
    }

    /** Decodes the rest of a match and copies it. */
    method DecodeMatch(sym: nat) returns (res: Outcome)
      requires Ready() && 257 <= sym < 288
      modifies r, this`outCur, out
      ensures Ready()
      ensures if res.Success? then Now() == old(Then(sym)) && |r.Remaining()| <= |old(r.Remaining())| else At(old(Then(sym)), res)
    {
      hide HuffTable.Valid, Ahead, BytesToBits, Disjoint, CopyBack, MatchAt, Tokens, Behind;
      BehindStep(lt.sizes, dt.sizes, sym, Output(), out.Length, r.Remaining());
      var len, dist;
      res, len, dist := ReadMatch(sym);
      if !res.Success? {
        return;
      }
      res := PutMatch(len, dist);
    }

    /** Decodes the tokens of a block up to its end. */
    method DecodeTokens() returns (res: Outcome)
      requires Ready()
      modifies r, this`outCur, out
      ensures Ready() && At(old(Now()), res)
    {
      hide HuffTable.Valid, BitReader.Valid, Ahead, BytesToBits, Disjoint, Pow2, Tokens, Behind;
      ghost var all := Now();
      while true
        invariant Ready() && Now() == all
        decreases |r.Remaining()|
      {
        var sym;
        res, sym := DecodeLiterals();
        if !res.Success? {
          return;
        }
        if sym == END_OF_BLOCK {
          BehindStep(lt.sizes, dt.sizes, sym, Output(), out.Length, r.Remaining());
          return;
        }
        res := DecodeMatch(sym);
        if !res.Success? {
          return;
        }
      }
    }

    /** How n stored bytes ahead will turn out. */
    ghost function Bytes(n: nat): State
      reads this, out, r
      requires outCur <= out.Length && r.cur <= |r.input|
    {
      StoredBytes(n, Output(), out.Length, r.Remaining())
    }

    /** Copies the bytes that are still in the bit buffer. */
    method CopyBuffered(n: nat) returns (res: Outcome, left: nat)
      requires Shape() && r.Valid() && r.numBits % 8 == 0
      modifies r, this`outCur, out
      ensures Shape() && r.Valid() && (res.Success? ==> left == 0 || r.numBits == 0)
      ensures if res.Success? then Bytes(left) == old(Bytes(n)) else At(old(Bytes(n)), res)
    {
      hide Ahead, BytesToBits, Disjoint, Pow2, ToBits, Number, StoredBytes;
      ghost var all := Bytes(n);
      res, left := Success, n;
      while left > 0 && r.numBits > 0
        invariant Shape() && r.Valid() && r.numBits % 8 == 0 && res.Success? && Bytes(left) == all
        decreases left
      {
        BytesStep(left, Output(), out.Length, r.Remaining());
        var ok, c := WholeByte(r);
        if outCur >= out.Length {
          res := OutputFull;
          return;
        }
        Put(c);
        left := left - 1;
      }
    }

    /** Copies n input bytes to the output at once. */
    method CopyInput(n: nat)
      requires Shape() && r.Valid() && r.numBits == 0 && r.cur + n <= |r.input| && outCur + n <= out.Length
      modifies r`cur, this`outCur, out
      ensures Shape() && r.Valid() && r.cur == old(r.cur) + n && outCur == old(outCur) + n
      ensures Output() == old(Output()) + r.input[old(r.cur)..r.cur]
      ensures r.Remaining() == BytesToBits(r.input[r.cur..])
    {
      hide Ahead, BytesToBits, Disjoint, Pow2;
      ghost var before := Output();
      var from, to := r.cur, outCur;
      for i := 0 to n
        invariant r.Valid() && r.cur == from && outCur == to && r.numBits == 0 && out[..to + i] == before + r.input[from..from + i]
      {
        out[to + i] := r.input[from + i];
        assert r.input[from..from + i + 1] == r.input[from..from + i] + [r.input[from + i]];
      }
      BytesTaken(r, n);
      r.cur := r.cur + n;
      outCur := outCur + n;
    }

    /** Copies straight from the input. */
    method CopyDirect(n: nat) returns (res: Outcome)
      requires Shape() && r.Valid() && (n == 0 || r.numBits == 0)
      modifies r, this`outCur, out
      ensures Shape() && r.Valid() && At(old(Bytes(n)), res)
    {
      hide Ahead, BytesToBits, Disjoint, Pow2, Number, StoredBytes, BitReader.Valid;
      InsideInput(r);
      ghost var all := Bytes(n);
      var left: nat := n;
      res := Success;
      while left > 0
        invariant Shape() && r.Valid() && (left == 0 || r.numBits == 0) && res.Success? && r.cur <= |r.input| && Bytes(left) == all
      {
        BytesStep(left, Output(), out.Length, r.Remaining());
        BytesTaken(r, 0);
        if outCur >= out.Length {
          res := OutputFull;
          return;
        }
        if r.cur >= |r.input| {
          NoNumber(r.Remaining());
          res := InputEnded;
          return;
        }
        var k := Min(Min(out.Length - outCur, |r.input| - r.cur), left);
        ghost var from := r.cur;
        BytesRun(left, Output(), out.Length, r.input[from..], k);
        assert r.input[from..][..k] == r.input[from..from + k] && r.input[from..][k..] == r.input[from + k..];
        CopyInput(k);
        left := left - k;
      }
      BytesStep(0, Output(), out.Length, r.Remaining());
    }

    /** Reads a stored block. */
    method DecodeStored() returns (res: Outcome)
      requires Shape() && r.Valid()
      modifies r, this`outCur, out
      ensures Shape() && r.Valid() && At(old(StoredBlock(Output(), out.Length, r.Remaining())), res)
    {
      hide Ahead, BytesToBits, Disjoint, Pow2, ToBits, Aligned, StoredLength, StoredBytes;
      SkipToByte(r);
      var n;
      res, n := ReadStoredLength(r);
      if !res.Success? {
        return;
      }
      var left;
      res, left := CopyBuffered(n);
      if !res.Success? {
        return;
      }
      res := CopyDirect(left);
    }

    /** Reads one block. */
    method DecodeBlock() returns (res: Outcome, last: bool)
      requires Shape() && r.Valid()
      modifies r, this`outCur, out, lenCodes, Arrays(lt), Arrays(dt), Arrays(cl)
      ensures Shape() && r.Valid() && At(old(OneBlock(Output(), out.Length, r.Remaining())), res)
      ensures res.Success? ==> last == LastAhead(old(r.Remaining()))
    {
      hide Ahead, BytesToBits, Pow2, ToBits, Content, Disjoint, Number;
      LastIsLow(r.Remaining());
      var ok, x := ReadNumber(r, 3);
      last := x % 2 == 1;
      if !ok {
        return InputEnded, last;
      }
      res := DecodeContent(x / 2);
    }

    /** Reads what follows a block's type. */
    method DecodeContent(kind: nat) returns (res: Outcome)
      requires Shape() && r.Valid()
      modifies r, this`outCur, out, lenCodes, Arrays(lt), Arrays(dt), Arrays(cl)
      ensures Shape() && r.Valid() && At(old(Content(kind, Output(), out.Length, r.Remaining())), res)
    {
      hide Ahead, BytesToBits, Pow2, ToBits, Disjoint, HuffTable.Valid, Tokens, StoredBlock, DynamicCodes;
      if kind == 0 {
        res := DecodeStored();
      } else if kind == 1 || kind == 2 {
        res := DecodeCoded(kind == 1);
      } else {
        res := Failed;
      }
    }

    /** Reads a block of tokens, building its tables first. */
    method DecodeCoded(fixedCodes: bool) returns (res: Outcome)
      requires Shape() && r.Valid()
      modifies r, this`outCur, out, lenCodes, Arrays(lt), Arrays(dt), Arrays(cl)
      ensures Shape() && r.Valid() && At(old(Content(if fixedCodes then 1 else 2, Output(), out.Length, r.Remaining())), res)
    {
      hide Ahead, BytesToBits, Pow2, ToBits, HuffTable.Valid, Disjoint, Tokens, DynamicCodes;
      if fixedCodes {
        DisjointTables(lt, dt, cl, lenCodes);
        var ok := BuildFixedTables(lt, dt);
        res := if ok then Success else Failed;
      } else {
        res := ReadDynamicTables(r, lt, dt, cl, lenCodes);
      }
      if res.Success? {
        res := DecodeTokens();
      }
    }
  }

  /** The next symbol of a block, and what comes of it. */
  lemma TokensStep(lit: seq<nat>, dist: seq<nat>, out: seq<byte>, size: nat, ahead: seq<Bit>)
    requires |lit| <= 288 && |dist| <= 32 && |out| <= size
    ensures var s, p := Tokens(lit, dist, out, size, ahead), Symbol(lit, ahead);
      if p.Stop? then s.out == out && s.res == p.why
      else if p.value >= 256 then s == Behind(lit, dist, p.value, out, size, p.rest)
      else if |out| >= size then s.out == out && s.res == OutputFull
      else s == Tokens(lit, dist, out + [p.value as byte], size, p.rest)
  {
    hide Symbol, Behind;
  }

  lemma BehindStep(lit: seq<nat>, dist: seq<nat>, sym: nat, out: seq<byte>, size: nat, ahead: seq<Bit>)
    requires |lit| <= 288 && |dist| <= 32 && |out| <= size && 256 <= sym < 288
    ensures var s := Behind(lit, dist, sym, out, size, ahead);
      if sym == 256 then s == State(out, ahead, Success)
      else
        var p := MatchAt(dist, sym, ahead);
        if p.Stop? then s.out == out && s.res == p.why
        else if p.value.dist == 0 || p.value.dist > |out| then s.out == out && s.res == Failed
        else if |out| + p.value.len > size then s.out == CopyBack(out, p.value.dist, size - |out|) && s.res == OutputFull
        else s == Tokens(lit, dist, CopyBack(out, p.value.dist, p.value.len), size, p.rest)
  {
    hide MatchAt, Tokens;
  }

  /** The next of n stored bytes. */
  lemma BytesStep(n: nat, out: seq<byte>, size: nat, ahead: seq<Bit>)
    requires |out| <= size
    ensures var s, p := StoredBytes(n, out, size, ahead), Number(8, ahead);
      if n == 0 then s == State(out, ahead, Success)
      else if |out| >= size then s.out == out && s.res == OutputFull
      else if p.Stop? then s.out == out && s.res == p.why
      else p.value < 256 && s == StoredBytes(n - 1, out + [p.value as byte], size, p.rest)
  {
    hide Number;
    PowEight();
  }

  lemma InsideInput(r: BitReader)
    requires r.Valid()
    ensures r.cur <= |r.input|
  {
  }

  lemma NoNumber(ahead: seq<Bit>)
    requires |ahead| < 8
    ensures Number(8, ahead) == Stop(InputEnded)
  {
  }

  lemma ByteNumber(d: seq<byte>)
    requires d != []
    ensures Number(8, BytesToBits(d)) == Parsed(d[0], BytesToBits(d[1..]))
  {
    hide BytesToBits;
    BytesCons(d);
    PowEight();
    FromToBits(d[0], 8);
    assert BytesToBits(d)[..8] == ToBits(d[0], 8) && BytesToBits(d)[8..] == BytesToBits(d[1..]);
  }

  /** Several stored bytes at once. */
  lemma {:induction false} BytesRun(n: nat, out: seq<byte>, size: nat, d: seq<byte>, k: nat)
    requires k <= n && k <= |d| && |out| + k <= size
    ensures StoredBytes(n, out, size, BytesToBits(d)) == StoredBytes(n - k, out + d[..k], size, BytesToBits(d[k..]))
  {
    hide BytesToBits, StoredBytes, Number;
    if k == 0 {
      assert out + d[..0] == out && d[0..] == d;
    } else {
      BytesStep(n, out, size, BytesToBits(d));
      ByteNumber(d);
      BytesRun(n - 1, out + [d[0]], size, d[1..], k - 1);
      assert out + [d[0]] + d[1..][..k - 1] == out + d[..k] && d[1..][k - 1..] == d[k..];
    }
  }

  lemma LastIsLow(ahead: seq<Bit>)
    ensures var p := Number(3, ahead); p.Parsed? ==> (p.value % 2 == 1 <==> LastAhead(ahead))
  {
  }

  function Min(a: nat, b: nat): nat {
    if a < b then a else b
  }
}
