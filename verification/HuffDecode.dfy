/**
 * Decoding one Huffman symbol: the bit buffer is refilled without ever reading
 * an input byte that the code does not need.
 */
module HuffDecoders {
  import opened Bits
  import opened BitIO
  import opened Canonical
  import opened Trie
  import opened HuffTables
  import opened Decoding

  /** The first k bits of the buffer's fifteen are really there. */
  predicate Shows(bits: seq<Bit>, k: nat, ahead: seq<Bit>) {
    |bits| == MAX_CODE_SIZE && k <= MAX_CODE_SIZE && k <= |ahead| && bits[..k] == ahead[..k]
  }

  lemma CodeWithin(sizes: seq<nat>, s: nat, a: seq<Bit>, b: seq<Bit>, k: nat)
    requires Starts(sizes, s, a) && sizes[s] <= k <= |a| && k <= |b| && a[..k] == b[..k]
    ensures Starts(sizes, s, b)
  {
    hide CodeBits;
    var c := CodeBits(sizes, s);
    assert a[..k][..|c|] == c && b[..k][..|c|] == c;
  }

  lemma LeavesWithin(sizes: seq<nat>, n: nat, a: seq<Bit>, b: seq<Bit>, k: nat)
    requires Leaves(sizes, a, n) && n <= k <= |a| && k <= |b| && a[..k] == b[..k]
    ensures Leaves(sizes, b, n)
  {
    hide Inner;
    assert a[..n] == a[..k][..n] && b[..n] == b[..k][..n];
    assert a[..n - 1] == a[..k][..n - 1] && b[..n - 1] == b[..k][..n - 1];
  }

  lemma LeavesSoon(sizes: seq<nat>, bits: seq<Bit>, n: nat)
    requires Leaves(sizes, bits, n)
    ensures n <= MAX_CODE_SIZE
  {
  }

  /** Codes are left at one place only. */
  lemma LeavesOnce(sizes: seq<nat>, bits: seq<Bit>, n: nat, m: nat)
    requires Leaves(sizes, bits, n) && Leaves(sizes, bits, m)
    ensures n == m
  {
    hide Inner;
    if n < m {
      InnerUp(sizes, bits, n, m - 1);
    } else if m < n {
      InnerUp(sizes, bits, m, n - 1);
    }
  }

  /** Bits that leave the codes start with none. */
  lemma LeavesNoCode(sizes: seq<nat>, bits: seq<Bit>, n: nat, s: nat)
    requires KraftOk(sizes) && Leaves(sizes, bits, n) && Starts(sizes, s, bits)
    ensures sizes[s] == n
  {
    hide CodeBits, KraftOk;
    var c := CodeBits(sizes, s);
    assert |c| == sizes[s];
    if |c| < n {
      assert bits[..n - 1][..|c|] == c;
      InnerNotCovered(sizes, bits[..n - 1], s);
    }
  }

  lemma OneStarts(sizes: seq<nat>, bits: seq<Bit>, s: nat, t: nat)
    requires KraftOk(sizes) && Starts(sizes, s, bits) && Starts(sizes, t, bits)
    ensures s == t
  {
    hide CodeBits, KraftOk;
    CoversOnce(sizes, s, t, bits);
  }

  /** What the table gives for the buffer is the next symbol, if the bits it used are really there. */
  lemma SymbolMet(sizes: seq<nat>, ahead: seq<Bit>, bits: seq<Bit>, k: nat, sym: nat, len: nat)
    requires Accepted(sizes) && Meets(sizes, bits, sym, len) && Shows(bits, k, ahead)
    requires k == MAX_CODE_SIZE || 0 < len <= k
    ensures len <= k && Symbol(sizes, ahead) == Parsed(sym, ahead[len..])
  {
    hide CodeBits, KraftOk, Accepted, Inner, Starts, Leaves;
    AcceptedFits(sizes);
    if HasCode(sizes, bits) {
      MetCode(sizes, ahead, bits, k, sym, len);
    } else if GoesAstray(sizes, bits) {
      MetAstray(sizes, ahead, bits, k, len);
    } else {
      MetNothing(sizes, ahead, bits);
    }
  }

  lemma MetCode(sizes: seq<nat>, ahead: seq<Bit>, bits: seq<Bit>, k: nat, sym: nat, len: nat)
    requires KraftOk(sizes) && Starts(sizes, sym, bits) && len == sizes[sym] && Shows(bits, k, ahead)
    requires k == MAX_CODE_SIZE || len <= k
    ensures len <= k && Symbol(sizes, ahead) == Parsed(sym, ahead[len..])
  {
    hide CodeBits, KraftOk;
    CodeWithin(sizes, sym, bits, ahead, k);
    var s: nat :| Starts(sizes, s, ahead) && Symbol(sizes, ahead) == Parsed(s, ahead[sizes[s]..]);
    OneStarts(sizes, ahead, s, sym);
  }

  lemma MetAstray(sizes: seq<nat>, ahead: seq<Bit>, bits: seq<Bit>, k: nat, len: nat)
    requires KraftOk(sizes) && Leaves(sizes, bits, len) && !HasCode(sizes, bits) && Shows(bits, k, ahead)
    requires k == MAX_CODE_SIZE || len <= k
    ensures len <= k && Symbol(sizes, ahead) == Parsed(0, ahead[len..])
  {
    hide CodeBits, KraftOk, Inner, Leaves;
    LeavesSoon(sizes, bits, len);
    LeavesWithin(sizes, len, bits, ahead, k);
    if HasCode(sizes, ahead) {
      var s: nat :| Starts(sizes, s, ahead);
      LeavesNoCode(sizes, ahead, len, s);
      CodeWithin(sizes, s, ahead, bits, k);
      assert false;
    }
    AstrayIs(sizes, ahead, len);
  }

  lemma AstrayIs(sizes: seq<nat>, ahead: seq<Bit>, len: nat)
    requires Leaves(sizes, ahead, len) && !HasCode(sizes, ahead)
    ensures Symbol(sizes, ahead) == Parsed(0, ahead[len..])
  {
    hide Inner;
    var n: nat :| Leaves(sizes, ahead, n) && Symbol(sizes, ahead) == Parsed(0, ahead[n..]);
    LeavesOnce(sizes, ahead, n, len);
  }

  lemma MetNothing(sizes: seq<nat>, ahead: seq<Bit>, bits: seq<Bit>)
    requires !HasCode(sizes, bits) && !GoesAstray(sizes, bits) && Shows(bits, MAX_CODE_SIZE, ahead)
    ensures Symbol(sizes, ahead) == Parsed(0, ahead)
  {
    hide CodeBits, Inner, Leaves;
    forall s: nat ensures !Starts(sizes, s, ahead) {
      if Starts(sizes, s, ahead) {
        CodeWithin(sizes, s, ahead, bits, MAX_CODE_SIZE);
      }
    }
    forall n: nat ensures !Leaves(sizes, ahead, n) {
      if Leaves(sizes, ahead, n) {
        LeavesSoon(sizes, ahead, n);
        LeavesWithin(sizes, n, ahead, bits, MAX_CODE_SIZE);
      }
    }
  }

  /** Too few bits for any code. */
  lemma NoSymbol(sizes: seq<nat>, ahead: seq<Bit>, bits: seq<Bit>, k: nat)
    requires Shows(bits, k, ahead) && |ahead| == k < MAX_CODE_SIZE
    requires Tells(sizes, bits, k, false)
    ensures Symbol(sizes, ahead) == Stop(InputEnded)
  {
    hide CodeBits, Inner, Leaves;
    forall s: nat ensures !Starts(sizes, s, ahead) {
      if Starts(sizes, s, ahead) {
        CodeFits(sizes, s, ahead);
        CodeWithin(sizes, s, ahead, bits, k);
      }
    }
    forall n: nat ensures !Leaves(sizes, ahead, n) {
      if Leaves(sizes, ahead, n) {
        LeavesInside(sizes, ahead, n);
        LeavesWithin(sizes, n, ahead, bits, k);
      }
    }
  }

  lemma LeavesInside(sizes: seq<nat>, bits: seq<Bit>, n: nat)
    requires Leaves(sizes, bits, n)
    ensures n <= |bits|
  {
  }

  lemma CodeFits(sizes: seq<nat>, s: nat, bits: seq<Bit>)
    requires Starts(sizes, s, bits)
    ensures sizes[s] <= |bits|
  {
    assert |CodeBits(sizes, s)| == sizes[s];
  }

  /** What the bit buffer shows of the bits ahead. */
  lemma BufferShows(r: BitReader)
    requires r.Valid()
    ensures Shows(ToBits(r.bitBuf, MAX_CODE_SIZE), if r.numBits < MAX_CODE_SIZE then r.numBits else MAX_CODE_SIZE, r.Remaining())
  {
    hide ToBits, Ahead, BytesToBits, Pow2;
    var k := if r.numBits < MAX_CODE_SIZE then r.numBits else MAX_CODE_SIZE;
    r.BufferBits(k);
    ToBitsPrefix(r.bitBuf, MAX_CODE_SIZE, k);
    ToBitsLen(r.bitBuf, MAX_CODE_SIZE);
    RemainingLength(r);
  }

  lemma RemainingLength(r: BitReader)
    requires r.cur <= |r.input|
    ensures |r.Remaining()| == r.numBits + 8 * (|r.input| - r.cur)
  {
  }

  /** Reads bytes one at a time until the buffer holds a whole code; fails only when there is no symbol. */
  method FillForCode(r: BitReader, t: HuffTable) returns (ok: bool)
    requires r.Valid() && t.Valid() && r.numBits < MAX_CODE_SIZE
    modifies r
    ensures r.Valid() && r.Remaining() == old(r.Remaining())
    ensures ok ==> r.numBits >= MAX_CODE_SIZE || 0 < t.WalkedLen(r.bitBuf) <= r.numBits
    ensures !ok ==> Symbol(t.sizes, r.Remaining()) == Stop(InputEnded)
  {
    hide CodeBits, Ahead, BytesToBits, Pow2, HuffTable.Valid, Tells, HuffTable.WalkedLen, Symbol;
    ghost var ahead := r.Remaining();
    while true
      invariant r.Valid() && t.Valid() && r.Remaining() == ahead && r.numBits < MAX_CODE_SIZE
      decreases |r.input| - r.cur
    {
      hide ToBits;
      ok := t.TryDecode(r.bitBuf, r.numBits);
      if ok {
        return;
      }
      BufferShows(r);
      ghost var bits, k := ToBits(r.bitBuf, MAX_CODE_SIZE), r.numBits;
      ok := r.NeedByte();
      if !ok {
        RemainingLength(r);
        NoSymbol(t.sizes, ahead, bits, k);
        return;
      }
      if r.numBits >= MAX_CODE_SIZE {
        return;
      }
    }
  }

  /** Decodes one symbol from a buffer that holds enough bits. */
  method TakeSymbol(r: BitReader, t: HuffTable) returns (sym: nat)
    requires r.Valid() && t.Valid()
    requires r.numBits >= MAX_CODE_SIZE || 0 < t.WalkedLen(r.bitBuf) <= r.numBits
    modifies r`bitBuf, r`numBits
    ensures r.Valid() && r.numBits <= old(r.numBits) <= r.numBits + MAX_CODE_SIZE
    ensures Symbol(t.sizes, old(r.Remaining())) == Parsed(sym, r.Remaining())
  {
    hide CodeBits, Ahead, BytesToBits, Pow2, Starts, Leaves, Meets, HuffTable.WalkedLen, ToBits, Symbol, TrieOk, Accepted;
    BufferShows(r);
    ghost var ahead, bits, k := r.Remaining(), ToBits(r.bitBuf, MAX_CODE_SIZE), if r.numBits < MAX_CODE_SIZE then r.numBits else MAX_CODE_SIZE;
    var codeLen;
    sym, codeLen := t.Decode(r.bitBuf);
    SymbolMet(t.sizes, ahead, bits, k, sym, codeLen);
    r.DropBits(codeLen);
  }

  /** Decodes the next symbol; fails exactly when there is none. */
  method HuffDecode(r: BitReader, t: HuffTable) returns (ok: bool, sym: nat)
    requires r.Valid() && t.Valid()
    modifies r
    ensures r.Valid()
    ensures Symbol(t.sizes, old(r.Remaining())) == if ok then Parsed(sym, r.Remaining()) else Stop(InputEnded)
  {
    hide CodeBits, Ahead, BytesToBits, Pow2, HuffTable.Valid, HuffTable.WalkedLen, Symbol;
    ok, sym := true, 0;
    if r.numBits < MAX_CODE_SIZE {
      if |r.input| - r.cur < 2 {
        ok := FillForCode(r, t);
        if !ok {
          return;
        }
      } else {
        r.ReadTwo();
      }
    }
    sym := TakeSymbol(r, t);
  }
}
