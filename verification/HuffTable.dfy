/**
 * The decoder's Huffman table: built from code lengths, and read ten bits at a
 * time with an overflow tree for longer codes.
 */
module HuffTables {
  import opened Bits
  import opened Canonical
  import opened Trie
  import opened TreeBound

  const MAX_HUFF_SYMBOLS := 288

  /** Code lengths a table can be built from. */
  predicate Sizes(sizes: seq<nat>) {
    |sizes| <= MAX_HUFF_SYMBOLS && forall s :: 0 <= s < |sizes| ==> sizes[s] <= MAX_CODE_SIZE
  }

  /** The lengths the decoder accepts: a complete code, or at most one code. */
  predicate Accepted(sizes: seq<nat>) {
    Complete(sizes) || UsedCount(sizes) <= 1
  }

  lemma AcceptedFits(sizes: seq<nat>)
    requires Accepted(sizes)
    ensures KraftOk(sizes)
  {
    if UsedCount(sizes) <= 1 {
      FewFit(sizes);
    }
  }

  /** Room for one more node below an inner prefix. */
  lemma RoomForNode(sizes: seq<nat>, nodes: Nodes, p: seq<Bit>)
    requires Sizes(sizes) && Accepted(sizes) && NodesOk(sizes, nodes)
    requires p !in nodes && Inner(sizes, p) && HasParent(nodes, p)
    ensures 2 * |nodes| + 2 <= TREE_SIZE
  {
    hide Accepted, Inner, HasParent, Complete, UsedCount;
    GrowNodes(sizes, nodes, p);
    NodesFew(sizes, Grow(nodes, p));
  }

  lemma NodesFew(sizes: seq<nat>, nodes: Nodes)
    requires Sizes(sizes) && Accepted(sizes) && NodesOk(sizes, nodes)
    ensures |nodes| <= MAX_HUFF_SYMBOLS
  {
    hide NodesOk, Complete, UsedCount;
    if Complete(sizes) {
      CompleteNodes(sizes, nodes);
    } else {
      SingleNodes(sizes, nodes);
    }
  }

  lemma CodePrefixInner(sizes: seq<nat>, k: nat, j: nat)
    requires k < |sizes| && Long(sizes, k) && FAST_BITS <= j < sizes[k]
    ensures Inner(sizes, CodeBits(sizes, k)[..j])
  {
    hide CodeBits;
    assert CodeBits(sizes, k)[..j] < CodeBits(sizes, k);
  }

  /** An entry holds a short code iff its index has the code in its low bits. */
  lemma FillIndex(rev: nat, size: nat, i: nat)
    requires 1 <= size <= FAST_BITS && rev < Pow2(size) && i < FAST_SIZE
    ensures ToBits(rev, size) <= ToBits(i, FAST_BITS) <==> Low(i, size) == rev
  {
    assert Pow2(FAST_BITS) == FAST_SIZE by { assert Pow2(5) == 32; }
    ToBitsSplit(i, size, FAST_BITS - size);
    if ToBits(Low(i, size), size) == ToBits(rev, size) {
      ToBitsInjective(Low(i, size), rev, size);
    }
  }

  lemma NextMultiple(i: nat, cur: nat, rev: nat, size: nat)
    requires rev < Pow2(size) && Low(cur, size) == rev && Low(i, size) == rev && cur <= i < cur + Pow2(size)
    ensures i == cur
  {
    LowHigh(cur, size);
    LowHigh(i, size);
    var p := Pow2(size);
    if High(i, size) > High(cur, size) {
      MulAtLeast(p, High(cur, size) + 1, High(i, size));
    } else if High(i, size) < High(cur, size) {
      MulAtLeast(p, High(i, size) + 1, High(cur, size));
    }
  }

  lemma LowStep(cur: nat, size: nat)
    ensures Low(cur + Pow2(size), size) == Low(cur, size)
  {
    var p := Pow2(size);
    LowHigh(cur, size);
    QuotientUnique(cur + p, p, High(cur, size) + 1, Low(cur, size));
  }

  lemma LowSmall(v: nat, size: nat)
    requires v < Pow2(size)
    ensures Low(v, size) == v
  {
    QuotientUnique(v, Pow2(size), 0, v);
  }

  /** The running total of the first codes, one length beyond the longest. */
  lemma AcceptedTotal(sizes: seq<nat>)
    ensures Accepted(sizes) <==> FirstCode(sizes, 16) == 65536 || CountRange(sizes, 0, 15) <= 1
  {
    hide CountRange, Count;
    assert FirstCode(sizes, 16) == 2 * CodeEnd(sizes, 15);
    hide FirstCode, CodeEnd;
    assert Pow2(15) == 32768 by {
      Pow2Add(8, 7);
      assert Pow2(8) == 256 && Pow2(7) == 128;
    }
  }

  class HuffTable {
    const codeSize: array<nat>
    const lookUp: array<int>
    const tree: array<int>
    /** The lengths the table was last built from, and the nodes of its tree. */
    ghost var sizes: seq<nat>
    ghost var nodes: Nodes

    /** A table that Build has accepted. */
    ghost predicate Valid()
      reads this, lookUp, tree
    {
      && Shape() && Sizes(sizes) && Accepted(sizes)
      && TrieOk(sizes, |sizes|, nodes, lookUp[..], tree[..])
    }

    ghost predicate Shape() {
      && codeSize.Length == MAX_HUFF_SYMBOLS && lookUp.Length == FAST_SIZE && tree.Length == TREE_SIZE
      && lookUp != tree
    }

    constructor ()
      ensures Shape() && fresh(codeSize) && fresh(lookUp) && fresh(tree)
    {
      codeSize := new nat[MAX_HUFF_SYMBOLS](_ => 0);
      lookUp := new int[FAST_SIZE](_ => 0);
      tree := new int[TREE_SIZE](_ => 0);
    }

    method Clear()
      requires Shape()
      modifies lookUp, tree
      ensures forall i :: 0 <= i < FAST_SIZE ==> lookUp[i] == 0
      ensures forall i :: 0 <= i < TREE_SIZE ==> tree[i] == 0
    {
      for i := 0 to FAST_SIZE
        invariant forall j :: 0 <= j < i ==> lookUp[j] == 0
      {
        lookUp[i] := 0;
      }
      for i := 0 to TREE_SIZE
        invariant forall j :: 0 <= j < i ==> tree[j] == 0
        invariant forall j :: 0 <= j < FAST_SIZE ==> lookUp[j] == 0
      {
        tree[i] := 0;
      }
    }

    /** Counts the lengths and derives the first code of each; the table is refused unless the code is usable. */
    method FirstCodes(n: nat) returns (nextCode: array<nat>, ok: bool)
      requires Shape() && n <= MAX_HUFF_SYMBOLS && Sizes(codeSize[..n])
      ensures fresh(nextCode) && nextCode.Length == 17 && NextCodes(codeSize[..n], 0, MAX_CODE_SIZE, nextCode[..])
      ensures ok <==> Accepted(codeSize[..n])
    {
      hide Accepted, NextCodes;
      ghost var sizes := codeSize[..n];
      var totalSyms := CountSizes(n);
      nextCode := new nat[17](_ => 0);
      var usedSyms, total := 0, 0;
      CountRangeSplit(sizes, 0, 0, 15);
      for i := 1 to 16
        invariant total == FirstCode(sizes, i) && usedSyms == CountRange(sizes, 0, i - 1)
        invariant forall l :: 1 <= l <= i ==> nextCode[l] == FirstCode(sizes, l)
        invariant forall l :: 0 <= l < 16 ==> totalSyms[l] == Count(sizes, l)
      {
        CountRangeSplit(sizes, 0, i - 1, i);
        assert CountRange(sizes, i - 1, i) == Count(sizes, i);
        usedSyms := usedSyms + totalSyms[i];
        total := 2 * (total + totalSyms[i]);
        nextCode[i + 1] := total;
      }
      NextCodesStart(sizes, MAX_CODE_SIZE, nextCode[..]);
      AcceptedTotal(sizes);
      ok := total == 65536 || usedSyms <= 1;
    }

    method CountSizes(n: nat) returns (totalSyms: array<nat>)
      requires Shape() && n <= MAX_HUFF_SYMBOLS && Sizes(codeSize[..n])
      ensures fresh(totalSyms) && totalSyms.Length == 16
      ensures forall l :: 0 <= l < 16 ==> totalSyms[l] == Count(codeSize[..n], l)
    {
      totalSyms := new nat[16](_ => 0);
      ghost var sizes := codeSize[..n];
      for i := 0 to n
        invariant forall l :: 0 <= l < 16 ==> totalSyms[l] == Count(sizes[..i], l)
      {
        assert sizes[i] <= MAX_CODE_SIZE;
        assert sizes[..i + 1][..i] == sizes[..i];
        totalSyms[codeSize[i]] := totalSyms[codeSize[i]] + 1;
      }
      assert sizes[..n] == sizes;
    }

    /** Enters a code of at most ten bits at every look-up index that starts with it. */
    method InsertShort(ghost sizes: seq<nat>, sym: nat, size: nat, rev: nat)
      requires Shape() && sym < |sizes| && Short(sizes, sym) && sizes[sym] == size
      requires rev < Pow2(size) && ToBits(rev, size) == CodeBits(sizes, sym)
      modifies lookUp
      ensures forall i :: 0 <= i < FAST_SIZE ==> lookUp[i] == FilledEntry(sizes, sym, i, old(lookUp[i]))
    {
      hide CodeBits, KraftOk, Low, Pow2, ToBits;
      var k := 512 * size + sym;
      var step := Pow2(size);
      var cur := rev;
      LowSmall(rev, size);
      forall i | 0 <= i < rev ensures Low(i, size) == i {
        LowSmall(i, size);
      }
      while cur < FAST_SIZE
        invariant 0 <= cur && Low(cur, size) == rev
        invariant forall i :: 0 <= i < FAST_SIZE ==>
          lookUp[i] == if Low(i, size) == rev && i < cur then k else old(lookUp[i])
        decreases FAST_SIZE - cur
      {
        forall i | cur <= i < cur + step && Low(i, size) == rev ensures i == cur {
          NextMultiple(i, cur, rev, size);
        }
        lookUp[cur] := k;
        LowStep(cur, size);
        cur := cur + step;
      }
      forall i | 0 <= i < FAST_SIZE ensures lookUp[i] == FilledEntry(sizes, sym, i, old(lookUp[i])) {
        FillIndex(rev, size, i);
      }
    }

    /** The node for the first ten bits of a long code, made if it is not there yet. */
    method RootNode(ghost sizes: seq<nat>, sym: nat, rev: nat, treeNext: int, ghost nodes: Nodes)
      returns (treeCur: int, next: int, ghost nodes': Nodes)
      requires Shape() && Sizes(sizes) && Accepted(sizes) && TrieOk(sizes, sym, nodes, lookUp[..], tree[..])
      requires sym < |sizes| && Long(sizes, sym) && treeNext == Link(|nodes|)
      requires rev < Pow2(sizes[sym]) && ToBits(rev, sizes[sym]) == CodeBits(sizes, sym)
      modifies lookUp
      ensures TrieOk(sizes, sym, nodes', lookUp[..], tree[..])
      ensures next == Link(|nodes'|)
      ensures CodeBits(sizes, sym)[..FAST_BITS] in nodes' && treeCur == Link(nodes'[CodeBits(sizes, sym)[..FAST_BITS]])
    {
      hide CodeBits, KraftOk, Inner, TreeOk, Closed, Accepted;
      ghost var p := CodeBits(sizes, sym)[..FAST_BITS];
      ghost var size := sizes[sym];
      nodes', next := nodes, treeNext;
      var index := rev % FAST_SIZE;
      FastIndex(rev, size);
      assert FromBits(p) == index && ToBits(index, FAST_BITS) == p by { ToFromBits(p); }
      treeCur := lookUp[index];
      assert LookUpEntry(sizes, sym, nodes, index, treeCur);
      AcceptedFits(sizes);
      CodePrefixInner(sizes, sym, FAST_BITS);
      if treeCur == 0 {
        RoomForNode(sizes, nodes, p);
        AddRoot(sizes, sym, nodes, lookUp[..], tree[..], p);
        GrowNodes(sizes, nodes, p);
        lookUp[index] := treeNext;
        treeCur, next, nodes' := treeNext, treeNext - 2, Grow(nodes, p);
      } else {
        forall s | 0 <= s < sym && Short(sizes, s) ensures !(CodeBits(sizes, s) <= p) {
          InnerNotCovered(sizes, p, s);
        }
      }
    }

    /** One step down from a node: the child node is made if its slot is still empty. */
    method ChildNode(ghost sizes: seq<nat>, sym: nat, ghost q: seq<Bit>, bit: Bit, treeCur: int, treeNext: int, ghost nodes: Nodes)
      returns (child: int, next: int, ghost nodes': Nodes)
      requires Shape() && Sizes(sizes) && Accepted(sizes) && TrieOk(sizes, sym, nodes, lookUp[..], tree[..])
      requires sym < |sizes| && treeNext == Link(|nodes|)
      requires q in nodes && treeCur == Link(nodes[q]) && Inner(sizes, q + [bit])
      modifies tree
      ensures TrieOk(sizes, sym, nodes', lookUp[..], tree[..])
      ensures next == Link(|nodes'|)
      ensures q + [bit] in nodes' && child == Link(nodes'[q + [bit]])
      ensures forall p :: p in nodes ==> p in nodes'
    {
      hide CodeBits, KraftOk, Inner, LookUpOk, Closed, Accepted, HasParent;
      ghost var c := q + [bit];
      nodes', next := nodes, treeNext;
      var t := if bit then treeCur - 1 else treeCur;
      assert -t - 1 == Slot(nodes[q], bit);
      child := tree[-t - 1];
      assert TreeEntry(sizes, sym, nodes, c, child);
      AcceptedFits(sizes);
      if child == 0 {
        assert HasParent(nodes, c) by { ParentOfSnoc(nodes, q, bit); }
        RoomForNode(sizes, nodes, c);
        AddChild(sizes, sym, nodes, lookUp[..], tree[..], q, bit);
        GrowNodes(sizes, nodes, c);
        tree[-t - 1] := treeNext;
        child, next, nodes' := treeNext, treeNext - 2, Grow(nodes, c);
      } else {
        forall s | 0 <= s < sym && Long(sizes, s) ensures CodeBits(sizes, s) != c {
          InnerNotCovered(sizes, c, s);
        }
      }
    }

    /** Enters a code of more than ten bits: a path of nodes below its look-up entry, and a leaf. */
    method InsertLong(ghost sizes: seq<nat>, sym: nat, size: nat, revCode: nat, treeNext: int, ghost nodes: Nodes)
      returns (next: int, ghost nodes': Nodes)
      requires Shape() && Sizes(sizes) && Accepted(sizes) && TrieOk(sizes, sym, nodes, lookUp[..], tree[..])
      requires sym < |sizes| && Long(sizes, sym) && sizes[sym] == size && treeNext == Link(|nodes|)
      requires revCode < Pow2(size) && ToBits(revCode, size) == CodeBits(sizes, sym)
      modifies lookUp, tree
      ensures TrieOk(sizes, sym + 1, nodes', lookUp[..], tree[..])
      ensures next == Link(|nodes'|)
    {
      hide CodeBits, KraftOk, Inner, LookUpOk, TreeOk, Closed, Accepted, HasParent, ToBits, Pow2, NodesOk;
      ghost var code := CodeBits(sizes, sym);
      var treeCur;
      treeCur, next, nodes' := RootNode(sizes, sym, revCode, treeNext, nodes);
      var rev := High(revCode, FAST_BITS - 1);
      ghost var at := FAST_BITS;
      var j := size;
      while j > FAST_BITS + 1
        invariant FAST_BITS + 1 <= j <= size && at == FAST_BITS + size - j
        invariant TrieOk(sizes, sym, nodes', lookUp[..], tree[..]) && next == Link(|nodes'|)
        invariant code[..at] in nodes' && treeCur == Link(nodes'[code[..at]])
        invariant forall i :: FAST_BITS <= i <= at ==> code[..i] in nodes'
        invariant rev == High(revCode, at - 1)
      {
        NextBit(revCode, size, at);
        rev := rev / 2;
        CodePrefixInner(sizes, sym, at + 1);
        assert code[..at + 1] == code[..at] + [code[at]];
        treeCur, next, nodes' := ChildNode(sizes, sym, code[..at], rev % 2 == 1, treeCur, next, nodes');
        at := at + 1;
        j := j - 1;
      }
      NextBit(revCode, size, at);
      rev := rev / 2;
      if rev % 2 == 1 {
        treeCur := treeCur - 1;
      }
      assert code == code[..at] + [code[at]];
      AcceptedFits(sizes);
      NodeInTree(sizes, sym, nodes', lookUp[..], tree[..], code[..at]);
      AddLeaf(sizes, sym, nodes', lookUp[..], tree[..], code[..at], code[at]);
      tree[-treeCur - 1] := sym;
    }

    /** Enters one symbol. */
    method Insert(ghost sizes: seq<nat>, sym: nat, size: nat, code: nat, treeNext: int, ghost nodes: Nodes)
      returns (next: int, ghost nodes': Nodes)
      requires Shape() && Sizes(sizes) && Accepted(sizes) && TrieOk(sizes, sym, nodes, lookUp[..], tree[..])
      requires sym < |sizes| && Used(sizes, sym) && sizes[sym] == size && code == CodeValue(sizes, sym)
      requires treeNext == Link(|nodes|)
      modifies lookUp, tree
      ensures TrieOk(sizes, sym + 1, nodes', lookUp[..], tree[..])
      ensures next == Link(|nodes'|)
    {
      hide CodeValue, KraftOk, TrieOk, Accepted, ToBits, Pow2, MsbBits;
      var rev := ReverseCode(code, size);
      if size <= FAST_BITS {
        ghost var before := lookUp[..];
        InsertShort(sizes, sym, size, rev);
        AcceptedFits(sizes);
        AddShort(sizes, sym, nodes, before, tree[..], lookUp[..]);
        next, nodes' := treeNext, nodes;
      } else {
        next, nodes' := InsertLong(sizes, sym, size, rev, treeNext, nodes);
      }
    }

    /** Builds the table from the first n code lengths; fails exactly on an over-subscribed or incomplete code. */
    method Build(n: nat) returns (ok: bool)
      requires Shape() && n <= MAX_HUFF_SYMBOLS && Sizes(codeSize[..n])
      modifies this, lookUp, tree
      ensures ok <==> Accepted(codeSize[..n])
      ensures ok ==> Valid() && sizes == codeSize[..n]
    {
      hide KraftOk, TrieOk, Accepted;
      Clear();
      var nextCode;
      nextCode, ok := FirstCodes(n);
      sizes := codeSize[..n];
      if !ok {
        return;
      }
      nodes := map[];
      EmptyTrie(sizes, lookUp[..], tree[..]);
      var treeNext := -1;
      for sym := 0 to n
        invariant sizes == codeSize[..n] && NextCodes(sizes, sym, MAX_CODE_SIZE, nextCode[..])
        invariant TrieOk(sizes, sym, nodes, lookUp[..], tree[..]) && treeNext == Link(|nodes|)
      {
        var size := codeSize[sym];
        assert sizes[sym] == size <= MAX_CODE_SIZE;
        NextCodesStep(sizes, sym, MAX_CODE_SIZE, nextCode[..]);
        if size == 0 {
          SkipSymbol(sizes, sym, nodes, lookUp[..], tree[..]);
        } else {
          var curCode := nextCode[size];
          nextCode[size] := curCode + 1;
          treeNext, nodes := Insert(sizes, sym, size, curCode, treeNext, nodes);
        }
      }
    }

    /** Where decoding the bit buffer ends, whatever the bits are. */
    ghost function WalkedLen(bitBuf: nat): nat
      reads lookUp, tree
      requires lookUp.Length == FAST_SIZE
    {
      var e := lookUp[bitBuf % FAST_SIZE];
      if e >= 0 then e / 512 else WalkLen(tree[..], e, bitBuf, FAST_BITS)
    }

    /**
     * The symbol whose code starts the bit buffer, and the code's length. Never leaves the
     * tree, whatever the bits are; a bit pattern without a code gives symbol 0, and as many
     * bits as the tree goes along with it.
     */
    method Decode(bitBuf: nat) returns (sym: nat, codeLen: nat)
      requires Valid()
      ensures (sym < |sizes| || sym == 0) && codeLen <= MAX_CODE_SIZE && (codeLen == 0 ==> sym == 0)
      ensures codeLen == WalkedLen(bitBuf)
      ensures Meets(sizes, ToBits(bitBuf, MAX_CODE_SIZE), sym, codeLen)
    {
      hide TrieOk, Accepted, KraftOk, CodeBits, Sizes, Starts, ToBits, High, Meets;
      ghost var bits := ToBits(bitBuf, MAX_CODE_SIZE);
      var temp := lookUp[bitBuf % FAST_SIZE];
      DecodeFast(sizes, nodes, lookUp[..], tree[..], bitBuf);
      if temp >= 0 {
        codeLen, sym := temp / 512, temp % 512;
        FastMeets(sizes, nodes, lookUp[..], tree[..], bitBuf);
      } else {
        codeLen := FAST_BITS;
        while true
          invariant FAST_BITS <= codeLen < MAX_CODE_SIZE && WalkLen(tree[..], temp, bitBuf, codeLen) == WalkedLen(bitBuf)
          invariant bits[..codeLen] in nodes && temp == Link(nodes[bits[..codeLen]])
          decreases MAX_CODE_SIZE - codeLen
        {
          DecodeStep(sizes, nodes, lookUp[..], tree[..], bits, codeLen);
          BitAt(bitBuf, MAX_CODE_SIZE, codeLen);
          var bit := High(bitBuf, codeLen) % 2;
          assert -temp - 1 + bit == Slot(nodes[bits[..codeLen]], bits[codeLen]);
          TreeMeets(sizes, nodes, lookUp[..], tree[..], bits, codeLen);
          codeLen := codeLen + 1;
          temp := tree[-temp - 1 + bit];
          if temp >= 0 {
            break;
          }
        }
        sym := temp;
      }
    }

    /**
     * Whether the numBits bits in the buffer already hold a whole code. Exact for every code that
     * the real bits can still turn out to start with, so no input byte is read too early.
     */
    method TryDecode(bitBuf: nat, numBits: nat) returns (done: bool)
      requires Valid() && numBits < MAX_CODE_SIZE
      ensures done ==> 0 < WalkedLen(bitBuf) <= numBits
      ensures Tells(sizes, ToBits(bitBuf, MAX_CODE_SIZE), numBits, done)
    {
      hide TrieOk, Accepted, KraftOk, CodeBits, Sizes, Tells, ToBits, High;
      ghost var bits := ToBits(bitBuf, MAX_CODE_SIZE);
      var temp := lookUp[bitBuf % FAST_SIZE];
      DecodeFast(sizes, nodes, lookUp[..], tree[..], bitBuf);
      if temp >= 0 {
        var codeLen := temp / 512;
        done := codeLen != 0 && numBits >= codeLen;
        TellsFast(sizes, nodes, lookUp[..], tree[..], bitBuf, numBits);
      } else if numBits > FAST_BITS {
        done := TryTree(bitBuf, numBits, temp);
      } else {
        done := false;
        TellsShort(sizes, nodes, lookUp[..], tree[..], bits, numBits);
      }
    }

    /** The same in the tree, whose root for these bits is e. */
    method TryTree(bitBuf: nat, numBits: nat, e: int) returns (done: bool)
      requires Valid() && FAST_BITS < numBits < MAX_CODE_SIZE && WalkedLen(bitBuf) == WalkLen(tree[..], e, bitBuf, FAST_BITS)
      requires var p := ToBits(bitBuf, MAX_CODE_SIZE)[..FAST_BITS]; p in nodes && e == Link(nodes[p])
      ensures done ==> 0 < WalkedLen(bitBuf) <= numBits
      ensures Tells(sizes, ToBits(bitBuf, MAX_CODE_SIZE), numBits, done)
    {
      hide TrieOk, Accepted, KraftOk, CodeBits, Sizes, Tells, ToBits, High, WalkedLen;
      ghost var bits := ToBits(bitBuf, MAX_CODE_SIZE);
      var temp := e;
      var codeLen := FAST_BITS;
      while true
        invariant FAST_BITS <= codeLen < numBits && WalkLen(tree[..], temp, bitBuf, codeLen) == WalkedLen(bitBuf)
        invariant bits[..codeLen] in nodes && temp == Link(nodes[bits[..codeLen]])
        decreases MAX_CODE_SIZE - codeLen
      {
        DecodeStep(sizes, nodes, lookUp[..], tree[..], bits, codeLen);
        BitAt(bitBuf, MAX_CODE_SIZE, codeLen);
        var bit := High(bitBuf, codeLen) % 2;
        assert -temp - 1 + bit == Slot(nodes[bits[..codeLen]], bits[codeLen]);
        codeLen := codeLen + 1;
        temp := tree[-temp - 1 + bit];
        if temp >= 0 || numBits < codeLen + 1 {
          break;
        }
      }
      done := temp >= 0;
      if done {
        TellsLeaf(sizes, nodes, lookUp[..], tree[..], bits, codeLen, numBits, temp);
      } else {
        TellsInner(sizes, nodes, lookUp[..], tree[..], bits, numBits);
      }
    }
  }

  /** The length at which a walk down the tree along the bits of v meets a symbol. */
  function WalkLen(tree: seq<int>, temp: int, v: nat, len: nat): nat
    decreases MAX_CODE_SIZE - len
  {
    var j := -temp - 1 + High(v, len) % 2;
    if len >= MAX_CODE_SIZE || j < 0 || j >= |tree| then len
    else if tree[j] >= 0 then len + 1
    else WalkLen(tree, tree[j], v, len + 1)
  }

  /** Whether n bits are enough, exactly for every code they can still turn out to start with and where they leave the codes. */
  ghost predicate Tells(sizes: seq<nat>, bits: seq<Bit>, n: nat, done: bool)
    requires n <= |bits|
  {
    && (forall s: nat :: Agrees(sizes, s, bits, n) ==> (done <==> sizes[s] <= n))
    && (forall k: nat :: Leaves(sizes, bits, k) && k <= n ==> done)
  }

  lemma TellsFast(sizes: seq<nat>, nodes: Nodes, lookUp: seq<int>, tree: seq<int>, bitBuf: nat, numBits: nat)
    requires Sizes(sizes) && Accepted(sizes) && TrieOk(sizes, |sizes|, nodes, lookUp, tree) && numBits < MAX_CODE_SIZE
    requires lookUp[bitBuf % FAST_SIZE] >= 0
    ensures var codeLen := lookUp[bitBuf % FAST_SIZE] / 512;
      Tells(sizes, ToBits(bitBuf, MAX_CODE_SIZE), numBits, codeLen != 0 && numBits >= codeLen)
  {
    hide TrieOk, Agrees, Leaves, ToBits, Accepted;
    TryFast(sizes, nodes, lookUp, tree, bitBuf, numBits);
    NoLeaving(sizes, nodes, lookUp, tree, bitBuf);
  }

  lemma TellsLeaf(sizes: seq<nat>, nodes: Nodes, lookUp: seq<int>, tree: seq<int>, bits: seq<Bit>, n: nat, numBits: nat, e: int)
    requires Sizes(sizes) && Accepted(sizes) && TrieOk(sizes, |sizes|, nodes, lookUp, tree)
    requires |bits| == MAX_CODE_SIZE && FAST_BITS < n <= numBits <= MAX_CODE_SIZE && bits[..n - 1] in nodes
    requires nodes[bits[..n - 1]] < |nodes| && e == tree[Slot(nodes[bits[..n - 1]], bits[n - 1])] >= 0
    ensures Tells(sizes, bits, numBits, true)
  {
    hide TrieOk, Agrees, Leaves, Accepted;
    TryLeaf(sizes, nodes, lookUp, tree, bits, n, numBits, e);
  }

  lemma TellsInner(sizes: seq<nat>, nodes: Nodes, lookUp: seq<int>, tree: seq<int>, bits: seq<Bit>, numBits: nat)
    requires Sizes(sizes) && Accepted(sizes) && TrieOk(sizes, |sizes|, nodes, lookUp, tree)
    requires |bits| == MAX_CODE_SIZE && numBits <= MAX_CODE_SIZE && bits[..numBits] in nodes
    ensures Tells(sizes, bits, numBits, false)
  {
    hide TrieOk, Agrees, Leaves, Accepted;
    TryInner(sizes, nodes, lookUp, tree, bits, numBits);
    NotLeft(sizes, nodes, lookUp, tree, bits, numBits);
  }

  lemma TellsShort(sizes: seq<nat>, nodes: Nodes, lookUp: seq<int>, tree: seq<int>, bits: seq<Bit>, numBits: nat)
    requires Sizes(sizes) && Accepted(sizes) && TrieOk(sizes, |sizes|, nodes, lookUp, tree)
    requires |bits| == MAX_CODE_SIZE && numBits <= FAST_BITS && bits[..FAST_BITS] in nodes
    ensures Tells(sizes, bits, numBits, false)
  {
    hide TrieOk, Agrees, Leaves, Accepted;
    TryShort(sizes, nodes, lookUp, tree, bits, numBits);
    LeavesDeep(sizes, bits);
  }

  /** The first n bits have left the codes: all but the last one of them are the front of a long code, but not all of them. */
  ghost predicate Leaves(sizes: seq<nat>, bits: seq<Bit>, n: nat) {
    FAST_BITS < n <= |bits| && Inner(sizes, bits[..n - 1]) && !Inner(sizes, bits[..n])
  }

  /** What a table gives for some bits: the symbol whose code they start with; without one symbol 0, and where the codes are left. */
  ghost predicate Meets(sizes: seq<nat>, bits: seq<Bit>, sym: nat, len: nat) {
    if exists s: nat :: Starts(sizes, s, bits) then Starts(sizes, sym, bits) && len == sizes[sym]
    else sym == 0 && if exists n: nat :: Leaves(sizes, bits, n) then Leaves(sizes, bits, len) else len == 0
  }

  lemma LeavesDeep(sizes: seq<nat>, bits: seq<Bit>)
    ensures forall n: nat :: Leaves(sizes, bits, n) ==> n > FAST_BITS
  {
  }

  lemma InnerUp(sizes: seq<nat>, bits: seq<Bit>, k: nat, n: nat)
    requires FAST_BITS <= k <= n <= |bits| && Inner(sizes, bits[..n])
    ensures Inner(sizes, bits[..k])
  {
    hide CodeBits;
    var p := bits[..n];
    var s: nat :| Used(sizes, s) && |p| < sizes[s] && p < CodeBits(sizes, s);
    assert bits[..k] == p[..k];
    assert bits[..k] < CodeBits(sizes, s);
  }

  /** All fronts of long codes are nodes. */
  lemma InnerNode(sizes: seq<nat>, nodes: Nodes, lookUp: seq<int>, tree: seq<int>, p: seq<Bit>)
    requires TrieOk(sizes, |sizes|, nodes, lookUp, tree)
    ensures p in nodes <==> Inner(sizes, p)
  {
    hide CodeBits, LookUpOk, TreeOk, HasParent;
    if Inner(sizes, p) {
      var s: nat :| Used(sizes, s) && |p| < sizes[s] && p < CodeBits(sizes, s);
      assert CodeBits(sizes, s)[..|p|] == p;
    }
  }

  /** Where the look-up array has no link, no front of a long code is ahead. */
  lemma NoLeaving(sizes: seq<nat>, nodes: Nodes, lookUp: seq<int>, tree: seq<int>, bitBuf: nat)
    requires TrieOk(sizes, |sizes|, nodes, lookUp, tree) && lookUp[bitBuf % FAST_SIZE] >= 0
    ensures forall n: nat :: !Leaves(sizes, ToBits(bitBuf, MAX_CODE_SIZE), n)
  {
    hide Inner, CodeBits, ToBits, TreeOk, Closed, NodesOk;
    var bits := ToBits(bitBuf, MAX_CODE_SIZE);
    FastBits(bitBuf);
    assert LookUpEntry(sizes, |sizes|, nodes, bitBuf % FAST_SIZE, lookUp[bitBuf % FAST_SIZE]);
    InnerNode(sizes, nodes, lookUp, tree, bits[..FAST_BITS]);
    forall n: nat ensures !Leaves(sizes, bits, n) {
      if Leaves(sizes, bits, n) {
        InnerUp(sizes, bits, FAST_BITS, n - 1);
      }
    }
  }

  lemma NotLeft(sizes: seq<nat>, nodes: Nodes, lookUp: seq<int>, tree: seq<int>, bits: seq<Bit>, k: nat)
    requires TrieOk(sizes, |sizes|, nodes, lookUp, tree) && k <= |bits| && bits[..k] in nodes
    ensures forall n: nat :: Leaves(sizes, bits, n) ==> n > k
  {
    hide TrieOk, Inner;
    InnerNode(sizes, nodes, lookUp, tree, bits[..k]);
    forall n: nat | Leaves(sizes, bits, n) ensures n > k {
      if n <= k {
        InnerUp(sizes, bits, n, k);
      }
    }
  }

  lemma FastMeets(sizes: seq<nat>, nodes: Nodes, lookUp: seq<int>, tree: seq<int>, bitBuf: nat)
    requires Sizes(sizes) && Accepted(sizes) && TrieOk(sizes, |sizes|, nodes, lookUp, tree) && lookUp[bitBuf % FAST_SIZE] >= 0
    ensures var e := lookUp[bitBuf % FAST_SIZE]; Meets(sizes, ToBits(bitBuf, MAX_CODE_SIZE), e % 512, e / 512)
  {
    hide CodeBits, Accepted, TreeOk, NodesOk, Closed, Inner, ToBits;
    var bits := ToBits(bitBuf, MAX_CODE_SIZE);
    var i := bitBuf % FAST_SIZE;
    var e := lookUp[i];
    FastBits(bitBuf);
    DecodeFast(sizes, nodes, lookUp, tree, bitBuf);
    NoLeaving(sizes, nodes, lookUp, tree, bitBuf);
    assert LookUpEntry(sizes, |sizes|, nodes, i, e);
    if e != 0 {
      var t :| 0 <= t < |sizes| && Short(sizes, t) && CodeBits(sizes, t) <= bits[..FAST_BITS];
      assert Starts(sizes, t, bits);
    }
  }

  /** A leaf of the tree is what the bits so far stand for; an empty slot is where they leave the codes. */
  lemma TreeMeets(sizes: seq<nat>, nodes: Nodes, lookUp: seq<int>, tree: seq<int>, bits: seq<Bit>, n: nat)
    requires Sizes(sizes) && Accepted(sizes) && TrieOk(sizes, |sizes|, nodes, lookUp, tree)
    requires |bits| == MAX_CODE_SIZE && FAST_BITS <= n < MAX_CODE_SIZE && bits[..n] in nodes
    ensures nodes[bits[..n]] < |nodes| && 2 * |nodes| <= |tree|
    ensures var e := tree[Slot(nodes[bits[..n]], bits[n])]; e >= 0 ==> Meets(sizes, bits, e, n + 1)
  {
    hide CodeBits, Accepted, LookUpOk, Inner, HasParent, KraftOk, Closed;
    DecodeStep(sizes, nodes, lookUp, tree, bits, n);
    var p, c := bits[..n], bits[..n + 1];
    assert c == p + [bits[n]];
    var e := tree[Slot(nodes[p], bits[n])];
    assert TreeEntry(sizes, |sizes|, nodes, c, e);
    if e >= 0 {
      InnerNode(sizes, nodes, lookUp, tree, p);
      InnerNode(sizes, nodes, lookUp, tree, c);
      assert Leaves(sizes, bits, n + 1);
      if e != 0 {
        assert Starts(sizes, e, bits);
      }
    }
  }

  /** As far as the first n bits go, the bit string may start with the code of s. */
  predicate Agrees(sizes: seq<nat>, s: nat, bits: seq<Bit>, n: nat)
    requires n <= |bits|
  {
    Used(sizes, s) && if sizes[s] <= n then CodeBits(sizes, s) <= bits else CodeBits(sizes, s)[..n] == bits[..n]
  }

  lemma AgreesPrefix(sizes: seq<nat>, s: nat, bits: seq<Bit>, n: nat, k: nat)
    requires n <= |bits| && Agrees(sizes, s, bits, n) && k <= n
    ensures if sizes[s] <= k then CodeBits(sizes, s) <= bits[..k] else CodeBits(sizes, s)[..k] == bits[..k]
  {
    hide CodeBits;
    var c := CodeBits(sizes, s);
    if sizes[s] <= n {
      StartsPrefix(sizes, s, bits, k);
    } else {
      assert c[..n][..k] == c[..k] && bits[..n][..k] == bits[..k];
    }
  }

  lemma TryFast(sizes: seq<nat>, nodes: Nodes, lookUp: seq<int>, tree: seq<int>, bitBuf: nat, numBits: nat)
    requires Sizes(sizes) && Accepted(sizes) && TrieOk(sizes, |sizes|, nodes, lookUp, tree) && numBits < MAX_CODE_SIZE
    requires lookUp[bitBuf % FAST_SIZE] >= 0
    ensures var codeLen := lookUp[bitBuf % FAST_SIZE] / 512;
      forall s: nat :: Agrees(sizes, s, ToBits(bitBuf, MAX_CODE_SIZE), numBits) ==>
        ((codeLen != 0 && numBits >= codeLen) <==> sizes[s] <= numBits)
  {
    hide CodeBits, Accepted, TreeOk, NodesOk, Closed, LookUpEntry, KraftOk, ToBits;
    var bits := ToBits(bitBuf, MAX_CODE_SIZE);
    var e := lookUp[bitBuf % FAST_SIZE];
    AcceptedFits(sizes);
    DecodeFast(sizes, nodes, lookUp, tree, bitBuf);
    forall s: nat | Agrees(sizes, s, bits, numBits)
      ensures (e / 512 != 0 && numBits >= e / 512) <==> sizes[s] <= numBits
    {
      TryFastOne(sizes, nodes, lookUp, tree, bitBuf, numBits, s);
    }
  }

  lemma TryFastOne(sizes: seq<nat>, nodes: Nodes, lookUp: seq<int>, tree: seq<int>, bitBuf: nat, numBits: nat, s: nat)
    requires Sizes(sizes) && Accepted(sizes) && TrieOk(sizes, |sizes|, nodes, lookUp, tree) && numBits < MAX_CODE_SIZE
    requires lookUp[bitBuf % FAST_SIZE] >= 0 && Agrees(sizes, s, ToBits(bitBuf, MAX_CODE_SIZE), numBits)
    ensures Used(sizes, s)
    ensures var codeLen := lookUp[bitBuf % FAST_SIZE] / 512;
      (codeLen != 0 && numBits >= codeLen) <==> sizes[s] <= numBits
  {
    hide CodeBits, Accepted, KraftOk, ToBits, NodesOk, TreeOk;
    var bits := ToBits(bitBuf, MAX_CODE_SIZE);
    var i := bitBuf % FAST_SIZE;
    var e := lookUp[i];
    var p := bits[..FAST_BITS];
    AcceptedFits(sizes);
    FastBits(bitBuf);
    assert LookUpEntry(sizes, |sizes|, nodes, i, e);
    if sizes[s] <= numBits {
      DecodeFast(sizes, nodes, lookUp, tree, bitBuf);
      assert Starts(sizes, s, bits);
    } else {
      if numBits >= FAST_BITS {
        AgreesPrefix(sizes, s, bits, numBits, FAST_BITS);
      }
      if e != 0 && e / 512 <= numBits && p !in nodes {
        var t :| 0 <= t < |sizes| && Short(sizes, t) && CodeBits(sizes, t) <= p;
        assert e == 512 * sizes[t] + t;
        ShortAgrees(sizes, s, t, bits, numBits);
      }
    }
  }

  /** A code that lies within the agreed bits is the only candidate. */
  lemma ShortAgrees(sizes: seq<nat>, s: nat, t: nat, bits: seq<Bit>, n: nat)
    requires KraftOk(sizes) && n <= |bits| && FAST_BITS <= |bits| && Agrees(sizes, s, bits, n)
    requires Short(sizes, t) && CodeBits(sizes, t) <= bits[..FAST_BITS] && sizes[t] <= n
    ensures s == t
  {
    hide CodeBits, KraftOk;
    AgreesPrefix(sizes, s, bits, n, sizes[t]);
    assert bits[..FAST_BITS][..sizes[t]] == bits[..sizes[t]];
    assert CodeBits(sizes, t) == bits[..sizes[t]];
    if s != t {
      PrefixFree(sizes, s, t);
      PrefixFree(sizes, t, s);
    }
  }

  lemma TryLeaf(sizes: seq<nat>, nodes: Nodes, lookUp: seq<int>, tree: seq<int>, bits: seq<Bit>, n: nat, numBits: nat, e: int)
    requires Sizes(sizes) && Accepted(sizes) && TrieOk(sizes, |sizes|, nodes, lookUp, tree)
    requires |bits| == MAX_CODE_SIZE && FAST_BITS < n <= numBits <= MAX_CODE_SIZE && bits[..n - 1] in nodes
    requires nodes[bits[..n - 1]] < |nodes| && e == tree[Slot(nodes[bits[..n - 1]], bits[n - 1])] >= 0
    ensures forall s: nat :: Agrees(sizes, s, bits, numBits) ==> sizes[s] <= numBits
  {
    hide CodeBits, Accepted, LookUpOk, Inner, HasParent, KraftOk;
    var c := bits[..n];
    assert c == bits[..n - 1] + [bits[n - 1]];
    assert TreeEntry(sizes, |sizes|, nodes, c, e);
    forall s: nat | Agrees(sizes, s, bits, numBits) ensures sizes[s] <= numBits {
      AgreesPrefix(sizes, s, bits, numBits, n);
    }
  }

  lemma TryInner(sizes: seq<nat>, nodes: Nodes, lookUp: seq<int>, tree: seq<int>, bits: seq<Bit>, numBits: nat)
    requires Sizes(sizes) && Accepted(sizes) && TrieOk(sizes, |sizes|, nodes, lookUp, tree)
    requires |bits| == MAX_CODE_SIZE && numBits <= MAX_CODE_SIZE && bits[..numBits] in nodes
    ensures forall s: nat :: Agrees(sizes, s, bits, numBits) ==> sizes[s] > numBits
  {
    hide CodeBits, Accepted, LookUpOk, TreeOk, Closed, Inner, HasParent, KraftOk;
    AcceptedFits(sizes);
    forall s: nat | Agrees(sizes, s, bits, numBits) ensures sizes[s] > numBits {
      AgreesPrefix(sizes, s, bits, numBits, numBits);
      InnerNotCovered(sizes, bits[..numBits], s);
    }
  }

  lemma TryShort(sizes: seq<nat>, nodes: Nodes, lookUp: seq<int>, tree: seq<int>, bits: seq<Bit>, numBits: nat)
    requires Sizes(sizes) && Accepted(sizes) && TrieOk(sizes, |sizes|, nodes, lookUp, tree)
    requires |bits| == MAX_CODE_SIZE && numBits <= FAST_BITS && bits[..FAST_BITS] in nodes
    ensures forall s: nat :: Agrees(sizes, s, bits, numBits) ==> sizes[s] > numBits
  {
    hide CodeBits, Accepted, LookUpOk, TreeOk, Closed, Inner, HasParent, KraftOk;
    AcceptedFits(sizes);
    forall s: nat | Agrees(sizes, s, bits, numBits) ensures sizes[s] > numBits {
      InnerNotCovered(sizes, bits[..FAST_BITS], s);
      if sizes[s] <= numBits {
        StartsPrefix(sizes, s, bits, FAST_BITS);
      }
    }
  }

  /** The code of symbol s starts the bit string. */
  predicate Starts(sizes: seq<nat>, s: nat, bits: seq<Bit>) {
    Used(sizes, s) && CodeBits(sizes, s) <= bits
  }

  lemma StartsPrefix(sizes: seq<nat>, s: nat, bits: seq<Bit>, k: nat)
    requires Starts(sizes, s, bits) && k <= |bits|
    ensures if sizes[s] <= k then CodeBits(sizes, s) <= bits[..k] else CodeBits(sizes, s)[..k] == bits[..k]
  {
    hide CodeBits;
    assert bits[..sizes[s]] == CodeBits(sizes, s);
  }

  lemma FastBits(bitBuf: nat)
    ensures ToBits(bitBuf % FAST_SIZE, FAST_BITS) == ToBits(bitBuf, MAX_CODE_SIZE)[..FAST_BITS]
  {
    assert Pow2(FAST_BITS) == FAST_SIZE by { assert Pow2(5) == 32; }
    ToBitsPrefix(bitBuf, MAX_CODE_SIZE, FAST_BITS);
    ToBitsLow(bitBuf, FAST_BITS);
    assert Low(bitBuf, FAST_BITS) == bitBuf % FAST_SIZE;
  }

  /** What a look-up entry says about the codes that start the bit buffer. */
  lemma DecodeFast(sizes: seq<nat>, nodes: Nodes, lookUp: seq<int>, tree: seq<int>, bitBuf: nat)
    requires Sizes(sizes) && Accepted(sizes) && TrieOk(sizes, |sizes|, nodes, lookUp, tree)
    ensures var bits := ToBits(bitBuf, MAX_CODE_SIZE);
      var e := lookUp[bitBuf % FAST_SIZE];
      if e >= 0 then
        e / 512 <= MAX_CODE_SIZE && e % 512 < MAX_HUFF_SYMBOLS && (e / 512 == 0 ==> e == 0) && (e % 512 < |sizes| || e == 0)
        && forall s: nat :: Starts(sizes, s, bits) ==> e / 512 == sizes[s] && e % 512 == s
      else bits[..FAST_BITS] in nodes && e == Link(nodes[bits[..FAST_BITS]])
  {
    hide CodeBits, Accepted, TreeOk, NodesOk;
    var bits := ToBits(bitBuf, MAX_CODE_SIZE);
    var i := bitBuf % FAST_SIZE;
    var p := ToBits(i, FAST_BITS);
    FastBits(bitBuf);
    assert LookUpEntry(sizes, |sizes|, nodes, i, lookUp[i]);
    var e := lookUp[i];
    forall s: nat | Starts(sizes, s, bits) ensures e >= 0 ==> e / 512 == sizes[s] && e % 512 == s {
      StartsPrefix(sizes, s, bits, FAST_BITS);
    }
  }

  /** One step down the tree along the bits: a leaf is the symbol of the only code they can start with. */
  lemma DecodeStep(sizes: seq<nat>, nodes: Nodes, lookUp: seq<int>, tree: seq<int>, bits: seq<Bit>, n: nat)
    requires Sizes(sizes) && Accepted(sizes) && TrieOk(sizes, |sizes|, nodes, lookUp, tree)
    requires |bits| == MAX_CODE_SIZE && FAST_BITS <= n < MAX_CODE_SIZE && bits[..n] in nodes
    ensures nodes[bits[..n]] < |nodes| && 2 * |nodes| <= |tree|
    ensures var e := tree[Slot(nodes[bits[..n]], bits[n])];
      if e >= 0 then
        (e < |sizes| || e == 0)
        && forall s: nat :: Starts(sizes, s, bits) ==> e == s && sizes[s] == n + 1
      else n + 1 < MAX_CODE_SIZE && bits[..n + 1] in nodes && e == Link(nodes[bits[..n + 1]])
  {
    hide CodeBits, Accepted, LookUpOk, Inner, HasParent, KraftOk;
    AcceptedFits(sizes);
    var p, c := bits[..n], bits[..n + 1];
    assert c == p + [bits[n]];
    var e := tree[Slot(nodes[p], bits[n])];
    assert TreeEntry(sizes, |sizes|, nodes, c, e);
    if c in nodes {
      InnerLong(sizes, c);
    }
    forall s: nat | Starts(sizes, s, bits) ensures e >= 0 ==> e == s && sizes[s] == n + 1 {
      StartsPrefix(sizes, s, bits, n);
      StartsPrefix(sizes, s, bits, n + 1);
      InnerNotCovered(sizes, p, s);
    }
  }

  lemma NodeInTree(sizes: seq<nat>, k: nat, nodes: Nodes, lookUp: seq<int>, tree: seq<int>, p: seq<Bit>)
    requires TrieOk(sizes, k, nodes, lookUp, tree) && p in nodes
    ensures nodes[p] < |nodes| && |tree| == TREE_SIZE && 2 * |nodes| <= TREE_SIZE
  {
  }

  lemma ParentOfSnoc(nodes: Nodes, q: seq<Bit>, b: Bit)
    requires q in nodes
    ensures HasParent(nodes, q + [b])
  {
    assert (q + [b])[..|q|] == q;
  }

  lemma NextBit(v: nat, n: nat, i: nat)
    requires 1 <= i < n
    ensures High(v, i - 1) / 2 == High(v, i)
    ensures (High(v, i) % 2 == 1) == ToBits(v, n)[i]
  {
    DivideThenHalf(v, i - 1);
    BitAt(v, n, i);
  }

  lemma FastIndex(rev: nat, size: nat)
    requires rev < Pow2(size) && size >= FAST_BITS
    ensures FromBits(ToBits(rev, size)[..FAST_BITS]) == rev % FAST_SIZE
  {
    assert Pow2(FAST_BITS) == FAST_SIZE by { assert Pow2(5) == 32; }
    ToBitsSplit(rev, FAST_BITS, size - FAST_BITS);
    FromToBits(Low(rev, FAST_BITS), FAST_BITS);
    assert Low(rev, FAST_BITS) == rev % FAST_SIZE;
  }
}
