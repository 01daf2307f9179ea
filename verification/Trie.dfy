/**
 * The decoder's two-level table as a value: a look-up array for the first ten
 * bits and a binary tree for the rest of longer codes.
 */
module Trie {
  import opened Bits
  import opened Canonical

  const FAST_BITS := 10
  const FAST_SIZE := 1024
  const TREE_SIZE := 576

  predicate Short(sizes: seq<nat>, s: nat) {
    Used(sizes, s) && sizes[s] <= FAST_BITS
  }

  predicate Long(sizes: seq<nat>, s: nat) {
    Used(sizes, s) && sizes[s] > FAST_BITS
  }

  /** p is a proper prefix, at least ten bits long, of some code. */
  ghost predicate Inner(sizes: seq<nat>, p: seq<Bit>) {
    |p| >= FAST_BITS && exists s: nat :: Used(sizes, s) && |p| < sizes[s] && p < CodeBits(sizes, s)
  }

  lemma InnerNotCovered(sizes: seq<nat>, p: seq<Bit>, s: nat)
    requires KraftOk(sizes) && Inner(sizes, p) && Used(sizes, s)
    ensures !(CodeBits(sizes, s) <= p)
  {
    var t: nat :| Used(sizes, t) && |p| < sizes[t] && p < CodeBits(sizes, t);
    if CodeBits(sizes, s) <= p {
      assert CodeBits(sizes, s) <= CodeBits(sizes, t);
      if s != t {
        PrefixFree(sizes, s, t);
      }
    }
  }

  type Nodes = map<seq<Bit>, nat>

  /** Table entry that stands for node k. */
  function Link(k: nat): int {
    -1 - 2 * k
  }

  predicate HasParent(nodes: Nodes, p: seq<Bit>) {
    |p| > FAST_BITS ==> p[..|p| - 1] in nodes
  }

  /** Distinct numbers below the node count for prefixes of codes, parents included. */
  ghost predicate NodesOk(sizes: seq<nat>, nodes: Nodes) {
    && (forall p :: p in nodes ==> Inner(sizes, p) && nodes[p] < |nodes|)
    && (forall p, q :: p in nodes && q in nodes && nodes[p] == nodes[q] ==> p == q)
    && (forall p :: p in nodes ==> HasParent(nodes, p))
  }

  /** Codes of the first k symbols with at most ten bits fill every entry they are a prefix of. */
  ghost predicate LookUpEntry(sizes: seq<nat>, k: nat, nodes: Nodes, i: nat, e: int) {
    var p := ToBits(i, FAST_BITS);
    && (p in nodes ==> e == Link(nodes[p]))
    && (forall s :: 0 <= s < k && Short(sizes, s) && CodeBits(sizes, s) <= p ==> e == 512 * sizes[s] + s)
    && (e != 0 ==> p in nodes || exists s :: 0 <= s < k && Short(sizes, s) && CodeBits(sizes, s) <= p)
  }

  /** The tree slot behind prefix c: a link, a symbol, or still empty. */
  ghost predicate TreeEntry(sizes: seq<nat>, k: nat, nodes: Nodes, c: seq<Bit>, e: int) {
    && (c in nodes ==> e == Link(nodes[c]))
    && (forall s :: 0 <= s < k && Long(sizes, s) && CodeBits(sizes, s) == c ==> e == s)
    && (e != 0 ==> c in nodes || exists s :: 0 <= s < k && Long(sizes, s) && CodeBits(sizes, s) == c)
  }

  function Slot(k: nat, b: Bit): nat {
    2 * k + (if b then 1 else 0)
  }

  ghost predicate LookUpOk(sizes: seq<nat>, k: nat, nodes: Nodes, lookUp: seq<int>) {
    |lookUp| == FAST_SIZE && forall i :: 0 <= i < FAST_SIZE ==> LookUpEntry(sizes, k, nodes, i, lookUp[i])
  }

  ghost predicate TreeOk(sizes: seq<nat>, k: nat, nodes: Nodes, tree: seq<int>) {
    && |tree| == TREE_SIZE && 2 * |nodes| <= TREE_SIZE
    && (forall p, b :: p in nodes && nodes[p] < |nodes| ==> TreeEntry(sizes, k, nodes, p + [b], tree[Slot(nodes[p], b)]))
    && (forall j :: 2 * |nodes| <= j < TREE_SIZE ==> tree[j] == 0)
  }

  /** All inner prefixes of the long codes among the first k symbols have their node. */
  ghost predicate Closed(sizes: seq<nat>, k: nat, nodes: Nodes) {
    forall s, j :: 0 <= s < k && Long(sizes, s) && FAST_BITS <= j < sizes[s] ==> CodeBits(sizes, s)[..j] in nodes
  }

  ghost predicate TrieOk(sizes: seq<nat>, k: nat, nodes: Nodes, lookUp: seq<int>, tree: seq<int>) {
    && k <= |sizes| && NodesOk(sizes, nodes)
    && LookUpOk(sizes, k, nodes, lookUp) && TreeOk(sizes, k, nodes, tree) && Closed(sizes, k, nodes)
  }

  lemma EmptyTrie(sizes: seq<nat>, lookUp: seq<int>, tree: seq<int>)
    requires |lookUp| == FAST_SIZE && |tree| == TREE_SIZE
    requires forall i :: 0 <= i < FAST_SIZE ==> lookUp[i] == 0
    requires forall i :: 0 <= i < TREE_SIZE ==> tree[i] == 0
    ensures TrieOk(sizes, 0, map[], lookUp, tree)
  {
  }

  lemma ToBitsInjective(a: nat, b: nat, n: nat)
    requires a < Pow2(n) && b < Pow2(n) && ToBits(a, n) == ToBits(b, n)
    ensures a == b
  {
    FromToBits(a, n);
    FromToBits(b, n);
  }

  /** A symbol that is not long leaves the tree as it is. */
  lemma KeepTree(sizes: seq<nat>, k: nat, nodes: Nodes, tree: seq<int>)
    requires TreeOk(sizes, k, nodes, tree) && Closed(sizes, k, nodes) && k < |sizes| && !Long(sizes, k)
    ensures TreeOk(sizes, k + 1, nodes, tree) && Closed(sizes, k + 1, nodes)
  {
    hide CodeBits, Used;
    forall p, b | p in nodes && nodes[p] < |nodes| ensures TreeEntry(sizes, k + 1, nodes, p + [b], tree[Slot(nodes[p], b)]) {
      assert TreeEntry(sizes, k, nodes, p + [b], tree[Slot(nodes[p], b)]);
    }
  }

  /** A symbol that is not short leaves the look-up array as it is. */
  lemma KeepLookUp(sizes: seq<nat>, k: nat, nodes: Nodes, lookUp: seq<int>)
    requires LookUpOk(sizes, k, nodes, lookUp) && k < |sizes| && !Short(sizes, k)
    ensures LookUpOk(sizes, k + 1, nodes, lookUp)
  {
    hide CodeBits, Used, ToBits;
    forall i | 0 <= i < FAST_SIZE ensures LookUpEntry(sizes, k + 1, nodes, i, lookUp[i]) {
      assert LookUpEntry(sizes, k, nodes, i, lookUp[i]);
    }
  }

  /** A symbol without a code changes nothing. */
  lemma SkipSymbol(sizes: seq<nat>, k: nat, nodes: Nodes, lookUp: seq<int>, tree: seq<int>)
    requires TrieOk(sizes, k, nodes, lookUp, tree) && k < |sizes| && !Used(sizes, k)
    ensures TrieOk(sizes, k + 1, nodes, lookUp, tree)
  {
    hide TreeOk, LookUpOk, Closed, NodesOk;
    KeepTree(sizes, k, nodes, tree);
    KeepLookUp(sizes, k, nodes, lookUp);
  }

  function FilledEntry(sizes: seq<nat>, k: nat, i: nat, e: int): int
    requires k < |sizes| && Short(sizes, k)
  {
    if CodeBits(sizes, k) <= ToBits(i, FAST_BITS) then 512 * sizes[k] + k else e
  }

  lemma FillEntry(sizes: seq<nat>, k: nat, nodes: Nodes, i: nat, e: int)
    requires KraftOk(sizes) && k < |sizes| && Short(sizes, k) && NodesOk(sizes, nodes)
    requires LookUpEntry(sizes, k, nodes, i, e)
    ensures LookUpEntry(sizes, k + 1, nodes, i, FilledEntry(sizes, k, i, e))
  {
    hide CodeBits, ToBits, KraftOk;
    var p := ToBits(i, FAST_BITS);
    if CodeBits(sizes, k) <= p {
      if p in nodes { InnerNotCovered(sizes, p, k); }
      forall s | 0 <= s < k && Short(sizes, s) ensures !(CodeBits(sizes, s) <= p) {
        if CodeBits(sizes, s) <= p {
          CoversOnce(sizes, s, k, p);
        }
      }
    }
  }

  /** A short code fills the entries it is a prefix of. */
  lemma AddShort(sizes: seq<nat>, k: nat, nodes: Nodes, lookUp: seq<int>, tree: seq<int>, lookUp': seq<int>)
    requires TrieOk(sizes, k, nodes, lookUp, tree) && KraftOk(sizes) && k < |sizes| && Short(sizes, k)
    requires |lookUp'| == FAST_SIZE
    requires forall i :: 0 <= i < FAST_SIZE ==> lookUp'[i] == FilledEntry(sizes, k, i, lookUp[i])
    ensures TrieOk(sizes, k + 1, nodes, lookUp', tree)
  {
    hide CodeBits, ToBits, LookUpEntry, FilledEntry, KraftOk, TreeOk, Closed, NodesOk;
    KeepTree(sizes, k, nodes, tree);
    forall i | 0 <= i < FAST_SIZE ensures LookUpEntry(sizes, k + 1, nodes, i, lookUp'[i]) {
      FillEntry(sizes, k, nodes, i, lookUp[i]);
    }
  }

  lemma CoversOnce(sizes: seq<nat>, s: nat, t: nat, p: seq<Bit>)
    requires KraftOk(sizes) && Used(sizes, s) && Used(sizes, t)
    requires CodeBits(sizes, s) <= p && CodeBits(sizes, t) <= p
    ensures s == t
  {
    if s != t {
      PrefixFree(sizes, s, t);
      PrefixFree(sizes, t, s);
    }
  }

  /** The node map with a new last node. */
  function Grow(nodes: Nodes, p: seq<Bit>): Nodes {
    nodes[p := |nodes|]
  }

  lemma ParentKept(nodes: Nodes, q: seq<Bit>, p: seq<Bit>)
    requires HasParent(nodes, q)
    ensures HasParent(Grow(nodes, p), q)
  {
  }

  lemma GrowNodes(sizes: seq<nat>, nodes: Nodes, p: seq<Bit>)
    requires NodesOk(sizes, nodes) && p !in nodes && Inner(sizes, p)
    requires HasParent(nodes, p)
    ensures NodesOk(sizes, Grow(nodes, p)) && |Grow(nodes, p)| == |nodes| + 1
  {
    hide Inner, HasParent;
    var nodes' := Grow(nodes, p);
    assert nodes'.Keys == nodes.Keys + {p};
    assert |nodes'.Keys| == |nodes.Keys| + 1;
    forall q | q in nodes' ensures HasParent(nodes', q) {
      assert HasParent(nodes, q);
      ParentKept(nodes, q, p);
    }
  }

  lemma GrowClosed(sizes: seq<nat>, k: nat, nodes: Nodes, p: seq<Bit>)
    requires Closed(sizes, k, nodes) && k <= |sizes|
    ensures Closed(sizes, k, Grow(nodes, p))
  {
    hide CodeBits, Used;
  }

  /** A slot of a node that is not the parent of the new one. */
  lemma GrowOtherEntry(sizes: seq<nat>, k: nat, nodes: Nodes, p: seq<Bit>, c: seq<Bit>, e: int)
    requires TreeEntry(sizes, k, nodes, c, e) && p != c && k <= |sizes|
    ensures TreeEntry(sizes, k, Grow(nodes, p), c, e)
  {
    hide CodeBits, Used;
  }

  /** The slots of the new node are empty and may stay so. */
  lemma GrowEmptyEntry(sizes: seq<nat>, k: nat, nodes: Nodes, p: seq<Bit>, b: Bit)
    requires NodesOk(sizes, nodes) && Closed(sizes, k, nodes) && p !in nodes && |p| >= FAST_BITS && k <= |sizes|
    ensures TreeEntry(sizes, k, Grow(nodes, p), p + [b], 0)
  {
    hide CodeBits, Used, Inner;
    var c := p + [b];
    assert c[..|p|] == p;
    forall s | 0 <= s < k && Long(sizes, s) ensures CodeBits(sizes, s) != c {
    }
  }

  /** A new node for ten bits whose look-up entry is still empty. */
  lemma AddRoot(sizes: seq<nat>, k: nat, nodes: Nodes, lookUp: seq<int>, tree: seq<int>, p: seq<Bit>)
    requires TrieOk(sizes, k, nodes, lookUp, tree) && KraftOk(sizes)
    requires |p| == FAST_BITS && Inner(sizes, p) && FromBits(p) < FAST_SIZE && lookUp[FromBits(p)] == 0
    requires 2 * |nodes| + 2 <= TREE_SIZE
    ensures p !in nodes
    ensures TrieOk(sizes, k, Grow(nodes, p), lookUp[FromBits(p) := Link(|nodes|)], tree)
  {
    hide CodeBits, Used, Inner, KraftOk;
    var r := FromBits(p);
    ToFromBits(p);
    assert ToBits(r, FAST_BITS) == p;
    assert LookUpEntry(sizes, k, nodes, r, lookUp[r]);
    GrowNodes(sizes, nodes, p);
    GrowClosed(sizes, k, nodes, p);
    RootTree(sizes, k, nodes, tree, p);
    RootLookUp(sizes, k, nodes, lookUp, p);
  }

  lemma RootLookUp(sizes: seq<nat>, k: nat, nodes: Nodes, lookUp: seq<int>, p: seq<Bit>)
    requires LookUpOk(sizes, k, nodes, lookUp) && KraftOk(sizes) && k <= |sizes|
    requires |p| == FAST_BITS && Inner(sizes, p) && p !in nodes && FromBits(p) < FAST_SIZE
    ensures LookUpOk(sizes, k, Grow(nodes, p), lookUp[FromBits(p) := Link(|nodes|)])
  {
    hide CodeBits, Inner, KraftOk;
    var r := FromBits(p);
    var lookUp' := lookUp[r := Link(|nodes|)];
    ToFromBits(p);
    forall i | 0 <= i < FAST_SIZE ensures LookUpEntry(sizes, k, Grow(nodes, p), i, lookUp'[i]) {
      assert LookUpEntry(sizes, k, nodes, i, lookUp[i]);
      if i == r {
        forall s | 0 <= s < k && Short(sizes, s) ensures !(CodeBits(sizes, s) <= p) {
          InnerNotCovered(sizes, p, s);
        }
      } else if ToBits(i, FAST_BITS) == p {
        assert Pow2(FAST_BITS) == FAST_SIZE by { assert Pow2(5) == 32; }
        ToBitsInjective(i, r, FAST_BITS);
      }
    }
  }

  lemma RootTree(sizes: seq<nat>, k: nat, nodes: Nodes, tree: seq<int>, p: seq<Bit>)
    requires NodesOk(sizes, nodes) && TreeOk(sizes, k, nodes, tree) && Closed(sizes, k, nodes) && k <= |sizes|
    requires |p| == FAST_BITS && p !in nodes && 2 * |nodes| + 2 <= TREE_SIZE
    requires |Grow(nodes, p)| == |nodes| + 1
    ensures TreeOk(sizes, k, Grow(nodes, p), tree)
  {
    hide CodeBits, Used, Inner, TreeEntry;
    var nodes' := Grow(nodes, p);
    forall q, b | q in nodes' && nodes'[q] < |nodes'| ensures TreeEntry(sizes, k, nodes', q + [b], tree[Slot(nodes'[q], b)]) {
      if q == p {
        GrowEmptyEntry(sizes, k, nodes, p, b);
      } else {
        assert nodes'[q] == nodes[q] && |q| >= FAST_BITS by { assert Inner(sizes, q); InnerLong(sizes, q); }
        assert TreeEntry(sizes, k, nodes, q + [b], tree[Slot(nodes[q], b)]);
        GrowOtherEntry(sizes, k, nodes, p, q + [b], tree[Slot(nodes[q], b)]);
      }
    }
  }

  lemma InnerLong(sizes: seq<nat>, p: seq<Bit>)
    requires Inner(sizes, p)
    ensures FAST_BITS <= |p| < MAX_CODE_SIZE
  {
  }

  /** A new node below node q, in a slot that is still empty. */
  lemma AddChild(sizes: seq<nat>, k: nat, nodes: Nodes, lookUp: seq<int>, tree: seq<int>, q: seq<Bit>, b: Bit)
    requires TrieOk(sizes, k, nodes, lookUp, tree) && KraftOk(sizes)
    requires q in nodes && nodes[q] < |nodes| && Inner(sizes, q + [b]) && tree[Slot(nodes[q], b)] == 0
    requires 2 * |nodes| + 2 <= TREE_SIZE
    ensures q + [b] !in nodes
    ensures TrieOk(sizes, k, Grow(nodes, q + [b]), lookUp, tree[Slot(nodes[q], b) := Link(|nodes|)])
  {
    hide CodeBits, Used, Inner, KraftOk, LookUpOk;
    var c := q + [b];
    assert c[..|c| - 1] == q;
    assert TreeEntry(sizes, k, nodes, c, 0);
    GrowNodes(sizes, nodes, c);
    GrowClosed(sizes, k, nodes, c);
    InnerLong(sizes, q);
    ChildLookUp(sizes, k, nodes, lookUp, c);
    ChildTree(sizes, k, nodes, tree, q, b);
  }

  lemma ChildLookUp(sizes: seq<nat>, k: nat, nodes: Nodes, lookUp: seq<int>, c: seq<Bit>)
    requires LookUpOk(sizes, k, nodes, lookUp) && k <= |sizes| && |c| > FAST_BITS
    ensures LookUpOk(sizes, k, Grow(nodes, c), lookUp)
  {
    hide CodeBits, Used;
    forall i | 0 <= i < FAST_SIZE ensures LookUpEntry(sizes, k, Grow(nodes, c), i, lookUp[i]) {
      assert LookUpEntry(sizes, k, nodes, i, lookUp[i]);
    }
  }

  lemma ChildTree(sizes: seq<nat>, k: nat, nodes: Nodes, tree: seq<int>, q: seq<Bit>, b: Bit)
    requires NodesOk(sizes, nodes) && TreeOk(sizes, k, nodes, tree) && Closed(sizes, k, nodes) && k <= |sizes| && KraftOk(sizes)
    requires q in nodes && nodes[q] < |nodes| && q + [b] !in nodes && 2 * |nodes| + 2 <= TREE_SIZE
    requires |Grow(nodes, q + [b])| == |nodes| + 1 && |q| >= FAST_BITS && Inner(sizes, q + [b])
    ensures TreeOk(sizes, k, Grow(nodes, q + [b]), tree[Slot(nodes[q], b) := Link(|nodes|)])
  {
    hide CodeBits, Inner, TreeEntry, KraftOk;
    var c := q + [b];
    var nodes' := Grow(nodes, c);
    var tree' := tree[Slot(nodes[q], b) := Link(|nodes|)];
    forall r, d | r in nodes' && nodes'[r] < |nodes'| ensures TreeEntry(sizes, k, nodes', r + [d], tree'[Slot(nodes'[r], d)]) {
      if r == c {
        GrowEmptyEntry(sizes, k, nodes, c, d);
      } else if r == q && d == b {
        NewLinkEntry(sizes, k, nodes, c);
      } else {
        assert TreeEntry(sizes, k, nodes, r + [d], tree[Slot(nodes[r], d)]);
        assert Slot(nodes[r], d) != Slot(nodes[q], b);
        SnocDistinct(r, d, q, b);
        GrowOtherEntry(sizes, k, nodes, c, r + [d], tree[Slot(nodes[r], d)]);
      }
    }
  }

  lemma SnocDistinct(r: seq<Bit>, d: Bit, q: seq<Bit>, b: Bit)
    requires r != q || d != b
    ensures r + [d] != q + [b]
  {
    assert (r + [d])[..|r|] == r && (q + [b])[..|q|] == q;
  }

  lemma NewLinkEntry(sizes: seq<nat>, k: nat, nodes: Nodes, c: seq<Bit>)
    requires KraftOk(sizes) && Inner(sizes, c) && k <= |sizes|
    ensures TreeEntry(sizes, k, Grow(nodes, c), c, Link(|nodes|))
  {
    hide CodeBits, Inner, KraftOk;
    forall s | 0 <= s < k && Long(sizes, s) ensures CodeBits(sizes, s) != c {
      InnerNotCovered(sizes, c, s);
    }
  }

  /** A long code, all of whose inner prefixes have nodes, gets its leaf. */
  lemma AddLeaf(sizes: seq<nat>, k: nat, nodes: Nodes, lookUp: seq<int>, tree: seq<int>, q: seq<Bit>, b: Bit)
    requires TrieOk(sizes, k, nodes, lookUp, tree) && KraftOk(sizes) && k < |sizes| && Long(sizes, k)
    requires CodeBits(sizes, k) == q + [b] && q in nodes && nodes[q] < |nodes|
    requires forall j :: FAST_BITS <= j < sizes[k] ==> CodeBits(sizes, k)[..j] in nodes
    ensures TrieOk(sizes, k + 1, nodes, lookUp, tree[Slot(nodes[q], b) := k])
  {
    hide CodeBits, Inner, KraftOk, LookUpOk, TreeEntry;
    KeepLookUp(sizes, k, nodes, lookUp);
    var tree' := tree[Slot(nodes[q], b) := k];
    forall r, d | r in nodes && nodes[r] < |nodes| ensures TreeEntry(sizes, k + 1, nodes, r + [d], tree'[Slot(nodes[r], d)]) {
      assert TreeEntry(sizes, k, nodes, r + [d], tree[Slot(nodes[r], d)]);
      if r == q && d == b {
        LeafEntry(sizes, k, nodes, q + [b]);
      } else {
        SnocDistinct(r, d, q, b);
        OtherLeafEntry(sizes, k, nodes, r + [d], tree[Slot(nodes[r], d)]);
      }
    }
  }

  lemma LeafEntry(sizes: seq<nat>, k: nat, nodes: Nodes, c: seq<Bit>)
    requires NodesOk(sizes, nodes) && KraftOk(sizes) && k < |sizes| && Long(sizes, k) && CodeBits(sizes, k) == c
    ensures TreeEntry(sizes, k + 1, nodes, c, k)
  {
    hide CodeBits, Inner, KraftOk, HasParent;
    if c in nodes {
      InnerNotCovered(sizes, c, k);
    }
    forall s | 0 <= s < k && Long(sizes, s) ensures CodeBits(sizes, s) != c {
      if CodeBits(sizes, s) == c {
        CoversOnce(sizes, s, k, c);
      }
    }
  }

  lemma OtherLeafEntry(sizes: seq<nat>, k: nat, nodes: Nodes, c: seq<Bit>, e: int)
    requires TreeEntry(sizes, k, nodes, c, e) && k < |sizes| && Long(sizes, k) && CodeBits(sizes, k) != c
    ensures TreeEntry(sizes, k + 1, nodes, c, e)
  {
    hide CodeBits;
  }
}
