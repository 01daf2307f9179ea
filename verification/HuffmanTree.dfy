/**
 * The tree that the two-queue Huffman construction builds, as sequences:
 * weights and parents of the internal nodes in the order they are made.
 */
module HuffmanTree {
  import opened Bits
  import opened Sequences

  /** Longest code length the length counters have room for. */
  const MAX_SUPPORTED := 32

  predicate Positive(s: seq<nat>) {
    forall i :: 0 <= i < |s| ==> s[i] >= 1
  }

  function Sum(s: seq<nat>): nat {
    if s == [] then 0 else s[0] + Sum(s[1..])
  }

  lemma {:induction false} SumSnoc(s: seq<nat>, x: nat)
    ensures Sum(s + [x]) == Sum(s) + x
  {
    if s != [] {
      assert (s + [x])[1..] == s[1..] + [x];
      SumSnoc(s[1..], x);
    }
  }

  /**
   * weights[k] is the weight of internal node k, parents[k] its parent (known for the nodes
   * already consumed), larger[k] the weight of its heavier child. last is the weight that was
   * consumed last; leaves below leaf are consumed.
   */
  ghost predicate Growing(f: seq<nat>, leaf: nat, weights: seq<nat>, parents: seq<nat>, larger: seq<nat>, last: nat) {
    && Ascending(f) && Positive(f) && leaf <= |f|
    && 1 <= |weights| == |larger| && |parents| < |weights|
    && |parents| + leaf == 2 * |weights|
    && Ascending(weights) && Positive(weights) && Positive(larger)
    && (forall p :: 0 <= p < |larger| ==> larger[p] <= last)
    && last <= weights[|parents|] && (leaf < |f| ==> last <= f[leaf])
    && weights[|weights| - 1] <= 2 * last
    && ParentsOk(weights, parents, larger)
  }

  /** Parents come later, at most two nodes share one, and a parent outweighs node and grandchild together. */
  ghost predicate ParentsOk(weights: seq<nat>, parents: seq<nat>, larger: seq<nat>) {
    && |parents| <= |weights| == |larger|
    && (forall r :: 0 <= r < |parents| ==> r < parents[r] < |weights|)
    && (forall r, s :: 0 <= r < s < |parents| ==> parents[r] <= parents[s])
    && (forall r, s :: 0 <= r && r + 2 <= s < |parents| ==> parents[r] < parents[s])
    && (forall r :: 0 <= r < |parents| ==> weights[r] <= larger[parents[r]])
    && (forall r :: 0 <= r < |parents| ==> weights[parents[r]] >= weights[r] + larger[r])
  }

  /** A pick consumes the lightest available node or leaf, the leaf if they weigh the same; a node gets the number of its parent. */
  ghost predicate Picked(f: seq<nat>, leaf: nat, weights: seq<nat>, parents: seq<nat>, w: nat, leaf': nat, parents': seq<nat>) {
    && leaf <= |f| && |parents| <= |weights|
    && (|parents| < |weights| ==> w <= weights[|parents|])
    && (leaf < |f| ==> w <= f[leaf])
    && (  (leaf < |f| && w == f[leaf] && leaf' == leaf + 1 && parents' == parents)
       || (|parents| < |weights| && w == weights[|parents|] && leaf' == leaf && parents' == parents + [|weights|]
           && (leaf < |f| ==> w < f[leaf])))
  }

  /** Two picks make one more node. */
  lemma NewNode(f: seq<nat>, leaf: nat, weights: seq<nat>, parents: seq<nat>, larger: seq<nat>, last: nat,
                x: nat, leaf1: nat, parents1: seq<nat>, y: nat, leaf2: nat, parents2: seq<nat>)
    requires Growing(f, leaf, weights, parents, larger, last)
    requires Picked(f, leaf, weights, parents, x, leaf1, parents1)
    requires Picked(f, leaf1, weights, parents1, y, leaf2, parents2)
    ensures Growing(f, leaf2, weights + [x + y], parents2, larger + [y], y)
  {
    assert last <= x <= y;
    var weights' := weights + [x + y];
    var larger' := larger + [y];
    NewParents(weights, parents, larger, last, x, y, parents2);
    assert Ascending(weights');
  }

  lemma NewParents(weights: seq<nat>, parents: seq<nat>, larger: seq<nat>, last: nat, x: nat, y: nat, parents2: seq<nat>)
    requires ParentsOk(weights, parents, larger) && last <= x <= y
    requires forall p :: 0 <= p < |larger| ==> larger[p] <= last
    requires |parents| <= |parents2| <= |weights| && |parents2| <= |parents| + 2
    requires parents2[..|parents|] == parents
    requires forall r :: |parents| <= r < |parents2| ==> parents2[r] == |weights| && weights[r] <= y && (weights[r] == x || weights[r] == y)
    ensures ParentsOk(weights + [x + y], parents2, larger + [y])
  {
    forall r | 0 <= r < |parents| ensures parents2[r] == parents[r] {
      assert parents2[..|parents|][r] == parents2[r];
    }
  }

  /** All nodes but the root have a parent. */
  ghost predicate Tree(weights: seq<nat>, parents: seq<nat>, larger: seq<nat>) {
    && |weights| == |parents| + 1 && ParentsOk(weights, parents, larger)
    && Positive(weights) && Positive(larger)
  }

  /** Distance of each node from the root, which is the last node. */
  ghost predicate Depths(parents: seq<nat>, depths: seq<nat>) {
    && |depths| == |parents| + 1 && depths[|parents|] == 0
    && (forall r :: 0 <= r < |parents| ==> r < parents[r] <= |parents|)
    && forall r :: 0 <= r < |parents| ==> depths[r] == depths[parents[r]] + 1
  }

  function Fib(n: nat): nat {
    if n < 2 then n else Fib(n - 1) + Fib(n - 2)
  }

  /** Weights grow like Fibonacci numbers towards the root. */
  lemma {:induction false} WeightsGrow(weights: seq<nat>, parents: seq<nat>, larger: seq<nat>, depths: seq<nat>, r: nat)
    requires Tree(weights, parents, larger) && Depths(parents, depths) && r < |parents|
    ensures weights[|parents|] >= Fib(depths[r]) * weights[parents[r]] + Fib(depths[r] - 1) * weights[r]
    decreases depths[r]
  {
    var d, p := depths[r], parents[r];
    if p == |parents| {
      assert Fib(d) == 1 && Fib(d - 1) == 0;
    } else {
      WeightsGrow(weights, parents, larger, depths, p);
      var g := parents[p];
      assert weights[g] >= weights[p] + larger[p] >= weights[p] + weights[r];
      FibStep(Fib(d - 1), Fib(d - 2), weights[g], weights[p], weights[r]);
      assert Fib(d) == Fib(d - 1) + Fib(d - 2);
    }
  }

  lemma FibStep(a: nat, b: nat, g: nat, p: nat, r: nat)
    requires g >= p + r
    ensures a * g + b * p >= (a + b) * p + a * r
  {
    assert a * g >= a * (p + r) by { MulAtLeast(a, p + r, g); }
    assert a * (p + r) == a * p + a * r;
    assert (a + b) * p == a * p + b * p;
  }

  lemma {:induction false} FibMonotone(m: nat, n: nat)
    requires m <= n
    ensures Fib(m) <= Fib(n)
    decreases n
  {
    if m < n {
      FibMonotone(m, n - 1);
    }
  }

  lemma Fib25()
    ensures Fib(25) == 75025
  {
    assert Fib(6) == 8 && Fib(7) == 13;
    assert Fib(11) == 89 && Fib(12) == 144;
    assert Fib(16) == 987 && Fib(17) == 1597;
    assert Fib(21) == 10946 && Fib(22) == 17711;
  }

  /** A total weight below 2^16 keeps every node within 23 steps of the root. */
  lemma DepthBound(weights: seq<nat>, parents: seq<nat>, larger: seq<nat>, depths: seq<nat>, r: nat)
    requires Tree(weights, parents, larger) && Depths(parents, depths) && r < |depths|
    requires weights[|parents|] < 65536
    ensures depths[r] <= 23
  {
    if r < |parents| {
      var d := depths[r];
      WeightsGrow(weights, parents, larger, depths, r);
      MulAtLeast(Fib(d), 1, weights[parents[r]]);
      MulAtLeast(Fib(d - 1), 1, weights[r]);
      assert weights[|parents|] >= Fib(d + 1);
      if d >= 24 {
        FibMonotone(25, d + 1);
        Fib25();
      }
    }
  }

  /** Later nodes are not deeper. */
  lemma {:induction false} DepthsDescend(weights: seq<nat>, parents: seq<nat>, larger: seq<nat>, depths: seq<nat>, r: nat, s: nat)
    requires Tree(weights, parents, larger) && Depths(parents, depths) && r <= s < |depths|
    ensures depths[r] >= depths[s]
    decreases |depths| - r
  {
    if r < s {
      if s < |parents| {
        DepthsDescend(weights, parents, larger, depths, parents[r], parents[s]);
      }
    }
  }

  /** Nodes from lo on whose parents lie below hi are at most twice as many as their possible parents. */
  lemma {:induction false} TwoPerParent(weights: seq<nat>, parents: seq<nat>, larger: seq<nat>, lo: nat, mid: nat, k: nat)
    requires ParentsOk(weights, parents, larger) && lo + 2 * k < |parents| && parents[lo] >= mid
    ensures parents[lo + 2 * k] >= mid + k
  {
    if k > 0 {
      TwoPerParent(weights, parents, larger, lo, mid, k - 1);
      assert parents[lo + 2 * k - 2] < parents[lo + 2 * k];
    }
  }
}
