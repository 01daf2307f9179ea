/**
 * What the tree costs: the weights of its internal nodes add up to a bound no other
 * lengths can beat, and to the cost of the depths of its leaves.
 */
module HuffmanCost {
  import opened HuffmanTree
  import opened Sequences
  import opened HuffmanOptimal

  /** The leaves and nodes that have no parent yet. */
  function Bag(f: seq<nat>, leaf: nat, weights: seq<nat>, root: nat): multiset<nat>
    requires leaf <= |f| && root <= |weights|
  {
    multiset(f[leaf..]) + multiset(weights[root..])
  }

  /** What any bound for the items left says about the whole: the weights of the nodes made come on top. */
  ghost predicate Reduces(f: seq<nat>, leaf: nat, weights: seq<nat>, root: nat) {
    && leaf <= |f| && root <= |weights|
    && AllLift(Bag(f, leaf, weights, root), multiset(f), Sum(weights))
  }

  ghost predicate AllLift(small: multiset<nat>, large: multiset<nat>, more: nat) {
    forall c: nat :: Lifts(small, c, large, more)
  }

  /** A bound for the smaller bag gives one for the larger. */
  ghost predicate Lifts(small: multiset<nat>, c: nat, large: multiset<nat>, more: nat) {
    CostsAtLeast(small, c) ==> CostsAtLeast(large, c + more)
  }

  lemma PickBag(f: seq<nat>, leaf: nat, weights: seq<nat>, parents: seq<nat>, w: nat, leaf': nat, parents': seq<nat>)
    requires Picked(f, leaf, weights, parents, w, leaf', parents')
    ensures leaf' <= |f| && |parents'| <= |weights|
    ensures Bag(f, leaf, weights, |parents|) == Bag(f, leaf', weights, |parents'|) + One(w)
  {
    if leaf' == leaf + 1 && parents' == parents {
      assert f[leaf..] == [f[leaf]] + f[leaf'..];
    } else {
      assert weights[|parents|..] == [weights[|parents|]] + weights[|parents'|..];
    }
  }

  /** Both picks are lighter than all that is left, and come in order. */
  lemma PicksLightest(f: seq<nat>, leaf: nat, weights: seq<nat>, parents: seq<nat>,
                      x: nat, leaf1: nat, parents1: seq<nat>, y: nat, leaf2: nat, parents2: seq<nat>)
    requires Ascending(f) && Ascending(weights)
    requires Picked(f, leaf, weights, parents, x, leaf1, parents1)
    requires Picked(f, leaf1, weights, parents1, y, leaf2, parents2)
    ensures leaf2 <= |f| && |parents2| <= |weights|
    ensures x <= y && Lightest(Bag(f, leaf2, weights, |parents2|), y)
  {
    forall v | v in Bag(f, leaf2, weights, |parents2|) ensures v >= y {
      if v in f[leaf2..] {
        var i :| 0 <= i < |f[leaf2..]| && f[leaf2..][i] == v;
        assert f[leaf1] <= f[leaf2 + i];
      } else {
        assert v in weights[|parents2|..];
        var i :| 0 <= i < |weights[|parents2|..]| && weights[|parents2|..][i] == v;
        assert weights[|parents1|] <= weights[|parents2| + i];
      }
    }
  }

  lemma ReducesStep(f: seq<nat>, leaf: nat, weights: seq<nat>, parents: seq<nat>,
                    x: nat, leaf1: nat, parents1: seq<nat>, y: nat, leaf2: nat, parents2: seq<nat>)
    requires Ascending(f) && Ascending(weights) && Reduces(f, leaf, weights, |parents|)
    requires Picked(f, leaf, weights, parents, x, leaf1, parents1)
    requires Picked(f, leaf1, weights, parents1, y, leaf2, parents2)
    ensures Reduces(f, leaf2, weights + [x + y], |parents2|)
  {
    hide Picked, CostsAtLeast, Sum, Ascending, Lightest, AllLift, Bag;
    PickBag(f, leaf, weights, parents, x, leaf1, parents1);
    PickBag(f, leaf1, weights, parents1, y, leaf2, parents2);
    PicksLightest(f, leaf, weights, parents, x, leaf1, parents1, y, leaf2, parents2);
    NewBag(f, leaf2, weights, |parents2|, x + y);
    SumSnoc(weights, x + y);
    LiftStep(Bag(f, leaf2, weights, |parents2|), x, y, multiset(f), Sum(weights));
  }

  lemma LiftStep(bag: multiset<nat>, x: nat, y: nat, whole: multiset<nat>, more: nat)
    requires x <= y && Lightest(bag, y) && AllLift(bag + One(y) + One(x), whole, more)
    ensures AllLift(bag + One(x + y), whole, more + (x + y))
  {
    hide CostsAtLeast, Lightest;
    var small, total := bag + One(x + y), more + (x + y);
    forall c: nat ensures Lifts(small, c, whole, total) {
      if CostsAtLeast(small, c) {
        GreedyStep(bag, x, y, c);
        assert Lifts(bag + One(y) + One(x), c + x + y, whole, more);
      }
    }
  }

  lemma NewBag(f: seq<nat>, leaf: nat, weights: seq<nat>, root: nat, w: nat)
    requires leaf <= |f| && root <= |weights|
    ensures Bag(f, leaf, weights + [w], root) == Bag(f, leaf, weights, root) + One(w)
  {
    assert (weights + [w])[root..] == weights[root..] + [w];
  }

  lemma FirstReduces(f: seq<nat>)
    requires |f| >= 2 && Ascending(f)
    ensures Reduces(f, 2, [f[0] + f[1]], 0)
  {
    var bag := multiset(f[2..]);
    FirstBags(f);
    hide CostsAtLeast, Sum, Ascending, Lightest, AllLift, Bag;
    NothingLifted(multiset(f));
    LiftStep(bag, f[0], f[1], multiset(f), 0);
  }

  lemma NothingLifted(bag: multiset<nat>)
    ensures AllLift(bag, bag, 0)
  {
    forall c: nat ensures Lifts(bag, c, bag, 0) {
      assert c + 0 == c;
    }
  }

  lemma FirstBags(f: seq<nat>)
    requires |f| >= 2 && Ascending(f)
    ensures var bag, w := multiset(f[2..]), [f[0] + f[1]];
      && f[0] <= f[1] && Lightest(bag, f[1]) && multiset(f) == bag + One(f[1]) + One(f[0])
      && Bag(f, 2, w, 0) == bag + One(f[0] + f[1]) && Sum(w) == f[0] + f[1]
  {
    assert f == [f[0]] + ([f[1]] + f[2..]);
    var w := [f[0] + f[1]];
    assert w[0..] == w && w[1..] == [];
    forall v | v in multiset(f[2..]) ensures v >= f[1] {
      assert v in f[2..];
    }
  }

  /** With one node left, what the nodes weigh together bounds every cost from below. */
  lemma NodesBound(f: seq<nat>, weights: seq<nat>, root: nat)
    requires Reduces(f, |f|, weights, root) && |weights| == root + 1
    ensures CostsAtLeast(multiset(f), Sum(weights))
  {
    hide CostsAtLeast, Sum;
    assert f[|f|..] == [] && weights[root..] == [weights[root]];
    assert Bag(f, |f|, weights, root) == One(weights[root]);
    RootFree(weights[root]);
    assert Lifts(Bag(f, |f|, weights, root), 0, multiset(f), Sum(weights));
  }

  lemma {:induction false} SumAppend(s: seq<nat>, t: seq<nat>)
    ensures Sum(s + t) == Sum(s) + Sum(t)
  {
    if s == [] {
      assert s + t == t;
    } else {
      assert (s + t)[1..] == s[1..] + t;
      SumAppend(s[1..], t);
    }
  }

  lemma SumSplit(s: seq<nat>, k: nat)
    requires k <= |s|
    ensures Sum(s) == Sum(s[..k]) + Sum(s[k..])
  {
    assert s == s[..k] + s[k..];
    SumAppend(s[..k], s[k..]);
  }

  /** The first c nodes are the ones whose parent is among the first k. */
  ghost predicate ChildrenOf(parents: seq<nat>, k: nat, c: nat) {
    && c <= |parents| && (forall r :: 0 <= r < c ==> parents[r] < k) && (forall r :: c <= r < |parents| ==> parents[r] >= k)
  }

  /** The first k nodes weigh what their 2 k children weigh: the first leaves and the first nodes. */
  ghost predicate Balanced(f: seq<nat>, weights: seq<nat>, parents: seq<nat>, k: nat, c: nat) {
    && k <= |weights| && c <= |weights| && c <= 2 * k && 2 * k - c <= |f|
    && Sum(weights[..k]) == Sum(f[..2 * k - c]) + Sum(weights[..c])
  }

  ghost predicate AllBalanced(f: seq<nat>, weights: seq<nat>, parents: seq<nat>) {
    forall k: nat, c: nat :: k <= |weights| && ChildrenOf(parents, k, c) ==> Balanced(f, weights, parents, k, c)
  }

  /** The last node with its two children. */
  lemma LastBalanced(f: seq<nat>, leaf: nat, weights: seq<nat>, parents: seq<nat>)
    requires leaf <= |f| && |parents| <= |weights| && |parents| + leaf == 2 * |weights|
    requires Sum(weights[|parents|..]) + Sum(f[leaf..]) == Sum(f)
    ensures Balanced(f, weights, parents, |weights|, |parents|)
  {
    SumSplit(f, leaf);
    SumSplit(weights, |parents|);
    assert weights[..|weights|] == weights;
  }

  lemma BalancedStep(f: seq<nat>, leaf: nat, weights: seq<nat>, parents: seq<nat>, weights': seq<nat>, parents': seq<nat>)
    requires AllBalanced(f, weights, parents) && |parents| <= |parents'|
    requires parents'[..|parents|] == parents && forall r :: |parents| <= r < |parents'| ==> parents'[r] == |weights|
    requires forall r :: 0 <= r < |parents| ==> parents[r] < |weights|
    requires |weights'| == |weights| + 1 && weights'[..|weights|] == weights
    requires Balanced(f, weights', parents', |weights'|, |parents'|)
    ensures AllBalanced(f, weights', parents')
  {
    hide Sum;
    forall k: nat, c: nat | k <= |weights'| && ChildrenOf(parents', k, c) ensures Balanced(f, weights', parents', k, c) {
      OneBalanced(f, weights, parents, weights', parents', k, c);
    }
  }

  lemma OneBalanced(f: seq<nat>, weights: seq<nat>, parents: seq<nat>, weights': seq<nat>, parents': seq<nat>, k: nat, c: nat)
    requires AllBalanced(f, weights, parents) && |parents| <= |parents'|
    requires parents'[..|parents|] == parents && forall r :: |parents| <= r < |parents'| ==> parents'[r] == |weights|
    requires forall r :: 0 <= r < |parents| ==> parents[r] < |weights|
    requires |weights'| == |weights| + 1 && weights'[..|weights|] == weights
    requires Balanced(f, weights', parents', |weights'|, |parents'|)
    requires k <= |weights'| && ChildrenOf(parents', k, c)
    ensures Balanced(f, weights', parents', k, c)
  {
    hide Sum;
    assert forall r :: 0 <= r < |parents| ==> parents'[r] == parents'[..|parents|][r];
    ChildAt(parents', k, c, c);
    ChildAt(parents', k, c, |parents|);
    if k < |weights'| {
      assert ChildrenOf(parents, k, c);
      assert Balanced(f, weights, parents, k, c);
      assert weights'[..k] == weights[..k] && weights'[..c] == weights[..c];
    }
  }

  lemma ChildAt(parents: seq<nat>, k: nat, c: nat, r: nat)
    requires ChildrenOf(parents, k, c)
    ensures r < |parents| ==> (r < c <==> parents[r] < k)
  {
  }

  /** The leaves below the first k nodes are no heavier than the heavier child of the last of these nodes. */
  ghost predicate LeavesLight(f: seq<nat>, parents: seq<nat>, weights: seq<nat>, larger: seq<nat>) {
    && |larger| == |weights| && (forall p :: 0 <= p < |larger| ==> larger[p] <= weights[p])
    && forall k: nat, c: nat :: 1 <= k <= |larger| && ChildrenOf(parents, k, c) ==> LastLeafLight(f, larger, k, c)
  }

  ghost predicate LastLeafLight(f: seq<nat>, larger: seq<nat>, k: nat, c: nat) {
    1 <= k <= |larger| && 2 * k - c <= |f| && (2 * k - c >= 1 ==> f[2 * k - c - 1] <= larger[k - 1])
  }

  lemma LightStep(f: seq<nat>, parents: seq<nat>, weights: seq<nat>, larger: seq<nat>, leaf': nat, parents': seq<nat>, x: nat, y: nat)
    requires LeavesLight(f, parents, weights, larger) && |larger| >= 1 && |parents| <= |parents'|
    requires parents'[..|parents|] == parents && forall r :: |parents| <= r < |parents'| ==> parents'[r] == |larger|
    requires forall r :: 0 <= r < |parents| ==> parents[r] < |larger|
    requires |parents'| + leaf' == 2 * (|larger| + 1) && leaf' <= |f| && (leaf' >= 1 ==> f[leaf' - 1] <= y)
    ensures LeavesLight(f, parents', weights + [x + y], larger + [y])
  {
    var larger' := larger + [y];
    forall k: nat, c: nat | 1 <= k <= |larger'| && ChildrenOf(parents', k, c) ensures LastLeafLight(f, larger', k, c) {
      assert forall r :: 0 <= r < |parents| ==> parents'[r] == parents'[..|parents|][r];
      ChildAt(parents', k, c, c);
      ChildAt(parents', k, c, |parents|);
      if k < |larger'| {
        assert ChildrenOf(parents, k, c);
        assert LastLeafLight(f, larger, k, c);
      }
    }
  }

  /** Of two picks the last leaf is no heavier than the second pick. */
  lemma PickedLight(f: seq<nat>, leaf: nat, weights: seq<nat>, parents: seq<nat>, larger: seq<nat>,
                    x: nat, leaf1: nat, parents1: seq<nat>, y: nat, leaf2: nat, parents2: seq<nat>)
    requires LeavesLight(f, parents, weights, larger) && 1 <= |larger| == |weights| && |parents| + leaf == 2 * |weights|
    requires forall r :: 0 <= r < |parents| ==> parents[r] < |weights|
    requires larger[|larger| - 1] <= x <= y
    requires Picked(f, leaf, weights, parents, x, leaf1, parents1)
    requires Picked(f, leaf1, weights, parents1, y, leaf2, parents2)
    ensures |parents2| + leaf2 == 2 * (|larger| + 1) && leaf2 <= |f| && (leaf2 >= 1 ==> f[leaf2 - 1] <= y)
  {
    assert ChildrenOf(parents, |larger|, |parents|);
    assert LastLeafLight(f, larger, |larger|, |parents|);
  }

  function Pairs(f: seq<nat>, lens: seq<nat>): (items: seq<Item>)
    requires |f| == |lens|
    ensures |items| == |f| && forall i :: 0 <= i < |f| ==> items[i] == Item(f[i], lens[i])
  {
    seq(|f|, i requires 0 <= i < |f| => Item(f[i], lens[i]))
  }

  lemma {:induction false} CostAppend(s: seq<Item>, t: seq<Item>)
    ensures Cost(s + t) == Cost(s) + Cost(t)
  {
    if s == [] {
      assert s + t == t;
    } else {
      assert (s + t)[1..] == s[1..] + t;
      CostAppend(s[1..], t);
    }
  }

  lemma {:induction false} CostFlat(f: seq<nat>, d: nat)
    ensures Cost(Pairs(f, seq(|f|, _ => d))) == d * Sum(f)
  {
    var items := Pairs(f, seq(|f|, _ => d));
    if f != [] {
      assert items[1..] == Pairs(f[1..], seq(|f[1..]|, _ => d));
      CostFlat(f[1..], d);
      assert d * (f[0] + Sum(f[1..])) == d * f[0] + d * Sum(f[1..]);
    }
  }

  /** A leaf with a long code weighs little of the whole. */
  ghost predicate LightLeaves(f: seq<nat>, lens: seq<nat>, from: nat, total: nat) {
    from + |lens| == |f| && forall i :: 0 <= i < |lens| ==> Fib(lens[i] + 1) * f[from + i] <= total
  }

  /** Leaves below place next + 1 are still to get a length of at least dpth; nodes above root are accounted for. */
  ghost predicate CostSoFar(f: seq<nat>, weights: seq<nat>, lens: seq<nat>, root: int, next: int, dpth: nat) {
    && -1 <= next < |f| && |lens| == |f| - 1 - next && -1 <= root < |weights|
    && Cost(Pairs(f[next + 1..], lens)) + dpth * Sum(f[..next + 1]) + Sum(weights[..root + 1]) == Sum(weights)
  }

  lemma FirstCost(f: seq<nat>, weights: seq<nat>)
    requires |f| >= 1
    ensures CostSoFar(f, weights, [], |weights| - 1, |f| - 1, 0)
  {
    assert weights[..|weights|] == weights && f[|f|..] == [];
  }

  lemma LastCost(f: seq<nat>, weights: seq<nat>, lens: seq<nat>, dpth: nat)
    requires CostSoFar(f, weights, lens, -1, -1, dpth)
    ensures Cost(Pairs(f, lens)) == Sum(weights)
  {
    assert f[0..] == f && f[..0] == [] && weights[..0] == [];
    assert dpth * 0 == 0;
  }

  /** One level: k leaves get length dpth. */
  lemma NextCost(f: seq<nat>, weights: seq<nat>, parents: seq<nat>, lens: seq<nat>, root: int, next: int, dpth: nat, root': int, k: nat)
    requires CostSoFar(f, weights, lens, root, next, dpth) && k <= next + 1 && -1 <= root' < |weights|
    requires Balanced(f, weights, parents, (root + 1) as nat, (root' + 1) as nat) && 2 * (root + 1) - (root' + 1) == next - k + 1
    ensures CostSoFar(f, weights, seq(k, _ => dpth) + lens, root', next - k, dpth + 1)
  {
    hide Sum, Cost, Pairs;
    var lo := next - k + 1;
    var mid := f[lo..next + 1];
    assert f[lo..] == mid + f[next + 1..] && f[..next + 1] == f[..lo] + mid && |mid| == k;
    SumAppend(f[..lo], mid);
    CostFlat(mid, dpth);
    var level := seq(k, _ => dpth);
    PairsAppend(mid, level, f[next + 1..], lens);
    CostAppend(Pairs(mid, level), Pairs(f[next + 1..], lens));
    Spread(dpth, Sum(f[..lo]), Sum(mid));
  }

  lemma Spread(d: nat, a: nat, b: nat)
    ensures d * (a + b) == d * a + d * b && (d + 1) * a == d * a + a
  {
  }

  lemma PairsAppend(f: seq<nat>, a: seq<nat>, g: seq<nat>, b: seq<nat>)
    requires |f| == |a| && |g| == |b|
    ensures Pairs(f + g, a + b) == Pairs(f, a) + Pairs(g, b)
  {
  }

  /** No lengths that a prefix code could have cost less. */
  ghost predicate Minimal(f: seq<nat>, lens: seq<nat>) {
    && |f| == |lens|
    && forall other: seq<nat>, m: nat :: |other| == |f| && Affordable(Pairs(f, other), m) ==> Cost(Pairs(f, lens)) <= Cost(Pairs(f, other))
  }

  lemma BoundIsMinimal(f: seq<nat>, lens: seq<nat>, c: nat)
    requires |f| == |lens| && CostsAtLeast(multiset(f), c) && Cost(Pairs(f, lens)) == c
    ensures Minimal(f, lens)
  {
    forall other: seq<nat>, m: nat | |other| == |f| && Affordable(Pairs(f, other), m)
      ensures Cost(Pairs(f, lens)) <= Cost(Pairs(f, other))
    {
      assert Weights(Pairs(f, other)) == f;
    }
  }
}
