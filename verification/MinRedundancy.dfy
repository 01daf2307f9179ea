/**
 * Huffman code lengths in place (Moffat and Katajainen): the array of ascending
 * frequencies becomes tree weights, then parents, then depths, then the lengths.
 */
module MinRedundancy {
  import opened Bits
  import opened Sequences
  import opened RadixSort
  import opened HuffmanTree
  import opened HuffmanOptimal
  import opened HuffmanCost

  function Keys(s: seq<SymFreq>): (k: seq<nat>)
    ensures |k| == |s| && forall i :: 0 <= i < |s| ==> k[i] == s[i].key
  {
    seq(|s|, i requires 0 <= i < |s| => s[i].key)
  }

  function Syms(s: seq<SymFreq>): (k: seq<nat>)
    ensures |k| == |s| && forall i :: 0 <= i < |s| ==> k[i] == s[i].sym
  {
    seq(|s|, i requires 0 <= i < |s| => s[i].sym)
  }

  /** 2^32 times the Kraft sum. */
  function Kraft(lens: seq<nat>): nat {
    if lens == [] then 0
    else (if lens[0] <= MAX_SUPPORTED then Pow2(MAX_SUPPORTED - lens[0]) else 0) + Kraft(lens[1..])
  }

  /** How the array stands while node `next` is being made. */
  ghost predicate Queues(a: seq<SymFreq>, f: seq<nat>, leaf: nat, weights: seq<nat>, parents: seq<nat>) {
    && |a| == |f| && |parents| <= |weights| < leaf <= |f|
    && (forall r :: 0 <= r < |parents| ==> a[r].key == parents[r])
    && (forall r :: |parents| <= r < |weights| ==> a[r].key == weights[r])
    && (forall i :: leaf <= i < |f| ==> a[i].key == f[i])
  }

  /** Takes the lightest node or leaf; a node gets its parent's number in place of its weight. */
  method TakeLightest(a: array<SymFreq>, next: nat, root: nat, leaf: nat,
                      ghost f: seq<nat>, ghost weights: seq<nat>, ghost parents: seq<nat>)
    returns (w: nat, root': nat, leaf': nat, ghost parents': seq<nat>)
    requires Queues(a[..], f, leaf, weights, parents) && next == |weights| && root == |parents|
    requires root < next || leaf < |f|
    modifies a
    ensures Picked(f, leaf, weights, parents, w, leaf', parents') && root' == |parents'| && root' + leaf' == root + leaf + 1
    ensures Queues(a[..], f, leaf', weights, parents')
    ensures Syms(a[..]) == old(Syms(a[..]))
  {
    root', leaf', parents' := root, leaf, parents;
    if leaf >= a.Length || (root < next && a[root].key < a[leaf].key) {
      w := a[root].key;
      a[root] := a[root].(key := next);
      root' := root + 1;
      parents' := parents + [next];
    } else {
      w := a[leaf].key;
      leaf' := leaf + 1;
    }
  }

  lemma FirstNode(f: seq<nat>)
    requires |f| >= 2 && Ascending(f) && Positive(f)
    ensures Growing(f, 2, [f[0] + f[1]], [], [f[1]], f[1])
  {
  }

  /** No weight is lost: what is still available adds up to the total. */
  ghost predicate Conserved(f: seq<nat>, leaf: nat, weights: seq<nat>, root: nat) {
    && leaf <= |f| && root <= |weights|
    && Sum(weights[root..]) + Sum(f[leaf..]) == Sum(f)
  }

  lemma FirstSum(f: seq<nat>)
    requires |f| >= 2
    ensures Conserved(f, 2, [f[0] + f[1]], 0) && f[0] + f[1] <= Sum(f)
  {
    assert f == [f[0]] + ([f[1]] + f[2..]);
    assert f[1..] == [f[1]] + f[2..];
    assert f[1..][1..] == f[2..];
    assert [f[0] + f[1]][0..] == [f[0] + f[1]] && [f[0] + f[1]][1..] == [];
  }

  lemma PickSum(f: seq<nat>, leaf: nat, weights: seq<nat>, parents: seq<nat>, w: nat, leaf': nat, parents': seq<nat>)
    requires Picked(f, leaf, weights, parents, w, leaf', parents')
    ensures Sum(weights[|parents|..]) + Sum(f[leaf..]) == w + Sum(weights[|parents'|..]) + Sum(f[leaf'..])
  {
    if leaf' == leaf + 1 && parents' == parents {
      assert f[leaf..][1..] == f[leaf'..];
    } else {
      assert weights[|parents|..][1..] == weights[|parents'|..];
    }
  }

  lemma NewNodeSum(f: seq<nat>, leaf: nat, weights: seq<nat>, parents: seq<nat>,
                   x: nat, leaf1: nat, parents1: seq<nat>, y: nat, leaf2: nat, parents2: seq<nat>)
    requires Conserved(f, leaf, weights, |parents|)
    requires Picked(f, leaf, weights, parents, x, leaf1, parents1)
    requires Picked(f, leaf1, weights, parents1, y, leaf2, parents2)
    ensures Conserved(f, leaf2, weights + [x + y], |parents2|) && x + y <= Sum(f)
  {
    PickSum(f, leaf, weights, parents, x, leaf1, parents1);
    PickSum(f, leaf1, weights, parents1, y, leaf2, parents2);
    assert (weights + [x + y])[|parents2|..] == weights[|parents2|..] + [x + y];
    SumSnoc(weights[|parents2|..], x + y);
  }

  /** The tree so far: no weight is lost, every node weighs what its children weigh, and merging was the cheapest thing to do. */
  ghost predicate TreeSoFar(f: seq<nat>, leaf: nat, weights: seq<nat>, parents: seq<nat>, larger: seq<nat>, last: nat) {
    && Growing(f, leaf, weights, parents, larger, last)
    && Conserved(f, leaf, weights, |parents|) && Sum(f) < 65536
    && Reduces(f, leaf, weights, |parents|) && AllBalanced(f, weights, parents) && LeavesLight(f, parents, weights, larger)
  }

  lemma NodeMade(f: seq<nat>, leaf: nat, weights: seq<nat>, parents: seq<nat>, larger: seq<nat>, last: nat,
                 x: nat, leaf1: nat, parents1: seq<nat>, y: nat, leaf2: nat, parents2: seq<nat>)
    requires TreeSoFar(f, leaf, weights, parents, larger, last)
    requires Picked(f, leaf, weights, parents, x, leaf1, parents1)
    requires Picked(f, leaf1, weights, parents1, y, leaf2, parents2)
    ensures TreeSoFar(f, leaf2, weights + [x + y], parents2, larger + [y], y) && x + y < 65536
  {
    hide Growing, Conserved, Sum, Reduces, AllBalanced, Picked, LeavesLight;
    LightNode(f, leaf, weights, parents, larger, last, x, leaf1, parents1, y, leaf2, parents2);
    NewNode(f, leaf, weights, parents, larger, last, x, leaf1, parents1, y, leaf2, parents2);
    NewNodeSum(f, leaf, weights, parents, x, leaf1, parents1, y, leaf2, parents2);
    BothAscending(f, leaf, weights, parents, larger, last);
    ReducesStep(f, leaf, weights, parents, x, leaf1, parents1, y, leaf2, parents2);
    BalancedNode(f, leaf, weights, parents, larger, last, x, leaf1, parents1, y, leaf2, parents2);
  }

  lemma LightNode(f: seq<nat>, leaf: nat, weights: seq<nat>, parents: seq<nat>, larger: seq<nat>, last: nat,
                  x: nat, leaf1: nat, parents1: seq<nat>, y: nat, leaf2: nat, parents2: seq<nat>)
    requires Growing(f, leaf, weights, parents, larger, last) && LeavesLight(f, parents, weights, larger)
    requires Picked(f, leaf, weights, parents, x, leaf1, parents1)
    requires Picked(f, leaf1, weights, parents1, y, leaf2, parents2)
    ensures LeavesLight(f, parents2, weights + [x + y], larger + [y])
  {
    BothAscending(f, leaf, weights, parents, larger, last);
    InOrder(f, leaf, weights, parents, larger, last, x, leaf1, parents1, y, leaf2, parents2);
    hide Growing, LeavesLight;
    PickedLight(f, leaf, weights, parents, larger, x, leaf1, parents1, y, leaf2, parents2);
    LightStep(f, parents, weights, larger, leaf2, parents2, x, y);
  }

  lemma InOrder(f: seq<nat>, leaf: nat, weights: seq<nat>, parents: seq<nat>, larger: seq<nat>, last: nat,
                x: nat, leaf1: nat, parents1: seq<nat>, y: nat, leaf2: nat, parents2: seq<nat>)
    requires Growing(f, leaf, weights, parents, larger, last)
    requires Picked(f, leaf, weights, parents, x, leaf1, parents1)
    requires Picked(f, leaf1, weights, parents1, y, leaf2, parents2)
    ensures 1 <= |larger| == |weights| && larger[|larger| - 1] <= x <= y
  {
    hide ParentsOk;
    assert last <= x <= y;
  }

  lemma BothAscending(f: seq<nat>, leaf: nat, weights: seq<nat>, parents: seq<nat>, larger: seq<nat>, last: nat)
    requires Growing(f, leaf, weights, parents, larger, last)
    ensures Ascending(f) && Ascending(weights) && leaf <= |f| && |parents| < |weights| && |parents| + leaf == 2 * |weights|
    ensures forall r :: 0 <= r < |parents| ==> parents[r] < |weights|
  {
  }

  lemma BalancedNode(f: seq<nat>, leaf: nat, weights: seq<nat>, parents: seq<nat>, larger: seq<nat>, last: nat,
                     x: nat, leaf1: nat, parents1: seq<nat>, y: nat, leaf2: nat, parents2: seq<nat>)
    requires Growing(f, leaf, weights, parents, larger, last) && AllBalanced(f, weights, parents)
    requires Picked(f, leaf, weights, parents, x, leaf1, parents1)
    requires Picked(f, leaf1, weights, parents1, y, leaf2, parents2)
    requires Conserved(f, leaf2, weights + [x + y], |parents2|)
    ensures AllBalanced(f, weights + [x + y], parents2)
  {
    hide Growing, Sum, AllBalanced, Balanced;
    BothAscending(f, leaf, weights, parents, larger, last);
    LastBalanced(f, leaf2, weights + [x + y], parents2);
    BalancedStep(f, leaf2, weights, parents, weights + [x + y], parents2);
  }

  /** The array and the tree so far. */
  ghost predicate Building(a: seq<SymFreq>, f: seq<nat>, leaf: nat, weights: seq<nat>, parents: seq<nat>, larger: seq<nat>, last: nat) {
    TreeSoFar(f, leaf, weights, parents, larger, last) && Queues(a, f, leaf, weights, parents)
  }

  /** The new node's weight goes into the array. */
  lemma QueuesGrow(a: seq<SymFreq>, f: seq<nat>, leaf: nat, weights: seq<nat>, parents: seq<nat>, w: nat, a': seq<SymFreq>)
    requires Queues(a, f, leaf, weights, parents) && |weights| + 1 < leaf && a' == a[|weights| := a[|weights|].(key := w)]
    ensures Queues(a', f, leaf, weights + [w], parents)
  {
  }

  /** One more internal node from the two lightest items. */
  method MakeNode(a: array<SymFreq>, next: nat, root: nat, leaf: nat,
                  ghost f: seq<nat>, ghost weights: seq<nat>, ghost parents: seq<nat>, ghost larger: seq<nat>, ghost last: nat)
    returns (root': nat, leaf': nat, ghost weights': seq<nat>, ghost parents': seq<nat>, ghost larger': seq<nat>, ghost last': nat)
    requires Building(a[..], f, leaf, weights, parents, larger, last)
    requires next == |weights| < |f| - 1 && root == |parents|
    modifies a
    ensures Building(a[..], f, leaf', weights', parents', larger', last')
    ensures |weights'| == next + 1 && root' == |parents'|
    ensures Syms(a[..]) == old(Syms(a[..]))
  {
    hide TreeSoFar, Syms, Picked, Queues;
    var x, y, root1, leaf1;
    ghost var parents1;
    CanPick(a[..], f, leaf, weights, parents, larger, last);
    x, root1, leaf1, parents1 := TakeLightest(a, next, root, leaf, f, weights, parents);
    y, root', leaf', parents' := TakeLightest(a, next, root1, leaf1, f, weights, parents1);
    NodeMade(f, leaf, weights, parents, larger, last, x, leaf1, parents1, y, leaf', parents');
    NodesBehind(a[..], f, leaf', weights + [x + y], parents', larger + [y], y);
    ghost var before := a[..];
    a[next] := a[next].(key := (x + y) % 65536);
    assert a[..] == before[next := before[next].(key := x + y)];
    SymsKept(before, next, x + y);
    QueuesGrow(before, f, leaf', weights, parents', x + y, a[..]);
    weights', larger', last' := weights + [x + y], larger + [y], y;
  }

  lemma NodesBehind(a: seq<SymFreq>, f: seq<nat>, leaf: nat, weights: seq<nat>, parents: seq<nat>, larger: seq<nat>, last: nat)
    requires TreeSoFar(f, leaf, weights, parents, larger, last)
    ensures |weights| < leaf && |parents| < |weights|
  {
  }

  lemma SymsKept(a: seq<SymFreq>, i: nat, k: nat)
    requires i < |a|
    ensures Syms(a[i := a[i].(key := k)]) == Syms(a)
  {
  }

  /** Weights of the internal nodes; in the end the array holds their parents. */
  method BuildTree(a: array<SymFreq>) returns (ghost weights: seq<nat>, ghost parents: seq<nat>, ghost larger: seq<nat>)
    requires a.Length >= 2 && Ascending(Keys(a[..])) && Positive(Keys(a[..])) && Sum(Keys(a[..])) < 65536
    modifies a
    ensures Tree(weights, parents, larger) && |parents| == a.Length - 2
    ensures forall r :: 0 <= r < |parents| ==> a[r].key == parents[r]
    ensures weights[|parents|] == old(Sum(Keys(a[..])))
    ensures AllBalanced(old(Keys(a[..])), weights, parents) && CostsAtLeast(multiset(old(Keys(a[..]))), Sum(weights))
    ensures LeavesLight(old(Keys(a[..])), parents, weights, larger)
    ensures Syms(a[..]) == old(Syms(a[..]))
  {
    hide Sum, Syms, TreeSoFar, Minimal, Tree;
    ghost var f := Keys(a[..]);
    var n := a.Length;
    FirstTree(f);
    ghost var before := a[..];
    a[0] := a[0].(key := (a[0].key + a[1].key) % 65536);
    SymsKept(before, 0, f[0] + f[1]);
    assert a[..] == before[0 := before[0].(key := f[0] + f[1])];
    weights, parents, larger := [f[0] + f[1]], [], [f[1]];
    ghost var last := f[1];
    var root, leaf := 0, 2;
    var next := 1;
    while next < n - 1
      invariant 1 <= next <= n - 1 && next == |weights| && root == |parents| && 0 <= leaf
      invariant Building(a[..], f, leaf, weights, parents, larger, last)
      invariant Syms(a[..]) == Syms(before)
    {
      hide Building;
      root, leaf, weights, parents, larger, last := MakeNode(a, next, root, leaf, f, weights, parents, larger, last);
      next := next + 1;
    }
    RootIsTotal(f, leaf, weights, parents, larger, last);
  }

  lemma FirstTree(f: seq<nat>)
    requires |f| >= 2 && Ascending(f) && Positive(f) && Sum(f) < 65536
    ensures TreeSoFar(f, 2, [f[0] + f[1]], [], [f[1]], f[1]) && f[0] + f[1] < 65536
  {
    FirstNode(f);
    FirstSum(f);
    FirstReduces(f);
    assert LeavesLight(f, [], [f[0] + f[1]], [f[1]]);
    hide Sum, Growing, Reduces, LeavesLight;
    var w := [f[0] + f[1]];
    LastBalanced(f, 2, w, []);
    assert AllBalanced(f, w, []) by { FirstBalanced(f, w); }
  }

  lemma FirstBalanced(f: seq<nat>, w: seq<nat>)
    requires |f| >= 2 && |w| == 1 && Balanced(f, w, [], 1, 0)
    ensures AllBalanced(f, w, [])
  {
    hide Balanced;
    assert Balanced(f, w, [], 0, 0) by { NoneBalanced(f, w); }
  }

  lemma NoneBalanced(f: seq<nat>, w: seq<nat>)
    ensures Balanced(f, w, [], 0, 0)
  {
  }

  lemma RootIsTotal(f: seq<nat>, leaf: nat, weights: seq<nat>, parents: seq<nat>, larger: seq<nat>, last: nat)
    requires TreeSoFar(f, leaf, weights, parents, larger, last) && |weights| == |f| - 1
    ensures Tree(weights, parents, larger) && |parents| == |f| - 2 && weights[|parents|] == Sum(f)
    ensures AllBalanced(f, weights, parents) && CostsAtLeast(multiset(f), Sum(weights)) && LeavesLight(f, parents, weights, larger)
  {
    hide AllBalanced, Reduces, LeavesLight;
    assert leaf == |f| && |parents| == |f| - 2;
    NodesBound(f, weights, |parents|);
    assert f[|f|..] == [] && weights[|parents|..] == [weights[|parents|]];
    assert weights[|parents|..][1..] == [];
  }

  lemma CanPick(a: seq<SymFreq>, f: seq<nat>, leaf: nat, weights: seq<nat>, parents: seq<nat>, larger: seq<nat>, last: nat)
    requires Building(a, f, leaf, weights, parents, larger, last) && |weights| < |f| - 1
    ensures leaf == 2 * |weights| - |parents| && |parents| < |weights| && |a| == |f|
  {
    hide Conserved, Reduces, AllBalanced, Sum;
  }

  /** Parents become depths, from the root down. */
  method TreeDepths(a: array<SymFreq>, ghost weights: seq<nat>, ghost parents: seq<nat>, ghost larger: seq<nat>)
    returns (ghost depths: seq<nat>)
    requires a.Length >= 2 && Tree(weights, parents, larger) && |parents| == a.Length - 2
    requires forall r :: 0 <= r < |parents| ==> a[r].key == parents[r]
    modifies a
    ensures Depths(parents, depths)
    ensures forall r :: 0 <= r < a.Length - 1 ==> a[r].key == depths[r]
    ensures Syms(a[..]) == old(Syms(a[..]))
  {
    hide Syms;
    var n := a.Length;
    SymsKept(a[..], n - 2, 0);
    ghost var before := a[..];
    a[n - 2] := a[n - 2].(key := 0);
    assert a[..] == before[n - 2 := before[n - 2].(key := 0)];
    var next := n - 3;
    while next >= 0
      invariant -1 <= next <= n - 3
      invariant forall r :: 0 <= r <= next ==> a[r].key == parents[r]
      invariant a[n - 2].key == 0
      invariant forall r :: next < r < n - 2 ==> a[r].key == a[parents[r]].key + 1
      invariant Syms(a[..]) == Syms(before)
    {
      var d := a[a[next].key].key + 1;
      SymsKept(a[..], next, d);
      ghost var was := a[..];
      a[next] := a[next].(key := d);
      assert a[..] == was[next := was[next].(key := d)];
      next := next - 1;
    }
    depths := Keys(a[..n - 1]);
  }

  /**
   * Level by level: avbl slots are open at depth dpth, nodes above root are consumed, and the
   * lengths above next are final. The nodes of the level above are those from root + 1 on.
   */
  ghost predicate Level(parents: seq<nat>, depths: seq<nat>, lens: seq<nat>, n: nat, root: int, next: int, avbl: nat, dpth: nat) {
    && n == |depths| + 1 && Depths(parents, depths)
    && -1 <= root < |depths| && -1 <= next < n && |lens| == n - 1 - next
    && next == avbl + root
    && (forall r :: 0 <= r <= root ==> depths[r] >= dpth)
    && LevelAbove(depths, root, avbl, dpth)
    && (avbl > 0 ==> dpth <= MAX_SUPPORTED)
    && Kraft(lens) + (if avbl > 0 then avbl * Pow2(MAX_SUPPORTED - dpth) else 0) == Pow2(MAX_SUPPORTED)
    && (forall i :: 0 <= i < |lens| ==> 1 <= lens[i] < dpth)
    && (forall i, j :: 0 <= i < j < |lens| ==> lens[i] >= lens[j])
  }

  /** Two open slots for every node of depth dpth - 1; the root itself is one slot. */
  ghost predicate LevelAbove(depths: seq<nat>, root: int, avbl: nat, dpth: nat) {
    if dpth == 0 then root == |depths| - 1 && avbl == 1
    else
      && avbl % 2 == 0 && root + avbl / 2 < |depths|
      && (forall r :: root < r <= root + avbl / 2 ==> 0 <= r && depths[r] == dpth - 1)
      && (forall r :: root + avbl / 2 < r < |depths| ==> 0 <= r && depths[r] < dpth - 1)
  }

  lemma ParentDepth(parents: seq<nat>, depths: seq<nat>, r: nat)
    requires Depths(parents, depths) && r < |parents|
    ensures r < parents[r] <= |parents| && depths[r] == depths[parents[r]] + 1
  {
  }

  /** The nodes of a level are at most as many as the open slots. */
  lemma LevelFits(weights: seq<nat>, parents: seq<nat>, larger: seq<nat>, depths: seq<nat>, root: int, avbl: nat, dpth: nat, used: nat)
    requires Tree(weights, parents, larger) && Depths(parents, depths)
    requires -1 <= root < |depths| && LevelAbove(depths, root, avbl, dpth) && used <= root + 1
    requires forall r :: root - used < r <= root ==> depths[r] == dpth
    ensures used <= avbl
  {
    if dpth == 0 {
      if used >= 2 {
        ParentDepth(parents, depths, root - 1);
      }
    } else if used > avbl {
      var lo, k := root - used + 1, avbl / 2;
      assert root < |parents|;
      assert depths[lo] == dpth && depths[parents[lo]] == dpth - 1;
      TwoPerParent(weights, parents, larger, lo, root + 1, k);
    }
  }

  lemma LevelShape(parents: seq<nat>, depths: seq<nat>, lens: seq<nat>, n: nat, root: int, next: int, avbl: nat, dpth: nat)
    requires Level(parents, depths, lens, n, root, next, avbl, dpth)
    ensures -1 <= root < n - 1 && -1 <= next < n && next == avbl + root
  {
  }

  /** An empty level is the end: no node is left, and all lengths are there. */
  lemma LastLevel(parents: seq<nat>, depths: seq<nat>, lens: seq<nat>, n: nat, root: int, next: int, avbl: nat, dpth: nat)
    requires Level(parents, depths, lens, n, root, next, avbl, dpth) && avbl == 0 && dpth <= 25
    ensures root == -1 && next == -1 && Lengths(lens)
  {
    if 0 <= root < |parents| {
      ParentDepth(parents, depths, root);
    }
  }

  lemma {:induction false} KraftPrepend(k: nat, len: nat, lens: seq<nat>)
    requires len <= MAX_SUPPORTED
    ensures Kraft(seq(k, _ => len) + lens) == k * Pow2(MAX_SUPPORTED - len) + Kraft(lens)
  {
    var s := seq(k, _ => len) + lens;
    if k == 0 {
      assert s == lens;
    } else {
      assert s[1..] == seq(k - 1, _ => len) + lens;
      KraftPrepend(k - 1, len, lens);
      var p := Pow2(MAX_SUPPORTED - len);
      assert k * p == (k - 1) * p + p;
    }
  }

  /** A level with used nodes turns the other open slots into leaves. */
  lemma NextLevel(weights: seq<nat>, parents: seq<nat>, larger: seq<nat>, depths: seq<nat>, lens: seq<nat>,
                  n: nat, root: int, next: int, avbl: nat, dpth: nat, used: nat)
    requires Tree(weights, parents, larger) && weights[|parents|] < 65536
    requires Level(parents, depths, lens, n, root, next, avbl, dpth) && avbl > 0
    requires used <= root + 1
    requires forall r :: root - used < r <= root ==> depths[r] == dpth
    requires root >= used ==> depths[root - used] != dpth
    ensures used <= avbl && next - (avbl - used) >= root - used && dpth <= 24
    ensures Level(parents, depths, seq(avbl - used, _ => dpth) + lens, n, root - used, next - (avbl - used), 2 * used, dpth + 1)
  {
    hide Kraft, Pow2, Fib, Tree, Depths;
    LevelFits(weights, parents, larger, depths, root, avbl, dpth, used);
    LevelDepth(weights, parents, larger, depths, root, avbl, dpth, used);
    LevelKraft(lens, avbl, used, dpth);
    NextAbove(weights, parents, larger, depths, root, avbl, dpth, used);
    RootUsed(parents, depths, root, avbl, dpth, used);
    hide LevelAbove;
  }

  /** The root level has no leaf. */
  lemma RootUsed(parents: seq<nat>, depths: seq<nat>, root: int, avbl: nat, dpth: nat, used: nat)
    requires Depths(parents, depths) && LevelAbove(depths, root, avbl, dpth) && used <= avbl
    requires root >= used ==> depths[root - used] != dpth
    ensures dpth == 0 ==> used == avbl
  {
  }

  lemma NextAbove(weights: seq<nat>, parents: seq<nat>, larger: seq<nat>, depths: seq<nat>, root: int, avbl: nat, dpth: nat, used: nat)
    requires Tree(weights, parents, larger) && Depths(parents, depths) && -1 <= root < |depths| && LevelAbove(depths, root, avbl, dpth) && used <= root + 1
    requires forall r :: 0 <= r <= root ==> depths[r] >= dpth
    requires forall r :: root - used < r <= root ==> depths[r] == dpth
    requires root >= used ==> depths[root - used] != dpth
    ensures LevelAbove(depths, root - used, 2 * used, dpth + 1)
    ensures forall r :: 0 <= r <= root - used ==> depths[r] >= dpth + 1
  {
    hide Tree, Depths;
    forall r | 0 <= r <= root - used ensures depths[r] >= dpth + 1 {
      DepthsDescend(weights, parents, larger, depths, r, root - used);
    }
  }

  /** Depths stay far below the limit of the length counters. */
  lemma LevelDepth(weights: seq<nat>, parents: seq<nat>, larger: seq<nat>, depths: seq<nat>, root: int, avbl: nat, dpth: nat, used: nat)
    requires Tree(weights, parents, larger) && Depths(parents, depths) && weights[|parents|] < 65536
    requires -1 <= root < |depths| && LevelAbove(depths, root, avbl, dpth) && avbl > 0 && used <= root + 1
    requires forall r :: root - used < r <= root ==> depths[r] == dpth
    ensures dpth <= 24 && (used > 0 ==> dpth <= 23)
  {
    if dpth > 0 {
      DepthBound(weights, parents, larger, depths, root + 1);
    }
    if used > 0 {
      DepthBound(weights, parents, larger, depths, root);
    }
  }

  lemma LevelKraft(lens: seq<nat>, avbl: nat, used: nat, dpth: nat)
    requires used <= avbl && dpth <= 24 && Kraft(lens) + avbl * Pow2(MAX_SUPPORTED - dpth) == Pow2(MAX_SUPPORTED)
    ensures Kraft(seq(avbl - used, _ => dpth) + lens) + 2 * used * Pow2(MAX_SUPPORTED - (dpth + 1)) == Pow2(MAX_SUPPORTED)
  {
    hide Kraft;
    KraftPrepend(avbl - used, dpth, lens);
    var p := Pow2(MAX_SUPPORTED - (dpth + 1));
    assert Pow2(MAX_SUPPORTED - dpth) == 2 * p;
    Regroup(avbl, used, p);
  }

  lemma Regroup(a: nat, u: nat, p: nat)
    requires u <= a
    ensures (a - u) * (2 * p) + 2 * u * p == a * (2 * p)
  {
    var q := 2 * p;
    assert 2 * u * p == u * q;
    assert (a - u) * q == a * q - u * q;
  }

  /** Kraft sum 1, nothing longer than 24, and no length below a later one. */
  ghost predicate Lengths(lens: seq<nat>) {
    && Kraft(lens) == Pow2(MAX_SUPPORTED)
    && (forall i :: 0 <= i < |lens| ==> 1 <= lens[i] <= 24)
    && (forall i, j :: 0 <= i < j < |lens| ==> lens[i] >= lens[j])
  }

  lemma FirstLevel(weights: seq<nat>, parents: seq<nat>, larger: seq<nat>, depths: seq<nat>, n: nat)
    requires Tree(weights, parents, larger) && Depths(parents, depths) && n == |depths| + 1
    ensures Level(parents, depths, [], n, n - 2, n - 1, 1, 0)
  {
  }

  /** The nodes of a level have exactly the nodes of the next level and its leaves as children. */
  lemma LevelChildren(parents: seq<nat>, depths: seq<nat>, lens: seq<nat>, n: nat, root: int, next: int, avbl: nat, dpth: nat,
                      lens': seq<nat>, root': int, next': int, avbl': nat)
    requires Level(parents, depths, lens, n, root, next, avbl, dpth)
    requires Level(parents, depths, lens', n, root', next', avbl', dpth + 1) && root' <= root && avbl' == 2 * (root - root')
    ensures root' < |parents| && 2 * (root + 1) - (root' + 1) == next' + 1
    ensures ChildrenOf(parents, (root + 1) as nat, (root' + 1) as nat)
  {
    hide Kraft, Pow2;
    forall r | 0 <= r < |parents| ensures parents[r] <= root <==> r <= root' {
      ParentDepth(parents, depths, r);
    }
  }

  lemma LevelCost(f: seq<nat>, weights: seq<nat>, parents: seq<nat>, depths: seq<nat>, lens: seq<nat>, n: nat, root: int, next: int, avbl: nat, dpth: nat, used: nat)
    requires AllBalanced(f, weights, parents) && |weights| == n - 1 && used <= avbl
    requires Level(parents, depths, lens, n, root, next, avbl, dpth)
    requires Level(parents, depths, seq(avbl - used, _ => dpth) + lens, n, root - used, next - (avbl - used), 2 * used, dpth + 1)
    requires CostSoFar(f, weights, lens, root, next, dpth)
    ensures CostSoFar(f, weights, seq(avbl - used, _ => dpth) + lens, root - used, next - (avbl - used), dpth + 1)
  {
    hide Level, CostSoFar, Balanced, ChildrenOf;
    var k := avbl - used;
    LevelChildren(parents, depths, lens, n, root, next, avbl, dpth, seq(k, _ => dpth) + lens, root - used, next - k, 2 * used);
    LevelShape(parents, depths, lens, n, root, next, avbl, dpth);
    LevelShape(parents, depths, seq(k, _ => dpth) + lens, n, root - used, next - k, 2 * used, dpth + 1);
    assert Balanced(f, weights, parents, (root + 1) as nat, (root - used + 1) as nat);
    NextCost(f, weights, parents, lens, root, next, dpth, root - used, k);
  }

  /** The root outweighs the heavier child of a node by a Fibonacci number of the node's depth. */
  lemma HeavyRoot(weights: seq<nat>, parents: seq<nat>, larger: seq<nat>, depths: seq<nat>, f: seq<nat>, v: nat)
    requires Tree(weights, parents, larger) && Depths(parents, depths) && LeavesLight(f, parents, weights, larger) && v < |depths|
    ensures Fib(depths[v] + 2) * larger[v] <= weights[|parents|]
  {
    ParentHeavy(weights, parents, larger, f, v);
    hide Tree, Fib, LeavesLight, Depths;
    if v < |parents| {
      WeightsGrow(weights, parents, larger, depths, v);
      FibParts(depths[v]);
      FibWeights(Fib(depths[v]), Fib(depths[v] - 1), larger[v], weights[parents[v]], weights[v]);
      assert depths[v] >= 1 by { ParentDepth(parents, depths, v); }
    } else {
      FibParts(0);
      assert depths[v] == 0 by { RootDepth(parents, depths); }
    }
  }

  lemma RootDepth(parents: seq<nat>, depths: seq<nat>)
    requires Depths(parents, depths)
    ensures depths[|parents|] == 0
  {
  }

  lemma ParentHeavy(weights: seq<nat>, parents: seq<nat>, larger: seq<nat>, f: seq<nat>, v: nat)
    requires Tree(weights, parents, larger) && LeavesLight(f, parents, weights, larger) && v <= |parents|
    ensures |weights| == |larger| == |parents| + 1 && larger[v] <= weights[v]
    ensures v < |parents| ==> v < parents[v] <= |parents| && weights[parents[v]] >= weights[v] + larger[v] >= 2 * larger[v]
  {
  }

  lemma FibParts(d: nat)
    ensures Fib(2) == 1 && (d >= 1 ==> Fib(d + 2) == 2 * Fib(d) + Fib(d - 1))
  {
  }

  lemma FibWeights(a: nat, b: nat, y: nat, g: nat, w: nat)
    requires g >= 2 * y && w >= y
    ensures a * g + b * w >= (2 * a + b) * y
  {
    MulAtLeast(a, 2 * y, g);
    MulAtLeast(b, y, w);
    assert (2 * a + b) * y == a * (2 * y) + b * y;
  }

  /** No leaf that is left for this level or a deeper one is heavy. */
  lemma LevelLight(f: seq<nat>, weights: seq<nat>, parents: seq<nat>, larger: seq<nat>, depths: seq<nat>, lens: seq<nat>,
                   n: nat, root: int, next: int, avbl: nat, dpth: nat)
    requires Tree(weights, parents, larger) && LeavesLight(f, parents, weights, larger) && Ascending(f) && n == |f|
    requires Level(parents, depths, lens, n, root, next, avbl, dpth) && avbl > 0 && dpth > 0
    ensures |weights| == |parents| + 1 && forall p :: 0 <= p <= next ==> Fib(dpth + 1) * f[p] <= weights[|parents|]
  {
    hide Fib, Level, LeavesLight, Tree, ChildrenOf, LastLeafLight;
    var v: nat := LevelAboveParents(parents, depths, lens, n, root, next, avbl, dpth);
    ParentHeavy(weights, parents, larger, f, v);
    HeavyRoot(weights, parents, larger, depths, f, v);
    LastLight(f, weights, parents, larger, v + 1, (root + 1) as nat);
    forall p | 0 <= p <= next ensures Fib(dpth + 1) * f[p] <= weights[|parents|] {
      assert f[p] <= f[next] <= larger[v];
      MulAtLeast(Fib(dpth + 1), f[p], larger[v]);
    }
  }

  lemma LastLight(f: seq<nat>, weights: seq<nat>, parents: seq<nat>, larger: seq<nat>, k: nat, c: nat)
    requires LeavesLight(f, parents, weights, larger) && 1 <= k <= |larger| && ChildrenOf(parents, k, c)
    ensures 2 * k - c <= |f| && (2 * k - c >= 1 ==> f[2 * k - c - 1] <= larger[k - 1])
  {
    hide ChildrenOf;
    assert LastLeafLight(f, larger, k, c);
  }

  /** The nodes of this level and deeper ones are the children of the nodes of the level above and deeper ones. */
  lemma LevelAboveParents(parents: seq<nat>, depths: seq<nat>, lens: seq<nat>, n: nat, root: int, next: int, avbl: nat, dpth: nat) returns (v: nat)
    requires Level(parents, depths, lens, n, root, next, avbl, dpth) && avbl > 0 && dpth > 0
    ensures Depths(parents, depths) && v < |depths| == |parents| + 1 == n - 1 && depths[v] == dpth - 1 && root >= -1 && -1 <= next < n
    ensures ChildrenOf(parents, v + 1, (root + 1) as nat) && 2 * (v + 1) - (root + 1) == next + 1
  {
    hide Kraft, Pow2;
    v := root + avbl / 2;
    forall r | 0 <= r < |parents| ensures parents[r] <= v <==> r < root + 1 {
      ParentDepth(parents, depths, r);
    }
  }

  /** How far the lengths are: what is assigned, and what it costs. */
  ghost predicate Progress(f: seq<nat>, weights: seq<nat>, parents: seq<nat>, depths: seq<nat>, lens: seq<nat>, n: nat, root: int, next: int, avbl: nat, dpth: nat) {
    && Level(parents, depths, lens, n, root, next, avbl, dpth) && CostSoFar(f, weights, lens, root, next, dpth)
    && |weights| == |parents| + 1 && -1 <= next && LightLeaves(f, lens, (next + 1) as nat, weights[|parents|])
  }

  lemma NextProgress(f: seq<nat>, weights: seq<nat>, parents: seq<nat>, larger: seq<nat>, depths: seq<nat>, lens: seq<nat>,
                     n: nat, root: int, next: int, avbl: nat, dpth: nat, used: nat)
    requires Tree(weights, parents, larger) && weights[|parents|] < 65536 && AllBalanced(f, weights, parents) && |weights| == n - 1
    requires LeavesLight(f, parents, weights, larger) && Ascending(f)
    requires Progress(f, weights, parents, depths, lens, n, root, next, avbl, dpth) && avbl > 0
    requires used <= root + 1 <= |depths|
    requires forall r :: root - used < r <= root ==> depths[r] == dpth
    requires root >= used ==> depths[root - used] != dpth
    ensures used <= avbl && next - (avbl - used) >= root - used && dpth <= 24
    ensures Progress(f, weights, parents, depths, seq(avbl - used, _ => dpth) + lens, n, root - used, next - (avbl - used), 2 * used, dpth + 1)
  {
    hide Level, CostSoFar, AllBalanced, Tree, LeavesLight, LightLeaves, Ascending;
    LevelShape(parents, depths, lens, n, root, next, avbl, dpth);
    ProgressSize(f, weights, parents, depths, lens, n, root, next, avbl, dpth);
    NextLevel(weights, parents, larger, depths, lens, n, root, next, avbl, dpth, used);
    LevelCost(f, weights, parents, depths, lens, n, root, next, avbl, dpth, used);
    MoreLight(f, weights, parents, larger, depths, lens, n, root, next, avbl, dpth, used);
    LevelShape(parents, depths, seq(avbl - used, _ => dpth) + lens, n, root - used, next - (avbl - used), 2 * used, dpth + 1);
  }

  lemma ProgressSize(f: seq<nat>, weights: seq<nat>, parents: seq<nat>, depths: seq<nat>, lens: seq<nat>, n: nat, root: int, next: int, avbl: nat, dpth: nat)
    requires Progress(f, weights, parents, depths, lens, n, root, next, avbl, dpth)
    ensures n == |f|
  {
    hide Kraft, Pow2, Sum, Cost;
  }

  lemma MoreLight(f: seq<nat>, weights: seq<nat>, parents: seq<nat>, larger: seq<nat>, depths: seq<nat>, lens: seq<nat>,
                  n: nat, root: int, next: int, avbl: nat, dpth: nat, used: nat)
    requires Tree(weights, parents, larger) && LeavesLight(f, parents, weights, larger) && Ascending(f) && n == |f|
    requires Level(parents, depths, lens, n, root, next, avbl, dpth) && avbl > 0 && used <= avbl
    requires used <= root + 1 && (root >= used ==> depths[root - used] != dpth)
    requires |weights| == |parents| + 1 && LightLeaves(f, lens, (next + 1) as nat, weights[|parents|])
    ensures next - (avbl - used) >= -1 && LightLeaves(f, seq(avbl - used, _ => dpth) + lens, (next - (avbl - used) + 1) as nat, weights[|parents|])
  {
    RootUsed(parents, depths, root, avbl, dpth, used);
    if dpth > 0 {
      LevelLight(f, weights, parents, larger, depths, lens, n, root, next, avbl, dpth);
    }
    LevelShape(parents, depths, lens, n, root, next, avbl, dpth);
    hide Level, Fib, Tree, LeavesLight, Depths, LevelAbove, LightLeaves, Ascending;
    PrependLight(f, lens, (next + 1) as nat, avbl - used, dpth, weights[|parents|]);
  }

  lemma PrependLight(f: seq<nat>, lens: seq<nat>, from: nat, k: nat, dpth: nat, total: nat)
    requires LightLeaves(f, lens, from, total) && k <= from && (k > 0 ==> forall p :: 0 <= p < from ==> Fib(dpth + 1) * f[p] <= total)
    ensures LightLeaves(f, seq(k, _ => dpth) + lens, from - k, total)
  {
    hide Fib;
    var lens' := seq(k, _ => dpth) + lens;
    forall i | 0 <= i < |lens'| ensures Fib(lens'[i] + 1) * f[from - k + i] <= total {
      if i >= k {
        assert lens'[i] == lens[i - k] && from - k + i == from + (i - k);
      }
    }
  }

  lemma ProgressShape(f: seq<nat>, weights: seq<nat>, parents: seq<nat>, depths: seq<nat>, lens: seq<nat>, n: nat, root: int, next: int, avbl: nat, dpth: nat)
    requires Progress(f, weights, parents, depths, lens, n, root, next, avbl, dpth)
    ensures -1 <= root < n - 1 && -1 <= next < n && next == avbl + root && n == |depths| + 1
  {
    hide CostSoFar, LightLeaves;
  }

  lemma FirstProgress(f: seq<nat>, weights: seq<nat>, parents: seq<nat>, larger: seq<nat>, depths: seq<nat>, n: nat)
    requires Tree(weights, parents, larger) && Depths(parents, depths) && n == |depths| + 1 == |f|
    ensures Progress(f, weights, parents, depths, [], n, n - 2, n - 1, 1, 0)
  {
    hide Level, CostSoFar;
    FirstLevel(weights, parents, larger, depths, n);
    FirstCost(f, weights);
    assert |weights| - 1 == n - 2;
  }

  /** At the end all lengths are there, and they cost what the nodes weigh. */
  lemma LastProgress(f: seq<nat>, weights: seq<nat>, parents: seq<nat>, depths: seq<nat>, lens: seq<nat>, n: nat, root: int, next: int, dpth: nat)
    requires Progress(f, weights, parents, depths, lens, n, root, next, 0, dpth) && dpth <= 25
    ensures next == -1 && Lengths(lens) && |lens| == |f| && Cost(Pairs(f, lens)) == Sum(weights)
    ensures |weights| == |parents| + 1 && LightLeaves(f, lens, 0, weights[|parents|])
  {
    hide Level, Lengths, LightLeaves;
    LastLevel(parents, depths, lens, n, root, next, 0, dpth);
    LastCost(f, weights, lens, dpth);
  }

  /** The array while lengths are handed out: depths of the nodes left, and the lengths so far. */
  ghost predicate Handing(a: seq<SymFreq>, f: seq<nat>, weights: seq<nat>, parents: seq<nat>, depths: seq<nat>, lens: seq<nat>, root: int, next: int, avbl: nat, dpth: nat) {
    && |a| == |f| && Progress(f, weights, parents, depths, lens, |f|, root, next, avbl, dpth)
    && -1 <= root < |f| - 1 && |depths| == |f| - 1 && (forall r :: 0 <= r <= root ==> a[r].key == depths[r])
    && -1 <= next < |f| && lens == Keys(a[next + 1..])
  }

  /** One level: its nodes are consumed, and its other slots become leaves. */
  method LevelStep(a: array<SymFreq>, root: int, next: int, avbl: nat, dpth: nat,
                   ghost f: seq<nat>, ghost weights: seq<nat>, ghost parents: seq<nat>, ghost larger: seq<nat>, ghost depths: seq<nat>, ghost lens: seq<nat>)
    returns (root': int, next': int, avbl': nat, ghost lens': seq<nat>)
    requires Tree(weights, parents, larger) && weights[|parents|] < 65536 && AllBalanced(f, weights, parents) && |weights| == |f| - 1
    requires LeavesLight(f, parents, weights, larger) && Ascending(f)
    requires Handing(a[..], f, weights, parents, depths, lens, root, next, avbl, dpth) && avbl > 0
    modifies a
    ensures Handing(a[..], f, weights, parents, depths, lens', root', next', avbl', dpth + 1)
    ensures dpth <= 24 && root' <= root && (root' < root || avbl' == 0)
    ensures Syms(a[..]) == old(Syms(a[..]))
  {
    hide Syms, Tree, Progress, AllBalanced, LeavesLight, Ascending;
    var used;
    used, root' := CountLevel(a, root, dpth);
    NextProgress(f, weights, parents, larger, depths, lens, |f|, root, next, avbl, dpth, used);
    ProgressShape(f, weights, parents, depths, lens, |f|, root, next, avbl, dpth);
    ProgressShape(f, weights, parents, depths, seq(avbl - used, _ => dpth) + lens, |f|, root - used, next - (avbl - used), 2 * used, dpth + 1);
    next' := FillLeaves(a, next, avbl - used, dpth);
    lens' := seq(avbl - used, _ => dpth) + lens;
    avbl' := 2 * used;
  }

  /** The lengths of the leaves, shortest for the last ones; together they cost what the nodes weigh. */
  method LeafLengths(a: array<SymFreq>, ghost f: seq<nat>, ghost weights: seq<nat>, ghost parents: seq<nat>, ghost larger: seq<nat>, ghost depths: seq<nat>)
    requires a.Length == |f| >= 2 && Tree(weights, parents, larger) && |parents| == a.Length - 2 && weights[|parents|] < 65536
    requires AllBalanced(f, weights, parents) && LeavesLight(f, parents, weights, larger) && Ascending(f)
    requires Depths(parents, depths) && forall r :: 0 <= r < a.Length - 1 ==> a[r].key == depths[r]
    modifies a
    ensures Lengths(Keys(a[..])) && Cost(Pairs(f, Keys(a[..]))) == Sum(weights)
    ensures LightLeaves(f, Keys(a[..]), 0, weights[|parents|])
    ensures Syms(a[..]) == old(Syms(a[..]))
  {
    NodeCount(weights, parents, larger, depths);
    FirstProgress(f, weights, parents, larger, depths, |f|);
    hide Syms, Tree, Progress, Lengths, AllBalanced, Depths, Sum, Cost, LightLeaves, LeavesLight, Ascending;
    var n := a.Length;
    var avbl, dpth: nat := 1, 0;
    var root, next := n - 2, n - 1;
    ghost var lens: seq<nat> := [];
    assert Handing(a[..], f, weights, parents, depths, lens, root, next, avbl, dpth);
    while avbl > 0
      invariant -1 <= root && 0 <= avbl && (avbl == 0 ==> dpth <= 25)
      invariant Handing(a[..], f, weights, parents, depths, lens, root, next, avbl, dpth)
      invariant Syms(a[..]) == old(Syms(a[..]))
      decreases root + 1, avbl
    {
      hide Handing;
      root, next, avbl, lens := LevelStep(a, root, next, avbl, dpth, f, weights, parents, larger, depths, lens);
      dpth := dpth + 1;
    }
    LastProgress(f, weights, parents, depths, lens, n, root, next, dpth);
    assert a[0..] == a[..];
  }

  lemma NodeCount(weights: seq<nat>, parents: seq<nat>, larger: seq<nat>, depths: seq<nat>)
    requires Tree(weights, parents, larger) && Depths(parents, depths)
    ensures |weights| == |parents| + 1 == |depths|
  {
  }

  /** Consumes the nodes of one depth. */
  method CountLevel(a: array<SymFreq>, top: int, dpth: nat) returns (used: nat, root: int)
    requires -1 <= top < a.Length
    ensures -1 <= root <= top && used == top - root
    ensures forall r :: root < r <= top ==> a[r].key == dpth
    ensures root >= 0 ==> a[root].key != dpth
  {
    used, root := 0, top;
    while root >= 0 && a[root].key == dpth
      invariant -1 <= root <= top && used == top - root
      invariant forall r :: root < r <= top ==> a[r].key == dpth
    {
      used := used + 1;
      root := root - 1;
    }
  }

  /** Writes a length into the next k places, downwards. */
  method FillLeaves(a: array<SymFreq>, next: int, k: nat, dpth: nat) returns (next': int)
    requires k - 1 <= next < a.Length
    modifies a
    ensures next' == next - k
    ensures Keys(a[next' + 1..]) == seq(k, _ => dpth) + old(Keys(a[next + 1..]))
    ensures forall r :: 0 <= r <= next' ==> a[r] == old(a[r])
    ensures Syms(a[..]) == old(Syms(a[..]))
  {
    hide Syms;
    next' := next;
    var left := k;
    while left > 0
      invariant 0 <= left <= k && next' == next - (k - left)
      invariant forall r :: 0 <= r <= next' || next < r < a.Length ==> a[r] == old(a[r])
      invariant forall r :: next' < r <= next ==> a[r].key == dpth
      invariant Syms(a[..]) == old(Syms(a[..]))
    {
      SymsKept(a[..], next', dpth);
      ghost var was := a[..];
      a[next'] := a[next'].(key := dpth);
      assert a[..] == was[next' := was[next'].(key := dpth)];
      next' := next' - 1;
      left := left - 1;
    }
  }

  /** The whole computation: no prefix code costs less than these lengths. One symbol alone gets length 1. */
  method CalculateMinimumRedundancy(a: array<SymFreq>)
    requires Ascending(Keys(a[..])) && Positive(Keys(a[..])) && Sum(Keys(a[..])) < 65536
    modifies a
    ensures a.Length == 1 ==> a[0].key == 1
    ensures a.Length >= 2 ==> Lengths(Keys(a[..])) && Minimal(old(Keys(a[..])), Keys(a[..]))
    ensures a.Length >= 2 ==> LightLeaves(old(Keys(a[..])), Keys(a[..]), 0, Sum(old(Keys(a[..]))))
    ensures Syms(a[..]) == old(Syms(a[..]))
  {
    hide Lengths, Tree, Sum, Positive, Ascending, AllBalanced, CostsAtLeast, Cost, Minimal, Syms, LightLeaves, LeavesLight;
    ghost var f := Keys(a[..]);
    if a.Length == 0 {
      return;
    }
    if a.Length == 1 {
      SymsKept(a[..], 0, 1);
      ghost var before := a[..];
      a[0] := a[0].(key := 1);
      assert a[..] == before[0 := before[0].(key := 1)];
      return;
    }
    ghost var weights, parents, larger := BuildTree(a);
    ghost var depths := TreeDepths(a, weights, parents, larger);
    LeafLengths(a, f, weights, parents, larger, depths);
    BoundIsMinimal(f, Keys(a[..]), Sum(weights));
  }
}
