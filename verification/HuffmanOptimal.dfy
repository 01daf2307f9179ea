/**
 * Why merging the two lightest items is right: no lengths that a prefix code could
 * have cost less than the lengths the merged items can get, one level further down.
 */
module HuffmanOptimal {
  import opened Bits
  import opened HuffmanTree

  /** A weight with a code length. */
  datatype Item = Item(weight: nat, len: nat)

  function Weights(items: seq<Item>): (r: seq<nat>)
    ensures |r| == |items| && forall i :: 0 <= i < |r| ==> r[i] == items[i].weight
  {
    seq(|items|, i requires 0 <= i < |items| => items[i].weight)
  }

  function Cost(items: seq<Item>): nat {
    if items == [] then 0 else items[0].weight * items[0].len + Cost(items[1..])
  }

  predicate NoLonger(items: seq<Item>, m: nat) {
    forall i :: 0 <= i < |items| ==> items[i].len <= m
  }

  /** 2^m times the Kraft sum. */
  function KraftAt(items: seq<Item>, m: nat): nat
    requires NoLonger(items, m)
  {
    if items == [] then 0 else Pow2(m - items[0].len) + KraftAt(items[1..], m)
  }

  /** The lengths leave room for a prefix code. */
  predicate Affordable(items: seq<Item>, m: nat) {
    NoLonger(items, m) && KraftAt(items, m) <= Pow2(m)
  }

  /** However items of these weights get affordable lengths, they cost at least c. */
  ghost predicate CostsAtLeast(weights: multiset<nat>, c: nat) {
    forall items: seq<Item>, m: nat :: Affordable(items, m) && multiset(Weights(items)) == weights ==> Cost(items) >= c
  }

  predicate AllAtLeast(items: seq<Item>, w: nat) {
    forall i :: 0 <= i < |items| ==> items[i].weight >= w
  }

  /** The light item takes the longest length, trading it with heavier ones: that never costs more. */
  lemma {:induction false} TakeLongest(w: nat, l: nat, items: seq<Item>, m: nat) returns (l': nat, items': seq<Item>)
    requires AllAtLeast(items, w) && NoLonger(items, m) && l <= m
    ensures Weights(items') == Weights(items) && NoLonger(items', m) && l <= l' <= m && NoLonger(items', l')
    ensures Pow2(m - l') + KraftAt(items', m) == Pow2(m - l) + KraftAt(items, m)
    ensures w * l' + Cost(items') <= w * l + Cost(items)
    ensures forall b: nat :: l <= b && NoLonger(items, b) ==> l' <= b && NoLonger(items', b)
    decreases items
  {
    if items == [] {
      l', items' := l, items;
    } else {
      var e, rest := items[0], items[1..];
      var l1 := if e.len > l then e.len else l;
      var e1 := if e.len > l then Item(e.weight, l) else e;
      Trade(w, e.weight, l, e.len);
      var rest';
      l', rest' := TakeLongest(w, l1, rest, m);
      items' := [e1] + rest';
      assert items'[1..] == rest';
      assert Weights(items) == [e.weight] + Weights(rest);
      assert Weights(items') == [e.weight] + Weights(rest');
      forall b: nat | l <= b && NoLonger(items, b) ensures l' <= b && NoLonger(items', b) {
        assert NoLonger(rest, b) && l1 <= b;
      }
    }
  }

  lemma Trade(w: nat, v: nat, l: nat, k: nat)
    requires w <= v
    ensures l <= k ==> w * k + v * l <= w * l + v * k
  {
    if l <= k {
      MulAtLeast(k - l, w, v);
      assert (k - l) * w == k * w - l * w && (k - l) * v == k * v - l * v;
    }
  }

  /** Lengths up to l make the Kraft sum a multiple of the share of length l. */
  lemma {:induction false} KraftMultiple(items: seq<Item>, l: nat, m: nat) returns (k: nat)
    requires NoLonger(items, l) && l <= m
    ensures NoLonger(items, m) && KraftAt(items, m) == k * Pow2(m - l)
  {
    if items == [] {
      k := 0;
    } else {
      var k1 := KraftMultiple(items[1..], l, m);
      var e := items[0];
      Pow2Add(l - e.len, m - l);
      k := Pow2(l - e.len) + k1;
      SpreadProduct(Pow2(l - e.len), k1, Pow2(m - l));
    }
  }

  lemma SpreadProduct(a: nat, b: nat, p: nat)
    ensures (a + b) * p == a * p + b * p
  {
  }

  /** A lone longest item can be as short as the longest of the others. */
  lemma Shorten(l: nat, k: nat, items: seq<Item>, m: nat)
    requires k <= l <= m && NoLonger(items, k) && NoLonger(items, m) && Pow2(m - l) + Pow2(m - k) + KraftAt(items, m) <= Pow2(m)
    ensures Pow2(m - k) + Pow2(m - k) + KraftAt(items, m) <= Pow2(m)
  {
    hide KraftAt, Pow2, NoLonger;
    var n := KraftMultiple(items, k, m);
    Pow2Add(k, m - k);
    var p := Pow2(m - k);
    SpreadProduct(n, 1, p);
    Room(Pow2(k), n + 1, p, Pow2(m - l));
  }

  lemma Room(a: nat, b: nat, p: nat, r: nat)
    requires r > 0 && r + b * p <= a * p
    ensures p + b * p <= a * p
  {
    if b >= a {
      MulAtLeast(p, a, b);
    }
    SpreadProduct(a - b, b, p);
    MulAtLeast(p, 1, a - b);
  }

  function One(w: nat): multiset<nat> {
    multiset{w}
  }

  /** Two items of equal length, the longest there are, make room for their parent one level up. */
  lemma ParentFits(w: nat, l: nat, items: seq<Item>, m: nat, c: nat)
    requires CostsAtLeast(multiset(Weights(items)) + One(w), c)
    requires l <= m && NoLonger(items, m) && Pow2(m - l) + Pow2(m - l) + KraftAt(items, m) <= Pow2(m)
    ensures l >= 1 && w * (l - 1) + Cost(items) >= c
  {
    BelowRoot(l, m);
    hide KraftAt, Pow2, NoLonger, Cost, One, Weights;
    var e := Item(w, l - 1);
    FrontItem(e, items, m);
    FrontBag(e, items);
    assert Affordable([e] + items, m);
  }

  lemma FrontBag(e: Item, items: seq<Item>)
    ensures multiset(Weights([e] + items)) == multiset(Weights(items)) + One(e.weight)
  {
    assert Weights([e] + items) == [e.weight] + Weights(items);
  }

  lemma MergeEqual(x: nat, y: nat, l: nat, items: seq<Item>, m: nat, c: nat)
    requires CostsAtLeast(multiset(Weights(items)) + One(x + y), c)
    requires l <= m && NoLonger(items, m) && Pow2(m - l) + Pow2(m - l) + KraftAt(items, m) <= Pow2(m)
    ensures x * l + y * l + Cost(items) >= c + x + y
  {
    hide KraftAt, Pow2, NoLonger, Cost, CostsAtLeast, Weights, One;
    ParentFits(x + y, l, items, m, c);
    OneLevelUp(x, y, l);
  }

  lemma BelowRoot(l: nat, m: nat)
    requires l <= m && Pow2(m - l) + Pow2(m - l) <= Pow2(m)
    ensures l >= 1 && Pow2(m - (l - 1)) == 2 * Pow2(m - l)
  {
  }

  lemma OneLevelUp(x: nat, y: nat, l: nat)
    requires l >= 1
    ensures (x + y) * (l - 1) == x * l + y * l - x - y
  {
    SpreadProduct(x, y, l - 1);
    LessOne(x, l);
    LessOne(y, l);
  }

  lemma LessOne(x: nat, l: nat)
    requires l >= 1
    ensures x * (l - 1) == x * l - x
  {
  }

  lemma FrontItem(e: Item, items: seq<Item>, m: nat)
    requires NoLonger(items, m) && e.len <= m
    ensures NoLonger([e] + items, m) && Weights([e] + items) == [e.weight] + Weights(items)
    ensures Cost([e] + items) == e.weight * e.len + Cost(items)
    ensures KraftAt([e] + items, m) == Pow2(m - e.len) + KraftAt(items, m)
  {
    assert ([e] + items)[1..] == items;
  }

  /** The two lightest items merged: their parent one level up costs their weights less. */
  lemma MergedCost(x: nat, k: nat, y: nat, l: nat, items: seq<Item>, m: nat, c: nat)
    requires x <= y && AllAtLeast(items, y) && CostsAtLeast(multiset(Weights(items)) + One(x + y), c)
    requires k <= m && l <= m && NoLonger(items, m) && Pow2(m - k) + Pow2(m - l) + KraftAt(items, m) <= Pow2(m)
    ensures x * k + y * l + Cost(items) >= c + x + y
  {
    hide CostsAtLeast, Pow2, Cost, KraftAt;
    FrontItem(Item(y, l), items, m);
    var k1, both := TakeLongest(x, k, [Item(y, l)] + items, m);
    var yl, rest := FrontOf(both, y, Weights(items), m, k1);
    HeavyRest(items, rest, y);
    var l1, last := TakeLongest(y, yl, rest, m);
    Shorten(k1, l1, last, m);
    MulAtLeast(x, l1, k1);
    MergeEqual(x, y, l1, last, m, c);
  }

  lemma FrontOf(both: seq<Item>, y: nat, weights: seq<nat>, m: nat, k: nat) returns (l: nat, rest: seq<Item>)
    requires Weights(both) == [y] + weights && NoLonger(both, m) && NoLonger(both, k)
    ensures Weights(rest) == weights && NoLonger(rest, m) && NoLonger(rest, k) && l <= k && l <= m
    ensures Cost(both) == y * l + Cost(rest) && KraftAt(both, m) == Pow2(m - l) + KraftAt(rest, m)
  {
    assert |both| == |weights| + 1;
    l, rest := both[0].len, both[1..];
    assert both[0].weight == Weights(both)[0] == y && Weights(rest) == Weights(both)[1..] == weights;
  }

  lemma HeavyRest(items: seq<Item>, rest: seq<Item>, y: nat)
    requires Weights(items) == Weights(rest) && AllAtLeast(items, y)
    ensures AllAtLeast(rest, y)
  {
    forall i | 0 <= i < |rest| ensures rest[i].weight >= y {
      assert Weights(items)[i] == Weights(rest)[i];
    }
  }

  /** An item of a given weight brought to the front. */
  lemma ToFront(items: seq<Item>, m: nat, w: nat) returns (e: Item, rest: seq<Item>)
    requires NoLonger(items, m) && w in multiset(Weights(items))
    ensures e.weight == w && e.len <= m && NoLonger(rest, m)
    ensures multiset(Weights(items)) == One(w) + multiset(Weights(rest))
    ensures Cost(items) == w * e.len + Cost(rest) && KraftAt(items, m) == Pow2(m - e.len) + KraftAt(rest, m)
  {
    assert w in Weights(items);
    var i :| 0 <= i < |items| && items[i].weight == w;
    e, rest := items[i], items[..i] + items[i + 1..];
    TakeOut(items, i, m);
    hide Cost, KraftAt, NoLonger;
    assert Weights(rest) == Weights(items)[..i] + Weights(items)[i + 1..];
    RemoveAt(Weights(items), i);
  }

  lemma RemoveAt(s: seq<nat>, i: nat)
    requires i < |s|
    ensures multiset(s) == One(s[i]) + multiset(s[..i] + s[i + 1..])
  {
    assert s == s[..i] + ([s[i]] + s[i + 1..]);
  }

  lemma {:induction false} TakeOut(items: seq<Item>, i: nat, m: nat)
    requires NoLonger(items, m) && i < |items|
    ensures var rest, e := items[..i] + items[i + 1..], items[i];
      && NoLonger(rest, m)
      && Cost(items) == e.weight * e.len + Cost(rest) && KraftAt(items, m) == Pow2(m - e.len) + KraftAt(rest, m)
  {
    hide Cost, KraftAt, Pow2, Weights;
    var rest, e, t := items[..i] + items[i + 1..], items[0], items[1..];
    assert items == [e] + t && e.len <= m && NoLonger(t, m);
    FrontItem(e, t, m);
    if i == 0 {
      assert rest == t;
    } else {
      TakeOut(t, i - 1, m);
      var s := t[..i - 1] + t[i..];
      assert rest == [e] + s;
      FrontItem(e, s, m);
    }
  }

  /** Nothing in a bag of weights is lighter than w. */
  ghost predicate Lightest(bag: multiset<nat>, w: nat) {
    forall v :: v in bag ==> v >= w
  }

  /** The greedy step: a bound for the bag with x and y merged gives a bound for the bag itself. */
  lemma GreedyStep(bag: multiset<nat>, x: nat, y: nat, c: nat)
    requires x <= y && Lightest(bag, y) && CostsAtLeast(bag + One(x + y), c)
    ensures CostsAtLeast(bag + One(y) + One(x), c + x + y)
  {
    forall items: seq<Item>, m: nat | Affordable(items, m) && multiset(Weights(items)) == bag + One(y) + One(x)
      ensures Cost(items) >= c + x + y
    {
      OneAssignment(bag, x, y, c, items, m);
    }
  }

  lemma OneAssignment(bag: multiset<nat>, x: nat, y: nat, c: nat, items: seq<Item>, m: nat)
    requires x <= y && Lightest(bag, y) && CostsAtLeast(bag + One(x + y), c)
    requires Affordable(items, m) && multiset(Weights(items)) == bag + One(y) + One(x)
    ensures Cost(items) >= c + x + y
  {
    hide CostsAtLeast, Cost, KraftAt, Pow2;
    var a, t := ToFront(items, m, x);
    Cancel(multiset(Weights(t)), bag + One(y), x);
    var b, r := ToFront(t, m, y);
    Cancel(multiset(Weights(r)), bag, y);
    forall i | 0 <= i < |r| ensures r[i].weight >= y {
      assert Weights(r)[i] in multiset(Weights(r));
    }
    MergedCost(x, a.len, y, b.len, r, m, c);
  }

  lemma Cancel(a: multiset<nat>, b: multiset<nat>, x: nat)
    requires One(x) + a == b + One(x)
    ensures a == b
  {
    assert a == (One(x) + a) - One(x);
    assert b == (b + One(x)) - One(x);
  }

  /** The root alone costs nothing. */
  lemma RootFree(w: nat)
    ensures CostsAtLeast(One(w), 0)
  {
  }
}
