/** Huffman code lengths: the merge loop meets Kraft with equality and no
    prefix-free binary code is cheaper. */
module Huffman {
  import opened Powers

  /** A heap entry: the weight of a tree, its number, and its leaves. */
  datatype Node = Node(weight: nat, id: nat, leaves: seq<nat>)

  predicate Before(a: Node, b: Node) {
    a.weight < b.weight || (a.weight == b.weight && a.id < b.id)
  }

  /** The heap as the order in which its entries come out. */
  ghost predicate Sorted(q: seq<Node>) {
    forall i, j :: 0 <= i < j < |q| ==> Before(q[i], q[j])
  }

  ghost predicate DistinctIds(q: seq<Node>) {
    forall i, j :: 0 <= i < j < |q| ==> q[i].id != q[j].id
  }

  function Insert(q: seq<Node>, n: Node): (r: seq<Node>)
    ensures |r| == |q| + 1
    ensures forall x :: x in r <==> x == n || x in q
  {
    if q == [] || Before(n, q[0]) then [n] + q else [q[0]] + Insert(q[1..], n)
  }

  function Merged(a: Node, b: Node, id: nat): Node {
    Node(a.weight + b.weight, id, a.leaves + b.leaves)
  }

  /** The total of the weights of all trees still to be built. */
  function MergeCost(q: seq<Node>, next: nat): nat
    decreases |q|
  {
    if |q| < 2 then 0
    else
      var m := Merged(q[0], q[1], next);
      m.weight + MergeCost(Insert(q[2..], m), next + 1)
  }

  // ---- lengths for the trees of a heap, by tree number

  type Lengths = map<nat, nat>

  ghost predicate Covers(q: seq<Node>, l: Lengths) {
    forall i :: 0 <= i < |q| ==> q[i].id in l
  }

  /** Weighted length of a heap. */
  ghost function Cost(q: seq<Node>, l: Lengths): nat
    requires Covers(q, l)
  {
    if q == [] then 0 else Cost(q[..|q| - 1], l) + q[|q| - 1].weight * l[q[|q| - 1].id]
  }

  ghost predicate Within(q: seq<Node>, l: Lengths, m: nat) {
    forall i :: 0 <= i < |q| ==> q[i].id in l && l[q[i].id] <= m
  }

  /** Kraft sum, in units of 2^-m. */
  ghost function KraftSum(q: seq<Node>, l: Lengths, m: nat): nat
    requires Within(q, l, m)
  {
    if q == [] then 0 else KraftSum(q[..|q| - 1], l, m) + Pow2(m - l[q[|q| - 1].id])
  }

  ghost predicate Kraft(q: seq<Node>, l: Lengths, m: nat) {
    Within(q, l, m) && KraftSum(q, l, m) <= Pow2(m)
  }

  // ---- sums

  lemma {:induction false} CostUpdate(q: seq<Node>, l: Lengths, k: nat, v: nat)
    requires Covers(q, l) && DistinctIds(q) && k < |q|
    ensures Cost(q, l[q[k].id := v]) == Cost(q, l) - q[k].weight * l[q[k].id] + q[k].weight * v
    decreases |q|
  {
    var init := q[..|q| - 1];
    if k < |init| {
      CostUpdate(init, l, k, v);
    } else {
      CostOutside(init, l, q[k].id, v);
    }
  }

  lemma {:induction false} CostOutside(q: seq<Node>, l: Lengths, id: nat, v: nat)
    requires Covers(q, l) && forall i :: 0 <= i < |q| ==> q[i].id != id
    ensures Covers(q, l[id := v]) && Cost(q, l[id := v]) == Cost(q, l)
    decreases |q|
  {
    if q != [] {
      CostOutside(q[..|q| - 1], l, id, v);
    }
  }

  lemma {:induction false} KraftUpdate(q: seq<Node>, l: Lengths, m: nat, k: nat, v: nat)
    requires Within(q, l, m) && DistinctIds(q) && k < |q| && v <= m
    ensures Within(q, l[q[k].id := v], m)
    ensures KraftSum(q, l[q[k].id := v], m) == KraftSum(q, l, m) - Pow2(m - l[q[k].id]) + Pow2(m - v)
    decreases |q|
  {
    var init := q[..|q| - 1];
    if k < |init| {
      KraftUpdate(init, l, m, k, v);
    } else {
      KraftOutside(init, l, m, q[k].id, v);
    }
  }

  lemma {:induction false} KraftOutside(q: seq<Node>, l: Lengths, m: nat, id: nat, v: nat)
    requires Within(q, l, m) && forall i :: 0 <= i < |q| ==> q[i].id != id
    ensures Within(q, l[id := v], m) && KraftSum(q, l[id := v], m) == KraftSum(q, l, m)
    decreases |q|
  {
    if q != [] {
      KraftOutside(q[..|q| - 1], l, m, id, v);
    }
  }

  lemma {:induction false} CostAppend(a: seq<Node>, b: seq<Node>, l: Lengths)
    requires Covers(a, l) && Covers(b, l)
    ensures Covers(a + b, l) && Cost(a + b, l) == Cost(a, l) + Cost(b, l)
    decreases |b|
  {
    if b == [] {
      assert a + b == a;
    } else {
      CostAppend(a, b[..|b| - 1], l);
      assert (a + b)[..|a + b| - 1] == a + b[..|b| - 1];
    }
  }

  lemma {:induction false} KraftAppend(a: seq<Node>, b: seq<Node>, l: Lengths, m: nat)
    requires Within(a, l, m) && Within(b, l, m)
    ensures Within(a + b, l, m) && KraftSum(a + b, l, m) == KraftSum(a, l, m) + KraftSum(b, l, m)
    decreases |b|
  {
    if b == [] {
      assert a + b == a;
    } else {
      KraftAppend(a, b[..|b| - 1], l, m);
      assert (a + b)[..|a + b| - 1] == a + b[..|b| - 1];
    }
  }

  lemma {:induction false} InsertCost(q: seq<Node>, n: Node, l: Lengths)
    requires Covers(q, l) && n.id in l
    ensures Covers(Insert(q, n), l)
    ensures Cost(Insert(q, n), l) == Cost(q, l) + Cost([n], l)
    decreases |q|
  {
    if q == [] || Before(n, q[0]) {
      CostAppend([n], q, l);
    } else {
      InsertCost(q[1..], n, l);
      CostAppend([q[0]], Insert(q[1..], n), l);
      CostAppend([q[0]], q[1..], l);
      assert [q[0]] + q[1..] == q;
    }
  }

  lemma {:induction false} InsertKraft(q: seq<Node>, n: Node, l: Lengths, m: nat)
    requires Within(q, l, m) && n.id in l && l[n.id] <= m
    ensures Within(Insert(q, n), l, m)
    ensures KraftSum(Insert(q, n), l, m) == KraftSum(q, l, m) + Pow2(m - l[n.id])
    decreases |q|
  {
    OneKraft(n, l, m);
    if q == [] || Before(n, q[0]) {
      KraftAppend([n], q, l, m);
    } else {
      InsertKraft(q[1..], n, l, m);
      KraftAppend([q[0]], Insert(q[1..], n), l, m);
      KraftAppend([q[0]], q[1..], l, m);
      assert [q[0]] + q[1..] == q;
    }
  }

  lemma OneKraft(a: Node, l: Lengths, m: nat)
    requires a.id in l && l[a.id] <= m
    ensures Within([a], l, m) && KraftSum([a], l, m) == Pow2(m - l[a.id])
  {
    var s := [a];
    assert s[..|s| - 1] == [];
    assert KraftSum(s[..|s| - 1], l, m) == 0;
  }

  lemma OneCost(a: Node, l: Lengths)
    requires a.id in l
    ensures Cost([a], l) == a.weight * l[a.id]
  {
    var s := [a];
    assert s[..|s| - 1] == [];
    assert Cost(s[..|s| - 1], l) == 0;
  }

  lemma {:induction false} InsertSorted(q: seq<Node>, n: Node)
    requires Sorted(q) && forall i :: 0 <= i < |q| ==> q[i].id != n.id
    ensures Sorted(Insert(q, n))
    decreases |q|
  {
    if q != [] && !Before(n, q[0]) {
      InsertSorted(q[1..], n);
      assert Before(q[0], n);
      forall j | 0 < j < |Insert(q, n)| ensures Before(q[0], Insert(q, n)[j]) {
        assert Insert(q, n)[j] in Insert(q[1..], n);
      }
    }
  }

  // ---- every heap costs at least its merges

  lemma {:induction false} Rescaled(q: seq<Node>, l: Lengths, m: nat, k: nat)
    requires Within(q, l, m)
    ensures Within(q, l, m + k) && KraftSum(q, l, m + k) == Pow2(k) * KraftSum(q, l, m)
    decreases |q|
  {
    if q != [] {
      var init, d := q[..|q| - 1], m - l[q[|q| - 1].id];
      Rescaled(init, l, m, k);
      Pow2Add(k, d);
      assert m + k - l[q[|q| - 1].id] == k + d;
      Spread(Pow2(k), KraftSum(init, l, m), Pow2(d));
    }
  }

  lemma Spread(p: nat, a: nat, b: nat)
    ensures p * (a + b) == p * a + p * b
  {
  }

  lemma RescaledKraft(q: seq<Node>, l: Lengths, m: nat, k: nat)
    requires Within(q, l, m)
    ensures Kraft(q, l, m + k) <==> Kraft(q, l, m)
  {
    Rescaled(q, l, m, k);
    Pow2Add(k, m);
    Cancel(Pow2(k), KraftSum(q, l, m), Pow2(m));
  }

  lemma Cancel(p: nat, a: nat, b: nat)
    requires 1 <= p
    ensures p * a <= p * b <==> a <= b
  {
    if a <= b {
      Product(p, a, b);
    } else {
      Product(p, b + 1, a);
      assert p * (b + 1) == p * b + p;
    }
  }

  /** Below the deepest level every term is even. */
  lemma {:induction false} EvenAbove(q: seq<Node>, l: Lengths, m: nat)
    requires Within(q, l, m) && forall i :: 0 <= i < |q| ==> l[q[i].id] < m
    ensures KraftSum(q, l, m) % 2 == 0
    decreases |q|
  {
    if q != [] {
      EvenAbove(q[..|q| - 1], l, m);
    }
  }

  lemma {:induction false} OddWithOne(q: seq<Node>, l: Lengths, m: nat, p: nat)
    requires Within(q, l, m) && p < |q| && l[q[p].id] == m
    requires forall i :: 0 <= i < |q| && i != p ==> l[q[i].id] < m
    ensures KraftSum(q, l, m) % 2 == 1
    decreases |q|
  {
    var init := q[..|q| - 1];
    if p < |init| {
      OddWithOne(init, l, m, p);
    } else {
      EvenAbove(init, l, m);
    }
  }

  lemma {:induction false} Deepest(q: seq<Node>, l: Lengths) returns (p: nat)
    requires q != [] && Covers(q, l)
    ensures p < |q| && Within(q, l, l[q[p].id])
    decreases |q|
  {
    if |q| == 1 {
      p := 0;
    } else {
      p := Deepest(q[..|q| - 1], l);
      if l[q[p].id] < l[q[|q| - 1].id] {
        p := |q| - 1;
      }
    }
  }

  /** A code for two or more symbols uses no empty word. */
  lemma {:induction false} KraftPositive(q: seq<Node>, l: Lengths, m: nat)
    requires Within(q, l, m)
    ensures |q| <= KraftSum(q, l, m)
    decreases |q|
  {
    if q != [] {
      KraftPositive(q[..|q| - 1], l, m);
    }
  }

  /** A lone deepest leaf can move up one level for free. */
  lemma Shortened(q: seq<Node>, l: Lengths, m: nat, p: nat)
    requires DistinctIds(q) && 2 <= |q| && Kraft(q, l, m) && p < |q|
    requires forall i :: 0 <= i < |q| && i != p ==> l[q[i].id] < l[q[p].id]
    ensures 1 <= l[q[p].id]
    ensures var l' := l[q[p].id := l[q[p].id] - 1];
      Kraft(q, l', m) && Cost(q, l') <= Cost(q, l) && KraftSum(q, l, m) < KraftSum(q, l', m)
  {
    hide Pow2, KraftSum, Cost;
    Doubled(0);
    PowZero();
    var d, o := l[q[p].id], if p == 0 then 1 else 0;
    assert l[q[o].id] < d;
    var l' := l[q[p].id := d - 1];
    assert Kraft(q, l', d) by {
      RescaledKraft(q, l, d, m - d);
      OddWithOne(q, l, d, p);
      KraftUpdate(q, l, d, p, d - 1);
      Doubled(d - 1);
    }
    RescaledKraft(q, l', d, m - d);
    assert Cost(q, l') <= Cost(q, l) by {
      CostUpdate(q, l, p, d - 1);
      Product(q[p].weight, d - 1, d);
    }
    KraftUpdate(q, l, m, p, d - 1);
    Doubled(m - d);
  }

  /** Some cheaper lengths have two leaves on the deepest level. */
  lemma {:induction false} TwoDeepest(q: seq<Node>, l: Lengths, m: nat) returns (l': Lengths, p: nat, r: nat)
    requires DistinctIds(q) && 2 <= |q| && Kraft(q, l, m)
    ensures Kraft(q, l', m) && Cost(q, l') <= Cost(q, l)
    ensures p < r < |q| && l'[q[p].id] == l'[q[r].id] && Within(q, l', l'[q[p].id])
    decreases Pow2(m) - KraftSum(q, l, m)
  {
    var a := Deepest(q, l);
    if b :| 0 <= b < |q| && b != a && l[q[b].id] == l[q[a].id] {
      l', p, r := l, if a < b then a else b, if a < b then b else a;
    } else {
      Shortened(q, l, m, a);
      l', p, r := TwoDeepest(q, l[q[a].id := l[q[a].id] - 1], m);
    }
  }

  /** Exchanging two lengths so that the lighter tree gets the longer one. */
  lemma Exchanged(q: seq<Node>, l: Lengths, m: nat, i: nat, j: nat)
    requires DistinctIds(q) && Kraft(q, l, m) && i < |q| && j < |q| && i != j
    requires q[i].weight <= q[j].weight && l[q[i].id] <= l[q[j].id]
    ensures q[i].id != q[j].id
    ensures var l' := l[q[i].id := l[q[j].id]][q[j].id := l[q[i].id]];
      Kraft(q, l', m) && Cost(q, l') <= Cost(q, l)
  {
    var a, b := l[q[i].id], l[q[j].id];
    var l1 := l[q[i].id := b];
    assert q[i].id != q[j].id;
    KraftUpdate(q, l, m, i, b);
    KraftUpdate(q, l1, m, j, a);
    CostUpdate(q, l, i, b);
    CostUpdate(q, l1, j, a);
    Crossed(q[i].weight, q[j].weight, a, b);
  }

  lemma Crossed(v: nat, w: nat, a: nat, b: nat)
    requires v <= w && a <= b
    ensures v * b + w * a <= v * a + w * b
  {
    Product(b - a, v, w);
    assert (b - a) * v == v * b - v * a && (b - a) * w == w * b - w * a;
  }

  /** Some cheaper lengths put the two lightest trees side by side. */
  lemma {:induction false} LightestPaired(q: seq<Node>, l: Lengths, m: nat) returns (l': Lengths)
    requires Sorted(q) && DistinctIds(q) && 2 <= |q| && Kraft(q, l, m)
    ensures Kraft(q, l', m) && Cost(q, l') <= Cost(q, l)
    ensures 1 <= l'[q[0].id] == l'[q[1].id]
  {
    var p, r;
    l', p, r := TwoDeepest(q, l, m);
    var d := l'[q[p].id];
    DeepEnough(q, l', m, d);
    if p != 0 {
      assert Before(q[0], q[p]);
      Exchanged(q, l', m, 0, p);
      l' := l'[q[0].id := d][q[p].id := l'[q[0].id]];
      assert Within(q, l', d) && l'[q[0].id] == d && l'[q[r].id] == d;
    }
    if r != 1 {
      assert Before(q[1], q[r]);
      Exchanged(q, l', m, 1, r);
      l' := l'[q[1].id := d][q[r].id := l'[q[1].id]];
    }
  }

  lemma DeepEnough(q: seq<Node>, l: Lengths, m: nat, d: nat)
    requires 2 <= |q| && Kraft(q, l, m) && Within(q, l, d) && d <= m
    ensures 1 <= d
  {
    RescaledKraft(q, l, d, m - d);
    KraftPositive(q, l, d);
  }

  lemma FirstTwoKraft(q: seq<Node>, l: Lengths, m: nat)
    requires 2 <= |q| && Within(q, l, m)
    ensures Within(q[2..], l, m)
    ensures KraftSum(q, l, m) == Pow2(m - l[q[0].id]) + Pow2(m - l[q[1].id]) + KraftSum(q[2..], l, m)
  {
    assert q == [q[0]] + q[1..] && q[1..] == [q[1]] + q[2..];
    OneKraft(q[0], l, m);
    OneKraft(q[1], l, m);
    KraftAppend([q[1]], q[2..], l, m);
    KraftAppend([q[0]], q[1..], l, m);
  }

  lemma FirstTwoCost(q: seq<Node>, l: Lengths)
    requires 2 <= |q| && Covers(q, l)
    ensures Covers(q[2..], l)
    ensures Cost(q, l) == Cost([q[0]], l) + Cost([q[1]], l) + Cost(q[2..], l)
  {
    assert q == [q[0]] + q[1..] && q[1..] == [q[1]] + q[2..];
    CostAppend([q[1]], q[2..], l);
    CostAppend([q[0]], q[1..], l);
  }

  /** Merging the two lightest trees of paired lengths keeps the Kraft sum. */
  lemma PairMergedKraft(q: seq<Node>, n: Node, l: Lengths, m: nat)
    requires 2 <= |q| && Kraft(q, l, m) && forall i :: 0 <= i < |q| ==> q[i].id != n.id
    requires 1 <= l[q[0].id] == l[q[1].id]
    ensures Kraft(Insert(q[2..], n), l[n.id := l[q[0].id] - 1], m)
  {
    hide KraftSum, Insert, Pow2;
    var rest, d := q[2..], l[q[0].id];
    FirstTwoKraft(q, l, m);
    KraftOutside(rest, l, m, n.id, d - 1);
    InsertKraft(rest, n, l[n.id := d - 1], m);
    Doubled(m - d);
  }

  /** It saves exactly the weight of the merged tree. */
  lemma PairMergedCost(q: seq<Node>, n: Node, l: Lengths)
    requires 2 <= |q| && Covers(q, l) && forall i :: 0 <= i < |q| ==> q[i].id != n.id
    requires 1 <= l[q[0].id] == l[q[1].id] && n.weight == q[0].weight + q[1].weight
    ensures var l' := l[n.id := l[q[0].id] - 1];
      Covers(Insert(q[2..], n), l') && Cost(q, l) == n.weight + Cost(Insert(q[2..], n), l')
  {
    hide Insert, Cost;
    var rest, d := q[2..], l[q[0].id];
    var l' := l[n.id := d - 1];
    FirstTwoCost(q, l);
    CostOutside(rest, l, n.id, d - 1);
    InsertCost(rest, n, l');
    PairCosts(q[0], q[1], n, l, l', d);
  }

  lemma PairCosts(a: Node, b: Node, n: Node, l: Lengths, l': Lengths, d: nat)
    requires a.id in l && b.id in l && n.id in l' && n.weight == a.weight + b.weight
    requires 1 <= d == l[a.id] == l[b.id] && l'[n.id] == d - 1
    ensures Cost([a], l) + Cost([b], l) == n.weight + Cost([n], l')
  {
    OneCost(a, l);
    OneCost(b, l);
    OneCost(n, l');
    PairCost(a.weight, b.weight, d);
  }

  lemma PowZero()
    ensures Pow2(0) == 1
  {
  }

  lemma Doubled(k: nat)
    ensures Pow2(k + 1) == 2 * Pow2(k)
  {
  }

  lemma PairCost(a: nat, b: nat, d: nat)
    requires 1 <= d
    ensures a * d + b * d == (a + b) + (a + b) * (d - 1)
  {
    assert (a + b) * d == a * d + b * d;
    assert (a + b) * d == (a + b) * (d - 1) + (a + b);
  }

  /** No lengths that meet the Kraft inequality cost less than the merges. */
  lemma {:induction false} MergesAreCheapest(q: seq<Node>, next: nat, l: Lengths, m: nat)
    requires Sorted(q) && DistinctIds(q) && Kraft(q, l, m) && forall i :: 0 <= i < |q| ==> q[i].id < next
    ensures MergeCost(q, next) <= Cost(q, l)
    decreases |q|
  {
    hide Insert, KraftSum, Sorted, DistinctIds, Cost;
    if 2 <= |q| {
      var l1 := LightestPaired(q, l, m);
      var n := Merged(q[0], q[1], next);
      var r := Insert(q[2..], n);
      assert |r| < |q|;
      MergedHeap(q, next);
      PairMergedKraft(q, n, l1, m);
      PairMergedCost(q, n, l1);
      MergesAreCheapest(r, next + 1, l1[next := l1[q[0].id] - 1], m);
    }
  }

  /** The heap after one turn of the merge loop. */
  lemma MergedHeap(q: seq<Node>, next: nat)
    requires Sorted(q) && DistinctIds(q) && 2 <= |q| && forall i :: 0 <= i < |q| ==> q[i].id < next
    ensures var r := Insert(q[2..], Merged(q[0], q[1], next));
      Sorted(r) && DistinctIds(r) && forall i :: 0 <= i < |r| ==> r[i].id < next + 1
  {
    var n := Merged(q[0], q[1], next);
    var r := Insert(q[2..], n);
    InsertSorted(q[2..], n);
    forall i | 0 <= i < |r| ensures r[i].id < next + 1 {
      assert r[i] in r;
    }
    InsertDistinct(q[2..], n);
  }

  lemma {:induction false} InsertDistinct(q: seq<Node>, n: Node)
    requires DistinctIds(q) && forall i :: 0 <= i < |q| ==> q[i].id != n.id
    ensures DistinctIds(Insert(q, n))
    decreases |q|
  {
    if q != [] && !Before(n, q[0]) {
      InsertDistinct(q[1..], n);
      forall j | 0 < j < |Insert(q, n)| ensures Insert(q, n)[j].id != q[0].id {
        assert Insert(q, n)[j] in Insert(q[1..], n);
      }
    }
  }
}
