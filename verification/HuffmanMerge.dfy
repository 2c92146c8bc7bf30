/** The merge loop: it pops the two lightest trees, deepens their symbols by
    one, and pushes the merged tree, until one tree is left. */
module HuffmanMerge {
  import opened Powers
  import opened Huffman
  import opened HuffmanCodes

  // ---- which tree a symbol is in

  /** The total of `v` over the symbols of tree `id`. */
  ghost function Part(owner: seq<nat>, id: nat, v: seq<nat>): nat
    requires |owner| == |v|
  {
    if owner == [] then 0
    else
      var k := |owner| - 1;
      Part(owner[..k], id, v[..k]) + if owner[k] == id then v[k] else 0
  }

  ghost function Joined(owner: seq<nat>, a: nat, b: nat, id: nat): (r: seq<nat>)
    ensures |r| == |owner|
    ensures forall s :: 0 <= s < |r| ==> r[s] == if owner[s] == a || owner[s] == b then id else owner[s]
  {
    seq(|owner|, s requires 0 <= s < |owner| => if owner[s] == a || owner[s] == b then id else owner[s])
  }

  ghost predicate Deepened(owner: seq<nat>, a: nat, b: nat, lengths: seq<nat>, deeper: seq<nat>) {
    && |owner| == |lengths| == |deeper|
    && forall s :: 0 <= s < |owner| ==>
         deeper[s] == if owner[s] == a || owner[s] == b then lengths[s] + 1 else lengths[s]
  }

  lemma {:induction false} PartJoined(owner: seq<nat>, a: nat, b: nat, id: nat, v: seq<nat>)
    requires |owner| == |v| && a != b && forall s :: 0 <= s < |owner| ==> owner[s] != id
    ensures Part(Joined(owner, a, b, id), id, v) == Part(owner, a, v) + Part(owner, b, v)
    decreases |owner|
  {
    if owner != [] {
      var k := |owner| - 1;
      PartJoined(owner[..k], a, b, id, v[..k]);
      assert Joined(owner, a, b, id)[..k] == Joined(owner[..k], a, b, id);
    }
  }

  lemma {:induction false} PartKept(owner: seq<nat>, a: nat, b: nat, id: nat, other: nat, v: seq<nat>)
    requires |owner| == |v| && other != a && other != b && other != id
    ensures Part(Joined(owner, a, b, id), other, v) == Part(owner, other, v)
    decreases |owner|
  {
    if owner != [] {
      var k := |owner| - 1;
      PartKept(owner[..k], a, b, id, other, v[..k]);
      assert Joined(owner, a, b, id)[..k] == Joined(owner[..k], a, b, id);
    }
  }

  /** Scaling the entries of one tree scales its part. */
  lemma {:induction false} PartScaled(owner: seq<nat>, id: nat, v: seq<nat>, w: seq<nat>, c: nat)
    requires |owner| == |v| == |w|
    requires forall s :: 0 <= s < |owner| && owner[s] == id ==> v[s] == c * w[s]
    ensures Part(owner, id, v) == c * Part(owner, id, w)
    decreases |owner|
  {
    if owner != [] {
      var k := |owner| - 1;
      PartScaled(owner[..k], id, v[..k], w[..k], c);
      Distribute(c, Part(owner[..k], id, w[..k]), w[k]);
    }
  }

  lemma Distribute(c: nat, a: nat, b: nat)
    ensures c * (a + b) == c * a + c * b
  {
  }

  lemma {:induction false} PartAll(owner: seq<nat>, id: nat, v: seq<nat>)
    requires |owner| == |v| && forall s :: 0 <= s < |owner| ==> owner[s] == id
    ensures Part(owner, id, v) == Sum(v)
    decreases |owner|
  {
    if owner != [] {
      PartAll(owner[..|owner| - 1], id, v[..|v| - 1]);
    }
  }

  lemma {:induction false} PartAlone(owner: seq<nat>, id: nat, v: seq<nat>)
    requires |owner| == |v| && forall s :: 0 <= s < |owner| ==> owner[s] == s
    ensures Part(owner, id, v) == if id < |v| then v[id] else 0
    decreases |owner|
  {
    if owner != [] {
      PartAlone(owner[..|owner| - 1], id, v[..|v| - 1]);
    }
  }

  /** Deepening two trees adds their weights to the message size. */
  lemma {:induction false} BitsDeepened(owner: seq<nat>, a: nat, b: nat, freqs: seq<nat>,
                                        lengths: seq<nat>, deeper: seq<nat>)
    requires |freqs| == |owner| && a != b && Deepened(owner, a, b, lengths, deeper)
    ensures Bits(freqs, deeper) == Bits(freqs, lengths) + Part(owner, a, freqs) + Part(owner, b, freqs)
    decreases |owner|
  {
    if owner != [] {
      var k := |owner| - 1;
      BitsDeepened(owner[..k], a, b, freqs[..k], lengths[..k], deeper[..k]);
      OneMore(freqs[k], lengths[k]);
    }
  }

  lemma OneMore(f: nat, d: nat)
    ensures f * (d + 1) == f * d + f
  {
  }

  // ---- what holds before every turn

  ghost predicate HasId(q: seq<Node>, id: nat) {
    exists i :: 0 <= i < |q| && q[i].id == id
  }

  ghost predicate NoTwice(s: seq<nat>) {
    forall i, j :: 0 <= i < j < |s| ==> s[i] != s[j]
  }

  /** The leaves of a tree are the symbols it owns, each once. */
  ghost predicate Holds(n: Node, owner: seq<nat>) {
    && NoTwice(n.leaves)
    && forall s: nat :: s in n.leaves <==> (s < |owner| && owner[s] == n.id)
  }

  ghost predicate Owned(q: seq<Node>, owner: seq<nat>) {
    && (forall i :: 0 <= i < |q| ==> Holds(q[i], owner))
    && forall s :: 0 <= s < |owner| ==> HasId(q, owner[s])
  }

  ghost predicate Weighed(q: seq<Node>, owner: seq<nat>, freqs: seq<nat>) {
    |owner| == |freqs| && forall i :: 0 <= i < |q| ==> q[i].weight == Part(owner, q[i].id, freqs)
  }

  /** Every tree on its own fills the code space. */
  ghost predicate Full(q: seq<Node>, owner: seq<nat>, lengths: seq<nat>, m: nat) {
    && |owner| == |lengths| && AtMost(lengths, m)
    && forall i :: 0 <= i < |q| ==> Part(owner, q[i].id, Shares(lengths, m)) == Pow2(m)
  }

  /** Within one tree no word is a prefix of another. */
  ghost predicate Separate(owner: seq<nat>, words: seq<Word>) {
    && |words| == |owner|
    && forall s, t :: 0 <= s < |owner| && 0 <= t < |owner| && s != t && owner[s] == owner[t] ==> !(words[s] <= words[t])
  }

  /** The words after a merge: one new leading bit says which side. */
  ghost function Prefixed(owner: seq<nat>, a: nat, b: nat, words: seq<Word>): (r: seq<Word>)
    requires |words| == |owner|
    ensures |r| == |words|
    ensures forall s :: 0 <= s < |r| ==>
      r[s] == (if owner[s] == a then [false] + words[s] else if owner[s] == b then [true] + words[s] else words[s])
  {
    seq(|words|, s requires 0 <= s < |words| =>
      if owner[s] == a then [false] + words[s] else if owner[s] == b then [true] + words[s] else words[s])
  }

  // ---- one turn keeps it

  lemma Tail2(q: seq<Node>, n: Node, x: Node)
    requires 2 <= |q|
    ensures x in Insert(q[2..], n) <==> x == n || x in q[2..]
    ensures x in q[2..] ==> exists i :: 2 <= i < |q| && q[i] == x
  {
  }

  lemma JoinedSeparate(owner: seq<nat>, a: nat, b: nat, id: nat, words: seq<Word>)
    requires Separate(owner, words) && a != b && forall s :: 0 <= s < |owner| ==> owner[s] != id
    ensures Separate(Joined(owner, a, b, id), Prefixed(owner, a, b, words))
  {
    var o, w := Joined(owner, a, b, id), Prefixed(owner, a, b, words);
    forall s, t | 0 <= s < |o| && 0 <= t < |o| && s != t && o[s] == o[t] ensures !(w[s] <= w[t]) {
      if owner[s] == owner[t] {
        Unheaded(false, words[s], words[t]);
        Unheaded(true, words[s], words[t]);
      } else {
        assert w[s][0] != w[t][0];
      }
    }
  }

  lemma Unheaded(b: bool, x: Word, y: Word)
    ensures [b] + x <= [b] + y ==> x <= y
  {
    if [b] + x <= [b] + y {
      forall k | 0 <= k < |x| ensures x[k] == y[k] {
        assert ([b] + x)[k + 1] == ([b] + y)[k + 1];
      }
    }
  }

  lemma JoinedHolds(a: Node, b: Node, id: nat, owner: seq<nat>)
    requires Holds(a, owner) && Holds(b, owner) && a.id != b.id
    requires forall s :: 0 <= s < |owner| ==> owner[s] != id
    ensures Holds(Merged(a, b, id), Joined(owner, a.id, b.id, id))
  {
    var l := a.leaves + b.leaves;
    forall i, j | 0 <= i < j < |l| ensures l[i] != l[j] {
      assert l[i] in (if i < |a.leaves| then a.leaves else b.leaves);
      assert l[j] in (if j < |a.leaves| then a.leaves else b.leaves);
    }
  }

  lemma OtherHolds(n: Node, a: nat, b: nat, id: nat, owner: seq<nat>)
    requires Holds(n, owner) && n.id != a && n.id != b && n.id != id
    ensures Holds(n, Joined(owner, a, b, id))
  {
  }

  ghost predicate Fresh(q: seq<Node>, owner: seq<nat>, id: nat) {
    (forall i :: 0 <= i < |q| ==> q[i].id < id) && forall s :: 0 <= s < |owner| ==> owner[s] < id
  }

  lemma JoinedOwned(q: seq<Node>, owner: seq<nat>, id: nat)
    requires Owned(q, owner) && DistinctIds(q) && 2 <= |q| && Fresh(q, owner, id)
    ensures Owned(Insert(q[2..], Merged(q[0], q[1], id)), Joined(owner, q[0].id, q[1].id, id))
  {
    var n := Merged(q[0], q[1], id);
    var r, o := Insert(q[2..], n), Joined(owner, q[0].id, q[1].id, id);
    forall i | 0 <= i < |r| ensures Holds(r[i], o) {
      assert r[i] in r;
      Tail2(q, n, r[i]);
      if r[i] == n {
        JoinedHolds(q[0], q[1], id, owner);
      } else {
        OtherHolds(r[i], q[0].id, q[1].id, id, owner);
      }
    }
    forall s | 0 <= s < |o| ensures HasId(r, o[s]) {
      var k :| 0 <= k < |q| && q[k].id == owner[s];
      if k < 2 {
        Named(r, n);
      } else {
        assert q[k] == q[2..][k - 2];
        Named(r, q[k]);
      }
    }
  }

  lemma Named(q: seq<Node>, n: Node)
    requires n in q
    ensures HasId(q, n.id)
  {
  }

  lemma JoinedWeighed(q: seq<Node>, owner: seq<nat>, id: nat, freqs: seq<nat>)
    requires Weighed(q, owner, freqs) && DistinctIds(q) && 2 <= |q| && Fresh(q, owner, id)
    ensures Weighed(Insert(q[2..], Merged(q[0], q[1], id)), Joined(owner, q[0].id, q[1].id, id), freqs)
  {
    hide Part;
    var n := Merged(q[0], q[1], id);
    var r := Insert(q[2..], n);
    forall i | 0 <= i < |r|
      ensures r[i].weight == Part(Joined(owner, q[0].id, q[1].id, id), r[i].id, freqs)
    {
      assert r[i] in r;
      Tail2(q, n, r[i]);
      if r[i] == n {
        PartJoined(owner, q[0].id, q[1].id, id, freqs);
      } else {
        PartKept(owner, q[0].id, q[1].id, id, r[i].id, freqs);
      }
    }
  }

  /** Two full trees, each one level deeper, fill the code space together. */
  lemma JoinedFull(q: seq<Node>, owner: seq<nat>, id: nat, lengths: seq<nat>, deeper: seq<nat>, m: nat)
    requires Full(q, owner, lengths, m) && AtMost(deeper, m) && DistinctIds(q) && 2 <= |q| && Fresh(q, owner, id)
    requires Deepened(owner, q[0].id, q[1].id, lengths, deeper)
    ensures Full(Insert(q[2..], Merged(q[0], q[1], id)), Joined(owner, q[0].id, q[1].id, id), deeper, m)
  {
    hide Part, Shares, Pow2;
    var n := Merged(q[0], q[1], id);
    var r, a, b := Insert(q[2..], n), q[0].id, q[1].id;
    var o, v, w := Joined(owner, a, b, id), Shares(lengths, m), Shares(deeper, m);
    forall i | 0 <= i < |r| ensures Part(o, r[i].id, w) == Pow2(m) {
      assert r[i] in r;
      Tail2(q, n, r[i]);
      if r[i] == n {
        HalvedShares(owner, a, b, a, lengths, deeper, m);
        HalvedShares(owner, a, b, b, lengths, deeper, m);
        PartJoined(owner, a, b, id, w);
      } else {
        PartKept(owner, a, b, id, r[i].id, w);
        PartScaled(owner, r[i].id, v, w, 1);
      }
    }
  }

  lemma HalvedShares(owner: seq<nat>, a: nat, b: nat, id: nat, lengths: seq<nat>, deeper: seq<nat>, m: nat)
    requires Deepened(owner, a, b, lengths, deeper) && AtMost(lengths, m) && AtMost(deeper, m) && (id == a || id == b)
    ensures Part(owner, id, Shares(lengths, m)) == 2 * Part(owner, id, Shares(deeper, m))
  {
    hide Part, Pow2;
    forall s | 0 <= s < |owner| && owner[s] == id
      ensures Shares(lengths, m)[s] == 2 * Shares(deeper, m)[s]
    {
      Doubled(m - deeper[s]);
    }
    PartScaled(owner, id, Shares(lengths, m), Shares(deeper, m), 2);
  }

  ghost predicate Growing(freqs: seq<nat>, q: seq<Node>, next: nat, owner: seq<nat>, words: seq<Word>,
                          lengths: seq<nat>) {
    && |freqs| == |owner| == |words| == |lengths| && 1 <= |q| <= |freqs|
    && Sorted(q) && DistinctIds(q) && Fresh(q, owner, next)
    && Owned(q, owner) && Weighed(q, owner, freqs) && Full(q, owner, lengths, |freqs|)
    && AtMost(lengths, |freqs| - |q|) && Separate(owner, words)
    && forall s :: 0 <= s < |words| ==> |words[s]| == lengths[s]
  }

  /** One turn of the loop: everything holds again, and the bits already in
      the lengths plus the merges still to come stay the same. */
  lemma {:induction false} Turn(freqs: seq<nat>, q: seq<Node>, next: nat, owner: seq<nat>, words: seq<Word>,
             lengths: seq<nat>, deeper: seq<nat>)
    requires Growing(freqs, q, next, owner, words, lengths) && 2 <= |q|
    requires Deepened(owner, q[0].id, q[1].id, lengths, deeper)
    ensures var r := Insert(q[2..], Merged(q[0], q[1], next));
      && Growing(freqs, r, next + 1, Joined(owner, q[0].id, q[1].id, next),
                 Prefixed(owner, q[0].id, q[1].id, words), deeper)
      && Bits(freqs, deeper) + MergeCost(r, next + 1) == Bits(freqs, lengths) + MergeCost(q, next)
  {
    hide Part, Shares, Pow2, Bits, Insert;
    MergedHeap(q, next);
    JoinedOwned(q, owner, next);
    JoinedWeighed(q, owner, next, freqs);
    JoinedFull(q, owner, next, lengths, deeper, |freqs|);
    JoinedSeparate(owner, q[0].id, q[1].id, next, words);
    BitsDeepened(owner, q[0].id, q[1].id, freqs, lengths, deeper);
  }

  ghost function Identity(n: nat): (r: seq<nat>)
    ensures |r| == n && forall i :: 0 <= i < n ==> r[i] == i
  {
    seq(n, i requires 0 <= i < n => i)
  }

  lemma Start(freqs: seq<nat>, words: seq<Word>, lengths: seq<nat>)
    requires |freqs| == |words| == |lengths| && 1 <= |freqs|
    requires forall s :: 0 <= s < |freqs| ==> words[s] == [] && lengths[s] == 0
    ensures Growing(freqs, Leaves(freqs, |freqs|), |freqs|, Identity(|freqs|), words, lengths)
    ensures Bits(freqs, lengths) == 0
  {
    hide Bits, Leaves, Sorted, DistinctIds, Fresh, Owned, Weighed, Full, Separate;
    LeavesHeap(freqs, |freqs|);
    StartOwned(freqs);
    StartAlone(freqs, words);
    StartWeighed(freqs);
    StartFull(freqs, lengths);
    NoBits(freqs, lengths);
  }

  lemma StartAlone(freqs: seq<nat>, words: seq<Word>)
    requires |freqs| == |words|
    ensures Fresh(Leaves(freqs, |freqs|), Identity(|freqs|), |freqs|) && Separate(Identity(|freqs|), words)
  {
    hide Leaves;
    forall i | 0 <= i < |freqs| ensures Leaves(freqs, |freqs|)[i].id < |freqs| {
      LeafAt(freqs, |freqs|, i);
    }
  }

  lemma StartWeighed(freqs: seq<nat>)
    ensures Weighed(Leaves(freqs, |freqs|), Identity(|freqs|), freqs)
  {
    hide Part, Leaves;
    var q, owner := Leaves(freqs, |freqs|), Identity(|freqs|);
    forall i | 0 <= i < |q| ensures q[i].weight == Part(owner, q[i].id, freqs) {
      LeafAt(freqs, |freqs|, i);
      PartAlone(owner, q[i].id, freqs);
    }
  }

  lemma StartFull(freqs: seq<nat>, lengths: seq<nat>)
    requires |freqs| == |lengths| && forall s :: 0 <= s < |lengths| ==> lengths[s] == 0
    ensures Full(Leaves(freqs, |freqs|), Identity(|freqs|), lengths, |freqs|)
  {
    hide Part, Leaves, Pow2;
    var n := |freqs|;
    var q, owner := Leaves(freqs, n), Identity(n);
    forall i | 0 <= i < |q| ensures Part(owner, q[i].id, Shares(lengths, n)) == Pow2(n) {
      LeafAt(freqs, n, i);
      PartAlone(owner, q[i].id, Shares(lengths, n));
    }
  }

  lemma StartOwned(freqs: seq<nat>)
    ensures Owned(Leaves(freqs, |freqs|), Identity(|freqs|))
  {
    hide Insert, Leaves;
    var n := |freqs|;
    var q, owner := Leaves(freqs, n), Identity(n);
    LeavesMembers(freqs, n);
    forall i | 0 <= i < |q| ensures Holds(q[i], owner) {
      LeafAt(freqs, n, i);
    }
    forall s | 0 <= s < |owner| ensures HasId(q, owner[s]) {
      assert Leaf(freqs, s) in q;
      Named(q, Leaf(freqs, s));
    }
  }

  lemma {:induction false} NoBits(freqs: seq<nat>, lengths: seq<nat>)
    requires |freqs| == |lengths| && forall s :: 0 <= s < |lengths| ==> lengths[s] == 0
    ensures Bits(freqs, lengths) == 0
    decreases |freqs|
  {
    if freqs != [] {
      NoBits(freqs[..|freqs| - 1], lengths[..|lengths| - 1]);
    }
  }

  /** When one tree is left it owns every symbol. */
  lemma Finish(freqs: seq<nat>, q: seq<Node>, next: nat, owner: seq<nat>, words: seq<Word>, lengths: seq<nat>)
    requires Growing(freqs, q, next, owner, words, lengths) && |q| == 1
    ensures AtMost(lengths, |freqs|) && Sum(Shares(lengths, |freqs|)) == Pow2(|freqs|)
    ensures PrefixFree(words) && LengthsOf(words) == lengths && MergeCost(q, next) == 0
  {
    hide Part, Shares, Sum, Pow2;
    forall s | 0 <= s < |owner| ensures owner[s] == q[0].id {
      assert HasId(q, owner[s]);
    }
    PartAll(owner, q[0].id, Shares(lengths, |freqs|));
  }

  method Deepen(lengths: seq<nat>, leaves: seq<nat>) returns (deeper: seq<nat>)
    requires NoTwice(leaves) && forall s :: s in leaves ==> s < |lengths|
    ensures |deeper| == |lengths|
    ensures forall s :: 0 <= s < |lengths| ==> deeper[s] == if s in leaves then lengths[s] + 1 else lengths[s]
  {
    deeper := lengths;
    var i := 0;
    while i < |leaves|
      invariant 0 <= i <= |leaves| && |deeper| == |lengths|
      invariant forall s :: 0 <= s < |lengths| ==>
        deeper[s] == (if s in leaves[..i] then lengths[s] + 1 else lengths[s])
    {
      var s := leaves[i];
      assert s in leaves;
      assert leaves[..i + 1] == leaves[..i] + [s];
      deeper := deeper[s := deeper[s] + 1];
      i := i + 1;
    }
    assert leaves[..i] == leaves;
  }

  method BuildHeap(freqs: seq<nat>) returns (heap: seq<Node>)
    ensures heap == Leaves(freqs, |freqs|)
  {
    heap := [];
    var i := 0;
    while i < |freqs|
      invariant 0 <= i <= |freqs| && heap == Leaves(freqs, i)
    {
      heap := Insert(heap, Leaf(freqs, i));
      i := i + 1;
    }
  }

  /** The symbols of the two trees popped, and what deepening them does. */
  lemma Popped(q: seq<Node>, owner: seq<nat>, id: nat)
    requires Owned(q, owner) && DistinctIds(q) && 2 <= |q| && Fresh(q, owner, id)
    ensures NoTwice(q[0].leaves + q[1].leaves)
    ensures forall s: nat :: s in q[0].leaves + q[1].leaves <==>
      (s < |owner| && (owner[s] == q[0].id || owner[s] == q[1].id))
  {
    JoinedHolds(q[0], q[1], id, owner);
  }

  /** Code lengths by symbol, in the order of the table. For two symbols or
      more they belong to a prefix-free code that wastes no code space, and no
      prefix-free code for these counts is shorter. */
  method HuffmanLengths(freqs: seq<nat>) returns (lengths: seq<nat>, ghost words: seq<Word>)
    ensures |lengths| == |freqs|
    ensures |freqs| == 1 ==> lengths == [1]
    ensures PrefixFree(words) && LengthsOf(words) == lengths
    ensures AtMost(lengths, |freqs|)
    ensures 2 <= |freqs| ==> Sum(Shares(lengths, |freqs|)) == Pow2(|freqs|)
    ensures 2 <= |freqs| ==> forall others :: |others| == |freqs| && PrefixFree(others) ==>
      Bits(freqs, lengths) <= Bits(freqs, LengthsOf(others))
  {
    hide Part, Shares, Sum, Pow2, Bits, Insert, Leaves, MergeCost, Sorted, Weighed, Full, Separate;
    var n := |freqs|;
    if n == 1 {
      return [1], [[false]];
    }
    var heap := BuildHeap(freqs);
    lengths := seq(n, _ => 0);
    words := seq(n, _ => []);
    if n == 0 {
      return;
    }
    var next := n;
    ghost var owner := Identity(n);
    Start(freqs, words, lengths);
    while 1 < |heap|
      invariant Growing(freqs, heap, next, owner, words, lengths)
      invariant Bits(freqs, lengths) + MergeCost(heap, next) == MergeCost(Leaves(freqs, n), n)
      decreases |heap|
    {
      var a, b := heap[0], heap[1];
      Popped(heap, owner, next);
      var deeper := Deepen(lengths, a.leaves + b.leaves);
      Turn(freqs, heap, next, owner, words, lengths, deeper);
      owner, words := Joined(owner, a.id, b.id, next), Prefixed(owner, a.id, b.id, words);
      lengths := deeper;
      heap := Insert(heap[2..], Merged(a, b, next));
      next := next + 1;
    }
    Finish(freqs, heap, next, owner, words, lengths);
    forall others | |others| == |freqs| && PrefixFree(others)
      ensures Bits(freqs, lengths) <= Bits(freqs, LengthsOf(others))
    {
      NoCheaperCode(freqs, others);
    }
  }
}
