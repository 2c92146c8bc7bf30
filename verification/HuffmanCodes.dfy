/** The code lengths the merge loop returns, against all prefix-free codes. */
module HuffmanCodes {
  import opened Powers
  import opened Huffman

  type Word = seq<bool>

  ghost predicate PrefixFree(words: seq<Word>) {
    forall i, j :: 0 <= i < |words| && 0 <= j < |words| && i != j ==> !(words[i] <= words[j])
  }

  ghost predicate AtMost(lengths: seq<nat>, m: nat) {
    forall i :: 0 <= i < |lengths| ==> lengths[i] <= m
  }

  /** What each symbol takes of the code space, in units of 2^-m. */
  ghost function Shares(lengths: seq<nat>, m: nat): (r: seq<nat>)
    requires AtMost(lengths, m)
    ensures |r| == |lengths| && forall i :: 0 <= i < |r| ==> r[i] == Pow2(m - lengths[i])
  {
    if lengths == [] then [] else Shares(lengths[..|lengths| - 1], m) + [Pow2(m - lengths[|lengths| - 1])]
  }

  ghost function Sum(v: seq<nat>): nat {
    if v == [] then 0 else Sum(v[..|v| - 1]) + v[|v| - 1]
  }

  /** The number of bits a message with these symbol counts takes. */
  ghost function Bits(freqs: seq<nat>, lengths: seq<nat>): nat
    requires |freqs| == |lengths|
  {
    if freqs == [] then 0
    else
      var k := |freqs| - 1;
      Bits(freqs[..k], lengths[..k]) + freqs[k] * lengths[k]
  }

  ghost function LengthsOf(words: seq<Word>): (r: seq<nat>)
    ensures |r| == |words| && forall i :: 0 <= i < |r| ==> r[i] == |words[i]|
  {
    seq(|words|, i requires 0 <= i < |words| => |words[i]|)
  }

  // ---- the Kraft inequality

  /** What follows the bit `b` in the words that begin with it. */
  ghost function Tails(words: seq<Word>, b: bool): seq<Word> {
    if words == [] then []
    else
      var w := words[|words| - 1];
      Tails(words[..|words| - 1], b) + if w != [] && w[0] == b then [w[1..]] else []
  }

  lemma {:induction false} TailsMember(words: seq<Word>, b: bool, x: Word)
    requires x in Tails(words, b)
    ensures [b] + x in words
    decreases |words|
  {
    var init, w := words[..|words| - 1], words[|words| - 1];
    if x in Tails(init, b) {
      TailsMember(init, b, x);
    } else {
      assert w == [b] + x;
    }
  }

  lemma {:induction false} TailsFree(words: seq<Word>, b: bool)
    requires PrefixFree(words)
    ensures PrefixFree(Tails(words, b))
    decreases |words|
  {
    if words != [] {
      var init, w := words[..|words| - 1], words[|words| - 1];
      var rest, all := Tails(init, b), Tails(words, b);
      TailsFree(init, b);
      if w != [] && w[0] == b {
        forall i | 0 <= i < |rest| ensures !(rest[i] <= w[1..]) && !(w[1..] <= rest[i]) {
          TailsMember(init, b, rest[i]);
          var k :| 0 <= k < |init| && init[k] == [b] + rest[i];
          assert words[k] == [b] + rest[i] && w == [b] + w[1..];
          Headed(b, rest[i], w[1..]);
        }
      } else {
        assert all == rest;
      }
    }
  }

  lemma Headed(b: bool, x: Word, y: Word)
    ensures x <= y ==> [b] + x <= [b] + y
    ensures y <= x ==> [b] + y <= [b] + x
  {
  }

  ghost predicate ShortWords(words: seq<Word>, m: nat) {
    forall i :: 0 <= i < |words| ==> |words[i]| <= m
  }

  ghost function WordShares(words: seq<Word>, m: nat): nat
    requires ShortWords(words, m)
  {
    if words == [] then 0
    else WordShares(words[..|words| - 1], m) + Pow2(m - |words[|words| - 1]|)
  }

  lemma {:induction false} TailsShort(words: seq<Word>, b: bool, m: nat)
    requires ShortWords(words, m + 1)
    ensures ShortWords(Tails(words, b), m)
    decreases |words|
  {
    if words != [] {
      TailsShort(words[..|words| - 1], b, m);
    }
  }

  /** A word beginning with `b` adds its tail's share, any other word nothing. */
  lemma TailsStep(words: seq<Word>, b: bool, m: nat)
    requires words != [] && ShortWords(Tails(words, b), m) && ShortWords(words, m + 1)
    ensures var init, w := words[..|words| - 1], words[|words| - 1];
      && ShortWords(Tails(init, b), m)
      && WordShares(Tails(words, b), m) == WordShares(Tails(init, b), m)
           + if w != [] && w[0] == b then Pow2(m + 1 - |w|) else 0
  {
    hide Pow2;
    var init, w := words[..|words| - 1], words[|words| - 1];
    var t := Tails(words, b);
    TailsShort(init, b, m);
    if w != [] && w[0] == b {
      assert t == Tails(init, b) + [w[1..]];
      assert t[..|t| - 1] == Tails(init, b);
    } else {
      assert t == Tails(init, b);
    }
  }

  lemma {:induction false} SharesSplit(words: seq<Word>, m: nat)
    requires ShortWords(words, m + 1) && forall i :: 0 <= i < |words| ==> words[i] != []
    ensures ShortWords(Tails(words, false), m) && ShortWords(Tails(words, true), m)
    ensures WordShares(words, m + 1) == WordShares(Tails(words, false), m) + WordShares(Tails(words, true), m)
    decreases |words|
  {
    hide Pow2;
    TailsShort(words, false, m);
    TailsShort(words, true, m);
    if words != [] {
      SharesSplit(words[..|words| - 1], m);
      TailsStep(words, false, m);
      TailsStep(words, true, m);
    }
  }

  lemma EmptyWordOnly(words: seq<Word>, k: nat, j: nat)
    requires PrefixFree(words) && k < |words| && words[k] == [] && j < |words|
    ensures j == k
  {
    assert words[k] <= words[j];
  }

  /** A prefix-free code with the empty word has no other. */
  lemma EmptyWordAlone(words: seq<Word>, k: nat)
    requires PrefixFree(words) && k < |words| && words[k] == []
    ensures words == [[]]
  {
    EmptyWordOnly(words, k, 0);
    EmptyWordOnly(words, k, |words| - 1);
  }

  lemma NoWords(m: nat)
    ensures WordShares([], m) == 0
  {
  }

  lemma OneEmptyWord(m: nat)
    ensures WordShares([[]], m) == Pow2(m)
  {
    hide Pow2;
    var words: seq<Word> := [[]];
    assert words[..0] == [];
    assert WordShares(words[..0], m) == 0;
  }

  /** A prefix-free code never takes more than the whole code space. */
  lemma {:induction false} KraftInequality(words: seq<Word>, m: nat)
    requires PrefixFree(words) && ShortWords(words, m)
    ensures WordShares(words, m) <= Pow2(m)
    decreases m
  {
    hide WordShares, Tails, Pow2;
    if k :| 0 <= k < |words| && words[k] == [] {
      EmptyWordAlone(words, k);
      OneEmptyWord(m);
    } else if words == [] {
      NoWords(m);
    } else {
      assert 1 <= |words[0]| <= m;
      Split(words, m);
      KraftInequality(Tails(words, false), m - 1);
      KraftInequality(Tails(words, true), m - 1);
      Doubled(m - 1);
    }
  }

  lemma Split(words: seq<Word>, m: nat)
    requires PrefixFree(words) && ShortWords(words, m) && 1 <= m
    requires forall i :: 0 <= i < |words| ==> words[i] != []
    ensures var f, t := Tails(words, false), Tails(words, true);
      && PrefixFree(f) && PrefixFree(t) && ShortWords(f, m - 1) && ShortWords(t, m - 1)
      && WordShares(words, m) == WordShares(f, m - 1) + WordShares(t, m - 1)
  {
    hide WordShares, Tails, Pow2;
    TailsFree(words, false);
    TailsFree(words, true);
    SharesSplit(words, m - 1);
  }

  // ---- the heap before the first merge

  function Leaf(freqs: seq<nat>, i: nat): Node
    requires i < |freqs|
  {
    Node(freqs[i], i, [i])
  }

  function Leaves(freqs: seq<nat>, n: nat): (q: seq<Node>)
    requires n <= |freqs|
    ensures |q| == n
  {
    if n == 0 then [] else Insert(Leaves(freqs, n - 1), Leaf(freqs, n - 1))
  }

  lemma {:induction false} LeavesMembers(freqs: seq<nat>, n: nat)
    requires n <= |freqs|
    ensures forall x :: x in Leaves(freqs, n) <==> x.id < n && x == Leaf(freqs, x.id)
    decreases n
  {
    if n != 0 {
      LeavesMembers(freqs, n - 1);
    }
  }

  lemma LeafAt(freqs: seq<nat>, n: nat, i: nat)
    requires n <= |freqs| && i < n
    ensures Leaves(freqs, n)[i].id < n && Leaves(freqs, n)[i] == Leaf(freqs, Leaves(freqs, n)[i].id)
  {
    LeavesMembers(freqs, n);
    assert Leaves(freqs, n)[i] in Leaves(freqs, n);
  }

  lemma {:induction false} LeavesHeap(freqs: seq<nat>, n: nat)
    requires n <= |freqs|
    ensures Sorted(Leaves(freqs, n)) && DistinctIds(Leaves(freqs, n))
    ensures forall i :: 0 <= i < n ==> Leaves(freqs, n)[i].id < n
    decreases n
  {
    hide Insert, Before;
    forall i | 0 <= i < n ensures Leaves(freqs, n)[i].id < n {
      LeafAt(freqs, n, i);
    }
    if n != 0 {
      LeavesHeap(freqs, n - 1);
      InsertSorted(Leaves(freqs, n - 1), Leaf(freqs, n - 1));
      InsertDistinct(Leaves(freqs, n - 1), Leaf(freqs, n - 1));
    }
  }

  ghost function AsMap(lengths: seq<nat>): Lengths {
    map i: nat | i < |lengths| :: lengths[i]
  }

  lemma {:induction false} LeavesCost(freqs: seq<nat>, lengths: seq<nat>, n: nat)
    requires n <= |freqs| == |lengths|
    ensures Covers(Leaves(freqs, n), AsMap(lengths))
    ensures Cost(Leaves(freqs, n), AsMap(lengths)) == Bits(freqs[..n], lengths[..n])
    decreases n
  {
    hide Insert, Cost;
    if n == 0 {
      assert Cost([], AsMap(lengths)) == 0 by { NoCost(AsMap(lengths)); }
    } else {
      LeavesCost(freqs, lengths, n - 1);
      var f, l := Leaf(freqs, n - 1), AsMap(lengths);
      InsertCost(Leaves(freqs, n - 1), f, l);
      OneCost(f, l);
      assert freqs[..n][..n - 1] == freqs[..n - 1] && lengths[..n][..n - 1] == lengths[..n - 1];
    }
  }

  lemma NoCost(l: Lengths)
    ensures Cost([], l) == 0
  {
  }

  lemma NoKraft(l: Lengths, m: nat)
    ensures KraftSum([], l, m) == 0 && Sum(Shares([], m)) == 0
  {
  }

  lemma {:induction false} LeavesKraft(freqs: seq<nat>, lengths: seq<nat>, n: nat, m: nat)
    requires n <= |freqs| == |lengths| && AtMost(lengths, m)
    ensures Within(Leaves(freqs, n), AsMap(lengths), m)
    ensures KraftSum(Leaves(freqs, n), AsMap(lengths), m) == Sum(Shares(lengths[..n], m))
    decreases n
  {
    hide Insert, KraftSum, Pow2, Shares, Sum;
    if n == 0 {
      assert lengths[..n] == [];
      NoKraft(AsMap(lengths), m);
    } else {
      LeavesKraft(freqs, lengths, n - 1, m);
      InsertKraft(Leaves(freqs, n - 1), Leaf(freqs, n - 1), AsMap(lengths), m);
      SharesUpTo(lengths, n, m);
    }
  }

  lemma SharesUpTo(lengths: seq<nat>, n: nat, m: nat)
    requires 1 <= n <= |lengths| && AtMost(lengths, m)
    ensures Sum(Shares(lengths[..n], m)) == Sum(Shares(lengths[..n - 1], m)) + Pow2(m - lengths[n - 1])
  {
    hide Shares, Sum, Pow2;
    assert lengths[..n][..n - 1] == lengths[..n - 1];
    SharesStep(lengths[..n], m);
  }

  lemma SharesStep(lengths: seq<nat>, m: nat)
    requires lengths != [] && AtMost(lengths, m)
    ensures var k := |lengths| - 1;
      Sum(Shares(lengths, m)) == Sum(Shares(lengths[..k], m)) + Pow2(m - lengths[k])
  {
    hide Pow2;
    var s := Shares(lengths, m);
    assert s[..|s| - 1] == Shares(lengths[..|lengths| - 1], m);
  }

  ghost function Longest(lengths: seq<nat>): (m: nat)
    ensures AtMost(lengths, m)
  {
    if lengths == [] then 0
    else
      var r := Longest(lengths[..|lengths| - 1]);
      if r < lengths[|lengths| - 1] then lengths[|lengths| - 1] else r
  }

  lemma {:induction false} WordSharesAgree(words: seq<Word>, m: nat)
    requires ShortWords(words, m)
    ensures AtMost(LengthsOf(words), m) && Sum(Shares(LengthsOf(words), m)) == WordShares(words, m)
    decreases |words|
  {
    if words != [] {
      var init := words[..|words| - 1];
      WordSharesAgree(init, m);
      assert LengthsOf(words)[..|words| - 1] == LengthsOf(init);
      SharesStep(LengthsOf(words), m);
    }
  }

  /** No prefix-free code takes fewer bits than the merges cost. */
  lemma {:induction false} NoCheaperCode(freqs: seq<nat>, words: seq<Word>)
    requires |words| == |freqs| && PrefixFree(words)
    ensures MergeCost(Leaves(freqs, |freqs|), |freqs|) <= Bits(freqs, LengthsOf(words))
  {
    var n, lengths := |freqs|, LengthsOf(words);
    var m := Longest(lengths);
    assert freqs[..n] == freqs && lengths[..n] == lengths;
    assert ShortWords(words, m) by {
      assert forall i :: 0 <= i < |words| ==> |words[i]| == lengths[i];
    }
    KraftInequality(words, m);
    WordSharesAgree(words, m);
    LeavesCost(freqs, lengths, n);
    LeavesKraft(freqs, lengths, n, m);
    LeavesHeap(freqs, n);
    MergesAreCheapest(Leaves(freqs, n), n, AsMap(lengths), m);
  }
}
