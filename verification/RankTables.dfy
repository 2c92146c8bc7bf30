/** Ranking by descending frequency, then ascending id. */
module RankTables {
  import opened Wrappers

  /** Frequencies by id; ids are below `n`. */
  type Table = map<int, int>

  function Weight(t: Table, x: int): int {
    if x in t then t[x] else 0
  }

  predicate Before(t: Table, a: int, b: int) {
    Weight(t, a) > Weight(t, b) || (Weight(t, a) == Weight(t, b) && a < b)
  }

  function Insert(t: Table, order: seq<int>, k: int): (r: seq<int>)
    ensures |r| == |order| + 1 && forall x :: x in r <==> x == k || x in order
  {
    if order == [] || Before(t, k, order[0]) then [k] + order else [order[0]] + Insert(t, order[1..], k)
  }

  /** The ids below `n`, as a fresh sort lists them. */
  function Ranked(t: Table, n: nat): (r: seq<int>)
    ensures forall x :: x in r <==> x in t && 0 <= x < n
  {
    if n == 0 then []
    else if n - 1 in t then Insert(t, Ranked(t, n - 1), n - 1)
    else Ranked(t, n - 1)
  }

  ghost predicate Sorted(t: Table, order: seq<int>) {
    forall i, j :: 0 <= i < j < |order| ==> Before(t, order[i], order[j])
  }

  lemma {:induction false} InsertSorted(t: Table, order: seq<int>, k: int)
    requires k !in order && Sorted(t, order)
    ensures Sorted(t, Insert(t, order, k))
    decreases |order|
  {
    if order != [] && !Before(t, k, order[0]) {
      var h, rest := order[0], order[1..];
      assert h in order;
      assert Before(t, h, k);
      InsertSorted(t, rest, k);
      var r := Insert(t, rest, k);
      forall j | 0 <= j < |r| ensures Before(t, h, r[j]) {
        assert r[j] in r;
        if r[j] != k {
          var m :| 0 <= m < |rest| && rest[m] == r[j];
          assert order[m + 1] == r[j];
        }
      }
    }
  }

  lemma {:induction false} RankedSorted(t: Table, n: nat)
    ensures Sorted(t, Ranked(t, n))
    decreases n
  {
    if n != 0 {
      RankedSorted(t, n - 1);
      if n - 1 in t {
        InsertSorted(t, Ranked(t, n - 1), n - 1);
      }
    }
  }

  function Position(order: seq<int>, x: int): Option<nat> {
    if order == [] then None
    else if order[0] == x then Some(0)
    else
      match Position(order[1..], x)
      case Some(r) => Some(r + 1)
      case None => None
  }

  lemma {:induction false} PositionHolds(order: seq<int>, x: int)
    ensures Position(order, x).Some? <==> x in order
    ensures Position(order, x).Some? ==> Position(order, x).value < |order| && order[Position(order, x).value] == x
    decreases |order|
  {
    if order != [] {
      PositionHolds(order[1..], x);
    }
  }

  /** The rank of an id, and the id of a rank. */
  function RankOf(t: Table, n: nat, x: int): Option<nat> {
    Position(Ranked(t, n), x)
  }

  function ByRank(t: Table, n: nat, rank: nat): Option<int> {
    var order := Ranked(t, n);
    if rank < |order| then Some(order[rank]) else None
  }

  /** They undo each other on every id of the table. */
  lemma {:induction false} RankRoundTrip(t: Table, n: nat, x: int)
    requires x in t && 0 <= x < n
    ensures RankOf(t, n, x).Some? && ByRank(t, n, RankOf(t, n, x).value) == Some(x)
  {
    PositionHolds(Ranked(t, n), x);
  }

  lemma RankNone(t: Table, n: nat, x: int)
    ensures RankOf(t, n, x).Some? <==> x in t && 0 <= x < n
  {
    PositionHolds(Ranked(t, n), x);
  }

  /** A lower rank is a higher frequency, or the same and a lower id. */
  lemma {:induction false} RankOrder(t: Table, n: nat, x: int, y: int)
    requires x in t && 0 <= x < n && y in t && 0 <= y < n
    ensures RankOf(t, n, x).Some? && RankOf(t, n, y).Some?
    ensures RankOf(t, n, x).value < RankOf(t, n, y).value <==> Before(t, x, y)
  {
    RankedSorted(t, n);
    PositionHolds(Ranked(t, n), x);
    PositionHolds(Ranked(t, n), y);
  }

  // ---- what a rank costs

  function Log2(n: nat): nat
    requires 1 <= n
  {
    if n == 1 then 0 else 1 + Log2(n / 2)
  }

  function GammaBits(rank: nat): nat {
    2 * Log2(rank + 1) + 1
  }

  lemma {:induction false} LogRises(a: nat, b: nat)
    requires 1 <= a <= b
    ensures Log2(a) <= Log2(b)
    decreases b
  {
    if a != 1 {
      LogRises(a / 2, b / 2);
    }
  }

  /** A more frequent id never costs more bits. */
  lemma {:induction false} FrequentIsCheap(t: Table, n: nat, x: int, y: int)
    requires x in t && 0 <= x < n && y in t && 0 <= y < n && t[y] < t[x]
    ensures RankOf(t, n, x).Some? && RankOf(t, n, y).Some?
    ensures GammaBits(RankOf(t, n, x).value) <= GammaBits(RankOf(t, n, y).value)
  {
    RankOrder(t, n, x, y);
    LogRises(RankOf(t, n, x).value + 1, RankOf(t, n, y).value + 1);
  }
}
