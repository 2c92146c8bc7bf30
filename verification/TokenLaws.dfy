/** What one column or id teaches the token coders, which table it is coded by,
    and what that costs. */
module TokenLaws {
  import opened Wrappers
  import opened Powers
  import opened RankTables
  import opened TokenCoders

  // ---- the joint dictionary

  /** A known column is coded by the rank of its entry and raises that entry's count
      by one; a new one is sent whole and becomes the last entry, counted once. */
  lemma {:induction false} ColumnTeaches(c: Coder, col: Column)
    requires Sound(c)
    ensures Coded(c, col).Some?
    ensures var (s, after) := Coded(c, col).value;
      if col in c.entries then
        && col in c.indexOf && var i := c.indexOf[col];
        && 0 <= i < |c.entries| && c.entries[i] == col
        && s.Known? && ByRank(Counts(c.freq), |c.entries|, s.rank) == Some(i)
        && after.entries == c.entries && after.indexOf == c.indexOf && |after.freq| == |c.freq|
        && forall k :: 0 <= k < |c.freq| ==> after.freq[k] == if k == i then c.freq[k] + 1 else c.freq[k]
      else s == Novel(col) && after == Coder(c.entries + [col], c.indexOf[col := |c.entries|], c.freq + [1])
  {
    if col in c.indexOf {
      assert c.entries[c.indexOf[col]] in c.entries;
      RankRoundTrip(Counts(c.freq), |c.entries|, c.indexOf[col]);
    }
  }

  // ---- rows

  /** The table of a context, empty before its first id. */
  ghost function Seen(row: Row, prev: int): Table {
    if prev in row.ctx then row.ctx[prev] else map[]
  }

  /** One more of an id, and nothing else. */
  ghost predicate OneMore(t: Table, id: int, after: Table) {
    && (forall x :: x in after <==> x == id || x in t)
    && forall x :: x in after ==> after[x] == (if x in t then t[x] else 0) + if x == id then 1 else 0
  }

  /** An id counts once in the table of its context and once in the row's own. */
  lemma {:induction false} IdTeaches(row: Row, prev: int, id: int)
    ensures var after := Learned(row, prev, id);
      && prev in after.ctx && OneMore(Seen(row, prev), id, after.ctx[prev]) && OneMore(row.glob, id, after.glob)
      && forall p :: p != prev ==> (p in after.ctx <==> p in row.ctx) && (p in after.ctx && p in row.ctx ==> after.ctx[p] == row.ctx[p])
  {
  }

  /** An id of 0..1023 is coded in its context if it was seen there, else in the
      row's table if it was seen at all, else as itself; and an error comes exactly
      where a table that has to be sorted cannot be. */
  lemma {:induction false} CodedBy(row: Row, prev: int, id: int)
    requires 0 <= id < 1024
    ensures var p, t := PayloadOf(row, prev, id), Seen(row, prev);
      && (p == None <==> Tied(t) || (id !in t && Tied(row.glob)))
      && (p.Some? && p.value.InContext? <==> !Tied(t) && id in t)
      && (p.Some? && p.value.InGlobal? <==> !Tied(t) && id !in t && !Tied(row.glob) && id in row.glob)
      && (p == Some(Raw(id)) <==> !Tied(t) && id !in t && !Tied(row.glob) && id !in row.glob)
      && (p.Some? && p.value.InContext? ==> ByRank(t, KEYS, p.value.rank) == Some(id))
      && (p.Some? && p.value.InGlobal? ==> ByRank(row.glob, KEYS, p.value.rank) == Some(id))
  {
    RankNone(Seen(row, prev), KEYS, id);
    RankNone(row.glob, KEYS, id);
    if id in Seen(row, prev) {
      RankRoundTrip(Seen(row, prev), KEYS, id);
    }
    if id in row.glob {
      RankRoundTrip(row.glob, KEYS, id);
    }
  }

  // ---- ranks and their cost

  /** The ids a table ranks before another. */
  function Ahead(t: Table, n: nat, x: int): (s: set<int>)
    ensures forall y :: y in s <==> 0 <= y < n && y in t && (t[y] > Weight(t, x) || (t[y] == Weight(t, x) && y < x))
  {
    set y | 0 <= y < n && y in t && (t[y] > Weight(t, x) || (t[y] == Weight(t, x) && y < x))
  }

  /** A rank is the number of ids that are more frequent, or as frequent and lower. */
  lemma {:induction false} RankCounts(t: Table, n: nat, x: int)
    requires x in t && 0 <= x < n
    ensures RankOf(t, n, x) == Some(|Ahead(t, n, x)|)
  {
    var order := Ranked(t, n);
    RankedSorted(t, n);
    PositionHolds(order, x);
    var r := RankOf(t, n, x).value;
    var before := order[..r];
    forall y ensures y in before <==> y in Ahead(t, n, x) {
      if y in before {
        var i :| 0 <= i < r && order[i] == y;
        assert Before(t, order[i], order[r]) && y in order;
      }
      if y in Ahead(t, n, x) {
        assert y in order && Before(t, y, x);
        var i :| 0 <= i < |order| && order[i] == y;
        if r < i {
          assert Before(t, order[r], order[i]);
        }
      }
    }
    DistinctBefore(t, order, r);
    SizeOf(before);
    assert (set y | y in before) == Ahead(t, n, x);
  }

  lemma DistinctBefore(t: Table, order: seq<int>, r: nat)
    requires Sorted(t, order) && r <= |order|
    ensures forall i, j :: 0 <= i < j < r ==> order[..r][i] != order[..r][j]
  {
    forall i, j | 0 <= i < j < r ensures order[i] != order[j] {
      assert Before(t, order[i], order[j]);
    }
  }

  lemma {:induction false} SizeOf(s: seq<int>)
    requires forall i, j :: 0 <= i < j < |s| ==> s[i] != s[j]
    ensures |set y | y in s| == |s|
    decreases |s|
  {
    if s != [] {
      var init, last := s[..|s| - 1], s[|s| - 1];
      SizeOf(init);
      assert s == init + [last];
      assert last !in init;
      assert (set y | y in s) == (set y | y in init) + {last};
    }
  }

  lemma {:induction false} LogBounds(n: nat)
    requires 1 <= n
    ensures Pow2(Log2(n)) <= n < 2 * Pow2(Log2(n))
    decreases n
  {
    if n == 1 {
      assert Pow2(0) == 1;
    } else {
      LogBounds(n / 2);
      assert Pow2(1 + Log2(n / 2)) == 2 * Pow2(Log2(n / 2));
    }
  }

  lemma {:induction false} LogUnique(n: nat, b: nat)
    requires 1 <= n && Pow2(b) <= n < 2 * Pow2(b)
    ensures Log2(n) == b
    decreases n
  {
    if b == 0 {
      assert Pow2(0) == 1;
    } else {
      assert Pow2(b) == 2 * Pow2(b - 1);
      LogUnique(n / 2, b - 1);
    }
  }

  /** What each symbol costs, for a rank whose successor has `b` bits after its
      first: in the dictionary 2b+2 for a known column and one more than its raw
      bits for a new one; in a row 2b+2 in context, 2b+3 by the row's table, 12 for a
      new id. */
  lemma {:induction false} Costs(rank: nat, b: nat, rawBits: nat, col: Column, id: int)
    requires Pow2(b) <= rank + 1 < 2 * Pow2(b)
    ensures SymbolBits(Known(rank), rawBits) == 2 * b + 2 && SymbolBits(Novel(col), rawBits) == rawBits + 1
    ensures Cost(InContext(rank)) == 2 * b + 2 && Cost(InGlobal(rank)) == 2 * b + 3 && Cost(Raw(id)) == 12
  {
    LogUnique(rank + 1, b);
  }

  /** The cost of a stream is that of its symbols, its payloads or its frames. */
  lemma {:induction false} CostsAdd(a: seq<Symbol>, s: Symbol, rawBits: nat, frame: seq<Payload>, p: Payload,
                                    frames: seq<seq<Payload>>)
    ensures Bits([], rawBits) == 0 && Bits(a + [s], rawBits) == Bits(a, rawBits) + SymbolBits(s, rawBits)
    ensures FrameBits([]) == 0 && FrameBits(frame + [p]) == FrameBits(frame) + Cost(p)
    ensures FramesBits([]) == 0 && FramesBits(frames + [frame]) == FramesBits(frames) + FrameBits(frame)
  {
    assert (a + [s])[..|a|] == a && (frame + [p])[..|frame|] == frame && (frames + [frame])[..|frames|] == frames;
  }

  /** A table of ids only can always be sorted; and learning an id makes a table
      that could be sorted unsortable exactly when it raises a missing id to the
      count of some other id, or an id to the count of a missing one. */
  lemma {:induction false} TiesWhen(t: Table, id: int)
    ensures 1024 !in t ==> !Tied(t)
    ensures !Tied(t) ==>
              (Tied(Tally(t, id)) <==>
                var n := (if id in t then t[id] else 0) + 1;
                if id == 1024 then exists x :: x in t && x != 1024 && t[x] == n
                else 1024 in t && t[1024] == n)
  {
    var after := Tally(t, id);
    assert 1024 in t ==> 1024 in after;
    forall x | x in after && x != 1024 ensures x == id || (x in t && t[x] == after[x]) {
    }
    if id == 1024 {
      forall x | x in t && x != 1024 && t[x] == after[1024] ensures Tied(after) {
        assert x in after;
      }
    } else if 1024 in t && t[1024] == after[id] {
      assert id in after;
    }
  }
}
