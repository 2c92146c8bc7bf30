/** What one column teaches a shared state, count by count: which tables gain,
    by how much, and that nothing else changes. */
module Learning {
  import opened Wrappers
  import opened Sequences
  import opened RangeCoder
  import opened FreqTables
  import opened RowModels
  import opened Codec

  // ---- one count in one table

  /** A count before halving: 32 more for the symbol, and one more for the escape
      when the symbol is new. */
  ghost function Raised(t: Table, sym: int, x: int): int {
    (if x in t.freq then t.freq[x] else 0)
    + (if x == sym then 32 else 0)
    + (if x == -1 && sym !in t.freq then 1 else 0)
  }

  ghost function RaisedTotal(t: Table, sym: int): int {
    t.total + 32 + if sym in t.freq then 0 else 1
  }

  function HalfUp(n: int): int {
    if n <= 3 then 1 else n / 2
  }

  /** `after` is `before` with one more `sym`. */
  ghost predicate OneMore(before: Table, sym: int, after: Table) {
    && (forall x :: x in after.freq <==> x == sym || x in before.freq)
    && if RaisedTotal(before, sym) < 65536 then
         && (forall x :: x in after.freq ==> after.freq[x] == Raised(before, sym, x))
         && after.total == RaisedTotal(before, sym)
       else forall x :: x in after.freq ==> after.freq[x] == HalfUp(Raised(before, sym, x))
  }

  /** An add raises the symbol by 32 and the escape by one exactly when the
      symbol is new, and halves every count, with floor 1, exactly when the total
      would reach 2^16; the total stays the sum. */
  lemma {:induction false} AddsOne(t: Table, sym: int)
    requires Good(t) && 0 <= sym < IDS
    ensures OneMore(t, sym, Added(t, sym)) && Added(t, sym).total == Cum(Added(t, sym).freq, IDS) < 65536
  {
    AddedGood(t, sym);
    var freq, grown := Bumped(t.freq, sym), Added(t, sym);
    forall x ensures x in freq <==> x == sym || x in t.freq {
    }
    forall x | x in freq ensures freq[x] == Raised(t, sym, x) && 1 <= freq[x] {
    }
  }

  // ---- one column

  /** The table that stands under a key, or the fresh one: an escape counted once. */
  ghost function TableAt<K>(m: map<K, Table>, k: K): Table {
    if k in m then m[k] else Table(map[-1 := 1], 1)
  }

  /** Every table but one is as it was. */
  ghost predicate SameBut<K(!new)>(before: map<K, Table>, after: map<K, Table>, k: K) {
    forall x :: x != k ==> (x in after <==> x in before) && (x in before && x in after ==> after[x] == before[x])
  }

  /** Whether the two previous columns have a table of their own: all have until
      16384 are open. */
  predicate Opens(st: State, c: Cursor) {
    (c.p2, c.p1) in st.ctx2 || |st.ctx2| < 16384
  }

  /** The tables of a column that gets an id. */
  ghost predicate TaughtId(st: State, c: Cursor, id: int, after: State) {
    var key := (c.p2, c.p1);
    && c.p1 in after.ctx && OneMore(TableAt(st.ctx, c.p1), id, after.ctx[c.p1])
    && SameBut(st.ctx, after.ctx, c.p1)
    && OneMore(st.dict.table, id, after.dict.table)
    && SameBut(st.ctx2, after.ctx2, key)
    && (if Opens(st, c) then key in after.ctx2 && OneMore(TableAt(st.ctx2, key), id, after.ctx2[key])
        else key !in after.ctx2)
  }

  /** The tables of a column that gets none: they are opened and learn nothing. */
  ghost predicate TaughtNothing(st: State, c: Cursor, after: State) {
    var key := (c.p2, c.p1);
    && c.p1 in after.ctx && after.ctx[c.p1] == TableAt(st.ctx, c.p1) && SameBut(st.ctx, after.ctx, c.p1)
    && after.dict == st.dict
    && SameBut(st.ctx2, after.ctx2, key)
    && (if Opens(st, c) then key in after.ctx2 && after.ctx2[key] == TableAt(st.ctx2, key) else key !in after.ctx2)
  }

  /** A row that saw `sym` after `prev`: the table of `prev` and the row's own
      table, once each. */
  ghost predicate RowTaught(m: Rows, prev: int, sym: int, after: Rows) {
    && prev in after.ctx && OneMore(TableAt(m.ctx, prev), sym, after.ctx[prev])
    && SameBut(m.ctx, after.ctx, prev)
    && OneMore(m.glob, sym, after.glob)
  }

  /** The dictionary keeps a known column, numbers a new one while it has room,
      and is closed at 4096. */
  ghost predicate Numbered(d: Dict, col: Column, id: int, after: Dict) {
    if col in d.byCol then id == d.byCol[col] && after.cols == d.cols && after.byCol == d.byCol
    else if |d.cols| < 4096 then
      id == |d.cols| && after.cols == d.cols + [col] && after.byCol == d.byCol[col := |d.cols|]
    else id == -2 && after == d
  }

  lemma Fresh()
    ensures Table(map[-1 := 1], 1) == FRESH_TABLE && IdTable(FRESH_TABLE, 0) && SymbolTable(FRESH_TABLE)
  {
    FreshGood();
  }

  /** One column, table by table. */
  lemma {:induction false} StepTeaches(st: State, c: Cursor, col: Column)
    requires GoodState(st) && GoodCursor(c, st.nRows) && IsColumn(st.nRows, col)
    ensures var (after, next) := Step(st, c, col);
      && next == Cursor(Some(col), next.p1, c.p1)
      && Numbered(st.dict, col, next.p1, after.dict)
      && (col in st.dict.byCol || |st.dict.cols| < 4096 ==> TaughtId(st, c, next.p1, after))
      && (col !in st.dict.byCol && 4096 <= |st.dict.cols| ==> TaughtNothing(st, c, after))
      && (col in st.dict.byCol ==> after.models == st.models)
      && (col !in st.dict.byCol ==> |after.models| == st.nRows && forall i :: 0 <= i < st.nRows ==>
            RowTaught(st.models[i], if c.prev.Some? then c.prev.value[i] else -1, col[i], after.models[i]))
  {
    hide OneMore, GoodState, SameBut, RowTaught, RowsLearned, TaughtId, TaughtNothing, Learned, Numbered;
    var st1 := Prepared(st, c);
    PreparedGood(st, c);
    PreparedTables(st, c);
    KnownHits(st1, c, col);
    KnownId(st, col);
    if col !in st.dict.byCol {
      RowsTaught(st, c.prev, col);
      RowsLearnedGood(st1, c.prev, col);
      LearnsFrom(st, st1.(models := RowsLearned(st1.models, c.prev, col)), c, col);
    } else {
      LearnsFrom(st, st1, c, col);
    }
  }

  lemma KnownId(st: State, col: Column)
    requires GoodState(st)
    ensures col in st.dict.byCol ==> 0 <= st.dict.byCol[col] < |st.dict.cols|
    ensures |st.dict.cols| <= 4096
  {
  }

  /** What the update after a frame does to the opened tables. */
  lemma LearnsFrom(st: State, st1: State, c: Cursor, col: Column)
    requires GoodState(st) && GoodState(st1) && c.p1 in st1.ctx
    requires st1 == Prepared(st, c).(models := st1.models) && st1.dict == st.dict
    ensures var (after, id) := Learned(st1, c, Cid(st1, col), col);
      && after.models == st1.models
      && Numbered(st.dict, col, id, after.dict)
      && (col in st.dict.byCol || |st.dict.cols| < 4096 ==> TaughtId(st, c, id, after))
      && (col !in st.dict.byCol && 4096 <= |st.dict.cols| ==> TaughtNothing(st, c, after))
  {
    hide OneMore, GoodState, Added, SameBut, Prepared, Bump;
    PreparedGood(st, c);
    PreparedTables(st, c);
    KnownId(st, col);
    EscapeKnown(st1, c);
    if col in st.dict.byCol || |st.dict.cols| < 4096 {
      var id := if col in st.dict.byCol then st.dict.byCol[col] else |st.dict.cols|;
      GoodTables(st1, c);
      AddsOne(st1.ctx[c.p1], id);
      AddsOne(st.dict.table, id);
      if Key(c) in st1.ctx2 {
        AddsOne(st1.ctx2[Key(c)], id);
      }
      BumpedTables(st, st1, c, id);
    }
  }

  lemma GoodTables(st: State, c: Cursor)
    requires GoodState(st) && c.p1 in st.ctx
    ensures Good(st.ctx[c.p1]) && Good(st.dict.table) && (Key(c) in st.ctx2 ==> Good(st.ctx2[Key(c)]))
  {
  }

  /** Opening the tables of a column. */
  lemma PreparedTables(st: State, c: Cursor)
    requires GoodState(st)
    ensures var p := Prepared(st, c);
      && c.p1 in p.ctx && p.ctx[c.p1] == TableAt(st.ctx, c.p1) && SameBut(st.ctx, p.ctx, c.p1)
      && SameBut(st.ctx2, p.ctx2, Key(c)) && (Key(c) in p.ctx2 <==> Opens(st, c))
      && (Opens(st, c) ==> p.ctx2[Key(c)] == TableAt(st.ctx2, Key(c)))
      && p.dict == st.dict && p.models == st.models && p.nRows == st.nRows
  {
    hide GoodDict, GoodRows, IdTable;
  }

  lemma BumpedTables(st: State, st1: State, c: Cursor, id: int)
    requires GoodState(st) && st1 == Prepared(st, c).(models := st1.models) && c.p1 in st1.ctx
    requires ESCAPE in st1.ctx[c.p1].freq && (Key(c) in st1.ctx2 ==> ESCAPE in st1.ctx2[Key(c)].freq)
    ensures var b := Bump(st1, c, id);
      && c.p1 in b.ctx && b.ctx[c.p1] == Added(st1.ctx[c.p1], id) && SameBut(st.ctx, b.ctx, c.p1)
      && SameBut(st.ctx2, b.ctx2, Key(c)) && (Key(c) in b.ctx2 <==> Opens(st, c))
      && (Opens(st, c) ==> b.ctx2[Key(c)] == Added(st1.ctx2[Key(c)], id))
      && b.dict == st.dict && b.models == st1.models && b.nRows == st.nRows
  {
    hide Added, GoodState, Prepared;
    PreparedTables(st, c);
  }

  lemma RowsTaught(st: State, prev: Option<Column>, col: Column)
    requires GoodState(st) && IsColumn(st.nRows, col) && (prev.Some? ==> IsColumn(st.nRows, prev.value))
    ensures var after := RowsLearned(st.models, prev, col);
      |after| == st.nRows && forall i :: 0 <= i < st.nRows ==>
        RowTaught(st.models[i], if prev.Some? then prev.value[i] else -1, col[i], after[i])
  {
    hide RowTaught, GoodRows, GoodDict, IdTable, Updated;
    forall i | 0 <= i < st.nRows
      ensures RowTaught(st.models[i], if prev.Some? then prev.value[i] else -1, col[i], RowsLearned(st.models, prev, col)[i])
    {
      OneRowTaught(st.models[i], Context(prev, i), col[i]);
    }
  }

  lemma OneRowTaught(m: Rows, prev: int, sym: int)
    requires GoodRows(m) && 0 <= sym < RAW_SYMBOLS
    ensures RowTaught(m, prev, sym, Updated(m, prev, sym))
  {
    hide OneMore, Added, Good;
    Fresh();
    AddsOne(TableFor(m.ctx, prev), sym);
    AddsOne(m.glob, sym);
  }

  /** The same column three times, from the start: each time its id is learned
      again, and the second time on in the table of the column itself. */
  lemma {:induction false} ThreeAlike(nRows: nat, col: Column)
    requires IsColumn(nRows, col)
    ensures GoodState(FreshState(nRows)) && AreColumns(nRows, [col, col, col])
    ensures var st := Taught(FreshState(nRows), [col, col, col]);
      && st.dict.cols == [col]
      && st.dict.table.freq == map[-1 := 2, 0 := 96] && st.dict.table.total == 98
      && -1 in st.ctx && st.ctx[-1].freq == map[-1 := 2, 0 := 32]
      && 0 in st.ctx && st.ctx[0].freq == map[-1 := 2, 0 := 64]
  {
    hide GoodState, Step, OneMore;
    FreshStateGood(nRows);
    var st0 := FreshState(nRows);
    var (st1, c1) := Step(st0, START, col);
    var (st2, c2) := Step(st1, c1, col);
    var (st3, c3) := Step(st2, c2, col);
    StepTeaches(st0, START, col);
    StepTeaches(st1, c1, col);
    StepTeaches(st2, c2, col);
    ThreeSteps(st0, col);
    var start := Table(map[-1 := 1], 1);
    OnceMore(start, st1.dict.table);
    OnceMore(start, st1.ctx[-1]);
    AgainMore(st1.dict.table, 32, st2.dict.table);
    AgainMore(st2.dict.table, 64, st3.dict.table);
    OnceMore(start, st2.ctx[0]);
    AgainMore(st2.ctx[0], 32, st3.ctx[0]);
  }

  lemma ThreeSteps(st: State, col: Column)
    requires GoodState(st) && IsColumn(st.nRows, col)
    ensures var (st1, c1) := Step(st, START, col);
      var (st2, c2) := Step(st1, c1, col);
      AreColumns(st.nRows, [col, col, col]) && Taught(st, [col, col, col]) == Step(st2, c2, col).0
  {
    hide GoodState, Step;
    var (st1, c1) := Step(st, START, col);
    var (st2, c2) := Step(st1, c1, col);
    var (st3, c3) := Step(st2, c2, col);
    assert [col, col, col][1..] == [col, col] && [col, col][1..] == [col] && [col][1..] == [];
    assert Walked(st3, c3, []) == st3;
    assert Walked(st2, c2, [col]) == st3;
    assert Walked(st1, c1, [col, col]) == st3;
  }

  lemma OnceMore(t: Table, after: Table)
    requires t.freq == map[-1 := 1] && t.total == 1 && OneMore(t, 0, after)
    ensures after.freq == map[-1 := 2, 0 := 32] && after.total == 34
  {
    assert RaisedTotal(t, 0) == 34;
    var m: map<int, int> := map[-1 := 2, 0 := 32];
    forall x ensures x in after.freq <==> x in m {
    }
    assert after.freq.Keys == m.Keys && after.freq == m;
  }

  lemma AgainMore(t: Table, n: int, after: Table)
    requires t.freq == map[-1 := 2, 0 := n] && t.total == n + 2 && 0 <= n <= 64 && OneMore(t, 0, after)
    ensures after.freq == map[-1 := 2, 0 := n + 32] && after.total == n + 34
  {
    assert RaisedTotal(t, 0) == n + 34;
    var m: map<int, int> := map[-1 := 2, 0 := n + 32];
    forall x ensures x in after.freq <==> x in m {
    }
    assert after.freq.Keys == m.Keys && after.freq == m;
  }

  // ---- one column's code

  /** The tables a column is looked up in, in order. */
  ghost function Chain(st: State, c: Cursor): seq<Table>
    requires c.p1 in st.ctx
  {
    (if (c.p2, c.p1) in st.ctx2 then [st.ctx2[(c.p2, c.p1)]] else []) + [st.ctx[c.p1], st.dict.table]
  }

  /** The counts below a symbol, added up: where its slice begins. */
  ghost function Below(t: Table, sym: int): int
    decreases sym
  {
    if sym <= -1 then 0 else Below(t, sym - 1) + if sym - 1 in t.freq then t.freq[sym - 1] else 0
  }

  /** An escape from every table that does not have the id, up to the first that
      has it. */
  ghost function Escapes(tables: seq<Table>, cid: Option<int>): seq<Interval> {
    if tables == [] then []
    else
      var t := tables[0];
      if cid.Some? && cid.value in t.freq then [Interval(Below(t, cid.value), t.freq[cid.value], t.total)]
      else [Interval(0, if -1 in t.freq then t.freq[-1] else 0, t.total)] + Escapes(tables[1..], cid)
  }

  lemma {:induction false} BelowCum(t: Table, sym: int)
    ensures Below(t, sym) == Cum(t.freq, sym)
    decreases sym
  {
    if -1 < sym {
      BelowCum(t, sym - 1);
    }
  }

  lemma SliceIs(t: Table, sym: int)
    requires sym in t.freq
    ensures IntervalOf(t, sym) == Interval(Below(t, sym), t.freq[sym], t.total)
    ensures sym == -1 ==> Below(t, sym) == 0
  {
    BelowCum(t, sym);
  }

  /** One symbol of a row: the escape chain through the table of the symbol before
      it and the row's own table, and then the symbol itself out of 1024. */
  ghost function SymbolChain(m: Rows, prev: int, sym: int): seq<Interval> {
    Escapes([TableAt(m.ctx, prev), m.glob], Some(sym))
    + if sym in TableAt(m.ctx, prev).freq || sym in m.glob.freq then [] else [Interval(sym, 1, 1024)]
  }

  /** The first `k` rows, each after the symbol of the previous column in it. */
  ghost function RowChains(models: seq<Rows>, prev: Option<Column>, col: Column, k: nat): seq<Interval>
    requires k <= |models| == |col| && (prev.Some? ==> |prev.value| == |col|)
  {
    if k == 0 then []
    else
      RowChains(models, prev, col, k - 1)
      + SymbolChain(models[k - 1], if prev.Some? then prev.value[k - 1] else -1, col[k - 1])
  }

  lemma SymbolIsChain(m: Rows, prev: int, sym: int)
    requires GoodRows(m) && 0 <= sym < RAW_SYMBOLS
    ensures SymbolIntervals(m, prev, sym) == SymbolChain(m, prev, sym)
  {
    hide Below, Escapes;
    Fresh();
    var t, g := TableFor(m.ctx, prev), m.glob;
    var raw: seq<Interval> := [Interval(sym, 1, 1024)];
    var rows := if sym in t.freq || sym in g.freq then [] else raw;
    assert [t] + [g] == [t, g];
    if sym in t.freq {
      ChainStep(Some(sym), t, [g], Escapes([g], Some(sym)) + rows, rows);
    } else {
      ChainEnd(Some(sym), g, raw);
      ChainStep(Some(sym), t, [g], Escapes([g], Some(sym)) + rows, rows);
    }
  }

  lemma {:induction false} RowsAreChains(models: seq<Rows>, prev: Option<Column>, col: Column, k: nat)
    requires k <= |models| == |col| && (prev.Some? ==> |prev.value| == |col|)
    requires forall i :: 0 <= i < |models| ==> GoodRows(models[i]) && 0 <= col[i] < RAW_SYMBOLS
    ensures RowIntervals(models, prev, col, 0) == RowChains(models, prev, col, k) + RowIntervals(models, prev, col, k)
    decreases k
  {
    hide SymbolIntervals, SymbolChain, GoodRows;
    if k == 0 {
      NoMore(RowIntervals(models, prev, col, 0));
    } else {
      RowsAreChains(models, prev, col, k - 1);
      SymbolIsChain(models[k - 1], Context(prev, k - 1), col[k - 1]);
      Assoc(RowChains(models, prev, col, k - 1), SymbolIntervals(models[k - 1], Context(prev, k - 1), col[k - 1]),
            RowIntervals(models, prev, col, k));
    }
  }

  /** A column is coded by the escape chain through its tables, and its rows
      follow, each by its own chain, exactly when no table knows it. */
  lemma {:induction false} FrameIsChain(st: State, c: Cursor, col: Column)
    requires GoodState(st) && GoodCursor(c, st.nRows) && IsColumn(st.nRows, col) && c.p1 in st.ctx
    ensures FrameIntervals(st, c, col) == Escapes(Chain(st, c), Cid(st, col)) +
      if col in st.dict.byCol then [] else RowChains(st.models, c.prev, col, st.nRows)
  {
    hide RowIntervals, RowChains, GoodState;
    FrameChained(st, c, col);
    RowsGood(st);
    RowsAreChains(st.models, c.prev, col, st.nRows);
    RowsOver(st.models, c.prev, col);
    NoMore(RowChains(st.models, c.prev, col, st.nRows));
  }

  lemma RowsGood(st: State)
    requires GoodState(st)
    ensures |st.models| == st.nRows && forall i :: 0 <= i < st.nRows ==> GoodRows(st.models[i])
  {
  }

  lemma RowsOver(models: seq<Rows>, prev: Option<Column>, col: Column)
    requires |models| == |col| && (prev.Some? ==> |prev.value| == |col|)
    requires forall i :: 0 <= i < |models| ==> GoodRows(models[i])
    ensures RowIntervals(models, prev, col, |models|) == []
  {
  }

  lemma FrameChained(st: State, c: Cursor, col: Column)
    requires GoodState(st) && GoodCursor(c, st.nRows) && IsColumn(st.nRows, col) && c.p1 in st.ctx
    ensures FrameIntervals(st, c, col) ==
      Escapes(Chain(st, c), Cid(st, col)) + if col in st.dict.byCol then [] else RowIntervals(st.models, c.prev, col, 0)
  {
    hide RowIntervals, Below, Escapes, GoodState;
    var cid, g, t1 := Cid(st, col), st.dict.table, st.ctx[c.p1];
    RowsGood(st);
    var all := RowIntervals(st.models, c.prev, col, 0);
    var rows := if cid.Some? then [] else all;
    EscapeKnown(st, c);
    KnownInDict(st, col);
    ChainEnd(cid, g, all);
    assert GlobalIntervals(st, c, cid, col) == Escapes([g], cid) + rows;
    ChainStep(cid, t1, [g], GlobalIntervals(st, c, cid, col), rows);
    assert [t1] + [g] == [t1, g];
    assert Order1Intervals(st, c, cid, col) == Escapes([t1, g], cid) + rows;
    if Key(c) in st.ctx2 {
      ChainStep(cid, st.ctx2[Key(c)], [t1, g], Order1Intervals(st, c, cid, col), rows);
      assert [st.ctx2[Key(c)]] + [t1, g] == Chain(st, c);
    } else {
      NoMore([t1, g]);
      assert Chain(st, c) == [] + [t1, g];
      assert FrameIntervals(st, c, col) == Order1Intervals(st, c, cid, col);
    }
  }

  lemma KnownInDict(st: State, col: Column)
    requires GoodState(st)
    ensures col in st.dict.byCol ==> st.dict.byCol[col] in st.dict.table.freq
  {
  }

  predicate Knows(t: Table, cid: Option<int>) {
    cid.Some? && cid.value in t.freq
  }

  lemma ChainEnd(cid: Option<int>, g: Table, rows: seq<Interval>)
    requires ESCAPE in g.freq
    ensures Escapes([g], cid) + (if Knows(g, cid) then [] else rows) ==
      if Knows(g, cid) then [IntervalOf(g, cid.value)] else [IntervalOf(g, ESCAPE)] + rows
  {
    SliceIs(g, if Knows(g, cid) then cid.value else ESCAPE);
    assert [g][1..] == [];
    assert Escapes([], cid) == [];
  }

  lemma ChainStep(cid: Option<int>, t: Table, rest: seq<Table>, more: seq<Interval>, rows: seq<Interval>)
    requires ESCAPE in t.freq && more == Escapes(rest, cid) + rows && (Knows(t, cid) ==> rows == [])
    ensures Escapes([t] + rest, cid) + rows ==
      if Knows(t, cid) then [IntervalOf(t, cid.value)] else [IntervalOf(t, ESCAPE)] + more
  {
    assert ([t] + rest)[1..] == rest;
    SliceIs(t, ESCAPE);
    if Knows(t, cid) {
      SliceIs(t, cid.value);
    }
  }
}
