/** The four-level adaptive column codec (version 4): what one shared state
    means, what encoding a list of columns sends, and what decoding any byte
    string yields. */
module Codec {
  import opened Wrappers
  import opened RangeCoder
  import opened FreqTables
  import opened RowModels

  const MAX_DICT_ENTRIES := 4096
  const MAX_CTX2_TABLES := 16384
  const UNKNOWN_ID := -2

  /** One symbol per codebook row. */
  type Column = seq<int>

  datatype Dict = Dict(byCol: map<Column, int>, cols: seq<Column>, table: Table)

  datatype State = State(
    nRows: nat,
    models: seq<Rows>,
    dict: Dict,
    ctx: map<int, Table>,
    ctx2: map<(int, int), Table>)

  function FreshState(nRows: nat): State {
    State(nRows, seq(nRows, _ => FRESH_ROWS), Dict(map[], [], FRESH_TABLE), map[], map[])
  }

  predicate IsColumn(nRows: nat, col: Column) {
    |col| == nRows && forall i :: 0 <= i < nRows ==> 0 <= col[i] < RAW_SYMBOLS
  }

  predicate AreColumns(nRows: nat, cols: seq<Column>) {
    forall i :: 0 <= i < |cols| ==> IsColumn(nRows, cols[i])
  }

  /** A table of column ids that all name dictionary entries. */
  predicate IdTable(t: Table, entries: nat) {
    Good(t) && forall s <- t.freq :: s < entries
  }

  predicate GoodDict(d: Dict, nRows: nat) {
    && |d.cols| <= MAX_DICT_ENTRIES
    && AreColumns(nRows, d.cols)
    && (forall i :: 0 <= i < |d.cols| ==> d.cols[i] in d.byCol && d.byCol[d.cols[i]] == i)
    && (forall c <- d.byCol :: 0 <= d.byCol[c] < |d.cols| && d.cols[d.byCol[c]] == c)
    && IdTable(d.table, |d.cols|)
    && (forall id :: 0 <= id < |d.cols| ==> id in d.table.freq)
  }

  /** The invariant both ends keep whatever bytes arrive. */
  predicate GoodState(st: State) {
    && |st.models| == st.nRows
    && (forall i :: 0 <= i < st.nRows ==> GoodRows(st.models[i]))
    && GoodDict(st.dict, st.nRows)
    && (forall k <- st.ctx :: IdTable(st.ctx[k], |st.dict.cols|))
    && (forall k <- st.ctx2 :: IdTable(st.ctx2[k], |st.dict.cols|))
    && |st.ctx2| <= MAX_CTX2_TABLES
  }

  lemma FreshStateGood(nRows: nat)
    ensures GoodState(FreshState(nRows))
  {
    FreshGood();
  }

  /** Where the walk over a block stands: the previous column and the context
      ids of the previous two. */
  datatype Cursor = Cursor(prev: Option<Column>, p1: int, p2: int)

  const START := Cursor(None, -1, -1)

  predicate GoodCursor(c: Cursor, nRows: nat) {
    c.prev.Some? ==> IsColumn(nRows, c.prev.value)
  }

  function Key(c: Cursor): (int, int) {
    (c.p2, c.p1)
  }

  // ---- opening the context tables of a frame

  function WithCtx2(st: State, key: (int, int)): State {
    if key in st.ctx2 || MAX_CTX2_TABLES <= |st.ctx2| then st
    else st.(ctx2 := st.ctx2[key := FRESH_TABLE])
  }

  function WithCtx(st: State, id: int): State {
    if id in st.ctx then st else st.(ctx := st.ctx[id := FRESH_TABLE])
  }

  function Prepared(st: State, c: Cursor): State {
    WithCtx(WithCtx2(st, Key(c)), c.p1)
  }

  lemma WithCtx2Good(st: State, key: (int, int))
    requires GoodState(st)
    ensures GoodState(WithCtx2(st, key))
  {
    FreshGood();
  }

  lemma WithCtxGood(st: State, id: int)
    requires GoodState(st)
    ensures GoodState(WithCtx(st, id))
  {
    FreshGood();
  }

  lemma PreparedGood(st: State, c: Cursor)
    requires GoodState(st)
    ensures GoodState(Prepared(st, c)) && c.p1 in Prepared(st, c).ctx
    ensures Prepared(st, c).dict == st.dict && Prepared(st, c).models == st.models
    ensures Prepared(st, c).nRows == st.nRows
  {
    WithCtx2Good(st, Key(c));
    WithCtxGood(WithCtx2(st, Key(c)), c.p1);
  }

  // ---- learning one frame

  function Cid(st: State, col: Column): Option<int> {
    if col in st.dict.byCol then Some(st.dict.byCol[col]) else None
  }

  function DictAdded(d: Dict, col: Column): Dict
    requires ESCAPE in d.table.freq
  {
    if col in d.byCol then d.(table := Added(d.table, d.byCol[col]))
    else Dict(d.byCol[col := |d.cols|], d.cols + [col], Added(d.table, |d.cols|))
  }

  function Bump(st: State, c: Cursor, id: int): State
    requires c.p1 in st.ctx && ESCAPE in st.ctx[c.p1].freq
    requires Key(c) in st.ctx2 ==> ESCAPE in st.ctx2[Key(c)].freq
  {
    var st2 := if Key(c) in st.ctx2 then st.(ctx2 := st.ctx2[Key(c) := Added(st.ctx2[Key(c)], id)]) else st;
    st2.(ctx := st2.ctx[c.p1 := Added(st2.ctx[c.p1], id)])
  }

  /** The post-frame update of both ends and the column's context id. */
  function Learned(st: State, c: Cursor, cid: Option<int>, col: Column): (State, int)
    requires GoodState(st) && c.p1 in st.ctx
  {
    if cid.Some? then
      var st' := Bump(st, c, cid.value);
      (st'.(dict := DictAdded(st'.dict, col)), cid.value)
    else if MAX_DICT_ENTRIES <= |st.dict.cols| then (st, UNKNOWN_ID)
    else
      var id := |st.dict.cols|;
      var st' := Bump(st, c, id);
      (st'.(dict := DictAdded(st'.dict, col)), id)
  }

  lemma DictAddedGood(d: Dict, nRows: nat, col: Column)
    requires GoodDict(d, nRows) && IsColumn(nRows, col)
    requires col in d.byCol || |d.cols| < MAX_DICT_ENTRIES
    ensures GoodDict(DictAdded(d, col), nRows)
    ensures |DictAdded(d, col).cols| == |d.cols| + if col in d.byCol then 0 else 1
    ensures col in DictAdded(d, col).byCol
  {
    var id := if col in d.byCol then d.byCol[col] else |d.cols|;
    AddedGood(d.table, id);
  }

  lemma TableGrows(t: Table, before: nat, id: int, entries: nat)
    requires IdTable(t, before) && before <= entries <= MAX_DICT_ENTRIES && 0 <= id < entries
    ensures IdTable(Added(t, id), entries)
  {
    AddedGood(t, id);
  }

  lemma StaysIdTable(t: Table, before: nat, entries: nat)
    requires IdTable(t, before) && before <= entries
    ensures IdTable(t, entries)
  {
  }

  /** Every table of a good state has room for an escape. */
  lemma EscapeKnown(st: State, c: Cursor)
    requires GoodState(st)
    ensures forall k <- st.ctx :: ESCAPE in st.ctx[k].freq
    ensures forall k <- st.ctx2 :: ESCAPE in st.ctx2[k].freq
    ensures ESCAPE in st.dict.table.freq
  {
  }

  lemma BumpGood(st: State, c: Cursor, id: int, entries: nat)
    requires GoodState(st) && c.p1 in st.ctx
    requires 0 <= id < entries <= MAX_DICT_ENTRIES && |st.dict.cols| <= entries
    ensures forall k <- Bump(st, c, id).ctx :: IdTable(Bump(st, c, id).ctx[k], entries)
    ensures forall k <- Bump(st, c, id).ctx2 :: IdTable(Bump(st, c, id).ctx2[k], entries)
    ensures Bump(st, c, id).ctx2.Keys == st.ctx2.Keys && |Bump(st, c, id).ctx2| == |st.ctx2|
    ensures Bump(st, c, id).(ctx := st.ctx, ctx2 := st.ctx2) == st
  {
    hide GoodDict, Good, IdTable, GoodRows, Added;
    EscapeKnown(st, c);
    var n := |st.dict.cols|;
    TableGrows(st.ctx[c.p1], n, id, entries);
    forall k | k in st.ctx ensures IdTable(st.ctx[k], entries) {
      StaysIdTable(st.ctx[k], n, entries);
    }
    forall k | k in st.ctx2 ensures IdTable(st.ctx2[k], entries) {
      StaysIdTable(st.ctx2[k], n, entries);
    }
    if Key(c) in st.ctx2 {
      TableGrows(st.ctx2[Key(c)], n, id, entries);
      assert Bump(st, c, id).ctx2.Keys == st.ctx2.Keys;
    }
  }

  lemma {:induction false} LearnedGood(st: State, c: Cursor, cid: Option<int>, col: Column)
    requires GoodState(st) && c.p1 in st.ctx && IsColumn(st.nRows, col)
    requires cid == Cid(st, col)
    ensures GoodState(Learned(st, c, cid, col).0)
    ensures Learned(st, c, cid, col).0.nRows == st.nRows
  {
    if cid.Some? || |st.dict.cols| < MAX_DICT_ENTRIES {
      EscapeKnown(st, c);
      DictAddedGood(st.dict, st.nRows, col);
      BumpedGood(st, c, if cid.Some? then cid.value else |st.dict.cols|, col);
    }
  }

  lemma BumpedGood(st: State, c: Cursor, id: int, col: Column)
    requires GoodState(st) && c.p1 in st.ctx && ESCAPE in st.dict.table.freq
    requires GoodDict(DictAdded(st.dict, col), st.nRows) && 0 <= id < |DictAdded(st.dict, col).cols|
    requires |st.dict.cols| <= |DictAdded(st.dict, col).cols|
    ensures GoodState(Bump(st, c, id).(dict := DictAdded(st.dict, col)))
  {
    hide IdTable, DictAdded, Bump, GoodRows;
    EscapeKnown(st, c);
    BumpGood(st, c, id, |DictAdded(st.dict, col).cols|);
  }

  // ---- the row models

  function Context(prev: Option<Column>, row: nat): int
    requires prev.Some? ==> row < |prev.value|
  {
    if prev.Some? then prev.value[row] else -1
  }

  /** The models after every row from `row` on learned its symbol. */
  function RowsLearned(models: seq<Rows>, prev: Option<Column>, col: Column): seq<Rows>
    requires |models| == |col| && (prev.Some? ==> |prev.value| == |col|)
    requires forall i :: 0 <= i < |models| ==> GoodRows(models[i])
  {
    seq(|models|, i requires 0 <= i < |models| => Updated(models[i], Context(prev, i), col[i]))
  }

  lemma RowsLearnedGood(st: State, prev: Option<Column>, col: Column)
    requires GoodState(st) && IsColumn(st.nRows, col) && (prev.Some? ==> IsColumn(st.nRows, prev.value))
    ensures GoodState(st.(models := RowsLearned(st.models, prev, col)))
  {
    forall i | 0 <= i < st.nRows ensures GoodRows(RowsLearned(st.models, prev, col)[i]) {
      UpdatedGood(st.models[i], Context(prev, i), col[i]);
    }
  }

  // ---- one frame

  /** Whether some column-level table can name the column, so the row models
      are not consulted. */
  predicate Hit(st: State, c: Cursor, cid: Option<int>)
    requires c.p1 in st.ctx
  {
    cid.Some? && ((Key(c) in st.ctx2 && cid.value in st.ctx2[Key(c)].freq)
                  || cid.value in st.ctx[c.p1].freq
                  || cid.value in st.dict.table.freq)
  }

  /** Every column of the dictionary can be named. */
  lemma KnownHits(st: State, c: Cursor, col: Column)
    requires GoodState(st) && c.p1 in st.ctx
    ensures Hit(st, c, Cid(st, col)) <==> Cid(st, col).Some?
  {
    hide Good, IdTable, GoodRows;
  }

  /** One step of the walk both ends make over the columns of a block. */
  function Step(st: State, c: Cursor, col: Column): (r: (State, Cursor))
    requires GoodState(st) && GoodCursor(c, st.nRows) && IsColumn(st.nRows, col)
    ensures GoodState(r.0) && r.0.nRows == st.nRows && GoodCursor(r.1, st.nRows)
  {
    PreparedGood(st, c);
    RowsLearnedGood(Prepared(st, c), c.prev, col);
    var st1 := Prepared(st, c);
    var cid := Cid(st1, col);
    var st2 := if Hit(st1, c, cid) then st1 else st1.(models := RowsLearned(st1.models, c.prev, col));
    LearnedGood(st2, c, cid, col);
    var (st3, id) := Learned(st2, c, cid, col);
    (st3, Cursor(Some(col), id, c.p1))
  }

  function Walked(st: State, c: Cursor, cols: seq<Column>): (r: State)
    requires GoodState(st) && GoodCursor(c, st.nRows) && AreColumns(st.nRows, cols)
    ensures GoodState(r) && r.nRows == st.nRows
    decreases |cols|
  {
    if cols == [] then st
    else
      var (st', c') := Step(st, c, cols[0]);
      Walked(st', c', cols[1..])
  }

  /** What a block of columns teaches a state. */
  function Taught(st: State, cols: seq<Column>): (r: State)
    requires GoodState(st) && AreColumns(st.nRows, cols)
    ensures GoodState(r) && r.nRows == st.nRows
  {
    Walked(st, START, cols)
  }

  // ---- what the encoder codes

  function RowIntervals(models: seq<Rows>, prev: Option<Column>, col: Column, row: nat): seq<Interval>
    requires row <= |models| == |col| && (prev.Some? ==> |prev.value| == |col|)
    requires forall i :: 0 <= i < |models| ==> GoodRows(models[i])
    decreases |models| - row
  {
    if row == |models| then []
    else SymbolIntervals(models[row], Context(prev, row), col[row]) + RowIntervals(models, prev, col, row + 1)
  }

  /** Level three and four: the dictionary table, then the rows. */
  function GlobalIntervals(st: State, c: Cursor, cid: Option<int>, col: Column): seq<Interval>
    requires GoodState(st) && GoodCursor(c, st.nRows) && IsColumn(st.nRows, col)
  {
    var g := st.dict.table;
    if cid.Some? && cid.value in g.freq then [IntervalOf(g, cid.value)]
    else [IntervalOf(g, ESCAPE)] + RowIntervals(st.models, c.prev, col, 0)
  }

  /** Level two: the table of the previous column. */
  function Order1Intervals(st: State, c: Cursor, cid: Option<int>, col: Column): seq<Interval>
    requires GoodState(st) && GoodCursor(c, st.nRows) && IsColumn(st.nRows, col) && c.p1 in st.ctx
  {
    var t1 := st.ctx[c.p1];
    if cid.Some? && cid.value in t1.freq then [IntervalOf(t1, cid.value)]
    else [IntervalOf(t1, ESCAPE)] + GlobalIntervals(st, c, cid, col)
  }

  /** Level one: the table of the previous two columns, unless the cap kept
      it from being opened. */
  function FrameIntervals(st: State, c: Cursor, col: Column): seq<Interval>
    requires GoodState(st) && GoodCursor(c, st.nRows) && IsColumn(st.nRows, col) && c.p1 in st.ctx
  {
    var cid := Cid(st, col);
    if Key(c) !in st.ctx2 then Order1Intervals(st, c, cid, col)
    else
      var t2 := st.ctx2[Key(c)];
      if cid.Some? && cid.value in t2.freq then [IntervalOf(t2, cid.value)]
      else [IntervalOf(t2, ESCAPE)] + Order1Intervals(st, c, cid, col)
  }

  /** Every interval `_encode_adaptive` codes for a block. */
  function BlockIntervals(st: State, c: Cursor, cols: seq<Column>): seq<Interval>
    requires GoodState(st) && GoodCursor(c, st.nRows) && AreColumns(st.nRows, cols)
    decreases |cols|
  {
    if cols == [] then []
    else
      PreparedGood(st, c);
      var (st', c') := Step(st, c, cols[0]);
      FrameIntervals(Prepared(st, c), c, cols[0]) + BlockIntervals(st', c', cols[1..])
  }

  // ---- what the decoder makes of a byte string

  function ReadRows(r: Reader, models: seq<Rows>, prev: Option<Column>, row: nat): (o: Option<(Column, Reader)>)
    requires Sane(r) && row <= |models| && (prev.Some? ==> |prev.value| == |models|)
    requires forall i :: 0 <= i < |models| ==> GoodRows(models[i])
    ensures o.Some? ==> Sane(o.value.1) && IsColumn(|models| - row, o.value.0)
    decreases |models| - row
  {
    if row == |models| then Some(([], r))
    else
      match ReadSymbol(r, models[row], Context(prev, row))
      case None => None
      case Some((sym, r1)) =>
        match ReadRows(r1, models, prev, row + 1)
        case None => None
        case Some((col, r2)) => Some(([sym] + col, r2))
  }

  /** A decoded column, its dictionary id if it has one, and whether the row
      models were used. */
  datatype Found = Found(col: Column, cid: Option<int>, byRows: bool)

  function FoundId(st: State, id: int): Found
    requires 0 <= id < |st.dict.cols|
  {
    Found(st.dict.cols[id], Some(id), false)
  }

  function ReadGlobal(r: Reader, st: State, c: Cursor): (o: Option<(Found, Reader)>)
    requires Sane(r) && GoodState(st) && GoodCursor(c, st.nRows)
    ensures o.Some? ==> Sane(o.value.1) && IsColumn(st.nRows, o.value.0.col) && o.value.0.cid == Cid(st, o.value.0.col)
  {
    match ReadFrom(r, st.dict.table)
    case None => None
    case Some((id, r1)) =>
      if id != ESCAPE then Some((FoundId(st, id), r1))
      else
        match ReadRows(r1, st.models, c.prev, 0)
        case None => None
        case Some((col, r2)) => Some((Found(col, Cid(st, col), true), r2))
  }

  function ReadOrder1(r: Reader, st: State, c: Cursor): (o: Option<(Found, Reader)>)
    requires Sane(r) && GoodState(st) && GoodCursor(c, st.nRows) && c.p1 in st.ctx
    ensures o.Some? ==> Sane(o.value.1) && IsColumn(st.nRows, o.value.0.col) && o.value.0.cid == Cid(st, o.value.0.col)
  {
    match ReadFrom(r, st.ctx[c.p1])
    case None => None
    case Some((id, r1)) => if id != ESCAPE then Some((FoundId(st, id), r1)) else ReadGlobal(r1, st, c)
  }

  function ReadFrame(r: Reader, st: State, c: Cursor): (o: Option<(Found, Reader)>)
    requires Sane(r) && GoodState(st) && GoodCursor(c, st.nRows) && c.p1 in st.ctx
    ensures o.Some? ==> Sane(o.value.1) && IsColumn(st.nRows, o.value.0.col) && o.value.0.cid == Cid(st, o.value.0.col)
  {
    if Key(c) !in st.ctx2 then ReadOrder1(r, st, c)
    else
      match ReadFrom(r, st.ctx2[Key(c)])
      case None => None
      case Some((id, r1)) => if id != ESCAPE then Some((FoundId(st, id), r1)) else ReadOrder1(r1, st, c)
  }

  /** The decoder's own update after a frame. */
  function DecoderStep(st: State, c: Cursor, f: Found): (r: (State, Cursor))
    requires GoodState(st) && GoodCursor(c, st.nRows) && c.p1 in st.ctx
    requires IsColumn(st.nRows, f.col) && f.cid == Cid(st, f.col)
    ensures GoodState(r.0) && r.0.nRows == st.nRows && GoodCursor(r.1, st.nRows)
  {
    RowsLearnedGood(st, c.prev, f.col);
    var st1 := if f.byRows then st.(models := RowsLearned(st.models, c.prev, f.col)) else st;
    LearnedGood(st1, c, f.cid, f.col);
    var (st2, id) := Learned(st1, c, f.cid, f.col);
    (st2, Cursor(Some(f.col), id, c.p1))
  }

  /** One turn of the decoder's frame loop. */
  datatype Turn = Turn(col: Column, reader: Reader, st: State, cursor: Cursor)

  function ReadNext(r: Reader, st: State, c: Cursor): (o: Option<Turn>)
    requires Sane(r) && GoodState(st) && GoodCursor(c, st.nRows)
    ensures o.Some? ==> Sane(o.value.reader) && IsColumn(st.nRows, o.value.col)
    ensures o.Some? ==> GoodState(o.value.st) && o.value.st.nRows == st.nRows && GoodCursor(o.value.cursor, st.nRows)
  {
    PreparedGood(st, c);
    match ReadFrame(r, Prepared(st, c), c)
    case None => None
    case Some((f, r1)) =>
      var (st1, c1) := DecoderStep(Prepared(st, c), c, f);
      Some(Turn(f.col, r1, st1, c1))
  }

  /** Puts a decoded column in front of the rest of its block. */
  function Prepended(nRows: nat, col: Column, rest: Option<(seq<Column>, State)>): (o: Option<(seq<Column>, State)>)
    requires IsColumn(nRows, col) && (rest.Some? ==> AreColumns(nRows, rest.value.0))
    ensures o.Some? <==> rest.Some?
    ensures o.Some? ==> o.value == ([col] + rest.value.0, rest.value.1) && AreColumns(nRows, o.value.0)
  {
    match rest
    case None => None
    case Some((cols, last)) => Some(([col] + cols, last))
  }

  /** `_decode_adaptive`: the columns and the final state, or None where the
      source runs out of bytes. */
  function ReadBlock(r: Reader, st: State, c: Cursor, frames: nat): (o: Option<(seq<Column>, State)>)
    requires Sane(r) && GoodState(st) && GoodCursor(c, st.nRows)
    ensures o.Some? ==> |o.value.0| == frames && AreColumns(st.nRows, o.value.0)
    ensures o.Some? ==> GoodState(o.value.1) && o.value.1.nRows == st.nRows
    decreases frames
  {
    if frames == 0 then Some(([], st))
    else
      var n := ReadNext(r, st, c);
      if n.None? then None
      else Prepended(st.nRows, n.value.col, ReadBlock(n.value.reader, n.value.st, n.value.cursor, frames - 1))
  }
}
