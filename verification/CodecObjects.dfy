/** Encoding and decoding blocks with the objects that change in place: the
    coder, the shared state and the session. Every method is tied to the codec
    that `BlockCodec` proves lossless. */
module CodecObjects {
  import opened Wrappers
  import opened Sequences
  import opened RangeCoder
  import opened CoderObjects
  import opened FreqTables
  import opened RowModels
  import opened Codec
  import opened CodecProofs
  import opened BlockCodec
  import opened Powers
  import opened RawPacking
  import Sessions

  // ---- one table

  /** Codes one symbol a table has. */
  method Code(w: BitWriter, t: Table, sym: int)
    requires w.Valid() && Good(t) && sym in t.freq
    modifies w
    ensures w.Valid() && w.coded == old(w.coded) + [IntervalOf(t, sym)]
  {
    IntervalCodable(t, sym);
    var iv := IntervalOf(t, sym);
    w.Encode(iv.cum, iv.freq, iv.tot);
  }

  /** Decodes one symbol with a table; None where the source runs out of
      bytes. */
  method Fetch(r: BitReader, t: Table) returns (sym: Option<int>)
    requires r.Valid() && Good(t)
    modifies r
    ensures sym.Some? <==> ReadFrom(old(r.Value()), t).Some?
    ensures sym.Some? ==> r.Valid() && (sym.value, r.Value()) == ReadFrom(old(r.Value()), t).value
  {
    TotalPositive(t);
    var point := r.DecodeFreq(t.total);
    var s := SymbolAt(t, point);
    IntervalCodable(t, s);
    var ok := r.Consume(IntervalOf(t, s).cum, IntervalOf(t, s).freq);
    return if ok then Some(s) else None;
  }

  // ---- one symbol of a row

  method CodeSymbol(w: BitWriter, m: Rows, prev: int, sym: int)
    requires w.Valid() && GoodRows(m) && 0 <= sym < RAW_SYMBOLS
    modifies w
    ensures w.Valid() && w.coded == old(w.coded) + SymbolIntervals(m, prev, sym)
  {
    FreshGood();
    var t := TableFor(m.ctx, prev);
    if sym in t.freq {
      Code(w, t, sym);
    } else {
      Code(w, t, ESCAPE);
      if sym in m.glob.freq {
        Code(w, m.glob, sym);
      } else {
        Code(w, m.glob, ESCAPE);
        w.Encode(sym, 1, RAW_SYMBOLS);
      }
    }
  }

  method FetchSymbol(r: BitReader, m: Rows, prev: int) returns (sym: Option<int>)
    requires r.Valid() && GoodRows(m)
    modifies r
    ensures sym.Some? <==> ReadSymbol(old(r.Value()), m, prev).Some?
    ensures sym.Some? ==> r.Valid() && (sym.value, r.Value()) == ReadSymbol(old(r.Value()), m, prev).value
  {
    FreshGood();
    sym := Fetch(r, TableFor(m.ctx, prev));
    if sym == Some(ESCAPE) {
      sym := Fetch(r, m.glob);
      if sym == Some(ESCAPE) {
        var point := r.DecodeFreq(RAW_SYMBOLS);
        var ok := r.Consume(point, 1);
        sym := if ok then Some(point) else None;
      }
    }
  }

  // ---- the rows of a column

  predicate GoodModels(models: seq<Rows>) {
    forall i :: 0 <= i < |models| ==> GoodRows(models[i])
  }

  predicate FitsRows(n: nat, prev: Option<Column>, col: Column) {
    IsColumn(n, col) && (prev.Some? ==> IsColumn(n, prev.value))
  }

  lemma NextRowIntervals(sofar: seq<Interval>, models: seq<Rows>, prev: Option<Column>, col: Column, row: nat)
    requires row < |models| == |col| && (prev.Some? ==> |prev.value| == |col|) && GoodModels(models)
    ensures sofar + RowIntervals(models, prev, col, row) ==
            (sofar + SymbolIntervals(models[row], Context(prev, row), col[row])) + RowIntervals(models, prev, col, row + 1)
  {
    hide GoodRows, SymbolIntervals;
    Assoc(sofar, SymbolIntervals(models[row], Context(prev, row), col[row]), RowIntervals(models, prev, col, row + 1));
  }

  lemma NoRowIntervals(models: seq<Rows>, prev: Option<Column>, col: Column)
    requires |models| == |col| && (prev.Some? ==> |prev.value| == |col|) && GoodModels(models)
    ensures RowIntervals(models, prev, col, |col|) == []
  {
  }

  method CodeRows(w: BitWriter, models: seq<Rows>, prev: Option<Column>, col: Column)
    requires w.Valid() && GoodModels(models) && FitsRows(|models|, prev, col)
    modifies w
    ensures w.Valid() && w.coded == old(w.coded) + RowIntervals(models, prev, col, 0)
  {
    hide GoodRows, SymbolIntervals, RowIntervals;
    ghost var goal := w.coded + RowIntervals(models, prev, col, 0);
    for row := 0 to |col|
      invariant w.Valid() && w.coded + RowIntervals(models, prev, col, row) == goal
    {
      NextRowIntervals(w.coded, models, prev, col, row);
      CodeSymbol(w, models[row], Context(prev, row), col[row]);
    }
    NoRowIntervals(models, prev, col);
    NoMore(w.coded);
  }

  /** What decoding the rest of a column yields with the symbols so far put
      in front. */
  ghost function Continued(sofar: Column, rest: Option<(Column, Reader)>): Option<(Column, Reader)> {
    match rest
    case None => None
    case Some((col, r)) => Some((sofar + col, r))
  }

  lemma NextSymbol(from: Reader, models: seq<Rows>, prev: Option<Column>, row: nat, sofar: Column)
    requires Sane(from) && row < |models| && (prev.Some? ==> |prev.value| == |models|) && GoodModels(models)
    ensures var here := Continued(sofar, ReadRows(from, models, prev, row));
      match ReadSymbol(from, models[row], Context(prev, row))
      case None => here == None
      case Some((sym, r1)) => here == Continued(sofar + [sym], ReadRows(r1, models, prev, row + 1))
  {
    match ReadSymbol(from, models[row], Context(prev, row))
    case None =>
    case Some((sym, r1)) =>
      match ReadRows(r1, models, prev, row + 1)
      case None =>
      case Some((col, r2)) => assert sofar + ([sym] + col) == (sofar + [sym]) + col;
  }

  method FetchRows(r: BitReader, models: seq<Rows>, prev: Option<Column>) returns (col: Option<Column>)
    requires r.Valid() && GoodModels(models) && (prev.Some? ==> IsColumn(|models|, prev.value))
    modifies r
    ensures col.Some? <==> ReadRows(old(r.Value()), models, prev, 0).Some?
    ensures col.Some? ==> r.Valid() && (col.value, r.Value()) == ReadRows(old(r.Value()), models, prev, 0).value
  {
    ghost var goal := ReadRows(r.Value(), models, prev, 0);
    var syms: Column := [];
    if goal.Some? {
      NoMore(goal.value.0);
    }
    for row := 0 to |models|
      invariant r.Valid() && |syms| == row
      invariant Continued(syms, ReadRows(r.Value(), models, prev, row)) == goal
    {
      NextSymbol(r.Value(), models, prev, row, syms);
      var sym := FetchSymbol(r, models[row], Context(prev, row));
      if sym.None? {
        return None;
      }
      syms := syms + [sym.value];
    }
    NoMore(syms);
    return Some(syms);
  }

  // ---- the shared state

  class V4State {
    const nRows: nat
    var models: seq<Rows>
    var dict: Dict
    var ctx: map<int, Table>
    var ctx2: map<(int, int), Table>

    ghost function Value(): State
      reads this
    {
      State(nRows, models, dict, ctx, ctx2)
    }

    ghost predicate Valid()
      reads this
    {
      GoodState(Value())
    }

    constructor (nRows: nat)
      ensures Valid() && Value() == FreshState(nRows)
    {
      this.nRows := nRows;
      models := seq(nRows, _ => FRESH_ROWS);
      dict := Dict(map[], [], FRESH_TABLE);
      ctx, ctx2 := map[], map[];
      new;
      FreshStateGood(nRows);
    }

    /** `clone`. */
    constructor Copy(st: V4State)
      ensures Value() == st.Value()
    {
      nRows := st.nRows;
      models, dict, ctx, ctx2 := st.models, st.dict, st.ctx, st.ctx2;
    }

    method CtxTable(id: int) returns (t: Table)
      requires Valid()
      modifies this`ctx
      ensures Value() == WithCtx(old(Value()), id) && Valid()
      ensures id in ctx && ctx[id] == t
    {
      WithCtxGood(Value(), id);
      if id !in ctx {
        ctx := ctx[id := FRESH_TABLE];
      }
      t := ctx[id];
    }

    /** None at the cap. */
    method Ctx2Table(key: (int, int)) returns (t: Option<Table>)
      requires Valid()
      modifies this`ctx2
      ensures Value() == WithCtx2(old(Value()), key) && Valid()
      ensures t == if key in ctx2 then Some(ctx2[key]) else None
    {
      WithCtx2Good(Value(), key);
      if key !in ctx2 {
        if |ctx2| >= MAX_CTX2_TABLES {
          return None;
        }
        ctx2 := ctx2[key := FRESH_TABLE];
      }
      t := Some(ctx2[key]);
    }

    /** `t2.add` and `t1.add`. */
    method BumpTables(c: Cursor, id: int)
      requires c.p1 in ctx && ESCAPE in ctx[c.p1].freq
      requires Key(c) in ctx2 ==> ESCAPE in ctx2[Key(c)].freq
      modifies this`ctx, this`ctx2
      ensures Value() == Bump(old(Value()), c, id)
    {
      if Key(c) in ctx2 {
        ctx2 := ctx2[Key(c) := Added(ctx2[Key(c)], id)];
      }
      ctx := ctx[c.p1 := Added(ctx[c.p1], id)];
    }

    /** `_learn`. */
    method Learn(c: Cursor, cid: Option<int>, col: Column) returns (id: int)
      requires Valid() && c.p1 in ctx && IsColumn(nRows, col) && cid == Cid(Value(), col)
      modifies this
      ensures Valid() && (Value(), id) == Learned(old(Value()), c, cid, col)
    {
      LearnedGood(Value(), c, cid, col);
      if cid.Some? {
        BumpTables(c, cid.value);
        dict := DictAdded(dict, col);
        return cid.value;
      }
      if |dict.cols| >= MAX_DICT_ENTRIES {
        return UNKNOWN_ID;
      }
      id := |dict.cols|;
      dict := DictAdded(dict, col);
      BumpTables(c, id);
    }

    /** The row models after a column was sent through them. */
    method LearnRows(prev: Option<Column>, col: Column)
      requires Valid() && FitsRows(nRows, prev, col)
      modifies this`models
      ensures Valid() && Value() == old(Value()).(models := RowsLearned(old(models), prev, col))
    {
      RowsLearnedGood(Value(), prev, col);
      ghost var before, after := models, RowsLearned(models, prev, col);
      for row := 0 to |col|
        invariant |models| == |before|
        invariant forall i :: 0 <= i < row ==> models[i] == after[i]
        invariant forall i :: row <= i < |before| ==> models[i] == before[i]
      {
        models := models[row := Updated(models[row], Context(prev, row), col[row])];
      }
      assert models == after;
    }
  }

  // ---- one frame

  /** The escape cascade of `_encode_adaptive` for one column. */
  method CodeFrame(w: BitWriter, st: V4State, c: Cursor, cid: Option<int>, col: Column)
    requires w.Valid() && st.Valid() && GoodCursor(c, st.nRows) && IsColumn(st.nRows, col) && c.p1 in st.ctx
    requires cid == Cid(st.Value(), col)
    modifies w
    ensures w.Valid() && w.coded == old(w.coded) + FrameIntervals(st.Value(), c, col)
  {
    if Key(c) in st.ctx2 {
      var t2 := st.ctx2[Key(c)];
      if cid.Some? && cid.value in t2.freq {
        Code(w, t2, cid.value);
        return;
      }
      Assoc(w.coded, [IntervalOf(t2, ESCAPE)], Order1Intervals(st.Value(), c, cid, col));
      Code(w, t2, ESCAPE);
    }
    CodeOrder1(w, st, c, cid, col);
  }

  method CodeOrder1(w: BitWriter, st: V4State, c: Cursor, cid: Option<int>, col: Column)
    requires w.Valid() && st.Valid() && GoodCursor(c, st.nRows) && IsColumn(st.nRows, col) && c.p1 in st.ctx
    modifies w
    ensures w.Valid() && w.coded == old(w.coded) + Order1Intervals(st.Value(), c, cid, col)
  {
    var t1 := st.ctx[c.p1];
    if cid.Some? && cid.value in t1.freq {
      Code(w, t1, cid.value);
    } else {
      Assoc(w.coded, [IntervalOf(t1, ESCAPE)], GlobalIntervals(st.Value(), c, cid, col));
      Code(w, t1, ESCAPE);
      CodeGlobal(w, st, c, cid, col);
    }
  }

  method CodeGlobal(w: BitWriter, st: V4State, c: Cursor, cid: Option<int>, col: Column)
    requires w.Valid() && st.Valid() && GoodCursor(c, st.nRows) && IsColumn(st.nRows, col)
    modifies w
    ensures w.Valid() && w.coded == old(w.coded) + GlobalIntervals(st.Value(), c, cid, col)
  {
    if cid.Some? && cid.value in st.dict.table.freq {
      Code(w, st.dict.table, cid.value);
    } else {
      Assoc(w.coded, [IntervalOf(st.dict.table, ESCAPE)], RowIntervals(st.models, c.prev, col, 0));
      Code(w, st.dict.table, ESCAPE);
      CodeRows(w, st.models, c.prev, col);
    }
  }

  /** The escape cascade of `_decode_adaptive`. */
  method FetchFrame(r: BitReader, st: V4State, c: Cursor) returns (f: Option<Found>)
    requires r.Valid() && st.Valid() && GoodCursor(c, st.nRows) && c.p1 in st.ctx
    modifies r
    ensures f.Some? <==> ReadFrame(old(r.Value()), st.Value(), c).Some?
    ensures f.Some? ==> r.Valid() && (f.value, r.Value()) == ReadFrame(old(r.Value()), st.Value(), c).value
  {
    if Key(c) in st.ctx2 {
      var id := Fetch(r, st.ctx2[Key(c)]);
      if id != Some(ESCAPE) {
        return if id.Some? then Some(Found(st.dict.cols[id.value], Some(id.value), false)) else None;
      }
    }
    f := FetchOrder1(r, st, c);
  }

  method FetchOrder1(r: BitReader, st: V4State, c: Cursor) returns (f: Option<Found>)
    requires r.Valid() && st.Valid() && GoodCursor(c, st.nRows) && c.p1 in st.ctx
    modifies r
    ensures f.Some? <==> ReadOrder1(old(r.Value()), st.Value(), c).Some?
    ensures f.Some? ==> r.Valid() && (f.value, r.Value()) == ReadOrder1(old(r.Value()), st.Value(), c).value
  {
    var id := Fetch(r, st.ctx[c.p1]);
    if id == Some(ESCAPE) {
      id := Fetch(r, st.dict.table);
      if id == Some(ESCAPE) {
        var col := FetchRows(r, st.models, c.prev);
        if col.None? {
          return None;
        }
        var known := if col.value in st.dict.byCol then Some(st.dict.byCol[col.value]) else None;
        return Some(Found(col.value, known, true));
      }
    }
    return if id.Some? then Some(Found(st.dict.cols[id.value], Some(id.value), false)) else None;
  }

  // ---- the frame loops

  /** Opens the context tables of a frame. */
  method Prepare(st: V4State, c: Cursor)
    requires st.Valid()
    modifies st`ctx, st`ctx2
    ensures st.Valid() && st.Value() == Prepared(old(st.Value()), c) && c.p1 in st.ctx
  {
    var _ := st.Ctx2Table(Key(c));
    var _ := st.CtxTable(c.p1);
  }

  /** One turn of `_update_walk`. */
  method WalkFrame(st: V4State, c: Cursor, col: Column) returns (next: Cursor)
    requires st.Valid() && GoodCursor(c, st.nRows) && IsColumn(st.nRows, col)
    modifies st
    ensures st.Valid() && (st.Value(), next) == Step(old(st.Value()), c, col)
  {
    Prepare(st, c);
    var cid := if col in st.dict.byCol then Some(st.dict.byCol[col]) else None;
    var hit := cid.Some? && ((Key(c) in st.ctx2 && cid.value in st.ctx2[Key(c)].freq)
                             || cid.value in st.ctx[c.p1].freq
                             || cid.value in st.dict.table.freq);
    if !hit {
      st.LearnRows(c.prev, col);
    }
    var id := st.Learn(c, cid, col);
    next := Cursor(Some(col), id, c.p1);
  }

  /** `_update_walk`. */
  method UpdateWalk(cols: seq<Column>, st: V4State)
    requires st.Valid() && AreColumns(st.nRows, cols)
    modifies st
    ensures st.Valid() && st.Value() == Taught(old(st.Value()), cols)
  {
    var c := START;
    for i := 0 to |cols|
      invariant st.Valid() && GoodCursor(c, st.nRows)
      invariant Walked(st.Value(), c, cols[i..]) == Taught(old(st.Value()), cols)
    {
      HeadAt(cols, i);
      c := WalkFrame(st, c, cols[i]);
    }
  }

  /** One turn of `_encode_adaptive`. */
  method EncodeFrame(w: BitWriter, st: V4State, c: Cursor, col: Column) returns (next: Cursor)
    requires w.Valid() && st.Valid() && GoodCursor(c, st.nRows) && IsColumn(st.nRows, col)
    modifies w, st
    ensures st.Valid() && (st.Value(), next) == Step(old(st.Value()), c, col)
    ensures w.Valid() && GoodState(Prepared(old(st.Value()), c)) && c.p1 in Prepared(old(st.Value()), c).ctx
    ensures w.coded == old(w.coded) + FrameIntervals(Prepared(old(st.Value()), c), c, col)
  {
    hide GoodState, RowsLearned, Learned, Prepared, Hit, FrameIntervals;
    Prepare(st, c);
    KnownHits(st.Value(), c, col);
    var cid := if col in st.dict.byCol then Some(st.dict.byCol[col]) else None;
    CodeFrame(w, st, c, cid, col);
    if cid.None? {
      st.LearnRows(c.prev, col);
    }
    var id := st.Learn(c, cid, col);
    next := Cursor(Some(col), id, c.p1);
  }

  predicate InAlphabet(cols: seq<Column>) {
    forall i, j :: 0 <= i < |cols| && 0 <= j < |cols[i]| ==> 0 <= cols[i][j] < RAW_SYMBOLS
  }

  /** What the loop will have coded and learned after `rest`; None when some
      column of it has the wrong number of rows. */
  ghost function Ahead(coded: seq<Interval>, st: State, c: Cursor, rest: seq<Column>): Option<(seq<Interval>, State)> {
    if GoodState(st) && GoodCursor(c, st.nRows) && AreColumns(st.nRows, rest)
    then Some((coded + BlockIntervals(st, c, rest), Walked(st, c, rest)))
    else None
  }

  lemma NextFrame(coded: seq<Interval>, st: State, c: Cursor, col: Column, rest: seq<Column>)
    requires GoodState(st) && GoodCursor(c, st.nRows) && IsColumn(st.nRows, col)
    requires GoodState(Prepared(st, c)) && c.p1 in Prepared(st, c).ctx && Prepared(st, c).nRows == st.nRows
    ensures Ahead(coded, st, c, [col] + rest) ==
            Ahead(coded + FrameIntervals(Prepared(st, c), c, col), Step(st, c, col).0, Step(st, c, col).1, rest)
  {
    hide GoodState, Step, FrameIntervals, Prepared, BlockIntervals, Walked;
    Uncons(col, rest);
    if AreColumns(st.nRows, rest) {
      var next := Step(st, c, col);
      WalkedCons(st, c, col, rest);
      BlockCons(st, c, col, rest);
      Assoc(coded, FrameIntervals(Prepared(st, c), c, col), BlockIntervals(next.0, next.1, rest));
    }
  }

  lemma WalkedCons(st: State, c: Cursor, col: Column, rest: seq<Column>)
    requires GoodState(st) && GoodCursor(c, st.nRows) && IsColumn(st.nRows, col) && AreColumns(st.nRows, rest)
    ensures AreColumns(st.nRows, [col] + rest)
    ensures Walked(st, c, [col] + rest) == Walked(Step(st, c, col).0, Step(st, c, col).1, rest)
  {
    hide GoodState, Step;
    Uncons(col, rest);
  }

  lemma BlockCons(st: State, c: Cursor, col: Column, rest: seq<Column>)
    requires GoodState(st) && GoodCursor(c, st.nRows) && IsColumn(st.nRows, col) && AreColumns(st.nRows, rest)
    requires AreColumns(st.nRows, [col] + rest)
    requires GoodState(Prepared(st, c)) && c.p1 in Prepared(st, c).ctx && Prepared(st, c).nRows == st.nRows
    ensures BlockIntervals(st, c, [col] + rest) ==
            FrameIntervals(Prepared(st, c), c, col) + BlockIntervals(Step(st, c, col).0, Step(st, c, col).1, rest)
  {
    hide GoodState, Step, FrameIntervals, Prepared;
    Uncons(col, rest);
  }

  lemma AheadStarts(st: State, cols: seq<Column>)
    requires GoodState(st)
    ensures Ahead([], st, START, cols) ==
      if AreColumns(st.nRows, cols) then Some((BlockIntervals(st, START, cols), Taught(st, cols))) else None
  {
    hide GoodState, BlockIntervals, Walked;
    if AreColumns(st.nRows, cols) {
      NoMore(BlockIntervals(st, START, cols));
    }
  }

  lemma AheadDone(coded: seq<Interval>, st: State, c: Cursor)
    requires GoodState(st) && GoodCursor(c, st.nRows)
    ensures Ahead(coded, st, c, []) == Some((coded, st))
  {
    hide GoodState;
    NoMore(coded);
  }

  lemma AheadBad(coded: seq<Interval>, st: State, c: Cursor, rest: seq<Column>)
    requires rest != [] && |rest[0]| != st.nRows
    ensures Ahead(coded, st, c, rest) == None
  {
    hide GoodState;
    assert !IsColumn(st.nRows, rest[0]);
  }

  /** The frame loop of `_encode_adaptive`; false at a column with the wrong
      number of rows. */
  method EncodeFrames(w: BitWriter, cols: seq<Column>, st: V4State) returns (ok: bool)
    requires w.Valid() && w.coded == [] && st.Valid() && InAlphabet(cols)
    modifies w, st
    ensures ok <==> AreColumns(st.nRows, cols)
    ensures ok ==> w.Valid() && w.coded == BlockIntervals(old(st.Value()), START, cols)
    ensures ok ==> st.Valid() && st.Value() == Taught(old(st.Value()), cols)
  {
    hide GoodState, Step, FrameIntervals, Prepared, Ahead, BlockIntervals, Taught, AreColumns;
    AheadStarts(st.Value(), cols);
    ghost var goal := Ahead([], st.Value(), START, cols);
    var c := START;
    assert cols[0..] == cols;
    for i := 0 to |cols|
      invariant w.Valid() && st.Valid() && GoodCursor(c, st.nRows)
      invariant Ahead(w.coded, st.Value(), c, cols[i..]) == goal
    {
      if |cols[i]| != st.nRows {
        AheadBad(w.coded, st.Value(), c, cols[i..]);
        return false;
      }
      HeadAt(cols, i);
      ghost var before, sofar, from := st.Value(), w.coded, c;
      PreparedGood(before, from);
      c := EncodeFrame(w, st, c, cols[i]);
      NextFrame(sofar, before, from, cols[i], cols[i + 1..]);
    }
    AheadDone(w.coded, st.Value(), c);
    assert cols[|cols|..] == [];
    return true;
  }

  /** `_encode_adaptive`; None is the ValueError of a column with the wrong
      number of rows. */
  method EncodeAdaptive(cols: seq<Column>, st: V4State) returns (bytes: Option<seq<byte>>)
    requires st.Valid() && InAlphabet(cols)
    modifies st
    ensures bytes.Some? <==> AreColumns(st.nRows, cols)
    ensures bytes.Some? ==> bytes.value == AdaptiveBytes(cols, old(st.Value()))
    ensures bytes.Some? ==> st.Valid() && st.Value() == Taught(old(st.Value()), cols)
  {
    hide GoodState, AreColumns, BlockIntervals, Taught, Bytes;
    var w := new BitWriter();
    var ok := EncodeFrames(w, cols, st);
    if !ok {
      return None;
    }
    var out := w.Finish();
    return Some(out);
  }

  // ---- decoding

  /** One turn of `_decode_adaptive`. */
  method FetchTurn(r: BitReader, st: V4State, c: Cursor) returns (t: Option<(Column, Cursor)>)
    requires r.Valid() && st.Valid() && GoodCursor(c, st.nRows)
    modifies r, st
    ensures t.Some? <==> ReadNext(old(r.Value()), old(st.Value()), c).Some?
    ensures t.Some? ==>
              && r.Valid() && st.Valid() && IsColumn(st.nRows, t.value.0) && GoodCursor(t.value.1, st.nRows)
              && Turn(t.value.0, r.Value(), st.Value(), t.value.1) == ReadNext(old(r.Value()), old(st.Value()), c).value
  {
    Prepare(st, c);
    var f := FetchFrame(r, st, c);
    if f.None? {
      return None;
    }
    if f.value.byRows {
      st.LearnRows(c.prev, f.value.col);
    }
    var id := st.Learn(c, f.value.cid, f.value.col);
    return Some((f.value.col, Cursor(Some(f.value.col), id, c.p1)));
  }

  /** What decoding the rest of a block yields with the columns so far put in
      front. */
  ghost function Joined(sofar: seq<Column>, rest: Option<(seq<Column>, State)>): Option<(seq<Column>, State)> {
    match rest
    case None => None
    case Some((cols, st)) => Some((sofar + cols, st))
  }

  lemma JoinedNothing(o: Option<(seq<Column>, State)>)
    ensures Joined([], o) == o
  {
    if o.Some? {
      NoMore(o.value.0);
    }
  }

  lemma ReadNothing(sofar: seq<Column>, r: Reader, st: State, c: Cursor)
    requires Sane(r) && GoodState(st) && GoodCursor(c, st.nRows)
    ensures Joined(sofar, ReadBlock(r, st, c, 0)) == Some((sofar, st))
  {
    NoMore(sofar);
  }

  lemma NextTurn(sofar: seq<Column>, r: Reader, st: State, c: Cursor, left: nat)
    requires Sane(r) && GoodState(st) && GoodCursor(c, st.nRows) && left != 0
    ensures var n := ReadNext(r, st, c);
      Joined(sofar, ReadBlock(r, st, c, left)) ==
      if n.None? then None
      else Joined(sofar + [n.value.col], ReadBlock(n.value.reader, n.value.st, n.value.cursor, left - 1))
  {
    var n := ReadNext(r, st, c);
    if n.Some? {
      var more := ReadBlock(n.value.reader, n.value.st, n.value.cursor, left - 1);
      if more.Some? {
        Assoc(sofar, [n.value.col], more.value.0);
      }
    }
  }

  /** `_decode_adaptive`; None is the IndexError of a stream that ends early. */
  method DecodeAdaptive(data: seq<byte>, frames: nat, st: V4State) returns (cols: Option<seq<Column>>)
    requires st.Valid()
    modifies st
    ensures cols.Some? <==> ReadBlock(Opened(data), old(st.Value()), START, frames).Some?
    ensures cols.Some? ==>
              st.Valid() && (cols.value, st.Value()) == ReadBlock(Opened(data), old(st.Value()), START, frames).value
  {
    hide GoodState, Ready, Step, ReadNext, ReadBlock, Opened;
    var r := new BitReader(data);
    ghost var goal := ReadBlock(r.Value(), st.Value(), START, frames);
    JoinedNothing(goal);
    var out: seq<Column> := [];
    var c := START;
    for i := 0 to frames
      invariant r.Valid() && st.Valid() && GoodCursor(c, st.nRows)
      invariant Joined(out, ReadBlock(r.Value(), st.Value(), c, frames - i)) == goal
    {
      NextTurn(out, r.Value(), st.Value(), c, frames - i);
      var t := FetchTurn(r, st, c);
      if t.None? {
        return None;
      }
      out, c := out + [t.value.0], t.value.1;
    }
    ReadNothing(out, r.Value(), st.Value(), c);
    return Some(out);
  }

  // ---- plain packing

  /** The packing loops of `encode`. */
  method PackColumns(cols: seq<Column>, nRows: nat) returns (bytes: seq<byte>)
    requires AreColumns(nRows, cols)
    ensures AreSymbols(Flat(cols)) && bytes == Packed(Flat(cols))
  {
    GroupedFlat(cols, nRows);
    var acc: nat, nbits: nat := 0, 0;
    ghost var done: seq<int> := [];
    bytes := [];
    for i := 0 to |cols|
      invariant Packing(done, acc, nbits, bytes) && done + Flat(cols[i..]) == Flat(cols)
    {
      HeadAt(cols, i);
      ghost var before := done;
      Assoc(done, cols[i], Flat(cols[i + 1..]));
      for j := 0 to |cols[i]|
        invariant Packing(done, acc, nbits, bytes) && done == before + cols[i][..j]
      {
        assert cols[i][..j + 1] == cols[i][..j] + [cols[i][j]];
        Assoc(before, cols[i][..j], [cols[i][j]]);
        acc, nbits, bytes := PushSymbol(acc, nbits, bytes, cols[i][j], done);
        done := done + [cols[i][j]];
      }
      assert cols[i][..|cols[i]|] == cols[i];
    }
    NoMore(done);
    bytes := Flush(acc, nbits, bytes, done);
  }

  lemma FlatAppend(cols: seq<Column>, col: Column)
    ensures Flat(cols + [col]) == Flat(cols) + col
    decreases |cols|
  {
    if cols == [] {
      assert cols + [col] == [col];
      NoMore(col);
    } else {
      assert (cols + [col])[1..] == cols[1..] + [col];
      FlatAppend(cols[1..], col);
      Assoc(cols[0], Flat(cols[1..]), col);
    }
  }

  /** The unpacking loops of `decode`; None is the IndexError of a short
      body. */
  method UnpackColumns(body: seq<byte>, n: nat, nRows: nat) returns (cols: Option<seq<Column>>)
    ensures cols.Some? <==> Unpacked(body, n * nRows).Some?
    ensures cols.Some? ==> AreColumns(nRows, cols.value) && |cols.value| == n
    ensures cols.Some? ==> Flat(cols.value) == Unpacked(body, n * nRows).value
  {
    hide SymbolOf, Unpacked, Unpacking;
    var acc: nat, nbits, pos: nat := 0, 0, 0;
    var out: seq<Column> := [];
    ghost var k := 0;
    UnpackedStart(body);
    for i := 0 to n
      invariant |out| == i && AreColumns(nRows, out) && k == i * nRows
      invariant Unpacking(body, k, acc, nbits, pos) && Unpacked(body, k) == Some(Flat(out))
    {
      RowsFit(i + 1, nRows);
      RowsLeft(i, n, nRows);
      var col: Column := [];
      NoMore(Flat(out));
      for row := 0 to nRows
        invariant |col| == row && IsColumn(row, col) && k == i * nRows + row
        invariant Unpacking(body, k, acc, nbits, pos) && Unpacked(body, k) == Some(Flat(out) + col)
      {
        var sym;
        sym, acc, nbits, pos := PullSymbol(body, acc, nbits, pos, k);
        if sym.None? {
          UnpackedShort(body, k + 1, n * nRows);
          return None;
        }
        UnpackedMore(body, k, Flat(out) + col);
        Assoc(Flat(out), col, [sym.value]);
        col := col + [sym.value];
        k := k + 1;
      }
      FlatAppend(out, col);
      out := out + [col];
    }
    return Some(out);
  }

  lemma UnpackedStart(body: seq<byte>)
    ensures Unpacked(body, 0) == Some([]) && Unpacking(body, 0, 0, 0, 0)
  {
  }

  lemma UnpackedMore(body: seq<byte>, k: nat, s: seq<int>)
    requires Unpacked(body, k) == Some(s) && 10 * (k + 1) <= 8 * |body|
    ensures Unpacked(body, k + 1) == Some(s + [SymbolOf(body, k)])
  {
    hide SymbolOf;
    assert Unpacked(body, k + 1).value == s + [SymbolOf(body, k)];
  }

  lemma UnpackedShort(body: seq<byte>, k: nat, n: nat)
    requires 8 * |body| < 10 * k && k <= n
    ensures Unpacked(body, n) == None
  {
    hide SymbolOf;
  }

  lemma RowsLeft(i: nat, n: nat, nRows: nat)
    requires i < n
    ensures 0 <= i * nRows && i * nRows + nRows <= n * nRows
  {
    Product(nRows, i + 1, n);
    assert nRows * (i + 1) == i * nRows + nRows && nRows * n == n * nRows;
  }

  // ---- whole blocks

  /** `encode`; None is the ValueError of a column with the wrong number of
      rows, which leaves the state as it was. */
  method Encode(cols: seq<Column>, st: V4State) returns (data: Option<seq<byte>>)
    requires st.Valid() && InAlphabet(cols)
    modifies st
    ensures st.Valid() && (data.Some? <==> AreColumns(st.nRows, cols))
    ensures data.None? ==> st.Value() == old(st.Value())
    ensures data.Some? ==> data.value == Encoded(cols, old(st.Value()))
    ensures data.Some? ==> st.Value() == Taught(old(st.Value()), cols)
  {
    hide GoodState, AreColumns, AdaptiveBytes, Taught;
    var work := new V4State.Copy(st);
    var adaptive := EncodeAdaptive(cols, work);
    if adaptive.None? {
      return None;
    }
    GroupedFlat(cols, st.nRows);
    if |adaptive.value| * 8 <= |cols| * st.nRows * 10 {
      st.models, st.dict, st.ctx, st.ctx2 := work.models, work.dict, work.ctx, work.ctx2;
      return Some([ADAPTIVE] + adaptive.value);
    }
    var raw := PackColumns(cols, st.nRows);
    UpdateWalk(cols, st);
    return Some([RAW] + raw);
  }

  datatype Decoding = Columns(cols: seq<Column>) | ValueError | IndexError

  predicate Matches(d: Decoding, o: Outcome) {
    match o
    case Block(cols, _) => d == Columns(cols)
    case UnknownFlag => d == ValueError
    case OutOfBytes => d == IndexError
  }

  /** `decode`, on any byte string. */
  method Decode(data: seq<byte>, n: nat, st: V4State) returns (d: Decoding)
    requires st.Valid()
    modifies st
    ensures Matches(d, Decoded(data, n, old(st.Value())))
    ensures d.Columns? ==> st.Valid() && st.Value() == Decoded(data, n, old(st.Value())).st
  {
    hide GoodState;
    if data == [] {
      return IndexError;
    }
    if data[0] == ADAPTIVE {
      var cols := DecodeAdaptive(data[1..], n, st);
      return if cols.Some? then Columns(cols.value) else IndexError;
    }
    if data[0] != RAW {
      return ValueError;
    }
    var cols := UnpackColumns(data[1..], n, st.nRows);
    if cols.None? {
      return IndexError;
    }
    GroupedFlat(cols.value, st.nRows);
    UpdateWalk(cols.value, st);
    return Columns(cols.value);
  }

  // ---- sessions

  class Session {
    var committed: V4State
    var pending: V4State?

    ghost predicate Valid()
      reads this, committed, pending
    {
      committed.Valid() && (pending != null ==> pending.Valid())
    }

    ghost function Value(): Sessions.Peer
      reads this, committed, pending
    {
      Sessions.Peer(committed.Value(), if pending == null then None else Some(pending.Value()))
    }

    constructor (state: V4State)
      requires state.Valid()
      ensures Valid() && Value() == Sessions.Peer(state.Value(), None)
    {
      committed, pending := state, null;
    }

    method EncodeBlock(cols: seq<Column>) returns (data: Option<seq<byte>>)
      requires Valid() && InAlphabet(cols)
      modifies this`pending
      ensures Valid() && (data.Some? <==> AreColumns(committed.nRows, cols))
      ensures data.None? ==> Value() == old(Value())
      ensures data.Some? ==> (Value(), data.value) == Sessions.EncodeBlock(old(Value()), cols)
    {
      hide GoodState;
      var work := new V4State.Copy(committed);
      data := Encode(cols, work);
      if data.Some? {
        pending := work;
      }
    }

    method DecodeBlock(data: seq<byte>, n: nat) returns (d: Decoding)
      requires Valid()
      modifies this`pending
      ensures Valid() && Value() == Sessions.DecodeBlock(old(Value()), data, n).0
      ensures Matches(d, Sessions.DecodeBlock(old(Value()), data, n).1)
    {
      hide GoodState;
      var work := new V4State.Copy(committed);
      d := Decode(data, n, work);
      if d.Columns? {
        pending := work;
      }
    }

    /** False is the RuntimeError of a commit without a pending block. */
    method Commit() returns (ok: bool)
      requires Valid()
      modifies this
      ensures Valid() && (ok <==> Sessions.Commit(old(Value())).Some?)
      ensures Value() == if ok then Sessions.Commit(old(Value())).value else old(Value())
    {
      if pending == null {
        return false;
      }
      committed, pending := pending, null;
      return true;
    }

    method Rollback()
      requires Valid()
      modifies this`pending
      ensures Valid() && Value() == Sessions.Rollback(old(Value()))
    {
      pending := null;
    }
  }
}
