/** The adaptive codec is lossless: what `_encode_adaptive` writes,
    `_decode_adaptive` reads back, and both ends learn the same state. */
module CodecProofs {
  import opened Wrappers
  import opened RangeCoder
  import opened FreqTables
  import opened RowModels
  import opened Codec

  // ---- every interval of a block can be coded

  lemma {:induction false} RowsCodable(models: seq<Rows>, prev: Option<Column>, col: Column, row: nat)
    requires row <= |models| == |col| && (prev.Some? ==> |prev.value| == |col|)
    requires forall i :: 0 <= i < |models| ==> GoodRows(models[i]) && 0 <= col[i] < RAW_SYMBOLS
    ensures AllCodable(RowIntervals(models, prev, col, row))
    decreases |models| - row
  {
    if row < |models| {
      SymbolCodable(models[row], Context(prev, row), col[row]);
      RowsCodable(models, prev, col, row + 1);
    }
  }

  lemma TableCodable(t: Table, cid: Option<int>)
    requires Good(t)
    ensures Codable(IntervalOf(t, ESCAPE))
    ensures cid.Some? && cid.value in t.freq ==> Codable(IntervalOf(t, cid.value))
  {
    IntervalCodable(t, ESCAPE);
    if cid.Some? && cid.value in t.freq {
      IntervalCodable(t, cid.value);
    }
  }

  lemma FrameCodable(st: State, c: Cursor, col: Column)
    requires GoodState(st) && GoodCursor(c, st.nRows) && IsColumn(st.nRows, col) && c.p1 in st.ctx
    ensures AllCodable(GlobalIntervals(st, c, Cid(st, col), col))
    ensures AllCodable(Order1Intervals(st, c, Cid(st, col), col))
    ensures AllCodable(FrameIntervals(st, c, col))
  {
    hide GoodRows, RowIntervals, IntervalOf;
    var cid := Cid(st, col);
    RowsCodable(st.models, c.prev, col, 0);
    TableCodable(st.dict.table, cid);
    TableCodable(st.ctx[c.p1], cid);
    if Key(c) in st.ctx2 {
      TableCodable(st.ctx2[Key(c)], cid);
    }
  }

  lemma {:induction false} BlockCodable(st: State, c: Cursor, cols: seq<Column>)
    requires GoodState(st) && GoodCursor(c, st.nRows) && AreColumns(st.nRows, cols)
    ensures AllCodable(BlockIntervals(st, c, cols))
    decreases |cols|
  {
    hide FrameIntervals, Prepared, Step, GoodState;
    if cols != [] {
      PreparedGood(st, c);
      FrameCodable(Prepared(st, c), c, cols[0]);
      var (st', c') := Step(st, c, cols[0]);
      BlockCodable(st', c', cols[1..]);
    }
  }

  // ---- the decoder mirrors each level

  lemma {:induction false} ReadRowsTracks(
      r: Reader, s: Span, models: seq<Rows>, prev: Option<Column>, col: Column, row: nat, rest: seq<Interval>)
      returns (t: Span)
    requires row <= |models| == |col| && (prev.Some? ==> |prev.value| == |col|)
    requires forall i :: 0 <= i < |models| ==> GoodRows(models[i]) && 0 <= col[i] < RAW_SYMBOLS
    requires Ready(s) && Sane(r) && AllCodable(rest)
    requires AllCodable(RowIntervals(models, prev, col, row) + rest)
    requires Tracks(r, s, RowIntervals(models, prev, col, row) + rest)
    ensures ReadRows(r, models, prev, row).Some? && ReadRows(r, models, prev, row).value.0 == col[row..]
    ensures Ready(t) && Tracks(ReadRows(r, models, prev, row).value.1, t, rest)
    decreases |models| - row
  {
    hide GoodRows, SymbolIntervals, Tracks, Ready, ReadSymbol;
    if row == |models| {
      assert [] + rest == rest;
      t := s;
    } else {
      var head := SymbolIntervals(models[row], Context(prev, row), col[row]);
      var tail := RowIntervals(models, prev, col, row + 1);
      Suffix(head, tail, rest);
      var s1 := ReadSymbolTracks(r, s, models[row], Context(prev, row), col[row], tail + rest);
      t := ReadRowsTracks(ReadSymbol(r, models[row], Context(prev, row)).value.1, s1, models, prev, col, row + 1, rest);
    }
  }

  /** The frame found is the frame sent. */
  predicate Is(f: Found, st: State, col: Column) {
    f.col == col && f.cid == Cid(st, col) && (f.byRows <==> f.cid.None?)
  }

  lemma ReadGlobalTracks(r: Reader, s: Span, st: State, c: Cursor, col: Column, rest: seq<Interval>) returns (t: Span)
    requires GoodState(st) && GoodCursor(c, st.nRows) && IsColumn(st.nRows, col)
    requires Ready(s) && Sane(r) && AllCodable(rest)
    requires AllCodable(GlobalIntervals(st, c, Cid(st, col), col) + rest)
    requires Tracks(r, s, GlobalIntervals(st, c, Cid(st, col), col) + rest)
    ensures ReadGlobal(r, st, c).Some? && Is(ReadGlobal(r, st, c).value.0, st, col)
    ensures Ready(t) && Tracks(ReadGlobal(r, st, c).value.1, t, rest)
  {
    hide GoodRows, RowIntervals, Tracks, Ready, ReadFrom, ReadRows;
    var cid := Cid(st, col);
    var g := st.dict.table;
    if cid.Some? {
      assert GlobalIntervals(st, c, cid, col) == [IntervalOf(g, cid.value)];
      ReadFromTracks(r, s, g, cid.value, rest);
      t := Coded(s, IntervalOf(g, cid.value)).1;
    } else {
      var rows := RowIntervals(st.models, c.prev, col, 0);
      Suffix([IntervalOf(g, ESCAPE)], rows, rest);
      ReadFromTracks(r, s, g, ESCAPE, rows + rest);
      t := ReadRowsTracks(ReadFrom(r, g).value.1, Coded(s, IntervalOf(g, ESCAPE)).1, st.models, c.prev, col, 0, rest);
      assert col[0..] == col;
    }
  }

  lemma ReadOrder1Tracks(r: Reader, s: Span, st: State, c: Cursor, col: Column, rest: seq<Interval>) returns (t: Span)
    requires GoodState(st) && GoodCursor(c, st.nRows) && IsColumn(st.nRows, col) && c.p1 in st.ctx
    requires Ready(s) && Sane(r) && AllCodable(rest)
    requires AllCodable(Order1Intervals(st, c, Cid(st, col), col) + rest)
    requires Tracks(r, s, Order1Intervals(st, c, Cid(st, col), col) + rest)
    ensures ReadOrder1(r, st, c).Some? && Is(ReadOrder1(r, st, c).value.0, st, col)
    ensures Ready(t) && Tracks(ReadOrder1(r, st, c).value.1, t, rest)
  {
    hide GoodRows, RowIntervals, Tracks, Ready, ReadFrom, ReadGlobal, GlobalIntervals;
    var cid := Cid(st, col);
    var t1 := st.ctx[c.p1];
    if cid.Some? && cid.value in t1.freq {
      ReadFromTracks(r, s, t1, cid.value, rest);
      t := Coded(s, IntervalOf(t1, cid.value)).1;
    } else {
      var more := GlobalIntervals(st, c, cid, col);
      Suffix([IntervalOf(t1, ESCAPE)], more, rest);
      ReadFromTracks(r, s, t1, ESCAPE, more + rest);
      t := ReadGlobalTracks(ReadFrom(r, t1).value.1, Coded(s, IntervalOf(t1, ESCAPE)).1, st, c, col, rest);
    }
  }

  lemma {:induction false} ReadFrameTracks(r: Reader, s: Span, st: State, c: Cursor, col: Column, rest: seq<Interval>) returns (t: Span)
    requires GoodState(st) && GoodCursor(c, st.nRows) && IsColumn(st.nRows, col) && c.p1 in st.ctx
    requires Ready(s) && Sane(r) && AllCodable(rest)
    requires AllCodable(FrameIntervals(st, c, col) + rest)
    requires Tracks(r, s, FrameIntervals(st, c, col) + rest)
    ensures ReadFrame(r, st, c).Some? && Is(ReadFrame(r, st, c).value.0, st, col)
    ensures Ready(t) && Tracks(ReadFrame(r, st, c).value.1, t, rest)
  {
    hide GoodRows, RowIntervals, Tracks, Ready, ReadFrom, ReadOrder1, Order1Intervals;
    var cid := Cid(st, col);
    if Key(c) !in st.ctx2 {
      t := ReadOrder1Tracks(r, s, st, c, col, rest);
    } else {
      var t2 := st.ctx2[Key(c)];
      if cid.Some? && cid.value in t2.freq {
        ReadFromTracks(r, s, t2, cid.value, rest);
        t := Coded(s, IntervalOf(t2, cid.value)).1;
      } else {
        var more := Order1Intervals(st, c, cid, col);
        Suffix([IntervalOf(t2, ESCAPE)], more, rest);
        ReadFromTracks(r, s, t2, ESCAPE, more + rest);
        t := ReadOrder1Tracks(ReadFrom(r, t2).value.1, Coded(s, IntervalOf(t2, ESCAPE)).1, st, c, col, rest);
      }
    }
  }

  /** The decoder's update of the frame it found is the encoder's update of
      the frame it sent. */
  lemma {:induction false} StepsAgree(st: State, c: Cursor, col: Column, f: Found)
    requires GoodState(st) && GoodCursor(c, st.nRows) && IsColumn(st.nRows, col)
    requires GoodState(Prepared(st, c)) && c.p1 in Prepared(st, c).ctx && Prepared(st, c).nRows == st.nRows
    requires Is(f, Prepared(st, c), col)
    ensures DecoderStep(Prepared(st, c), c, f) == Step(st, c, col)
  {
    hide GoodState, RowsLearned, Learned, Prepared, Hit;
    KnownHits(Prepared(st, c), c, col);
  }

  lemma ReadNextTracks(r: Reader, s: Span, st: State, c: Cursor, cols: seq<Column>) returns (t: Span)
    requires GoodState(st) && GoodCursor(c, st.nRows) && AreColumns(st.nRows, cols) && cols != []
    requires Ready(s) && Sane(r)
    requires AllCodable(BlockIntervals(st, c, cols)) && Tracks(r, s, BlockIntervals(st, c, cols))
    ensures ReadNext(r, st, c).Some?
    ensures var n := ReadNext(r, st, c).value;
      && Sane(n.reader) && GoodState(n.st) && n.st.nRows == st.nRows && GoodCursor(n.cursor, n.st.nRows)
      && n.col == cols[0]
      && (n.st, n.cursor) == Step(st, c, cols[0])
      && AreColumns(n.st.nRows, cols[1..])
      && AllCodable(BlockIntervals(n.st, n.cursor, cols[1..]))
      && Ready(t) && Tracks(n.reader, t, BlockIntervals(n.st, n.cursor, cols[1..]))
  {
    hide FrameIntervals, Prepared, Step, ReadFrame, DecoderStep, Tracks, GoodState;
    PreparedGood(st, c);
    var st1 := Prepared(st, c);
    var (st2, c2) := Step(st, c, cols[0]);
    BlockCodable(st2, c2, cols[1..]);
    t := ReadFrameTracks(r, s, st1, c, cols[0], BlockIntervals(st2, c2, cols[1..]));
    StepsAgree(st, c, cols[0], ReadFrame(r, st1, c).value.0);
  }

  /** One turn of both loops. */
  lemma Unrolled(r: Reader, st: State, c: Cursor, cols: seq<Column>, n: Turn)
    requires Sane(r) && GoodState(st) && GoodCursor(c, st.nRows) && AreColumns(st.nRows, cols) && cols != []
    requires Sane(n.reader) && GoodState(n.st) && n.st.nRows == st.nRows && GoodCursor(n.cursor, n.st.nRows)
    requires ReadNext(r, st, c) == Some(n)
    requires n.col == cols[0] && (n.st, n.cursor) == Step(st, c, cols[0])
    requires AreColumns(n.st.nRows, cols[1..])
    requires ReadBlock(n.reader, n.st, n.cursor, |cols[1..]|) == Some((cols[1..], Walked(n.st, n.cursor, cols[1..])))
    ensures ReadBlock(r, st, c, |cols|) == Some((cols, Walked(st, c, cols)))
  {
    hide GoodState, ReadNext, Step;
    assert [cols[0]] + cols[1..] == cols;
  }

  lemma {:induction false} ReadBlockTracks(r: Reader, s: Span, st: State, c: Cursor, cols: seq<Column>)
    requires GoodState(st) && GoodCursor(c, st.nRows) && AreColumns(st.nRows, cols)
    requires Ready(s) && Sane(r)
    requires AllCodable(BlockIntervals(st, c, cols)) && Tracks(r, s, BlockIntervals(st, c, cols))
    ensures ReadBlock(r, st, c, |cols|) == Some((cols, Walked(st, c, cols)))
    decreases |cols|
  {
    hide GoodState;
    if cols != [] {
      var t := ReadNextTracks(r, s, st, c, cols);
      var n := ReadNext(r, st, c).value;
      ReadBlockTracks(n.reader, t, n.st, n.cursor, cols[1..]);
      Unrolled(r, st, c, cols, n);
    }
  }

  /** The bytes of `_encode_adaptive`. */
  function AdaptiveBytes(cols: seq<Column>, st: State): (b: seq<byte>)
    requires GoodState(st) && AreColumns(st.nRows, cols)
    ensures 4 <= |b|
  {
    BlockCodable(st, START, cols);
    Bytes(WHOLE, BlockIntervals(st, START, cols))
  }

  /** Lossless and synchronised: from equal states the decoder reads back
      exactly the columns and ends in the state the encoder ends in. */
  lemma {:induction false} AdaptiveRoundTrip(cols: seq<Column>, st: State)
    requires GoodState(st) && AreColumns(st.nRows, cols)
    ensures ReadBlock(Opened(AdaptiveBytes(cols, st)), st, START, |cols|) == Some((cols, Taught(st, cols)))
  {
    BlockCodable(st, START, cols);
    OpenedFeeds(AdaptiveBytes(cols, st));
    ReadBlockTracks(Opened(AdaptiveBytes(cols, st)), WHOLE, st, START, cols);
  }
}
