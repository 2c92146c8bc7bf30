/** Per-row symbol models: previous symbol's table, then the row's global
    table, then the symbol itself out of 1024. */
module RowModels {
  import opened Wrappers
  import opened RangeCoder
  import opened FreqTables

  const RAW_SYMBOLS := 1024

  datatype Rows = Rows(ctx: map<int, Table>, glob: Table)

  const FRESH_ROWS := Rows(map[], FRESH_TABLE)

  predicate SymbolTable(t: Table) {
    Good(t) && forall s <- t.freq :: s < RAW_SYMBOLS
  }

  predicate GoodRows(m: Rows) {
    SymbolTable(m.glob) && forall p <- m.ctx :: SymbolTable(m.ctx[p])
  }

  function TableFor<K>(tables: map<K, Table>, key: K): Table {
    if key in tables then tables[key] else FRESH_TABLE
  }

  lemma FreshGood()
    ensures SymbolTable(FRESH_TABLE)
  {
    FreshTableGood();
  }

  /** The intervals `enc_symbol` codes. */
  function SymbolIntervals(m: Rows, prev: int, sym: int): seq<Interval>
    requires GoodRows(m)
  {
    var t := TableFor(m.ctx, prev);
    if sym in t.freq then [IntervalOf(t, sym)]
    else [IntervalOf(t, ESCAPE)] +
         if sym in m.glob.freq then [IntervalOf(m.glob, sym)]
         else [IntervalOf(m.glob, ESCAPE), Interval(sym, 1, RAW_SYMBOLS)]
  }

  function Updated(m: Rows, prev: int, sym: int): Rows
    requires GoodRows(m)
  {
    Rows(m.ctx[prev := Added(TableFor(m.ctx, prev), sym)], Added(m.glob, sym))
  }

  lemma {:induction false} UpdatedGood(m: Rows, prev: int, sym: int)
    requires GoodRows(m) && 0 <= sym < RAW_SYMBOLS
    ensures GoodRows(Updated(m, prev, sym))
  {
    FreshGood();
    AddedGood(TableFor(m.ctx, prev), sym);
    AddedGood(m.glob, sym);
  }

  lemma {:induction false} SymbolCodable(m: Rows, prev: int, sym: int)
    requires GoodRows(m) && 0 <= sym < RAW_SYMBOLS
    ensures AllCodable(SymbolIntervals(m, prev, sym))
  {
    FreshGood();
    var t := TableFor(m.ctx, prev);
    IntervalCodable(t, if sym in t.freq then sym else ESCAPE);
    IntervalCodable(m.glob, if sym in m.glob.freq then sym else ESCAPE);
  }

  /** A symbol sent without any table. */
  function ReadRaw(r: Reader): (o: Option<(int, Reader)>)
    requires Sane(r)
    ensures o.Some? ==> 0 <= o.value.0 < RAW_SYMBOLS && Sane(o.value.1)
  {
    PointInRange(r, RAW_SYMBOLS);
    var sym := Point(r, RAW_SYMBOLS);
    match Consumed(r, Interval(sym, 1, RAW_SYMBOLS))
    case None => None
    case Some(next) => Some((sym, next))
  }

  /** `dec_symbol` before its model update. */
  function ReadSymbol(r: Reader, m: Rows, prev: int): (o: Option<(int, Reader)>)
    requires Sane(r) && GoodRows(m)
    ensures o.Some? ==> 0 <= o.value.0 < RAW_SYMBOLS && Sane(o.value.1)
  {
    FreshGood();
    match ReadFrom(r, TableFor(m.ctx, prev))
    case None => None
    case Some((sym, r1)) =>
      if sym != ESCAPE then Some((sym, r1))
      else
        match ReadFrom(r1, m.glob)
        case None => None
        case Some((sym1, r2)) => if sym1 != ESCAPE then Some((sym1, r2)) else ReadRaw(r2)
  }

  lemma ReadRawTracks(r: Reader, s: Span, sym: int, rest: seq<Interval>) returns (t: Span)
    requires 0 <= sym < RAW_SYMBOLS && Ready(s) && AllCodable(rest)
    requires AllCodable([Interval(sym, 1, RAW_SYMBOLS)] + rest)
    requires Tracks(r, s, [Interval(sym, 1, RAW_SYMBOLS)] + rest)
    ensures Sane(r) && ReadRaw(r).Some? && ReadRaw(r).value.0 == sym
    ensures Ready(t) && Tracks(ReadRaw(r).value.1, t, rest)
  {
    var ivs := [Interval(sym, 1, RAW_SYMBOLS)] + rest;
    assert ivs[1..] == rest;
    ReaderStep(r, s, ivs);
    PointInRange(r, RAW_SYMBOLS);
    t := Coded(s, ivs[0]).1;
  }

  lemma {:induction false} ReadSymbolTracks(r: Reader, s: Span, m: Rows, prev: int, sym: int, rest: seq<Interval>) returns (t: Span)
    requires GoodRows(m) && 0 <= sym < RAW_SYMBOLS && Ready(s) && AllCodable(rest)
    requires AllCodable(SymbolIntervals(m, prev, sym) + rest)
    requires Tracks(r, s, SymbolIntervals(m, prev, sym) + rest)
    ensures Sane(r) && ReadSymbol(r, m, prev).Some? && ReadSymbol(r, m, prev).value.0 == sym
    ensures Ready(t) && Tracks(ReadSymbol(r, m, prev).value.1, t, rest)
  {
    FreshGood();
    var table := TableFor(m.ctx, prev);
    if sym in table.freq {
      ReadFromTracks(r, s, table, sym, rest);
      t := Coded(s, IntervalOf(table, sym)).1;
    } else {
      var escaped := if sym in m.glob.freq then [IntervalOf(m.glob, sym)]
                     else [IntervalOf(m.glob, ESCAPE), Interval(sym, 1, RAW_SYMBOLS)];
      SymbolCodable(m, prev, sym);
      Suffix([IntervalOf(table, ESCAPE)], escaped, rest);
      ReadFromTracks(r, s, table, ESCAPE, escaped + rest);
      var r1, s1 := ReadFrom(r, table).value.1, Coded(s, IntervalOf(table, ESCAPE)).1;
      if sym in m.glob.freq {
        ReadFromTracks(r1, s1, m.glob, sym, rest);
        t := Coded(s1, IntervalOf(m.glob, sym)).1;
      } else {
        var raw := [Interval(sym, 1, RAW_SYMBOLS)];
        Suffix([IntervalOf(m.glob, ESCAPE)], raw, rest);
        assert escaped == [IntervalOf(m.glob, ESCAPE)] + raw;
        ReadFromTracks(r1, s1, m.glob, ESCAPE, raw + rest);
        t := ReadRawTracks(ReadFrom(r1, m.glob).value.1, Coded(s1, IntervalOf(m.glob, ESCAPE)).1, sym, rest);
      }
    }
  }

  /** Concatenations of interval lists, regrouped. */
  lemma Suffix(a: seq<Interval>, b: seq<Interval>, rest: seq<Interval>)
    requires AllCodable(a + b + rest)
    ensures a + b + rest == a + (b + rest)
    ensures AllCodable(a) && AllCodable(b) && AllCodable(rest) && AllCodable(b + rest) && AllCodable(a + (b + rest))
  {
    var all := a + b + rest;
    assert a == all[..|a|] && b == all[|a|..|a + b|] && rest == all[|a + b|..] && b + rest == all[|a|..];
  }
}
