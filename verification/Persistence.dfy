/** Saving and loading a shared state. JSON objects have string keys only, so
    every integer key goes through its decimal text and every pair key through
    `a,b`; objects with fixed field names are records here. */
module Persistence {
  import opened Wrappers
  import opened Sequences
  import opened DecimalText
  import opened FreqTables
  import opened RowModels
  import opened Codec

  datatype SavedTable = SavedTable(f: map<string, int>, t: int)

  datatype SavedRows = SavedRows(ctx: map<string, SavedTable>, glob: SavedTable)

  /** `ctx2` may be absent in what an older build saved. */
  datatype SavedState = SavedState(
    nRows: nat,
    models: seq<SavedRows>,
    cols: seq<Column>,
    dictTable: SavedTable,
    ctx: map<string, SavedTable>,
    ctx2: Option<map<string, SavedTable>>)

  // ---- pairs

  function PairText(k: (int, int)): string {
    IntText(k.0) + "," + IntText(k.1)
  }

  /** Python's `split(',')`. */
  function Split(s: string): (parts: seq<string>)
    ensures 1 <= |parts|
  {
    if s == [] then [[]]
    else
      var rest := Split(s[1..]);
      if s[0] == ',' then [[]] + rest else [[s[0]] + rest[0]] + rest[1..]
  }

  lemma {:induction false} SplitPlain(s: string)
    requires ',' !in s
    ensures Split(s) == [s]
    decreases |s|
  {
    if s != [] {
      SplitPlain(s[1..]);
      assert [s[0]] + s[1..] == s;
    }
  }

  lemma {:induction false} SplitTwo(a: string, b: string)
    requires ',' !in a && ',' !in b
    ensures Split(a + "," + b) == [a, b]
    decreases |a|
  {
    var s := a + "," + b;
    if a == [] {
      assert s[0] == ',' && s[1..] == b;
      SplitPlain(b);
    } else {
      assert s[1..] == a[1..] + "," + b;
      SplitTwo(a[1..], b);
      assert [s[0]] + a[1..] == a;
    }
  }

  /** Two integers separated by one comma; anything else is a ValueError. */
  function ParsePair(s: string): Option<(int, int)> {
    var parts := Split(s);
    if |parts| != 2 then None
    else
      match (ParseInt(parts[0]), ParseInt(parts[1]))
      case (Some(a), Some(b)) => Some((a, b))
      case _ => None
  }

  lemma {:induction false} PairTextParses(k: (int, int))
    ensures ParsePair(PairText(k)) == Some(k)
  {
    IntTextParses(k.0);
    IntTextParses(k.1);
    SplitTwo(IntText(k.0), IntText(k.1));
  }

  // ---- objects keyed by text

  ghost predicate TextRoundTrips<K(!new)>(text: K -> string, parse: string -> Option<K>) {
    forall k :: parse(text(k)) == Some(k)
  }

  /** A dictionary with every key replaced by its text. */
  ghost function Keyed<K(!new), V>(m: map<K, V>, text: K -> string, parse: string -> Option<K>): map<string, V>
    requires TextRoundTrips(text, parse)
  {
    assert forall k, k' | k in m && k' in m && text(k) == text(k') :: k == k' by {
      forall k, k' | k in m && k' in m && text(k) == text(k') ensures k == k' {
        assert parse(text(k)) == Some(k) && parse(text(k')) == Some(k');
      }
    }
    map k | k in m :: text(k) := m[k]
  }

  /** The dictionary a loader builds back. None: some key is not the text of
      a key, or two of them name the same one. */
  ghost function Unkeyed<K(!new), V>(fields: map<string, V>, parse: string -> Option<K>): Option<map<K, V>> {
    if (forall s <- fields :: parse(s).Some?)
       && (forall s, s' | s in fields && s' in fields && parse(s) == parse(s') :: s == s')
    then Some(map s | s in fields :: parse(s).value := fields[s])
    else None
  }

  lemma {:induction false} KeyedRoundTrip<K(!new), V>(m: map<K, V>, text: K -> string, parse: string -> Option<K>)
    requires TextRoundTrips(text, parse)
    ensures Unkeyed(Keyed(m, text, parse), parse) == Some(m)
  {
    var fields := Keyed(m, text, parse);
    KeyedFields(m, text, parse);
    hide Keyed;
    var back := Unkeyed(fields, parse).value;
    forall k | k in m ensures k in back && back[k] == m[k] {
      assert parse(text(k)) == Some(k);
    }
    assert back.Keys == m.Keys;
    assert back == m;
  }

  /** Every field is the text of its key. */
  lemma KeyedFields<K(!new), V>(m: map<K, V>, text: K -> string, parse: string -> Option<K>)
    requires TextRoundTrips(text, parse)
    ensures var fields := Keyed(m, text, parse);
      && (forall k <- m :: text(k) in fields && fields[text(k)] == m[k])
      && forall s <- fields :: parse(s).Some? && parse(s).value in m && s == text(parse(s).value)
  {
    var fields := Keyed(m, text, parse);
    forall s | s in fields ensures parse(s).Some? && parse(s).value in m && s == text(parse(s).value) {
      var k :| k in m && s == text(k);
      assert parse(text(k)) == Some(k);
    }
  }

  // ---- tables

  lemma TextsParse()
    ensures TextRoundTrips(IntText, ParseInt) && TextRoundTrips(PairText, ParsePair)
  {
    forall n: int ensures ParseInt(IntText(n)) == Some(n) { IntTextParses(n); }
    forall k: (int, int) ensures ParsePair(PairText(k)) == Some(k) { PairTextParses(k); }
  }

  ghost function SaveTable(t: Table): SavedTable {
    TextsParse();
    SavedTable(Keyed(t.freq, IntText, ParseInt), t.total)
  }

  ghost function LoadTable(j: SavedTable): Option<Table> {
    match Unkeyed(j.f, ParseInt)
    case None => None
    case Some(freq) => Some(Table(freq, j.t))
  }

  lemma TableRoundTrip(t: Table)
    ensures LoadTable(SaveTable(t)) == Some(t)
  {
    TextsParse();
    KeyedRoundTrip(t.freq, IntText, ParseInt);
  }

  ghost function SaveEach<K>(m: map<K, Table>): map<K, SavedTable> {
    map k | k in m :: SaveTable(m[k])
  }

  ghost function LoadEach<K>(m: map<K, SavedTable>): Option<map<K, Table>> {
    if forall k <- m :: LoadTable(m[k]).Some? then Some(map k | k in m :: LoadTable(m[k]).value) else None
  }

  ghost function SaveTables<K(!new)>(m: map<K, Table>, text: K -> string, parse: string -> Option<K>): map<string, SavedTable>
    requires TextRoundTrips(text, parse)
  {
    Keyed(SaveEach(m), text, parse)
  }

  ghost function LoadTables<K(!new)>(j: map<string, SavedTable>, parse: string -> Option<K>): Option<map<K, Table>> {
    match Unkeyed(j, parse)
    case None => None
    case Some(m) => LoadEach(m)
  }

  lemma EachRoundTrip<K>(m: map<K, Table>)
    ensures LoadEach(SaveEach(m)) == Some(m)
  {
    forall k | k in m ensures LoadTable(SaveEach(m)[k]) == Some(m[k]) {
      TableRoundTrip(m[k]);
    }
    assert LoadEach(SaveEach(m)).value == m;
  }

  lemma TablesRoundTrip<K(!new)>(m: map<K, Table>, text: K -> string, parse: string -> Option<K>)
    requires TextRoundTrips(text, parse)
    ensures LoadTables(SaveTables(m, text, parse), parse) == Some(m)
  {
    KeyedRoundTrip(SaveEach(m), text, parse);
    EachRoundTrip(m);
  }

  // ---- rows and columns

  ghost function SaveRows(m: Rows): SavedRows {
    TextsParse();
    SavedRows(SaveTables(m.ctx, IntText, ParseInt), SaveTable(m.glob))
  }

  ghost function LoadRows(j: SavedRows): Option<Rows> {
    match (LoadTables(j.ctx, ParseInt), LoadTable(j.glob))
    case (Some(ctx), Some(glob)) => Some(Rows(ctx, glob))
    case _ => None
  }

  lemma RowsRoundTrip(m: Rows)
    ensures LoadRows(SaveRows(m)) == Some(m)
  {
    TextsParse();
    TablesRoundTrip(m.ctx, IntText, ParseInt);
    TableRoundTrip(m.glob);
  }

  lemma {:induction false} ByColRebuilt(d: Dict, nRows: nat)
    requires GoodDict(d, nRows)
    ensures Positions(d.cols) == d.byCol
  {
    hide Positions;
    forall c ensures c in Positions(d.cols) <==> c in d.byCol {
      LastPosition(d.cols, c);
      if c in d.byCol {
        assert d.cols[d.byCol[c]] in d.cols;
      }
    }
    forall c | c in d.byCol && c in Positions(d.cols) ensures d.byCol[c] == Positions(d.cols)[c] {
      LastPosition(d.cols, c);
      assert d.cols[Positions(d.cols)[c]] == c;
    }
    assert Positions(d.cols).Keys == d.byCol.Keys;
  }

  // ---- the whole state

  ghost function Saved(st: State): SavedState {
    TextsParse();
    SavedState(
      st.nRows,
      seq(|st.models|, i requires 0 <= i < |st.models| => SaveRows(st.models[i])),
      st.dict.cols,
      SaveTable(st.dict.table),
      SaveTables(st.ctx, IntText, ParseInt),
      Some(SaveTables(st.ctx2, PairText, ParsePair)))
  }

  /** Row models are loaded pairwise: rows without a saved model stay fresh,
      saved models without a row are ignored. */
  ghost function LoadModels(js: seq<SavedRows>, nRows: nat): Option<seq<Rows>> {
    if forall i :: 0 <= i < nRows && i < |js| ==> LoadRows(js[i]).Some?
    then Some(seq(nRows, i requires 0 <= i < nRows => if i < |js| then LoadRows(js[i]).GetOr(FRESH_ROWS) else FRESH_ROWS))
    else None
  }

  ghost function Loaded(j: SavedState): Option<State> {
    match (LoadModels(j.models, j.nRows), LoadTable(j.dictTable), LoadTables(j.ctx, ParseInt),
           LoadTables(j.ctx2.GetOr(map[]), ParsePair))
    case (Some(models), Some(table), Some(ctx), Some(ctx2)) =>
      Some(State(j.nRows, models, Dict(Positions(j.cols), j.cols, table), ctx, ctx2))
    case _ => None
  }

  lemma ModelsRoundTrip(st: State)
    requires |st.models| == st.nRows
    ensures LoadModels(Saved(st).models, st.nRows) == Some(st.models)
  {
    var js := Saved(st).models;
    forall i | 0 <= i < st.nRows ensures LoadRows(js[i]) == Some(st.models[i]) {
      RowsRoundTrip(st.models[i]);
    }
    assert LoadModels(js, st.nRows).value == st.models;
  }

  /** Saving and loading is the identity on every state a session can hold. */
  lemma {:induction false} StateRoundTrip(st: State)
    requires GoodState(st)
    ensures Loaded(Saved(st)) == Some(st)
  {
    hide GoodDict, LoadTables, SaveTables, LoadTable, SaveTable, LoadModels, SaveRows, Positions;
    TextsParse();
    ModelsRoundTrip(st);
    ByColRebuilt(st.dict, st.nRows);
    TableRoundTrip(st.dict.table);
    TablesRoundTrip(st.ctx, IntText, ParseInt);
    TablesRoundTrip(st.ctx2, PairText, ParsePair);
  }
}
