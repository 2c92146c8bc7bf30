/** The token layer: a joint dictionary coded by rank, and a per-row context
    coder. Encoder and decoder keep equal states. */
module TokenCoders {
  import opened Wrappers
  import opened Sequences
  import opened RankTables

  type Column = seq<int>

  // ---- the joint dictionary

  datatype Coder = Coder(entries: seq<Column>, indexOf: map<Column, int>, freq: seq<nat>)

  datatype Symbol = Known(rank: nat) | Novel(col: Column)

  function Fresh(): Coder {
    Coder([], map[], [])
  }

  /** Frequencies by entry id. */
  function Counts(freq: seq<nat>): (t: Table)
    ensures forall i :: i in t <==> 0 <= i < |freq|
    ensures forall i :: 0 <= i < |freq| ==> t[i] == freq[i]
  {
    map i | 0 <= i < |freq| :: freq[i]
  }

  /** Every state a run reaches, also one decoding what no encoder made: a
      column added twice has two entries, and its index is the later one. */
  ghost predicate Sound(c: Coder) {
    && |c.freq| == |c.entries|
    && (forall i :: 0 <= i < |c.entries| ==> c.entries[i] in c.indexOf && i <= c.indexOf[c.entries[i]])
    && forall col :: col in c.indexOf ==> 0 <= c.indexOf[col] < |c.entries| && c.entries[c.indexOf[col]] == col
  }

  function Touched(c: Coder, id: int): Coder
    requires 0 <= id < |c.freq|
  {
    c.(freq := c.freq[id := c.freq[id] + 1])
  }

  function Added(c: Coder, col: Column): Coder {
    Coder(c.entries + [col], c.indexOf[col := |c.entries|], c.freq + [1])
  }

  /** The symbol for a column; None when the states are broken. */
  function Coded(c: Coder, col: Column): Option<(Symbol, Coder)> {
    if col in c.indexOf then
      var id := c.indexOf[col];
      var rank := RankOf(Counts(c.freq), |c.entries|, id);
      if rank == None || !(0 <= id < |c.freq|) then None else Some((Known(rank.value), Touched(c, id)))
    else Some((Novel(col), Added(c, col)))
  }

  /** The column of a symbol; None for a rank the dictionary does not have. */
  function Restored(c: Coder, s: Symbol): Option<(Column, Coder)> {
    match s
    case Known(rank) =>
      var id := ByRank(Counts(c.freq), |c.entries|, rank);
      if id == None || !(0 <= id.value < |c.entries|) || |c.freq| != |c.entries| then None
      else Some((c.entries[id.value], Touched(c, id.value)))
    case Novel(col) => Some((col, Added(c, col)))
  }

  lemma StaysSound(c: Coder, s: Symbol)
    requires Sound(c) && Restored(c, s).Some?
    ensures Sound(Restored(c, s).value.1)
  {
  }

  /** One column: the decoder gets it back and reaches the encoder's state. */
  lemma ColumnRoundTrip(c: Coder, col: Column)
    requires Sound(c)
    ensures Coded(c, col).Some?
    ensures var (s, after) := Coded(c, col).value; Restored(c, s) == Some((col, after)) && Sound(after)
  {
    if col in c.indexOf {
      RankRoundTrip(Counts(c.freq), |c.entries|, c.indexOf[col]);
    }
    StaysSound(c, Coded(c, col).value.0);
  }

  function Encoded(c: Coder, cols: seq<Column>): Option<(seq<Symbol>, Coder)> {
    if cols == [] then Some(([], c))
    else
      match Encoded(c, cols[..|cols| - 1])
      case None => None
      case Some(r) =>
        match Coded(r.1, cols[|cols| - 1])
        case None => None
        case Some(s) => Some((r.0 + [s.0], s.1))
  }

  function Decoded(c: Coder, symbols: seq<Symbol>): Option<(seq<Column>, Coder)> {
    if symbols == [] then Some(([], c))
    else
      match Decoded(c, symbols[..|symbols| - 1])
      case None => None
      case Some(r) =>
        match Restored(r.1, symbols[|symbols| - 1])
        case None => None
        case Some(s) => Some((r.0 + [s.0], s.1))
  }

  /** Rank decoding undoes rank encoding, with equal final states. */
  lemma {:induction false} RoundTrip(c: Coder, cols: seq<Column>)
    requires Sound(c)
    ensures Encoded(c, cols).Some?
    ensures var (symbols, after) := Encoded(c, cols).value;
      Decoded(c, symbols) == Some((cols, after)) && Sound(after)
    decreases |cols|
  {
    hide Sound, Coded, Restored;
    if cols != [] {
      var init, col := cols[..|cols| - 1], cols[|cols| - 1];
      RoundTrip(c, init);
      var (symbols, mid) := Encoded(c, init).value;
      ColumnRoundTrip(mid, col);
      var all := symbols + [Coded(mid, col).value.0];
      assert all[..|all| - 1] == symbols;
      assert cols == init + [col];
    }
  }

  // ---- size

  function SymbolBits(s: Symbol, rawBits: nat): nat {
    match s
    case Known(rank) => 1 + GammaBits(rank)
    case Novel(_) => 1 + rawBits
  }

  function Bits(symbols: seq<Symbol>, rawBits: nat): nat {
    if symbols == [] then 0
    else Bits(symbols[..|symbols| - 1], rawBits) + SymbolBits(symbols[|symbols| - 1], rawBits)
  }

  // ---- persistence

  /** A coder saved as entries and counts loads as itself. */
  lemma {:induction false} Reloaded(c: Coder)
    requires Sound(c)
    ensures SameIndex(Positions(c.entries), c.indexOf)
  {
    hide Positions;
    forall col ensures col in Positions(c.entries) <==> col in c.indexOf {
      LastPosition(c.entries, col);
      if col in c.indexOf {
        assert c.entries[c.indexOf[col]] in c.entries;
      }
    }
    forall col | col in c.indexOf && col in Positions(c.entries) ensures Positions(c.entries)[col] == c.indexOf[col] {
      LastPosition(c.entries, col);
      assert c.entries[Positions(c.entries)[col]] == col;
    }
  }

  /** Two dictionaries with the same keys and the same values. */
  ghost predicate SameIndex(a: map<Column, int>, b: map<Column, int>) {
    (forall col :: col in a <==> col in b) && forall col :: col in a && col in b ==> a[col] == b[col]
  }

  // ---- per-row contexts

  const IDS := 1024

  /** Stands for Python's None, which a decoder learns as the id of a rank past
      its table; sorting it beside an id of the same frequency is a TypeError. */
  const NO_ID := IDS
  const KEYS := IDS + 1

  predicate Tied(t: Table) {
    NO_ID in t && exists x <- t :: x != NO_ID && t[x] == t[NO_ID]
  }
  const RAW_BITS_PER_ID := 10

  datatype Row = Row(ctx: map<int, Table>, glob: Table)

  datatype Payload = InContext(rank: nat) | InGlobal(rank: nat) | Raw(id: int)

  function NewRow(): Row {
    Row(map[], map[])
  }

  function Tally(t: Table, id: int): Table {
    t[id := (if id in t then t[id] else 0) + 1]
  }

  function ContextOf(row: Row, prev: int): Table {
    if prev in row.ctx then row.ctx[prev] else map[]
  }

  function Learned(row: Row, prev: int, id: int): Row {
    Row(row.ctx[prev := Tally(ContextOf(row, prev), id)], Tally(row.glob, id))
  }

  /** encode_symbol; None is the TypeError of a table that cannot be sorted. */
  function PayloadOf(row: Row, prev: int, id: int): Option<Payload> {
    var c := ContextOf(row, prev);
    if Tied(c) then None
    else
      match RankOf(c, KEYS, id)
      case Some(rank) => Some(InContext(rank))
      case None =>
        if Tied(row.glob) then None
        else
          match RankOf(row.glob, KEYS, id)
          case Some(rank) => Some(InGlobal(rank))
          case None => Some(Raw(id))
  }

  /** What a payload says: an id, or the error the source raises. */
  datatype Reading = KeyError | TypeError | Id(id: int)

  /** _by_rank. */
  function RankedId(t: Table, rank: nat): Reading {
    if Tied(t) then TypeError
    else
      match ByRank(t, KEYS, rank)
      case Some(id) => Id(id)
      case None => Id(NO_ID)
  }

  function Read(row: Row, prev: int, p: Payload): Reading {
    match p
    case InContext(rank) => if prev in row.ctx then RankedId(row.ctx[prev], rank) else KeyError
    case InGlobal(rank) => RankedId(row.glob, rank)
    case Raw(id) => Id(id)
  }

  function Cost(p: Payload): nat {
    match p
    case InContext(rank) => 1 + GammaBits(rank)
    case InGlobal(rank) => 2 + GammaBits(rank)
    case Raw(_) => 2 + RAW_BITS_PER_ID
  }

  function FrameBits(frame: seq<Payload>): nat {
    if frame == [] then 0 else FrameBits(frame[..|frame| - 1]) + Cost(frame[|frame| - 1])
  }

  function FramesBits(frames: seq<seq<Payload>>): nat {
    if frames == [] then 0 else FramesBits(frames[..|frames| - 1]) + FrameBits(frames[|frames| - 1])
  }

  /** A codebook id read back in the same context is the id that was coded. */
  lemma {:induction false} PayloadReads(row: Row, prev: int, id: int)
    requires 0 <= id < IDS
    ensures PayloadOf(row, prev, id).Some? ==> Read(row, prev, PayloadOf(row, prev, id).value) == Id(id)
    ensures PayloadOf(row, prev, id) == None ==> Tied(ContextOf(row, prev)) || Tied(row.glob)
  {
    RankNone(ContextOf(row, prev), KEYS, id);
    RankNone(row.glob, KEYS, id);
    if id in ContextOf(row, prev) {
      RankRoundTrip(ContextOf(row, prev), KEYS, id);
    } else if id in row.glob {
      RankRoundTrip(row.glob, KEYS, id);
    }
  }

  /** The previous id of a row, or -1 before the first column. */
  function Previous(prev: Option<Column>, row: nat): int {
    if prev.Some? && row < |prev.value| then prev.value[row] else -1
  }

  /** The first `k` rows of a column, coded and learned. */
  function RowsCoded(rows: seq<Row>, prev: Option<Column>, col: Column, k: nat): (o: Option<(seq<Payload>, seq<Row>)>)
    requires k <= |col| <= |rows|
    ensures o.Some? ==> |o.value.0| == k == |o.value.1|
  {
    if k == 0 then Some(([], []))
    else
      var p := Previous(prev, k - 1);
      match (RowsCoded(rows, prev, col, k - 1), PayloadOf(rows[k - 1], p, col[k - 1]))
      case (Some(r), Some(x)) => Some((r.0 + [x], r.1 + [Learned(rows[k - 1], p, col[k - 1])]))
      case _ => None
  }

  function RowsRead(rows: seq<Row>, prev: Option<Column>, frame: seq<Payload>, k: nat): Option<(Column, seq<Row>)>
    requires k <= |frame| <= |rows|
  {
    if k == 0 then Some(([], []))
    else
      match RowsRead(rows, prev, frame, k - 1)
      case None => None
      case Some(r) =>
        var p := Previous(prev, k - 1);
        match Read(rows[k - 1], p, frame[k - 1])
        case Id(id) => Some((r.0 + [id], r.1 + [Learned(rows[k - 1], p, id)]))
        case _ => None
  }

  lemma {:induction false} RowsRoundTrip(rows: seq<Row>, prev: Option<Column>, col: Column, frame: seq<Payload>, k: nat)
    requires k <= |col| == |frame| <= |rows| && (forall i :: 0 <= i < |col| ==> 0 <= col[i] < IDS)
    requires RowsCoded(rows, prev, col, |col|).Some? && frame == RowsCoded(rows, prev, col, |col|).value.0
    ensures RowsCoded(rows, prev, col, k).Some?
    ensures RowsRead(rows, prev, frame, k) == Some((col[..k], RowsCoded(rows, prev, col, k).value.1))
    decreases k
  {
    hide PayloadOf, Read, Learned;
    CodedPrefix(rows, prev, col, k, |col|);
    if k != 0 {
      RowsRoundTrip(rows, prev, col, frame, k - 1);
      PayloadReads(rows[k - 1], Previous(prev, k - 1), col[k - 1]);
      assert RowsCoded(rows, prev, col, k).value.0[k - 1] == frame[k - 1];
      assert col[..k] == col[..k - 1] + [col[k - 1]];
    }
  }

  lemma {:induction false} CodedPrefix(rows: seq<Row>, prev: Option<Column>, col: Column, k: nat, n: nat)
    requires k <= n <= |col| <= |rows| && RowsCoded(rows, prev, col, n).Some?
    ensures RowsCoded(rows, prev, col, k).Some?
    ensures RowsCoded(rows, prev, col, k).value.0 == RowsCoded(rows, prev, col, n).value.0[..k]
    decreases n
  {
    hide PayloadOf, Learned;
    if k != n {
      CodedPrefix(rows, prev, col, k, n - 1);
    }
  }

  /** Tables that never learned a missing id; a coder of codebook ids keeps them so. */
  ghost predicate Clean(row: Row) {
    NO_ID !in row.glob && forall k :: k in row.ctx ==> NO_ID !in row.ctx[k]
  }

  ghost predicate AllClean(rows: seq<Row>) {
    forall i :: 0 <= i < |rows| ==> Clean(rows[i])
  }

  lemma LearnedClean(row: Row, prev: int, id: int)
    requires Clean(row) && id != NO_ID
    ensures Clean(Learned(row, prev, id)) && !Tied(ContextOf(row, prev)) && !Tied(row.glob)
  {
  }

  lemma {:induction false} CleanCodes(rows: seq<Row>, prev: Option<Column>, col: Column, k: nat)
    requires k <= |col| <= |rows| && AllClean(rows) && forall i :: 0 <= i < |col| ==> 0 <= col[i] < IDS
    ensures RowsCoded(rows, prev, col, k).Some? && AllClean(RowsCoded(rows, prev, col, k).value.1)
    decreases k
  {
    hide PayloadOf, Learned, Clean, Tied;
    if k != 0 {
      CleanCodes(rows, prev, col, k - 1);
      LearnedClean(rows[k - 1], Previous(prev, k - 1), col[k - 1]);
      PayloadReads(rows[k - 1], Previous(prev, k - 1), col[k - 1]);
    }
  }

  ghost predicate Ids(cols: seq<Column>) {
    forall c :: c in cols ==> forall i :: 0 <= i < |c| ==> 0 <= c[i] < IDS
  }

  /** Room for a column or a frame: a coder for each row, and an id before it;
      otherwise the source raises IndexError. */
  predicate Room(rows: seq<Row>, prev: Option<Column>, n: nat) {
    n <= |rows| && (prev.Some? ==> n <= |prev.value|)
  }

  datatype Frames = Frames(frames: seq<seq<Payload>>, rows: seq<Row>, prev: Option<Column>)

  /** encode_v2, column by column. */
  function FramesOf(rows: seq<Row>, cols: seq<Column>): (o: Option<Frames>)
    ensures o.Some? ==> |o.value.rows| == |rows| && |o.value.frames| == |cols|
  {
    if cols == [] then Some(Frames([], rows, None))
    else
      match FramesOf(rows, cols[..|cols| - 1])
      case None => None
      case Some(f) =>
        var col := cols[|cols| - 1];
        if !Room(f.rows, f.prev, |col|) then None
        else
          match RowsCoded(f.rows, f.prev, col, |col|)
          case None => None
          case Some(r) => Some(Frames(f.frames + [r.0], r.1 + f.rows[|col|..], Some(col)))
  }

  /** No column is longer than the one before it, nor than the list of coders. */
  ghost predicate Fitting(cols: seq<Column>, n: nat) {
    forall i :: 0 <= i < |cols| ==> FitsAt(cols, i, n)
  }

  ghost predicate FitsAt(cols: seq<Column>, i: nat, n: nat)
    requires i < |cols|
  {
    |cols[i]| <= if i == 0 then n else |cols[i - 1]|
  }

  lemma FittingMore(cols: seq<Column>, n: nat)
    requires cols != []
    ensures Fitting(cols, n) <==> (Fitting(cols[..|cols| - 1], n) && FitsAt(cols, |cols| - 1, n))
  {
    var init := cols[..|cols| - 1];
    assert forall i :: 0 <= i < |init| ==> (FitsAt(init, i, n) <==> FitsAt(cols, i, n));
  }

  lemma {:induction false} CodedFits(rows: seq<Row>, cols: seq<Column>)
    requires FramesOf(rows, cols).Some?
    ensures Fitting(cols, |rows|)
    ensures var prev := FramesOf(rows, cols).value.prev;
      prev == (if cols == [] then None else Some(cols[|cols| - 1])) && (prev.Some? ==> |prev.value| <= |rows|)
    decreases |cols|
  {
    hide RowsCoded, Fitting;
    if cols == [] {
      NothingFits(|rows|);
    } else {
      CodedFits(rows, cols[..|cols| - 1]);
      FittingMore(cols, |rows|);
    }
  }

  /** From clean tables columns of codebook ids are coded exactly when they fit. */
  lemma {:induction false} CodedExactly(rows: seq<Row>, cols: seq<Column>)
    requires AllClean(rows) && Ids(cols)
    ensures FramesOf(rows, cols).Some? <==> Fitting(cols, |rows|)
    ensures FramesOf(rows, cols).Some? ==> AllClean(FramesOf(rows, cols).value.rows)
    decreases |cols|
  {
    hide RowsCoded, Fitting, Clean;
    if cols == [] {
      NothingFits(|rows|);
    } else {
      var init, col := cols[..|cols| - 1], cols[|cols| - 1];
      assert cols == init + [col] && col in cols;
      CodedExactly(rows, init);
      FittingMore(cols, |rows|);
      if FramesOf(rows, init).Some? {
        CodedFits(rows, init);
        var f := FramesOf(rows, init).value;
        if Room(f.rows, f.prev, |col|) {
          CleanCodes(f.rows, f.prev, col, |col|);
        }
      }
    }
  }

  lemma NothingFits(n: nat)
    ensures Fitting([], n)
  {
  }

  datatype Columns = Columns(cols: seq<Column>, rows: seq<Row>, prev: Option<Column>)

  /** decode_v2. */
  function ColumnsOf(rows: seq<Row>, frames: seq<seq<Payload>>): Option<Columns> {
    if frames == [] then Some(Columns([], rows, None))
    else
      match ColumnsOf(rows, frames[..|frames| - 1])
      case None => None
      case Some(c) =>
        var frame := frames[|frames| - 1];
        if !Room(c.rows, c.prev, |frame|) then None
        else
          match RowsRead(c.rows, c.prev, frame, |frame|)
          case None => None
          case Some(r) => Some(Columns(c.cols + [r.0], r.1 + c.rows[|frame|..], Some(r.0)))
  }

  /** Per-row decoding undoes per-row encoding, with equal final states. */
  lemma {:induction false} FramesRoundTrip(rows: seq<Row>, cols: seq<Column>)
    requires Ids(cols)
    ensures AllClean(rows) ==> (FramesOf(rows, cols).Some? <==> Fitting(cols, |rows|))
    ensures FramesOf(rows, cols).Some? ==>
      var f := FramesOf(rows, cols).value; ColumnsOf(rows, f.frames) == Some(Columns(cols, f.rows, f.prev))
    decreases |cols|
  {
    hide RowsCoded, RowsRead, Fitting, AllClean;
    if AllClean(rows) {
      CodedExactly(rows, cols);
    }
    if cols != [] && FramesOf(rows, cols).Some? {
      var init, col := cols[..|cols| - 1], cols[|cols| - 1];
      assert cols == init + [col] && col in cols;
      FramesRoundTrip(rows, init);
      var before, f := FramesOf(rows, init).value, FramesOf(rows, cols).value;
      RowsRoundTrip(before.rows, before.prev, col, RowsCoded(before.rows, before.prev, col, |col|).value.0, |col|);
      assert f.frames[..|f.frames| - 1] == before.frames;
      assert col[..|col|] == col;
    }
  }
}
