/** The per-row coders over whole streams: what every table has counted, and what
    every payload is. */
module TokenRuns {
  import opened Wrappers
  import opened RankTables
  import opened TokenCoders
  import opened TokenLaws

  /** What a payload reads as: by the table it names, the id of that rank, or a
      missing id past its end; an error where the context was never seen or the
      table cannot be sorted. */
  lemma {:induction false} ReadBy(row: Row, prev: int, p: Payload)
    ensures p.Raw? ==> Read(row, prev, p) == Id(p.id)
    ensures Read(row, prev, p) == KeyError <==> p.InContext? && prev !in row.ctx
    ensures Read(row, prev, p) == TypeError <==>
              (p.InContext? && prev in row.ctx && Tied(row.ctx[prev])) || (p.InGlobal? && Tied(row.glob))
    ensures !p.Raw? && Read(row, prev, p).Id? ==>
              var t, id := if p.InContext? then Seen(row, prev) else row.glob, Read(row, prev, p).id;
              ByRank(t, KEYS, p.rank) == Some(id) || (ByRank(t, KEYS, p.rank) == None && id == 1024)
  {
  }

  /** The id before a column in a row, or -1 at the first column. */
  ghost function IdBefore(prev: Option<Column>, i: nat): int
    requires prev.Some? ==> i < |prev.value|
  {
    match prev
    case None => -1
    case Some(c) => c[i]
  }

  /** A column is coded row by row, each id after the one before it in its row, and
      each row learns its own id; it fails exactly where one row does. */
  lemma {:induction false} RowsEach(rows: seq<Row>, prev: Option<Column>, col: Column, k: nat)
    requires k <= |col| && Room(rows, prev, |col|)
    ensures RowsCoded(rows, prev, col, k).Some? <==> forall i :: 0 <= i < k ==> PayloadOf(rows[i], IdBefore(prev, i), col[i]).Some?
    ensures RowsCoded(rows, prev, col, k).Some? ==> forall i :: 0 <= i < k ==>
      && RowsCoded(rows, prev, col, k).value.0[i] == PayloadOf(rows[i], IdBefore(prev, i), col[i]).value
      && RowsCoded(rows, prev, col, k).value.1[i] == Learned(rows[i], IdBefore(prev, i), col[i])
    decreases k
  {
    hide PayloadOf, Learned;
    if k != 0 {
      RowsEach(rows, prev, col, k - 1);
    }
  }

  /** A frame is read the same way. */
  lemma {:induction false} ReadsEach(rows: seq<Row>, prev: Option<Column>, frame: seq<Payload>, k: nat)
    requires k <= |frame| && Room(rows, prev, |frame|)
    ensures RowsRead(rows, prev, frame, k).Some? <==> forall i :: 0 <= i < k ==> Read(rows[i], IdBefore(prev, i), frame[i]).Id?
    ensures RowsRead(rows, prev, frame, k).Some? ==>
      var (ids, after) := RowsRead(rows, prev, frame, k).value;
      && |ids| == k == |after|
      && forall i :: 0 <= i < k ==> Read(rows[i], IdBefore(prev, i), frame[i]) == Id(ids[i])
                                    && after[i] == Learned(rows[i], IdBefore(prev, i), ids[i])
    decreases k
  {
    hide Read, Learned;
    if k != 0 {
      ReadsEach(rows, prev, frame, k - 1);
    }
  }

  /** The same before column `n` of a stream. */
  ghost function Prior(cols: seq<Column>, n: nat, i: nat): int
    requires n < |cols|
  {
    if n == 0 || |cols[n - 1]| <= i then -1 else cols[n - 1][i]
  }

  /** How often a row had an id after another, and how often at all. */
  ghost function Met(cols: seq<Column>, i: nat, p: int, x: int): nat {
    if cols == [] then 0
    else
      var n := |cols| - 1;
      Met(cols[..n], i, p, x) + if i < |cols[n]| && cols[n][i] == x && Prior(cols, n, i) == p then 1 else 0
  }

  ghost function Times(cols: seq<Column>, i: nat, x: int): nat {
    if cols == [] then 0
    else
      var n := |cols| - 1;
      Times(cols[..n], i, x) + if i < |cols[n]| && cols[n][i] == x then 1 else 0
  }

  ghost function At(t: Table, x: int): int {
    if x in t then t[x] else 0
  }

  /** After any columns a row has counted each id as often as it stood in the row,
      and in each context as often as it stood there. */
  lemma {:induction false} TablesCount(rows: seq<Row>, cols: seq<Column>, i: nat, p: int, x: int)
    requires FramesOf(rows, cols).Some? && i < |rows|
    ensures var r := FramesOf(rows, cols).value.rows[i];
      && At(Seen(r, p), x) == At(Seen(rows[i], p), x) + Met(cols, i, p, x)
      && At(r.glob, x) == At(rows[i].glob, x) + Times(cols, i, x)
    decreases |cols|
  {
    hide RowsCoded, PayloadOf, Learned;
    if cols != [] {
      var n := |cols| - 1;
      var init, col := cols[..n], cols[n];
      TablesCount(rows, init, i, p, x);
      CodedFits(rows, init);
      var f := FramesOf(rows, init).value;
      RowsEach(f.rows, f.prev, col, |col|);
      if i < |col| {
        IdTeaches(f.rows[i], IdBefore(f.prev, i), col[i]);
        assert FramesOf(rows, cols).value.rows[i] == Learned(f.rows[i], IdBefore(f.prev, i), col[i]);
      } else {
        assert FramesOf(rows, cols).value.rows[i] == f.rows[i];
      }
    }
  }

  /** Every payload of a stream is its id coded by what its row counted before. */
  lemma {:induction false} CodedByCounts(rows: seq<Row>, cols: seq<Column>, j: nat, i: nat)
    requires FramesOf(rows, cols).Some? && j < |cols| && i < |cols[j]|
    ensures FramesOf(rows, cols[..j]).Some? && i < |rows| && (0 < j ==> i < |cols[j - 1]|)
    ensures var p := if j == 0 then -1 else cols[j - 1][i]; var frames := FramesOf(rows, cols).value.frames;
      |frames[j]| == |cols[j]| && Some(frames[j][i]) == PayloadOf(FramesOf(rows, cols[..j]).value.rows[i], p, cols[j][i])
    decreases |cols|
  {
    hide RowsCoded, PayloadOf, Learned;
    var n := |cols| - 1;
    var init := cols[..n];
    if j < n {
      CodedByCounts(rows, init, j, i);
      assert init[..j] == cols[..j];
    } else {
      CodedFits(rows, init);
      var f := FramesOf(rows, init).value;
      RowsEach(f.rows, f.prev, cols[n], |cols[n]|);
    }
  }
}
