/** The token coders as objects; the rank cache is always a fresh sort. */
module TokenObjects {
  import opened Wrappers
  import opened RankTables
  import opened TokenCoders

  /** The rank of every id of a sorted order. */
  ghost predicate RanksOf(m: map<int, nat>, order: seq<int>) {
    && (forall x :: x in m <==> x in order)
    && forall r :: 0 <= r < |order| ==> order[r] in m && m[order[r]] == r
  }

  class RankCoder {
    var entries: seq<Column>
    var indexOf: map<Column, int>
    var freq: seq<nat>
    var rankCache: Option<map<int, nat>>

    constructor ()
      ensures Valid() && Value() == Fresh()
    {
      entries, indexOf, freq, rankCache := [], map[], [], None;
    }

    ghost function Value(): Coder
      reads this
    {
      Coder(entries, indexOf, freq)
    }

    /** The cache, when there is one, is what a fresh sort gives. */
    ghost predicate Valid()
      reads this
    {
      && Sound(Value())
      && (rankCache.Some? ==> RanksOf(rankCache.value, Ranked(Counts(freq), |entries|)))
    }

    method Ranks() returns (ranks: map<int, nat>)
      requires Valid()
      modifies this
      ensures Valid() && Value() == old(Value()) && rankCache == Some(ranks)
      ensures RanksOf(ranks, Ranked(Counts(freq), |entries|))
    {
      hide Sound, Ranked, Counts;
      if rankCache == None {
        var order := Ranked(Counts(freq), |entries|);
        var m := RankMap(Counts(freq), |entries|, order);
        rankCache := Some(m);
      }
      ranks := rankCache.value;
    }

    method Touch(id: int)
      requires Valid() && 0 <= id < |freq|
      modifies this
      ensures Valid() && Value() == Touched(old(Value()), id)
    {
      freq := freq[id := freq[id] + 1];
      rankCache := None;
    }

    method Add(col: Column)
      requires Valid()
      modifies this
      ensures Valid() && Value() == Added(old(Value()), col)
    {
      StaysSound(Value(), Novel(col));
      indexOf := indexOf[col := |entries|];
      entries := entries + [col];
      freq := freq + [1];
      rankCache := None;
    }

    /** One column: its symbol, as the coder's value says. */
    method EncodeColumn(col: Column) returns (s: Symbol)
      requires Valid()
      modifies this
      ensures Valid() && Coded(old(Value()), col) == Some((s, Value()))
    {
      hide Ranked, Counts, Sound;
      if col in indexOf {
        var id := indexOf[col];
        KnownId(Value(), col);
        var ranks := Ranks();
        RankInMap(ranks, Counts(freq), |entries|, id);
        s := Known(ranks[id]);
        Touch(id);
      } else {
        s := Novel(col);
        Add(col);
      }
    }

    /** One symbol; nothing changes on a rank the dictionary does not have. */
    method DecodeSymbol(s: Symbol) returns (col: Option<Column>)
      requires Valid()
      modifies this
      ensures Valid()
      ensures col.Some? ==> Restored(old(Value()), s) == Some((col.value, Value()))
      ensures col == None ==> Restored(old(Value()), s) == None && Value() == old(Value())
    {
      hide Ranked, Counts;
      match s
      case Known(rank) =>
        var ranks := Ranks();
        var byRank := Inverse(ranks, Counts(freq), |entries|);
        if rank !in byRank {
          return None;
        }
        var id := byRank[rank];
        RankedIds(Counts(freq), |entries|, rank);
        col := Some(entries[id]);
        Touch(id);
      case Novel(c) =>
        col := Some(c);
        Add(c);
    }

    method EncodeAll(cols: seq<Column>, nIds: nat) returns (out: seq<Symbol>, bits: nat)
      requires Valid()
      modifies this
      ensures Valid() && Encoded(old(Value()), cols) == Some((out, Value()))
      ensures bits == Bits(out, nIds * RAW_BITS_PER_ID)
    {
      hide Coded, Ranked, Encoded, Bits, SymbolBits, Sound;
      StartsEmpty(Value(), nIds * RAW_BITS_PER_ID);
      out, bits := [], 0;
      var k := 0;
      assert cols[..0] == [];
      while k < |cols|
        invariant 0 <= k <= |cols| && Valid()
        invariant Encoded(old(Value()), cols[..k]) == Some((out, Value()))
        invariant bits == Bits(out, nIds * RAW_BITS_PER_ID)
      {
        ghost var before := Value();
        var s := EncodeColumn(cols[k]);
        EncodedMore(old(Value()), cols, k, out, before, s, Value());
        BitsMore(out, s, nIds * RAW_BITS_PER_ID);
        out := out + [s];
        bits := bits + SymbolBits(s, nIds * RAW_BITS_PER_ID);
        k := k + 1;
      }
      assert cols[..k] == cols;
    }
  }

  lemma StartsEmpty(c: Coder, rawBits: nat)
    ensures Encoded(c, []) == Some(([], c)) && Bits([], rawBits) == 0
  {
  }

  lemma EncodedMore(c: Coder, cols: seq<Column>, k: nat, out: seq<Symbol>, mid: Coder, s: Symbol, after: Coder)
    requires k < |cols| && Encoded(c, cols[..k]) == Some((out, mid)) && Coded(mid, cols[k]) == Some((s, after))
    ensures Encoded(c, cols[..k + 1]) == Some((out + [s], after))
  {
    hide Coded;
    assert cols[..k + 1][..k] == cols[..k];
  }

  lemma BitsMore(out: seq<Symbol>, s: Symbol, rawBits: nat)
    ensures Bits(out + [s], rawBits) == Bits(out, rawBits) + SymbolBits(s, rawBits)
  {
    assert (out + [s])[..|out|] == out;
  }

  /** The first symbol that does not decode, and the state it leaves. */
  ghost predicate StoppedAt(c: Coder, symbols: seq<Symbol>, k: nat, at: Coder) {
    k < |symbols| && Decoded(c, symbols[..k + 1]) == None
    && Decoded(c, symbols[..k]).Some? && Decoded(c, symbols[..k]).value.1 == at
  }

  /** The decoder loop on any symbols: it gives what the coder's value says, or
      stops at the first rank the dictionary does not have. What an encoder in
      the same state made decodes to its columns. */
  method DecodeAll(coder: RankCoder, symbols: seq<Symbol>) returns (out: Option<seq<Column>>)
    requires coder.Valid()
    modifies coder
    ensures coder.Valid()
    ensures out.Some? ==> Decoded(old(coder.Value()), symbols) == Some((out.value, coder.Value()))
    ensures out == None ==> Decoded(old(coder.Value()), symbols) == None
    ensures out == None ==> exists k :: StoppedAt(old(coder.Value()), symbols, k, coder.Value())
    ensures forall cols ::
      Encoded(old(coder.Value()), cols).Some? && Encoded(old(coder.Value()), cols).value.0 == symbols ==>
      out == Some(cols) && coder.Value() == Encoded(old(coder.Value()), cols).value.1
  {
    hide Restored, Ranked, Sound, Encoded;
    ghost var start := coder.Value();
    forall cols ensures Encoded(start, cols).Some? &&
      Decoded(start, Encoded(start, cols).value.0) == Some((cols, Encoded(start, cols).value.1))
    {
      RoundTrip(start, cols);
    }
    var got, k := [], 0;
    assert symbols[..0] == [];
    while k < |symbols|
      invariant 0 <= k <= |symbols| && coder.Valid() && Decoded(start, symbols[..k]) == Some((got, coder.Value()))
    {
      assert symbols[..k + 1][..k] == symbols[..k];
      var col := coder.DecodeSymbol(symbols[k]);
      if col == None {
        assert StoppedAt(start, symbols, k, coder.Value());
        StaysStopped(start, symbols, k + 1);
        return None;
      }
      got := got + [col.value];
      k := k + 1;
    }
    assert symbols[..k] == symbols;
    out := Some(got);
  }

  /** What fails on a part fails on the whole. */
  lemma {:induction false} StaysStopped(c: Coder, symbols: seq<Symbol>, k: nat)
    requires k <= |symbols| && Decoded(c, symbols[..k]) == None
    ensures Decoded(c, symbols) == None
    decreases |symbols|
  {
    hide Restored;
    if k == |symbols| {
      assert symbols[..k] == symbols;
    } else {
      var init := symbols[..|symbols| - 1];
      assert init[..k] == symbols[..k];
      StaysStopped(c, init, k);
    }
  }

  lemma RankedIds(t: Table, n: nat, rank: nat)
    ensures ByRank(t, n, rank).Some? ==> 0 <= ByRank(t, n, rank).value < n
  {
    if ByRank(t, n, rank).Some? {
      assert Ranked(t, n)[rank] in Ranked(t, n);
    }
  }

  /** Enumerating a sort. */
  method RankMap(t: Table, n: nat, order: seq<int>) returns (m: map<int, nat>)
    requires order == Ranked(t, n)
    ensures RanksOf(m, order)
  {
    RankedSorted(t, n);
    m := map[];
    var r := 0;
    while r < |order|
      invariant 0 <= r <= |order|
      invariant forall x :: x in m <==> x in order[..r]
      invariant forall k :: 0 <= k < r ==> order[k] in m && m[order[k]] == k
    {
      assert order[..r + 1] == order[..r] + [order[r]];
      assert forall k :: 0 <= k < r ==> Before(t, order[k], order[r]);
      m := m[order[r] := r];
      r := r + 1;
    }
    assert order[..r] == order;
  }

  lemma KnownId(c: Coder, col: Column)
    requires Sound(c) && col in c.indexOf
    ensures 0 <= c.indexOf[col] < |c.entries| == |c.freq|
    ensures c.indexOf[col] in Counts(c.freq)
  {
  }

  lemma RankInMap(m: map<int, nat>, t: Table, n: nat, id: int)
    requires RanksOf(m, Ranked(t, n)) && id in t && 0 <= id < n
    ensures id in m && RankOf(t, n, id) == Some(m[id])
  {
    RankRoundTrip(t, n, id);
    PositionHolds(Ranked(t, n), id);
  }

  /** {r: e for e, r in ranks.items()}: the order again. */
  method Inverse(m: map<int, nat>, t: Table, n: nat) returns (byRank: map<nat, int>)
    requires RanksOf(m, Ranked(t, n))
    ensures forall r: nat :: r in byRank <==> ByRank(t, n, r).Some?
    ensures forall r: nat :: r in byRank ==> ByRank(t, n, r) == Some(byRank[r])
  {
    byRank := map[];
    var e: nat := 0;
    while e < n
      invariant 0 <= e <= n
      invariant forall x :: x in m && 0 <= x < e ==> m[x] in byRank && byRank[m[x]] == x
      invariant forall r :: r in byRank ==> byRank[r] in m && m[byRank[r]] == r
    {
      if e in m {
        forall x | x in m && 0 <= x < e ensures m[x] != m[e] {
          OneRank(m, Ranked(t, n), x, e);
        }
        byRank := byRank[m[e] := e];
      }
      e := e + 1;
    }
    forall r: nat | ByRank(t, n, r).Some? ensures r in byRank && byRank[r] == ByRank(t, n, r).value {
      var x := Ranked(t, n)[r];
      assert x in Ranked(t, n);
      assert m[x] == r;
    }
    forall r: nat | r in byRank ensures ByRank(t, n, r).Some? {
      var x := byRank[r];
      var i :| 0 <= i < |Ranked(t, n)| && Ranked(t, n)[i] == x;
      assert m[Ranked(t, n)[i]] == i;
    }
  }

  lemma OneRank(m: map<int, nat>, order: seq<int>, x: int, y: int)
    requires RanksOf(m, order) && x in m && y in m && x != y
    ensures m[x] != m[y]
  {
    var i :| 0 <= i < |order| && order[i] == x;
    var j :| 0 <= j < |order| && order[j] == y;
    assert m[order[i]] == i && m[order[j]] == j;
  }

  class ContextRowCoder {
    var ctx: map<int, Table>
    var glob: Table

    constructor ()
      ensures Value() == NewRow()
    {
      ctx, glob := map[], map[];
    }

    ghost function Value(): Row
      reads this
    {
      Row(ctx, glob)
    }

    /** None is the TypeError of a table that cannot be sorted. */
    method EncodeSymbol(prev: int, id: int) returns (p: Option<Payload>)
      ensures p == PayloadOf(Value(), prev, id)
    {
      if prev in ctx && ctx[prev] != map[] {
        if Tied(ctx[prev]) {
          return None;
        }
        var rank := FindRank(ctx[prev], id);
        if rank.Some? {
          return Some(InContext(rank.value));
        }
      } else {
        NoRank(ContextOf(Value(), prev), KEYS, id);
      }
      if Tied(glob) {
        return None;
      }
      var grank := FindRank(glob, id);
      p := Some(if grank.Some? then InGlobal(grank.value) else Raw(id));
    }

    method Update(prev: int, id: int)
      modifies this
      ensures Value() == Learned(old(Value()), prev, id)
    {
      ctx, glob := ctx[prev := Tally(if prev in ctx then ctx[prev] else map[], id)], Tally(glob, id);
    }

    /** The cost of the payload, then the update both ends make; nothing where
        a table cannot be sorted. */
    method CostAndUpdate(prev: int, id: int) returns (bits: Option<nat>)
      modifies this
      ensures PayloadOf(old(Value()), prev, id) == None ==> bits == None && Value() == old(Value())
      ensures PayloadOf(old(Value()), prev, id).Some? ==>
        bits == Some(Cost(PayloadOf(old(Value()), prev, id).value)) && Value() == Learned(old(Value()), prev, id)
    {
      var p := EncodeSymbol(prev, id);
      if p == None {
        return None;
      }
      bits := Some(Cost(p.value));
      Update(prev, id);
    }

    /** Nothing changes where the source raises. */
    method DecodeAndUpdate(prev: int, p: Payload) returns (r: Reading)
      modifies this
      ensures r == Read(old(Value()), prev, p)
      ensures Value() == if r.Id? then Learned(old(Value()), prev, r.id) else old(Value())
    {
      match p {
        case InContext(rank) =>
          if prev !in ctx {
            return KeyError;
          }
          r := IdAt(ctx[prev], rank);
        case InGlobal(rank) => r := IdAt(glob, rank);
        case Raw(id) => r := Id(id);
      }
      if r.Id? {
        Update(prev, r.id);
      }
    }
  }

  /** _by_rank: the place in the sorted table, None's past its end. */
  method IdAt(t: Table, rank: nat) returns (r: Reading)
    ensures r == RankedId(t, rank)
  {
    if Tied(t) {
      return TypeError;
    }
    var order := Ranked(t, KEYS);
    r := Id(if rank < |order| then order[rank] else NO_ID);
  }

  lemma NoRank(t: Table, n: nat, id: int)
    requires t == map[]
    ensures RankOf(t, n, id) == None
  {
    RankNone(t, n, id);
  }

  /** _rank_of: a walk down the sorted table. */
  method FindRank(t: Table, id: int) returns (rank: Option<nat>)
    ensures rank == RankOf(t, KEYS, id)
  {
    var order, r := Ranked(t, KEYS), 0;
    PositionHolds(order, id);
    assert order[0..] == order;
    while r < |order|
      invariant 0 <= r <= |order|
      invariant Position(order, id) ==
        match Position(order[r..], id)
        case Some(k) => Some(k + r)
        case None => None
    {
      if order[r] == id {
        return Some(r);
      }
      assert order[r..][1..] == order[r + 1..];
      r := r + 1;
    }
    rank := None;
  }

  /** One column over its rows: payloads, bits, and the rows after it. */
  method EncodeFrame(rows: seq<Row>, prev: Option<Column>, col: Column)
      returns (o: Option<(seq<Payload>, seq<Row>)>, bits: nat)
    requires |col| <= |rows|
    ensures o == RowsCoded(rows, prev, col, |col|)
    ensures o.Some? ==> bits == FrameBits(o.value.0)
  {
    hide PayloadOf, Learned;
    var frame: seq<Payload>, after: seq<Row>, k := [], [], 0;
    bits := 0;
    while k < |col|
      invariant 0 <= k <= |col| && RowsCoded(rows, prev, col, k) == Some((frame, after)) && bits == FrameBits(frame)
    {
      var p := Previous(prev, k);
      var x := PayloadOf(rows[k], p, col[k]);
      if x == None {
        if RowsCoded(rows, prev, col, |col|).Some? {
          CodedPrefix(rows, prev, col, k + 1, |col|);
        }
        return None, bits;
      }
      assert (frame + [x.value])[..|frame|] == frame;
      frame := frame + [x.value];
      bits := bits + Cost(x.value);
      after := after + [Learned(rows[k], p, col[k])];
      k := k + 1;
    }
    o := Some((frame, after));
  }

  /** None where a column is longer than the one before it or than the list of
      coders, or a table cannot be sorted. */
  method EncodeV2(cols: seq<Column>, rows: seq<Row>) returns (o: Option<Frames>, bits: nat)
    ensures o == FramesOf(rows, cols)
    ensures AllClean(rows) && Ids(cols) ==> (o.Some? <==> Fitting(cols, |rows|))
    ensures o.Some? ==> bits == FramesBits(o.value.frames)
  {
    hide RowsCoded, Fitting, AllClean, Ids, FramesOf, FramesBits, Room;
    NoFrames(rows);
    if AllClean(rows) && Ids(cols) {
      CodedExactly(rows, cols);
    }
    var f, k := Frames([], rows, None), 0;
    bits := 0;
    assert cols[..0] == [];
    while k < |cols|
      invariant 0 <= k <= |cols| && FramesOf(rows, cols[..k]) == Some(f) && bits == FramesBits(f.frames)
    {
      FramesMore(rows, cols, k, f);
      if !Room(f.rows, f.prev, |cols[k]|) {
        Uncoded(rows, cols, k + 1);
        return None, bits;
      }
      var r, cost := EncodeFrame(f.rows, f.prev, cols[k]);
      if r == None {
        Uncoded(rows, cols, k + 1);
        return None, bits;
      }
      FramesBitsMore(f.frames, r.value.0);
      f := Frames(f.frames + [r.value.0], r.value.1 + f.rows[|cols[k]|..], Some(cols[k]));
      bits := bits + cost;
      k := k + 1;
    }
    assert cols[..k] == cols;
    o := Some(f);
  }

  lemma NoFrames(rows: seq<Row>)
    ensures FramesOf(rows, []) == Some(Frames([], rows, None)) && FramesBits([]) == 0
  {
  }

  lemma FramesBitsMore(frames: seq<seq<Payload>>, frame: seq<Payload>)
    ensures FramesBits(frames + [frame]) == FramesBits(frames) + FrameBits(frame)
  {
    hide FrameBits;
    assert (frames + [frame])[..|frames|] == frames;
  }

  /** One column more. */
  lemma FramesMore(rows: seq<Row>, cols: seq<Column>, k: nat, f: Frames)
    requires k < |cols| && FramesOf(rows, cols[..k]) == Some(f)
    ensures Room(f.rows, f.prev, |cols[k]|) ==> |cols[k]| <= |f.rows|
    ensures FramesOf(rows, cols[..k + 1]) ==
      if !Room(f.rows, f.prev, |cols[k]|) then None
      else
        match RowsCoded(f.rows, f.prev, cols[k], |cols[k]|)
        case None => None
        case Some(r) => Some(Frames(f.frames + [r.0], r.1 + f.rows[|cols[k]|..], Some(cols[k])))
  {
    hide RowsCoded;
    assert cols[..k + 1][..k] == cols[..k];
  }

  lemma {:induction false} Uncoded(rows: seq<Row>, cols: seq<Column>, k: nat)
    requires k <= |cols| && FramesOf(rows, cols[..k]) == None
    ensures FramesOf(rows, cols) == None
    decreases |cols|
  {
    hide RowsCoded;
    if k == |cols| {
      assert cols[..k] == cols;
    } else {
      var init := cols[..|cols| - 1];
      assert init[..k] == cols[..k];
      Uncoded(rows, init, k);
    }
  }

  method DecodeV2(frames: seq<seq<Payload>>, rows: seq<Row>) returns (o: Option<Columns>)
    ensures o == ColumnsOf(rows, frames)
  {
    hide RowsRead;
    var c, k := Columns([], rows, None), 0;
    assert frames[..0] == [];
    while k < |frames|
      invariant 0 <= k <= |frames| && ColumnsOf(rows, frames[..k]) == Some(c)
    {
      assert frames[..k + 1][..k] == frames[..k];
      if !Room(c.rows, c.prev, |frames[k]|) {
        Broken(rows, frames, k + 1);
        return None;
      }
      var r := RowsRead(c.rows, c.prev, frames[k], |frames[k]|);
      if r == None {
        Broken(rows, frames, k + 1);
        return None;
      }
      c := Columns(c.cols + [r.value.0], r.value.1 + c.rows[|frames[k]|..], Some(r.value.0));
      k := k + 1;
    }
    assert frames[..k] == frames;
    o := Some(c);
  }

  lemma {:induction false} Broken(rows: seq<Row>, frames: seq<seq<Payload>>, k: nat)
    requires k <= |frames| && ColumnsOf(rows, frames[..k]) == None
    ensures ColumnsOf(rows, frames) == None
    decreases |frames|
  {
    hide RowsRead;
    if k == |frames| {
      assert frames[..k] == frames;
    } else {
      var init := frames[..|frames| - 1];
      assert init[..k] == frames[..k];
      Broken(rows, init, k);
    }
  }
}
