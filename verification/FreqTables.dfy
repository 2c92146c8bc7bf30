/** Adaptive frequency tables: escape mass, halving, and the slice of the
    range coder each symbol owns. */
module FreqTables {
  import opened Wrappers
  import opened RangeCoder

  const ESCAPE := -1
  const BUMP := 32

  /** Table symbols are codebook ids (below 1024) or column ids (below the
      dictionary cap of 4096). */
  const IDS := 4096

  datatype Table = Table(freq: map<int, int>, total: int)

  const FRESH_TABLE := Table(map[ESCAPE := 1], 1)

  /** Frequency mass of the symbols below `k`. */
  function Cum(freq: map<int, int>, k: int): int
    decreases k + 1, |freq|
  {
    if k <= ESCAPE then 0 else Cum(freq, k - 1) + Get(freq, k - 1)
  }

  function Get(freq: map<int, int>, s: int): int {
    if s in freq then freq[s] else 0
  }

  predicate Positive(freq: map<int, int>) {
    forall s <- freq :: 1 <= freq[s]
  }

  /** The table invariant: the running total is exact and always below the
      coder's smallest range. */
  predicate Good(t: Table) {
    && ESCAPE in t.freq
    && (forall s <- t.freq :: ESCAPE <= s < IDS)
    && Positive(t.freq)
    && t.total == Cum(t.freq, IDS)
    && t.total < BOT
  }

  /** `add` before its halving test. */
  function Bumped(freq: map<int, int>, sym: int): map<int, int>
    requires ESCAPE in freq
  {
    var grown := if sym in freq then freq else freq[ESCAPE := freq[ESCAPE] + 1];
    grown[sym := Get(grown, sym) + BUMP]
  }

  function Half(f: int): int {
    if f / 2 < 1 then 1 else f / 2
  }

  function Halved(freq: map<int, int>): map<int, int> {
    map s | s in freq :: Half(freq[s])
  }

  function Added(t: Table, sym: int): Table
    requires ESCAPE in t.freq
  {
    var freq := Bumped(t.freq, sym);
    var total := t.total + (if sym in t.freq then 0 else 1) + BUMP;
    if BOT <= total then Table(Halved(freq), Cum(Halved(freq), IDS)) else Table(freq, total)
  }

  // ---- cumulated frequencies

  lemma {:induction false} CumUpdate(freq: map<int, int>, s: int, v: int, k: int)
    ensures Cum(freq[s := v], k) == Cum(freq, k) + (if ESCAPE <= s < k then v - Get(freq, s) else 0)
    decreases k + 1
  {
    if ESCAPE < k {
      CumUpdate(freq, s, v, k - 1);
    }
  }

  lemma {:induction false} CumMonotone(freq: map<int, int>, a: int, b: int)
    requires Positive(freq) && a <= b
    ensures Cum(freq, a) <= Cum(freq, b)
    ensures forall s | s in freq && ESCAPE <= a <= s < b :: Cum(freq, a) + freq[s] <= Cum(freq, b)
    decreases b - a
  {
    if a < b {
      CumMonotone(freq, a, b - 1);
    }
  }

  lemma {:induction false} CumGap(freq: map<int, int>, a: int, b: int)
    requires a <= b && forall s | a <= s < b :: s !in freq
    ensures Cum(freq, a) == Cum(freq, b)
    decreases b - a
  {
    if a < b {
      CumGap(freq, a, b - 1);
    }
  }

  /** Halving at least halves what exceeds one count per symbol slot. */
  lemma {:induction false} CumHalved(freq: map<int, int>, k: int)
    requires Positive(freq) && ESCAPE <= k
    ensures 2 * Cum(Halved(freq), k) <= Cum(freq, k) + k + 1
    decreases k
  {
    if ESCAPE < k {
      CumHalved(freq, k - 1);
    }
  }

  lemma BumpedCum(freq: map<int, int>, sym: int)
    requires ESCAPE in freq && Positive(freq) && 0 <= sym < IDS
    ensures Positive(Bumped(freq, sym))
    ensures Bumped(freq, sym).Keys == freq.Keys + {sym}
    ensures Cum(Bumped(freq, sym), IDS) == Cum(freq, IDS) + (if sym in freq then 0 else 1) + BUMP
  {
    var grown := if sym in freq then freq else freq[ESCAPE := freq[ESCAPE] + 1];
    CumUpdate(freq, ESCAPE, freq[ESCAPE] + 1, IDS);
    CumUpdate(grown, sym, Get(grown, sym) + BUMP, IDS);
  }

  lemma HalvedGood(freq: map<int, int>)
    requires ESCAPE in freq && Positive(freq) && (forall s <- freq :: ESCAPE <= s < IDS)
    requires Cum(freq, IDS) <= BOT + BUMP
    ensures Good(Table(Halved(freq), Cum(Halved(freq), IDS)))
  {
    CumHalved(freq, IDS);
  }

  /** Every `add` keeps the invariant; in particular the total never reaches
      2^16, whether or not the table was halved. */
  lemma {:induction false} AddedGood(t: Table, sym: int)
    requires Good(t) && 0 <= sym < IDS
    ensures Good(Added(t, sym))
    ensures Added(t, sym).freq.Keys == t.freq.Keys + {sym}
  {
    var freq := Bumped(t.freq, sym);
    BumpedCum(t.freq, sym);
    if BOT <= Cum(freq, IDS) {
      HalvedGood(freq);
    }
  }

  function Adds(t: Table, syms: seq<int>): Table
    requires Good(t) && forall i :: 0 <= i < |syms| ==> 0 <= syms[i] < IDS
    ensures Good(Adds(t, syms))
  {
    if syms == [] then t
    else
      var before := Adds(t, syms[..|syms| - 1]);
      AddedGood(before, syms[|syms| - 1]);
      Added(before, syms[|syms| - 1])
  }

  /** On every run of adds the total is the sum of the frequencies, each at
      least 1, and a normalised coder's range still gives every count a step. */
  lemma {:induction false} PrecisionNeverRunsOut(syms: seq<int>, s: Span)
    requires (forall i :: 0 <= i < |syms| ==> 0 <= syms[i] < IDS) && Ready(s)
    ensures Good(FRESH_TABLE)
    ensures var t := Adds(FRESH_TABLE, syms);
      && t.total == Cum(t.freq, IDS) && (forall x <- t.freq :: 1 <= t.freq[x])
      && (forall x :: x in t.freq <==> x == -1 || x in syms)
      && 1 <= t.total < BOT && 1 <= s.range / t.total
  {
    hide Cum, Added, Ready;
    FreshTableGood();
    var t := Adds(FRESH_TABLE, syms);
    TotalPositive(t);
    AddsKeys(FRESH_TABLE, syms);
    ReadyRange(s);
    StepPositive(s.range, t.total);
  }

  /** A table knows exactly the symbols that were added. */
  lemma {:induction false} AddsKeys(t: Table, syms: seq<int>)
    requires Good(t) && forall i :: 0 <= i < |syms| ==> 0 <= syms[i] < IDS
    ensures forall x :: x in Adds(t, syms).freq <==> x in t.freq || x in syms
    decreases |syms|
  {
    hide Good, Cum;
    if syms != [] {
      var init, last := syms[..|syms| - 1], syms[|syms| - 1];
      AddsKeys(t, init);
      AddedGood(Adds(t, init), last);
      assert syms == init + [last];
      forall x ensures x in Adds(t, syms).freq <==> x in Adds(t, init).freq || x == last {
        assert x in Adds(t, syms).freq.Keys <==> x in Adds(t, init).freq.Keys + {last};
      }
    }
  }

  lemma ReadyRange(s: Span)
    requires Ready(s)
    ensures BOT <= s.range
  {
  }

  lemma StepPositive(range: int, total: int)
    requires 1 <= total <= range
    ensures 1 <= range / total
  {
  }

  lemma FreshTableGood()
    ensures Good(FRESH_TABLE)
  {
    CumUpdate(map[], ESCAPE, 1, IDS);
    CumGap(map[], ESCAPE, IDS);
    assert map[][ESCAPE := 1] == FRESH_TABLE.freq;
  }

  // ---- intervals and points

  function IntervalOf(t: Table, sym: int): Interval
    requires sym in t.freq
  {
    Interval(Cum(t.freq, sym), t.freq[sym], t.total)
  }

  lemma {:induction false} IntervalCodable(t: Table, sym: int)
    requires Good(t) && sym in t.freq
    ensures Codable(IntervalOf(t, sym))
  {
    CumMonotone(t.freq, ESCAPE, sym);
    CumMonotone(t.freq, sym, IDS);
  }

  predicate Owns(t: Table, sym: int, point: int) {
    sym in t.freq && Cum(t.freq, sym) <= point < Cum(t.freq, sym) + t.freq[sym]
  }

  function SymbolFrom(t: Table, point: int, k: int): (s: int)
    requires Good(t) && ESCAPE <= k <= IDS && Cum(t.freq, k) <= point < t.total
    ensures Owns(t, s, point)
    decreases IDS - k
  {
    if k in t.freq && point < Cum(t.freq, k) + t.freq[k] then k else SymbolFrom(t, point, k + 1)
  }

  /** The symbol whose slice holds the point; one exists for every point
      below the total. */
  function SymbolAt(t: Table, point: int): (s: int)
    requires Good(t) && 0 <= point < t.total
    ensures Owns(t, s, point)
  {
    SymbolFrom(t, point, ESCAPE)
  }

  /** Slices are disjoint. */
  lemma {:induction false} OwnerUnique(t: Table, a: int, b: int, point: int)
    requires Good(t) && Owns(t, a, point) && Owns(t, b, point)
    ensures a == b
  {
    if a < b {
      CumMonotone(t.freq, a, b);
    } else if b < a {
      CumMonotone(t.freq, b, a);
    }
  }

  // ---- reading one symbol

  /** Decodes one symbol with table `t`. */
  function ReadFrom(r: Reader, t: Table): (o: Option<(int, Reader)>)
    requires Sane(r) && Good(t)
    ensures o.Some? ==> o.value.0 in t.freq && Sane(o.value.1)
  {
    TotalPositive(t);
    PointInRange(r, t.total);
    var sym := SymbolAt(t, Point(r, t.total));
    IntervalCodable(t, sym);
    match Consumed(r, IntervalOf(t, sym))
    case None => None
    case Some(next) => Some((sym, next))
  }

  lemma TotalPositive(t: Table)
    requires Good(t)
    ensures 1 <= t.total
  {
    CumMonotone(t.freq, ESCAPE, IDS);
  }

  /** What a writer in `s` coded first with table `t`, the reader decodes. */
  lemma {:induction false} ReadFromTracks(r: Reader, s: Span, t: Table, sym: int, rest: seq<Interval>)
    requires Good(t) && sym in t.freq && Ready(s) && AllCodable(rest)
    requires AllCodable([IntervalOf(t, sym)] + rest)
    requires Tracks(r, s, [IntervalOf(t, sym)] + rest)
    ensures Sane(r) && Codable(IntervalOf(t, sym))
    ensures ReadFrom(r, t).Some? && ReadFrom(r, t).value.0 == sym
    ensures Tracks(ReadFrom(r, t).value.1, Coded(s, IntervalOf(t, sym)).1, rest)
  {
    var ivs := [IntervalOf(t, sym)] + rest;
    assert ivs[0] == IntervalOf(t, sym) && ivs[1..] == rest;
    ReaderStep(r, s, ivs);
    TotalPositive(t);
    PointInRange(r, t.total);
    OwnerUnique(t, sym, SymbolAt(t, Point(r, t.total)), Point(r, t.total));
  }
}
