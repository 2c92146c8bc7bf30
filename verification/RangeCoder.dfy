/** The 32-bit carryless range coder: what its bytes mean, and why the reader
    finds every point inside the interval that was written. */
module RangeCoder {
  import opened Wrappers
  import opened Powers

  const WORD := 0x1_0000_0000
  const TOP := 0x100_0000
  const BOT := 0x1_0000

  /** A symbol's slice [cum, cum + freq) of a table whose total is `tot`. */
  datatype Interval = Interval(cum: int, freq: int, tot: int)

  predicate Codable(iv: Interval) {
    0 <= iv.cum && 1 <= iv.freq && iv.cum + iv.freq <= iv.tot < BOT
  }

  predicate AllCodable(ivs: seq<Interval>) {
    forall i :: 0 <= i < |ivs| ==> Codable(ivs[i])
  }

  /** The coder's current interval [low, low + range) of 32-bit code values. */
  datatype Span = Span(low: int, range: int)

  const WHOLE := Span(0, 0xFFFF_FFFF)

  /** The coder invariant: no carry can leave the word. The sum may touch
      2^32 only when `low` has a non-zero top byte. */
  predicate Live(s: Span) {
    && 0 <= s.low
    && 0 < s.range
    && s.low + s.range <= WORD
    && (s.low + s.range == WORD ==> TOP <= s.low)
  }

  /** Both ends of the span have the same top byte. */
  predicate SameTop(s: Span) {
    s.low / TOP == ((s.low + s.range) % WORD) / TOP
  }

  /** A span the normalisation loop leaves alone. */
  predicate Ready(s: Span) {
    Live(s) && !SameTop(s) && BOT <= s.range
  }

  /** Exclusive or, bit by bit. */
  function Xor(a: nat, b: nat): nat
    decreases a + b
  {
    if a == 0 && b == 0 then 0 else 2 * Xor(a / 2, b / 2) + (a + b) % 2
  }

  /** An exclusive or has only `k` bits when the bits above them agree. */
  lemma {:induction false} XorBelow(a: nat, b: nat, k: nat)
    ensures Xor(a, b) < Pow2(k) <==> a / Pow2(k) == b / Pow2(k)
    decreases k
  {
    hide Xor;
    if k == 0 {
      XorZero(a, b);
    } else {
      XorHalves(a, b);
      XorBelow(a / 2, b / 2, k - 1);
      DivDiv(a, 2, Pow2(k - 1));
      DivDiv(b, 2, Pow2(k - 1));
    }
  }

  lemma XorHalves(a: nat, b: nat)
    ensures Xor(a, b) == 2 * Xor(a / 2, b / 2) + (a + b) % 2
  {
  }

  lemma {:induction false} XorZero(a: nat, b: nat)
    ensures Xor(a, b) == 0 <==> a == b
    decreases a + b
  {
    if a != 0 || b != 0 {
      XorZero(a / 2, b / 2);
    }
  }

  lemma TopBits()
    ensures Pow2(24) == TOP
  {
    Pow2Digits();
    Pow2Add(8, 8);
    Pow2Add(16, 8);
  }

  /** The test of the normalisation loop. */
  lemma {:induction false} XorTest(s: Span)
    requires Live(s)
    ensures Xor(s.low, (s.low + s.range) % WORD) < TOP <==> SameTop(s)
  {
    TopBits();
    XorBelow(s.low, (s.low + s.range) % WORD, 24);
  }

  /** The truncation of the second branch; the first branch keeps the range. */
  function Truncated(s: Span): Span {
    if SameTop(s) then s else Span(s.low, (-s.low) % BOT)
  }

  /** One turn of the normalisation loop, after its byte went out. */
  function Shifted(s: Span): Span {
    var t := Truncated(s);
    Span((t.low * 256) % WORD, (t.range * 256) % WORD)
  }

  function TopByte(s: Span): byte
    requires Live(s)
  {
    s.low / TOP
  }

  /** Truncation never loses the whole range and never widens it. */
  lemma TruncatedInside(s: Span)
    requires Live(s) && (SameTop(s) || s.range < BOT)
    ensures 0 < Truncated(s).range <= s.range
    ensures s.low % TOP + Truncated(s).range <= TOP
    ensures !SameTop(s) ==> s.low % TOP + Truncated(s).range == TOP
  {
  }

  /** One turn keeps the coder invariant and loses no bit of the range. A
      truncating turn reaches the sum 2^32, where the range only grows. */
  lemma {:induction false} ShiftedLive(s: Span)
    requires Live(s) && (SameTop(s) || s.range < BOT)
    ensures Live(Shifted(s))
    ensures Shifted(s).low == (s.low % TOP) * 256
    ensures Shifted(s).range == Truncated(s).range * 256
    ensures Phase(Shifted(s)) < Phase(s)
            || (Phase(Shifted(s)) == Phase(s) && s.range < Shifted(s).range)
  {
    TruncatedInside(s);
  }

  function Phase(s: Span): nat {
    if s.low + s.range < WORD then 1 else 0
  }

  /** The bytes a normalisation emits and the span it ends in. */
  function Normalized(s: Span): (r: (seq<byte>, Span))
    requires Live(s)
    ensures Ready(r.1)
    decreases Phase(s), WORD - s.range
  {
    if SameTop(s) || s.range < BOT then
      ShiftedLive(s);
      var (bytes, t) := Normalized(Shifted(s));
      ([TopByte(s)] + bytes, t)
    else
      ([], s)
  }

  /** The span an interval selects, before normalisation. */
  function Narrowed(s: Span, iv: Interval): Span
    requires iv.tot != 0
  {
    var r := s.range / iv.tot;
    Span((s.low + r * iv.cum) % WORD, r * iv.freq)
  }

  /** The precision never runs out: every table total is below the smallest
      range a normalised coder can have, and the slice stays inside. */
  lemma {:induction false} NarrowedInside(s: Span, iv: Interval)
    requires Ready(s) && Codable(iv)
    ensures 1 <= s.range / iv.tot
    ensures Live(Narrowed(s, iv))
    ensures Narrowed(s, iv).low == s.low + (s.range / iv.tot) * iv.cum
    ensures s.low <= Narrowed(s, iv).low
    ensures Narrowed(s, iv).low + Narrowed(s, iv).range <= s.low + s.range
  {
    StepFits(s.range, iv.cum, iv.freq, iv.tot, s.range / iv.tot);
  }

  /** The step of a table, scaled: its slice lies inside the range. */
  lemma StepFits(range: int, cum: int, freq: int, tot: int, r: int)
    requires 0 <= cum && 1 <= freq && cum + freq <= tot && tot <= range && r == range / tot
    ensures 1 <= r && 0 <= r * cum && 1 <= r * freq && r * cum + r * freq <= range
  {
    assert range == tot * r + range % tot;
    if r < 1 {
      MulLeft(tot, r, 0);
    }
    MulLeft(r, cum + freq, tot);
    MulLeft(r, 0, cum);
    MulLeft(r, 1, freq);
    assert r * (cum + freq) == r * cum + r * freq;
  }

  lemma MulLeft(r: int, a: int, b: int)
    requires 0 <= r && a <= b
    ensures r * a <= r * b
  {
  }

  /** The bytes coding one interval emits, and the span after it. */
  function Coded(s: Span, iv: Interval): (r: (seq<byte>, Span))
    requires Ready(s) && Codable(iv)
    ensures Ready(r.1)
  {
    NarrowedInside(s, iv);
    Normalized(Narrowed(s, iv))
  }

  function WordBytes(v: int): (b: seq<byte>)
    requires 0 <= v < WORD
    ensures |b| == 4
  {
    [v / TOP, v / BOT % 256, v / 256 % 256, v % 256]
  }

  /** Every byte still to be written from span `s`: the intervals' bytes and
      the four bytes that close the stream. */
  function Bytes(s: Span, ivs: seq<Interval>): (b: seq<byte>)
    requires Ready(s) && AllCodable(ivs)
    ensures 4 <= |b|
    decreases |ivs|
  {
    if ivs == [] then WordBytes(s.low)
    else
      var (out, t) := Coded(s, ivs[0]);
      out + Bytes(t, ivs[1..])
  }

  /** The 32-bit code value at the head of a byte string. */
  function Window(b: seq<byte>): int
    requires 4 <= |b|
  {
    (b[0] as int) * TOP + (b[1] as int) * BOT + (b[2] as int) * 256 + b[3] as int
  }

  lemma WindowOfWord(v: int)
    requires 0 <= v < WORD
    ensures Window(WordBytes(v)) == v
  {
    assert v == v / 256 * 256 + v % 256;
    assert v / 256 == v / 256 / 256 * 256 + v / 256 % 256;
    assert v / 256 / 256 == v / BOT && v / BOT / 256 == v / TOP;
  }

  lemma ShiftInside(s: Span, tail: seq<byte>)
    requires Live(s) && (SameTop(s) || s.range < BOT)
    requires 4 <= |tail|
    requires Shifted(s).low <= Window(tail) < Shifted(s).low + Shifted(s).range
    ensures s.low <= Window([TopByte(s)] + tail) < s.low + s.range
  {
    TruncatedInside(s);
    ShiftedLive(s);
    var head := [TopByte(s)] + tail;
    assert Window(head) == TopByte(s) * TOP + Window(tail) / 256;
    assert s.low == TopByte(s) * TOP + s.low % TOP;
  }

  /** Code values inside the span after a normalisation were inside it
      before, once the emitted bytes are put back in front. */
  lemma {:induction false} NormalizedInside(s: Span, tail: seq<byte>)
    requires Live(s) && 4 <= |tail|
    requires var t := Normalized(s).1; t.low <= Window(tail) < t.low + t.range
    ensures s.low <= Window(Normalized(s).0 + tail) < s.low + s.range
    decreases Phase(s), WORD - s.range
  {
    if SameTop(s) || s.range < BOT {
      ShiftedLive(s);
      NormalizedInside(Shifted(s), tail);
      var rest := Normalized(Shifted(s)).0;
      ShiftInside(s, rest + tail);
      assert [TopByte(s)] + (rest + tail) == Normalized(s).0 + tail;
    } else {
      assert [] + tail == tail;
    }
  }

  /** The finished stream, read as one code value, lies in the span the
      coder had before it wrote it. */
  lemma {:induction false} StreamInside(s: Span, ivs: seq<Interval>)
    requires Ready(s) && AllCodable(ivs)
    ensures s.low <= Window(Bytes(s, ivs)) < s.low + s.range
    decreases |ivs|
  {
    if ivs == [] {
      WindowOfWord(s.low);
    } else {
      NarrowedInside(s, ivs[0]);
      var (out, t) := Coded(s, ivs[0]);
      StreamInside(t, ivs[1..]);
      NormalizedInside(Narrowed(s, ivs[0]), Bytes(t, ivs[1..]));
    }
  }

  // ---- the reader

  /** The reader's fields; `data` already carries its eight zero bytes. */
  datatype Reader = Reader(span: Span, code: int, data: seq<byte>, pos: nat)

  const PADDING: seq<byte> := [0, 0, 0, 0, 0, 0, 0, 0]

  predicate Sane(r: Reader) {
    Ready(r.span) && 0 <= r.code < WORD && 4 <= r.pos
  }

  function Opened(bytes: seq<byte>): (r: Reader)
    ensures Sane(r)
  {
    var data := bytes + PADDING;
    WindowRange(data);
    Reader(WHOLE, Window(data), data, 4)
  }

  lemma WindowRange(b: seq<byte>)
    requires 4 <= |b|
    ensures 0 <= Window(b) < WORD
  {
  }

  /** One turn of the reader's loop; running past the padding is the source's
      IndexError. */
  function ReaderShifted(r: Reader): Option<Reader> {
    if r.pos < |r.data| then
      Some(Reader(Shifted(r.span), (r.code * 256 + r.data[r.pos] as int) % WORD, r.data, r.pos + 1))
    else None
  }

  function ReaderNormalized(r: Reader): (o: Option<Reader>)
    requires Live(r.span) && 0 <= r.code < WORD && 4 <= r.pos
    ensures o.Some? ==> Sane(o.value)
    decreases Phase(r.span), WORD - r.span.range
  {
    if SameTop(r.span) || r.span.range < BOT then
      ShiftedLive(r.span);
      match ReaderShifted(r)
      case None => None
      case Some(next) => ReaderNormalized(next)
    else Some(r)
  }

  /** The point of a table of total `tot` the reader stands on. */
  function Point(r: Reader, tot: int): int
    requires Ready(r.span) && 1 <= tot < BOT
  {
    var q := ((r.code - r.span.low) % WORD) / (r.span.range / tot);
    if tot - 1 < q then tot - 1 else q
  }

  lemma PointInRange(r: Reader, tot: int)
    requires Ready(r.span) && 1 <= tot < BOT
    ensures 0 <= Point(r, tot) < tot
  {
    var step := r.span.range / tot;
    assert 1 <= step;
    QuotientNonNegative((r.code - r.span.low) % WORD, step);
  }

  lemma QuotientNonNegative(a: int, b: int)
    requires 0 <= a && 1 <= b
    ensures 0 <= a / b
  {
  }

  function Consumed(r: Reader, iv: Interval): (o: Option<Reader>)
    requires Sane(r) && Codable(iv)
    ensures o.Some? ==> Sane(o.value)
  {
    NarrowedInside(r.span, iv);
    ReaderNormalized(r.(span := Narrowed(r.span, iv)))
  }

  /** The bytes still ahead of the reader, with the four in its window, are
      `bytes`; behind them only the padding is left. */
  predicate Feeds(r: Reader, bytes: seq<byte>) {
    && 4 <= |bytes|
    && 4 <= r.pos <= |r.data|
    && r.code == Window(bytes)
    && r.data[r.pos..] == bytes[4..] + PADDING
  }

  /** The reader mirrors a writer in span `s` that still has `ivs` to write. */
  predicate Tracks(r: Reader, s: Span, ivs: seq<Interval>)
    requires Ready(s) && AllCodable(ivs)
  {
    r.span == s && Feeds(r, Bytes(s, ivs))
  }

  lemma OpenedFeeds(bytes: seq<byte>)
    requires 4 <= |bytes|
    ensures Feeds(Opened(bytes), bytes)
  {
    var data := bytes + PADDING;
    assert data[4..] == bytes[4..] + PADDING;
  }

  lemma ShiftedFeeds(r: Reader, b: byte, tail: seq<byte>)
    requires 4 <= |tail| && Feeds(r, [b] + tail)
    ensures ReaderShifted(r).Some? && Feeds(ReaderShifted(r).value, tail)
  {
    var all := [b] + tail;
    assert all[4..] == [tail[3]] + tail[4..];
    assert r.data[r.pos] == r.data[r.pos..][0] == tail[3];
    assert r.data[r.pos + 1..] == r.data[r.pos..][1..] == tail[4..] + PADDING;
  }

  lemma {:induction false} NormalizedFeeds(r: Reader, tail: seq<byte>)
    requires Live(r.span) && 0 <= r.code < WORD && 4 <= r.pos && 4 <= |tail|
    requires Feeds(r, Normalized(r.span).0 + tail)
    ensures ReaderNormalized(r).Some?
    ensures ReaderNormalized(r).value.span == Normalized(r.span).1
    ensures Feeds(ReaderNormalized(r).value, tail)
    decreases Phase(r.span), WORD - r.span.range
  {
    if SameTop(r.span) || r.span.range < BOT {
      ShiftedLive(r.span);
      var rest := Normalized(Shifted(r.span)).0;
      assert Normalized(r.span).0 + tail == [TopByte(r.span)] + (rest + tail);
      ShiftedFeeds(r, TopByte(r.span), rest + tail);
      NormalizedFeeds(ReaderShifted(r).value, tail);
    } else {
      assert [] + tail == tail;
    }
  }

  lemma PointInside(r: Reader, iv: Interval)
    requires Ready(r.span) && Codable(iv)
    requires var n := Narrowed(r.span, iv); n.low <= r.code < n.low + n.range
    ensures iv.cum <= Point(r, iv.tot) < iv.cum + iv.freq
  {
    NarrowedInside(r.span, iv);
    var step := r.span.range / iv.tot;
    var d := r.code - r.span.low;
    assert step * iv.cum <= d < step * iv.cum + step * iv.freq;
    MulLeft(step, 0, iv.cum);
    assert d % WORD == d;
    QuotientBetween(d, step, iv.cum, iv.freq);
  }

  lemma QuotientBetween(d: int, step: int, cum: int, freq: int)
    requires 1 <= step
    requires step * cum <= d < step * cum + step * freq
    ensures cum <= d / step < cum + freq
  {
    var q := d / step;
    assert d == step * q + d % step;
    assert step * (q + 1) == step * q + step;
    assert step * (cum + freq) == step * cum + step * freq;
    if q < cum { MulLeft(step, q + 1, cum); }
    if cum + freq <= q { MulLeft(step, cum + freq, q); }
  }

  /** One symbol: a mirroring reader gets a point inside the interval the
      writer coded, and after consuming that interval it mirrors the writer
      again. */
  lemma {:induction false} ReaderStep(r: Reader, s: Span, ivs: seq<Interval>)
    requires Ready(s) && AllCodable(ivs) && ivs != []
    requires Tracks(r, s, ivs)
    ensures Sane(r)
    ensures ivs[0].cum <= Point(r, ivs[0].tot) < ivs[0].cum + ivs[0].freq
    ensures Consumed(r, ivs[0]).Some?
    ensures Tracks(Consumed(r, ivs[0]).value, Coded(s, ivs[0]).1, ivs[1..])
  {
    var iv := ivs[0];
    NarrowedInside(s, iv);
    var t := Coded(s, iv).1;
    var tail := Bytes(t, ivs[1..]);
    StreamInside(t, ivs[1..]);
    NormalizedInside(Narrowed(s, iv), tail);
    PointInside(r, iv);
    WindowRange(Bytes(s, ivs));
    NormalizedFeeds(r.(span := Narrowed(r.span, iv)), tail);
  }

  /** Reading a whole list of intervals back: every point falls into its
      interval, the spans of both ends agree before every symbol, and the
      reader stops where the bytes stop. */
  predicate ReadsBack(r: Reader, s: Span, ivs: seq<Interval>)
    requires Sane(r) && Ready(s) && AllCodable(ivs)
    decreases |ivs|
  {
    && r.span == s
    && if ivs == [] then r.pos == |r.data| - |PADDING|
       else
         && ivs[0].cum <= Point(r, ivs[0].tot) < ivs[0].cum + ivs[0].freq
         && Consumed(r, ivs[0]).Some?
         && ReadsBack(Consumed(r, ivs[0]).value, Coded(s, ivs[0]).1, ivs[1..])
  }

  lemma {:induction false} TrackingReadsBack(r: Reader, s: Span, ivs: seq<Interval>)
    requires Sane(r) && Ready(s) && AllCodable(ivs) && Tracks(r, s, ivs)
    ensures ReadsBack(r, s, ivs)
    decreases |ivs|
  {
    if ivs == [] {
      assert |r.data[r.pos..]| == |PADDING|;
    } else {
      ReaderStep(r, s, ivs);
      TrackingReadsBack(Consumed(r, ivs[0]).value, Coded(s, ivs[0]).1, ivs[1..]);
    }
  }

  /** Every list of intervals survives the coder: the reader on the finished
      bytes meets a point inside each interval in turn and ends exactly at
      the end of the bytes, never in the padding. */
  lemma {:induction false} CoderRoundTrip(ivs: seq<Interval>)
    requires AllCodable(ivs)
    ensures ReadsBack(Opened(Bytes(WHOLE, ivs)), WHOLE, ivs)
  {
    OpenedFeeds(Bytes(WHOLE, ivs));
    TrackingReadsBack(Opened(Bytes(WHOLE, ivs)), WHOLE, ivs);
  }
}
