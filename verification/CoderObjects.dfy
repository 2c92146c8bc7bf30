/** The range coder as the objects that update themselves in place, tied to
    the stream `RangeCoder` specifies. */
module CoderObjects {
  import opened Wrappers
  import opened Sequences
  import opened Powers
  import opened RangeCoder

  /** What a writer has emitted after coding `ivs` from the start. */
  ghost function Run(ivs: seq<Interval>): (r: (seq<byte>, Span))
    requires AllCodable(ivs)
    ensures Ready(r.1)
    decreases |ivs|
  {
    if ivs == [] then ([], WHOLE)
    else
      var (out, s) := Run(ivs[..|ivs| - 1]);
      var (more, t) := Coded(s, ivs[|ivs| - 1]);
      (out + more, t)
  }

  lemma {:induction false} RunThenBytes(ivs: seq<Interval>, rest: seq<Interval>)
    requires AllCodable(ivs) && AllCodable(rest)
    ensures Bytes(WHOLE, ivs + rest) == Run(ivs).0 + Bytes(Run(ivs).1, rest)
    decreases |ivs|
  {
    if ivs == [] {
      assert ivs + rest == rest;
    } else {
      var init, last := ivs[..|ivs| - 1], ivs[|ivs| - 1];
      assert ivs + rest == init + ([last] + rest);
      RunThenBytes(init, [last] + rest);
      assert ([last] + rest)[1..] == rest;
      var (out, s) := Run(init);
      var (more, t) := Coded(s, last);
      assert Bytes(s, [last] + rest) == more + Bytes(t, rest);
    }
  }

  lemma RunSnoc(ivs: seq<Interval>, iv: Interval)
    requires AllCodable(ivs) && Codable(iv)
    ensures AllCodable(ivs + [iv])
    ensures Run(ivs + [iv]) == (Run(ivs).0 + Coded(Run(ivs).1, iv).0, Coded(Run(ivs).1, iv).1)
  {
    assert (ivs + [iv])[..|ivs|] == ivs;
  }

  /** Emitting one byte and shifting does not change what the normalisation
      as a whole will have emitted. */
  lemma OneTurn(out: seq<byte>, s: Span)
    requires Live(s) && (SameTop(s) || s.range < BOT)
    ensures Live(Shifted(s)) && (s.low / TOP) % 256 == TopByte(s)
    ensures (out + [TopByte(s)]) + Normalized(Shifted(s)).0 == out + Normalized(s).0
    ensures Normalized(Shifted(s)).1 == Normalized(s).1
    ensures Phase(Shifted(s)) < Phase(s) || (Phase(Shifted(s)) == Phase(s) && s.range < Shifted(s).range)
  {
    ShiftedLive(s);
    TurnBytes(out, s);
    LowByte(s);
  }

  lemma WriterDone(out: seq<byte>, s: Span)
    requires Live(s) && !SameTop(s) && BOT <= s.range
    ensures out + Normalized(s).0 == out && Normalized(s).1 == s
  {
  }

  lemma LowByte(s: Span)
    requires Live(s)
    ensures (s.low / TOP) % 256 == TopByte(s)
  {
  }

  lemma TurnBytes(out: seq<byte>, s: Span)
    requires Live(s) && (SameTop(s) || s.range < BOT) && Live(Shifted(s))
    ensures (out + [TopByte(s)]) + Normalized(Shifted(s)).0 == out + Normalized(s).0
    ensures Normalized(Shifted(s)).1 == Normalized(s).1
  {
    hide Live, Ready, SameTop, Shifted, TopByte, Phase;
    Assoc(out, [TopByte(s)], Normalized(Shifted(s)).0);
  }

  class BitWriter {
    var low: int
    var range: int
    var out: seq<byte>
    ghost var coded: seq<Interval>

    ghost predicate Valid()
      reads this
    {
      AllCodable(coded) && (out, Span(low, range)) == Run(coded)
    }

    constructor ()
      ensures Valid() && coded == []
    {
      low, range, out, coded := 0, 0xFFFF_FFFF, [], [];
    }

    method Normalize()
      requires Live(Span(low, range))
      modifies this`low, this`range, this`out
      ensures out == old(out) + Normalized(old(Span(low, range))).0
      ensures Span(low, range) == Normalized(old(Span(low, range))).1
    {
      hide SameTop, Phase, Ready, Xor, Normalized, TopByte;
      ghost var goal := (out + Normalized(Span(low, range)).0, Normalized(Span(low, range)).1);
      while true
        invariant Live(Span(low, range))
        invariant (out + Normalized(Span(low, range)).0, Normalized(Span(low, range)).1) == goal
        decreases Phase(Span(low, range)), WORD - range
      {
        ghost var s := Span(low, range);
        XorTest(Span(low, range));
        if Xor(low, (low + range) % WORD) < TOP {
        } else if range < BOT {
          range := (-low) % BOT;
        } else {
          WriterDone(out, s);
          break;
        }
        OneTurn(out, s);
        out := out + [(low / TOP) % 256];
        low := (low * 256) % WORD;
        range := (range * 256) % WORD;
        assert Span(low, range) == Shifted(s);
      }
    }

    method Encode(cum: int, freq: int, tot: int)
      requires Valid() && Codable(Interval(cum, freq, tot))
      modifies this
      ensures Valid() && coded == old(coded) + [Interval(cum, freq, tot)]
    {
      hide Run, Normalized;
      NarrowedInside(Span(low, range), Interval(cum, freq, tot));
      RunSnoc(coded, Interval(cum, freq, tot));
      var r := range / tot;
      low := (low + r * cum) % WORD;
      range := r * freq;
      Normalize();
      coded := coded + [Interval(cum, freq, tot)];
    }

    /** The whole stream: what was emitted and the four closing bytes. */
    method Finish() returns (bytes: seq<byte>)
      requires Valid()
      modifies this`low, this`out
      ensures AllCodable(coded) && bytes == Bytes(WHOLE, coded) && out == bytes
    {
      hide Run, Bytes, Tail, Ready, Normalized;
      Closes(coded);
      TailByte(low, 0);
      ghost var closing := WordBytes(low);
      for i := 0 to 4
        invariant 0 <= low < WORD
        invariant out == old(out) + closing[..i]
        invariant i < 4 ==> low == Tail(old(low), i)
      {
        TakeNext(closing, i);
        TailByte(old(low), i);
        if i < 3 { TailNext(old(low), i); }
        out := out + [(low / TOP) % 256];
        low := (low * 256) % WORD;
      }
      assert closing[..4] == closing;
      return out;
    }
  }

  /** A stream ends with the word that is left. */
  lemma Closes(ivs: seq<Interval>)
    requires AllCodable(ivs)
    ensures Bytes(WHOLE, ivs) == Run(ivs).0 + WordBytes(Run(ivs).1.low)
    ensures Live(Run(ivs).1)
  {
    hide Run, Normalized;
    RunThenBytes(ivs, []);
    assert ivs + [] == ivs;
  }

  /** A word with its first `i` bytes shifted out. */
  ghost function Tail(v: int, i: nat): int
    requires i < 4
  {
    match i
    case 0 => v
    case 1 => (v % TOP) * 256
    case 2 => (v % BOT) * BOT
    case 3 => (v % 256) * TOP
  }

  lemma TailByte(v: int, i: nat)
    requires i < 4 && 0 <= v < WORD
    ensures 0 <= Tail(v, i) < WORD
    ensures Tail(v, i) / TOP % 256 == WordBytes(v)[i] && Tail(v, 0) == v
  {
    var a, b, c, d := v / TOP, v / BOT % 256, v / 256 % 256, v % 256;
    Split(v, a, b, c, d);
  }

  /** A word and its four bytes. */
  lemma Split(v: int, a: int, b: int, c: int, d: int)
    requires 0 <= v < WORD && a == v / TOP && b == v / BOT % 256 && c == v / 256 % 256 && d == v % 256
    ensures 0 <= a < 256 && v == a * TOP + v % TOP && v % TOP == b * BOT + v % BOT && v % BOT == c * 256 + d
  {
    var p := v / 256;
    var q, m := p / 256, p % 256;
    Quotient(v, BOT, q, m * 256 + d);
    Quotient(v, TOP, q / 256, q % 256 * BOT + m * 256 + d);
  }

  lemma Rest(x: int, q: int, r: int)
    requires x == q * WORD + r && 0 <= r < WORD
    ensures x % WORD == r
  {
  }

  lemma TailNext(v: int, i: nat)
    requires i < 3 && 0 <= v < WORD
    ensures Tail(v, i + 1) == Tail(v, i) * 256 % WORD
  {
    var a, b, c, d := v / TOP, v / BOT % 256, v / 256 % 256, v % 256;
    Split(v, a, b, c, d);
    match i
    case 0 => Rest(v * 256, a, (v % TOP) * 256);
    case 1 => Rest((v % TOP) * 256 * 256, b, (v % BOT) * BOT);
    case 2 => Rest((v % BOT) * BOT * 256, c, d * TOP);
  }

  /** One turn of the reader's loop does not change where it ends. */
  lemma ReaderTurn(v: Reader)
    requires Live(v.span) && (SameTop(v.span) || v.span.range < BOT) && 0 <= v.code < WORD && 4 <= v.pos
    ensures ReaderShifted(v) == None ==> ReaderNormalized(v) == None
    ensures ReaderShifted(v).Some? ==> Live(ReaderShifted(v).value.span)
    ensures ReaderShifted(v).Some? ==> ReaderNormalized(ReaderShifted(v).value) == ReaderNormalized(v)
    ensures Phase(Shifted(v.span)) < Phase(v.span)
      || (Phase(Shifted(v.span)) == Phase(v.span) && v.span.range < Shifted(v.span).range)
  {
    hide Live, Ready, SameTop, Shifted, Phase;
    ShiftedLive(v.span);
  }

  lemma ReaderDone(v: Reader)
    requires Live(v.span) && !SameTop(v.span) && BOT <= v.span.range && 0 <= v.code < WORD && 4 <= v.pos
    ensures ReaderNormalized(v) == Some(v) && Sane(v)
  {
  }

  class BitReader {
    const data: seq<byte>
    var pos: nat
    var low: int
    var range: int
    var code: int
    var r: int
    /** The total `DecodeFreq` was last asked for. */
    ghost var tot: int

    ghost function Value(): Reader
      reads this
    {
      Reader(Span(low, range), code, data, pos)
    }

    ghost predicate Valid()
      reads this
    {
      Sane(Value())
    }

    constructor (bytes: seq<byte>)
      ensures Valid() && Value() == Opened(bytes)
    {
      var padded := bytes + PADDING;
      WindowRange(padded);
      data, pos, low, range, code, r, tot := padded, 4, 0, 0xFFFF_FFFF, Window(padded), 1, 1;
    }

    /** False where the source raises IndexError. */
    method Normalize() returns (ok: bool)
      requires Live(Span(low, range)) && 0 <= code < WORD && 4 <= pos
      modifies this`low, this`range, this`code, this`pos
      ensures ok <==> ReaderNormalized(old(Value())).Some?
      ensures ok ==> Valid() && Value() == ReaderNormalized(old(Value())).value
    {
      hide SameTop, Phase, Ready, Xor, ReaderNormalized;
      while true
        invariant Live(Span(low, range)) && 0 <= code < WORD && 4 <= pos
        invariant ReaderNormalized(Value()) == ReaderNormalized(old(Value()))
        decreases Phase(Span(low, range)), WORD - range
      {
        ghost var before := Value();
        XorTest(Span(low, range));
        if Xor(low, (low + range) % WORD) < TOP {
        } else if range < BOT {
          range := (-low) % BOT;
        } else {
          ReaderDone(before);
          break;
        }
        ReaderTurn(before);
        if pos >= |data| {
          return false;
        }
        code := (code * 256 + data[pos] as int) % WORD;
        pos := pos + 1;
        low := (low * 256) % WORD;
        range := (range * 256) % WORD;
        assert ReaderShifted(before) == Some(Value());
      }
      return true;
    }

    method DecodeFreq(total: int) returns (point: int)
      requires Valid() && 1 <= total < BOT
      modifies this`r, this`tot
      ensures Valid() && point == Point(Value(), total) && 0 <= point < total
      ensures tot == total && r == range / total
    {
      PointInRange(Value(), total);
      r, tot := range / total, total;
      assert 1 <= r;
      var q := ((code - low) % WORD) / r;
      point := if total - 1 < q then total - 1 else q;
    }

    method Consume(cum: int, freq: int) returns (ok: bool)
      requires Valid() && Codable(Interval(cum, freq, tot)) && r == range / tot
      modifies this`low, this`range, this`code, this`pos
      ensures ok <==> Consumed(old(Value()), Interval(cum, freq, tot)).Some?
      ensures ok ==> Valid() && Value() == Consumed(old(Value()), Interval(cum, freq, tot)).value
    {
      NarrowedInside(Span(low, range), Interval(cum, freq, tot));
      low := (low + r * cum) % WORD;
      range := r * freq;
      ok := Normalize();
    }
  }
}
