/** Base32 labels (section 6 of RFC 4648) without padding, and the fixed-width
    integers of a query name. Both are numerals in base 32. */
module Base32 {
  import opened Wrappers
  import opened Powers
  import opened Numerals

  /** What a parser returns: WireError is the codec's own rejection, any other
      exception is OtherError. */
  datatype Result<+T> = Ok(value: T) | WireError | OtherError

  // ---- the alphabet

  function Letter(d: nat): (c: char)
    requires d < 32
    ensures c != '=' && c != '.'
  {
    if d < 26 then 'A' + d as char else '2' + (d - 26) as char
  }

  /** The position of a character in the alphabet, or 32. */
  function Index(c: char): (d: nat)
    ensures d <= 32
    ensures d < 32 ==> Letter(d) == c
  {
    if 'A' <= c <= 'Z' then (c - 'A') as nat else if '2' <= c <= '7' then (c - '2') as nat + 26 else 32
  }

  lemma IndexOfLetter(d: nat)
    requires d < 32
    ensures Index(Letter(d)) == d
  {
  }

  function UpperChar(c: char): char {
    if 'a' <= c <= 'z' then c - 'a' + 'A' else c
  }

  function LowerChar(c: char): char {
    if 'A' <= c <= 'Z' then c - 'A' + 'a' else c
  }

  function Upper(s: string): (r: string)
    ensures |r| == |s| && forall i :: 0 <= i < |s| ==> r[i] == UpperChar(s[i])
  {
    seq(|s|, i requires 0 <= i < |s| => UpperChar(s[i]))
  }

  function Lower(s: string): (r: string)
    ensures |r| == |s| && forall i :: 0 <= i < |s| ==> r[i] == LowerChar(s[i])
  {
    seq(|s|, i requires 0 <= i < |s| => LowerChar(s[i]))
  }

  lemma UpperLower(s: string)
    ensures Upper(Lower(s)) == Upper(s)
  {
  }

  function Letters(ds: seq<nat>): (s: string)
    requires Below(ds, 32)
    ensures |s| == |ds| && forall i :: 0 <= i < |s| ==> s[i] == Letter(ds[i])
  {
    seq(|ds|, i requires 0 <= i < |ds| => Letter(ds[i]))
  }

  predicate InAlphabet(s: string) {
    forall i :: 0 <= i < |s| ==> Index(s[i]) < 32
  }

  function Indices(s: string): (ds: seq<nat>)
    requires InAlphabet(s)
    ensures |ds| == |s| && Below(ds, 32) && forall i :: 0 <= i < |s| ==> ds[i] == Index(s[i])
  {
    seq(|s|, i requires 0 <= i < |s| => Index(s[i]))
  }

  lemma IndicesOfLetters(ds: seq<nat>)
    requires Below(ds, 32)
    ensures InAlphabet(Letters(ds)) && Indices(Letters(ds)) == ds
  {
    forall i | 0 <= i < |ds| ensures Index(Letters(ds)[i]) == ds[i] {
      IndexOfLetter(ds[i]);
    }
  }

  lemma UpperLetters(ds: seq<nat>)
    requires Below(ds, 32)
    ensures Upper(Letters(ds)) == Letters(ds)
  {
  }

  // ---- integers of fixed width

  /** The label of an integer, or None when it is negative or too large. */
  function IntLabel(n: int, width: nat): Result<string> {
    if n < 0 || n >= Power(32, width) then WireError else Ok(Letters(Digits(n, 32, width)))
  }

  function LabelInt(text: string): Result<nat> {
    var t := Upper(text);
    if InAlphabet(t) then Ok(Numeral(Indices(t), 32)) else WireError
  }

  /** An integer label reads back, in either case of its letters. */
  lemma {:induction false} IntLabelRoundTrip(n: int, width: nat)
    requires IntLabel(n, width).Ok?
    ensures var s := IntLabel(n, width).value;
      |s| == width && LabelInt(s) == Ok(n) && LabelInt(Lower(s)) == Ok(n)
  {
    var ds := Digits(n, 32, width);
    UpperLower(Letters(ds));
    UpperLetters(ds);
    IndicesOfLetters(ds);
    NumeralDigits(n, 32, width);
  }

  /** Two labels that read as the same integer are the same label up to case
      if and only if they have one width. */
  lemma {:induction false} LabelIntInjective(s: string, t: string)
    requires LabelInt(s).Ok? && LabelInt(s) == LabelInt(t)
    ensures Upper(s) == Upper(t) <==> |s| == |t|
  {
    assert |Upper(s)| == |s| && |Upper(t)| == |t|;
    if |s| == |t| {
      SameWidth(s, t);
    }
  }

  lemma SameWidth(s: string, t: string)
    requires |s| == |t| && LabelInt(s).Ok? && LabelInt(s) == LabelInt(t)
    ensures Upper(s) == Upper(t)
  {
    DigitsNumeral(Indices(Upper(s)), 32);
    DigitsNumeral(Indices(Upper(t)), 32);
    forall i | 0 <= i < |s| ensures Upper(s)[i] == Upper(t)[i] {
      assert Indices(Upper(s))[i] == Indices(Upper(t))[i];
    }
  }

  /** A leading `a` is a leading zero. */
  lemma LeadingZero(text: string)
    ensures LabelInt("a" + text) == LabelInt(text)
  {
    var t, u := Upper(text), Upper("a" + text);
    assert u == "A" + t;
    if InAlphabet(t) {
      assert InAlphabet(u);
      assert Indices(u) == [0] + Indices(t);
      ZeroNumeral(Indices(t), 32);
    } else {
      var i :| 0 <= i < |t| && Index(t[i]) == 32;
      assert u[i + 1] == t[i];
    }
  }

  method EncodeInt(n: int, width: nat) returns (r: Result<string>)
    ensures r == IntLabel(n, width)
  {
    if n < 0 {
      return WireError;
    }
    var out, x, k := "", n, 0;
    ghost var ds: seq<nat> := [];
    assert Digits(n, 32, width) == Digits(x, 32, width) + ds;
    while k < width
      invariant 0 <= k <= width && 0 <= x
      invariant Below(ds, 32) && out == Letters(ds)
      invariant Digits(n, 32, width) == Digits(x, 32, width - k) + ds
      invariant n < Power(32, width) <==> x < Power(32, width - k)
    {
      FitsStep(x, width - k);
      DigitsStep(x, width - k, ds);
      LettersStep(x % 32, ds);
      out := [Letter(x % 32)] + out;
      ds := [x % 32] + ds;
      x := x / 32;
      k := k + 1;
    }
    PowerOne(n);
    if x != 0 {
      return WireError;
    }
    assert Digits(x, 32, 0) + ds == ds;
    return Ok(out);
  }

  lemma FitsStep(x: nat, m: nat)
    requires 1 <= m
    ensures x < Power(32, m) <==> x / 32 < Power(32, m - 1)
  {
  }

  lemma DigitsStep(x: nat, m: nat, ds: seq<nat>)
    requires 1 <= m
    ensures Digits(x, 32, m) + ds == Digits(x / 32, 32, m - 1) + ([x % 32] + ds)
  {
  }

  lemma LettersStep(d: nat, ds: seq<nat>)
    requires Below(ds, 32) && d < 32
    ensures Below([d] + ds, 32) && Letters([d] + ds) == [Letter(d)] + Letters(ds)
  {
  }

  lemma PowerOne(n: nat)
    ensures Power(32, 0) == 1
  {
  }

  lemma IndicesStep(t: string, i: nat)
    requires i < |t| && InAlphabet(t[..i]) && Index(t[i]) < 32
    ensures InAlphabet(t[..i + 1])
    ensures Numeral(Indices(t[..i + 1]), 32) == Numeral(Indices(t[..i]), 32) * 32 + Index(t[i])
  {
    hide Numeral;
    forall j | 0 <= j < i ensures t[..i + 1][j] == t[..i][j] {
    }
    assert Indices(t[..i + 1]) == Indices(t[..i]) + [Index(t[i])];
    NumeralStep(Indices(t[..i]), Index(t[i]), 32);
  }

  method DecodeInt(text: string) returns (r: Result<nat>)
    ensures r == LabelInt(text)
  {
    hide Numeral;
    var t, n, i := Upper(text), 0, 0;
    assert t[..0] == [];
    NoDigits(32);
    while i < |t|
      invariant 0 <= i <= |t| && InAlphabet(t[..i])
      invariant n == Numeral(Indices(t[..i]), 32)
    {
      if Index(t[i]) == 32 {
        assert !InAlphabet(t);
        return WireError;
      }
      IndicesStep(t, i);
      n := n * 32 + Index(t[i]);
      i := i + 1;
    }
    assert t[..i] == t;
    return Ok(n);
  }

  // ---- groups of five bytes

  /** The letters that carry `k` bytes. */
  function Width(k: nat): nat
    requires 1 <= k <= 5
  {
    (8 * k + 4) / 5
  }

  function Group(g: seq<byte>): (s: string)
    requires 1 <= |g| <= 5
    ensures |s| == Width(|g|) && InAlphabet(s) && forall i :: 0 <= i < |s| ==> s[i] != '=' && s[i] != '.'
  {
    var ds := Digits(Numeral(g, 256) * Power(256, 5 - |g|), 32, 8)[..Width(|g|)];
    IndicesOfLetters(ds);
    Letters(ds)
  }

  /** The bytes that `n` letters carry in a last group, or None for a count
      that no group has. */
  function Carried(n: nat): nat
    requires 1 <= n <= 8
  {
    5 * n / 8
  }

  function Ungroup(t: string): (g: seq<byte>)
    requires 1 <= |t| <= 8 && InAlphabet(t)
    ensures |g| == Carried(|t|)
  {
    Digits(Numeral(Indices(t), 32) * Power(32, 8 - |t|), 256, 5)[..Carried(|t|)]
  }

  lemma Powers32()
    ensures Power(32, 0) == 1 && Power(32, 1) == 32 && Power(32, 3) == 32768 && Power(32, 4) == 1048576
    ensures Power(32, 6) == 1073741824 && Power(32, 8) == 1099511627776
  {
    assert Power(32, 2) == 1024;
    assert Power(32, 5) == 33554432;
    assert Power(32, 7) == 34359738368;
  }

  lemma Powers256()
    ensures Power(256, 0) == 1 && Power(256, 1) == 256 && Power(256, 2) == 65536 && Power(256, 3) == 16777216
    ensures Power(256, 4) == 4294967296 && Power(256, 5) == 1099511627776
  {
  }

  /** The bits dropped from the last letter group are all zero. */
  lemma PaddingBits(v: nat, k: nat)
    requires 1 <= k <= 5 && v < Power(256, k)
    ensures var x, p := v * Power(256, 5 - k), Power(32, 8 - Width(k));
      x < Power(32, 8) && 1 <= p && x / p * p == x && x / Power(256, 5 - k) == v && 1 <= Power(256, 5 - k)
  {
    hide Power;
    Powers32();
    Powers256();
    if k == 1 {
      Shifted(v, 1073741824, 4);
    } else if k == 2 {
      Shifted(v, 1048576, 16);
    } else if k == 3 {
      Shifted(v, 32768, 2);
    } else if k == 4 {
      Shifted(v, 32, 8);
    } else {
      assert v * Power(256, 0) == v;
    }
  }

  lemma Shifted(v: nat, p: nat, c: nat)
    requires 1 <= p && 1 <= c
    ensures 1 <= p * c && v * (p * c) / p * p == v * (p * c) && v * (p * c) / (p * c) == v
  {
    Times(p, 1, c);
    assert v * (p * c) == v * c * p;
    DivMod(v * c, p, 0);
    DivMod(v, p * c, 0);
  }

  lemma {:induction false} GroupRoundTrip(g: seq<byte>)
    requires 1 <= |g| <= 5
    ensures 1 <= |Group(g)| <= 8 && Ungroup(Group(g)) == g
  {
    hide Power, Numeral, Digits;
    var k, v := |g|, Numeral(g, 256);
    var c, x := Width(k), v * Power(256, 5 - k);
    NumeralBelow(g, 256);
    PaddingBits(v, k);
    DigitsPrefix(x, 32, 8, c);
    IndicesOfLetters(Digits(x, 32, 8)[..c]);
    PrefixBelow(x, c);
    NumeralDigits(x / Power(32, 8 - c), 32, c);
    DigitsPrefix(x, 256, 5, k);
    DigitsNumeral(g, 256);
  }

  lemma PrefixBelow(x: nat, c: nat)
    requires x < Power(32, 8) && c <= 8
    ensures 1 <= Power(32, 8 - c) && x / Power(32, 8 - c) < Power(32, c)
  {
    PowerPositive(32, 8 - c);
    PowerSplit(32, c, 8 - c);
    QuotientBelow(x, Power(32, 8 - c), Power(32, c));
  }

  // ---- whole strings

  function Plain(data: seq<byte>): (s: string)
    ensures InAlphabet(s) && forall i :: 0 <= i < |s| ==> s[i] != '=' && s[i] != '.'
  {
    if data == [] then ""
    else if |data| <= 5 then Group(data)
    else Group(data[..5]) + Plain(data[5..])
  }

  function Unplain(t: string): seq<byte>
    requires InAlphabet(t)
    decreases |t|
  {
    if t == [] then []
    else if |t| <= 8 then Ungroup(t)
    else
      Ungroup(t[..8]) + Unplain(t[8..])
  }

  function Equals(n: nat): (s: string)
    ensures |s| == n && forall i :: 0 <= i < n ==> s[i] == '='
  {
    seq(n, _ => '=')
  }

  function RStrip(s: string): string {
    if s != "" && s[|s| - 1] == '=' then RStrip(s[..|s| - 1]) else s
  }

  /** The '=' that fill up the last group. */
  function Pads(n: nat): nat {
    match n % 5
    case 0 => 0
    case 1 => 6
    case 2 => 4
    case 3 => 3
    case _ => 1
  }

  function Padded(data: seq<byte>): string {
    Plain(data) + Equals(Pads(|data|))
  }

  function Unpadded(s: string): Result<seq<byte>> {
    var body := RStrip(s);
    if |s| % 8 != 0 || |s| < |body| || |s| - |body| !in {0, 1, 3, 4, 6} || !InAlphabet(body) then WireError
    else Ok(Unplain(body))
  }

  /** b32_encode_strip. */
  function EncodeStrip(data: seq<byte>): string {
    if data == [] then "0" else RStrip(Padded(data))
  }

  /** b32_decode_pad. */
  function DecodePad(text: string): Result<seq<byte>> {
    var t := Upper(text);
    if t == "0" then Ok([]) else Unpadded(t + Equals((8 - |t| % 8) % 8))
  }

  lemma {:induction false} RStripPads(s: string, n: nat)
    requires s == "" || s[|s| - 1] != '='
    ensures RStrip(s + Equals(n)) == s
    decreases n
  {
    if n == 0 {
      assert s + Equals(n) == s;
    } else {
      RStripPads(s, n - 1);
      assert (s + Equals(n))[..|s| + n - 1] == s + Equals(n - 1);
    }
  }

  lemma {:induction false} PlainLength(data: seq<byte>)
    ensures |Plain(data)| == (8 * |data| + 4) / 5
    decreases |data|
  {
    if 5 < |data| {
      PlainLength(data[5..]);
    }
  }

  lemma {:induction false} PlainRoundTrip(data: seq<byte>)
    ensures Unplain(Plain(data)) == data
    decreases |data|
  {
    hide Group, Ungroup;
    if data == [] {
    } else if |data| <= 5 {
      GroupRoundTrip(data);
    } else {
      PlainRoundTrip(data[5..]);
      GroupRoundTrip(data[..5]);
      PlainLength(data[5..]);
      var g, t := Group(data[..5]), Plain(data);
      assert t[..8] == g && t[8..] == Plain(data[5..]);
      assert data == data[..5] + data[5..];
    }
  }

  /** Every byte string reads back from its label, in either case. */
  lemma {:induction false} LabelRoundTrip(data: seq<byte>)
    ensures DecodePad(EncodeStrip(data)) == Ok(data)
    ensures DecodePad(Lower(EncodeStrip(data))) == Ok(data)
  {
    hide Plain, Unplain, Unpadded, Padded;
    UpperLower(EncodeStrip(data));
    if data != [] {
      Stripped(data);
      UpperPlain(Plain(data));
      PlainLength(data);
      Refilled(data);
    }
  }

  lemma {:induction false} LabelWidth(data: seq<byte>)
    requires data != []
    ensures |EncodeStrip(data)| == (8 * |data| + 4) / 5
  {
    hide Plain;
    PlainLength(data);
    Stripped(data);
  }

  lemma Stripped(data: seq<byte>)
    ensures RStrip(Padded(data)) == Plain(data)
  {
    RStripPads(Plain(data), Pads(|data|));
  }

  lemma PadCount(n: nat)
    ensures var t := (8 * n + 4) / 5;
      var p := (8 - t % 8) % 8;
      (t + p) % 8 == 0 && (p == 0 || p == 1 || p == 3 || p == 4 || p == 6)
  {
    var q, r := n / 5, n % 5;
    assert (8 * n + 4) / 5 == 8 * q + (8 * r + 4) / 5;
  }

  lemma UnpaddedOf(body: string, p: nat)
    requires InAlphabet(body) && RStrip(body + Equals(p)) == body && (|body| + p) % 8 == 0
    requires p == 0 || p == 1 || p == 3 || p == 4 || p == 6
    ensures Unpadded(body + Equals(p)) == Ok(Unplain(body))
  {
    hide RStrip, Unplain, InAlphabet;
  }

  /** The padding the decoder adds is the padding the encoder dropped. */
  lemma Refilled(data: seq<byte>)
    ensures var t := Plain(data); Unpadded(t + Equals((8 - |t| % 8) % 8)) == Ok(data)
  {
    hide Plain, Unplain, InAlphabet, RStrip, Unpadded;
    var t := Plain(data);
    var p := (8 - |t| % 8) % 8;
    PlainLength(data);
    PadCount(|data|);
    RStripPads(t, p);
    UnpaddedOf(t, p);
    PlainRoundTrip(data);
  }

  lemma UpperPlain(s: string)
    requires InAlphabet(s)
    ensures Upper(s) == s
  {
  }

  /** The label has no dot and needs five letters for every three bytes: a
      label of at most 63 letters is a chunk of at most 39 bytes. */
  lemma {:induction false} LabelShape(data: seq<byte>)
    ensures var s := EncodeStrip(data);
      1 <= |s| && '.' !in s && (|s| <= 63 <==> |data| <= 39)
  {
    hide Plain;
    if data != [] {
      PlainLength(data);
      Stripped(data);
    }
  }
}
