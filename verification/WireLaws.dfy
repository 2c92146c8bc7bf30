/** What the readers of the DNS valve accept, on any input, and what they make of
    it: each refusal exactly when it is due. */
module WireLaws {
  import opened Wrappers
  import opened ByteStrings
  import opened Powers
  import opened Numerals
  import opened Base32
  import opened DottedNames
  import opened QueryNames
  import opened Fragments
  import opened DnsPackets

  // ---- letters and groups (section 6 of RFC 4648)

  /** A letter is A to Z for 0 to 25 and 2 to 7 for 26 to 31; no other character is
      one. */
  lemma {:induction false} Alphabet(c: char)
    ensures 'A' <= c <= 'Z' ==> Index(c) == c as int - 65
    ensures '2' <= c <= '7' ==> Index(c) == c as int - 50 + 26
    ensures !('A' <= c <= 'Z') && !('2' <= c <= '7') ==> Index(c) == 32
    ensures Index(c) < 32 ==> Letter(Index(c)) == c
  {
  }

  /** A group's letters, filled up to eight with zero letters, are the number that its
      bytes are, filled up to five with zero bytes. */
  lemma {:induction false} GroupMeans(g: seq<byte>)
    requires 1 <= |g| <= 5
    ensures |Group(g)| == (if |g| == 1 then 2 else if |g| == 2 then 4 else if |g| == 3 then 5 else if |g| == 4 then 7 else 8)
    ensures Numeral(Indices(Group(g)), 32) * Power(32, 8 - |Group(g)|) == Numeral(g, 256) * Power(256, 5 - |g|)
  {
    hide Power, Numeral, Digits;
    var k, v := |g|, Numeral(g, 256);
    var c, x := Width(k), v * Power(256, 5 - k);
    NumeralBelow(g, 256);
    PaddingBits(v, k);
    DigitsPrefix(x, 32, 8, c);
    IndicesOfLetters(Digits(x, 32, 8)[..c]);
    PrefixBelow(x, c);
    NumeralDigits(x / Power(32, 8 - c), 32, c);
  }

  /** A text without padding is read exactly when it is the one letter for no bytes, or
      all its characters are letters in either case and their number is one that some
      bytes need. */
  lemma {:induction false} DecodesExactly(text: string)
    requires '=' !in text
    ensures DecodePad(text).Ok? <==> (text == "0" ||
      ((forall i :: 0 <= i < |text| ==> Index(UpperChar(text[i])) < 32) && |text| % 8 != 1 && |text| % 8 != 3 && |text| % 8 != 6))
    ensures !DecodePad(text).Ok? ==> DecodePad(text) == WireError
  {
    hide RStrip, Unplain, Index, Upper, InAlphabet;
    var t := Upper(text);
    LettersUpper(text);
    assert t == "0" <==> text == "0" by {
      ZeroUpper(text);
    }
    var p := (8 - |t| % 8) % 8;
    NoEquals(text);
    RStripPads(t, p);
  }

  lemma LettersUpper(text: string)
    ensures |Upper(text)| == |text|
    ensures InAlphabet(Upper(text)) <==> forall i :: 0 <= i < |text| ==> Index(UpperChar(text[i])) < 32
  {
    hide Index, UpperChar;
    var t := Upper(text);
    assert forall i :: 0 <= i < |text| ==> t[i] == UpperChar(text[i]);
  }

  lemma ZeroUpper(text: string)
    ensures Upper(text) == "0" <==> text == "0"
  {
    if Upper(text) == "0" {
      assert Upper(text)[0] == UpperChar(text[0]);
      assert text == [text[0]];
    }
    if text == "0" {
      assert Upper(text) == "0";
    }
  }

  lemma NoEquals(text: string)
    requires '=' !in text
    ensures Upper(text) == "" || Upper(text)[|Upper(text)| - 1] != '='
  {
    var t := Upper(text);
    if t != "" {
      assert t[|t| - 1] == UpperChar(text[|text| - 1]);
    }
  }

  // ---- names

  /** The labels of a name as the parser sees them. */
  function Seen(name: string): seq<string> {
    Split(Lower(Strip(name)))
  }

  predicate QueryLabels(ls: seq<string>, domain: string) {
    && |ls| == 5 + |Zone(Domain(domain))| && ls[5..] == Zone(Domain(domain))
    && ls[0] == "q" && |ls[2]| == 6 && |ls[3]| == 4
    && LabelSeq(ls[1]).Ok? && DecodePad(ls[4]).Ok?
  }

  /** Any name at all: it is a query of the domain exactly when it has five labels
      before the zone, the marker first, a session of six and a nonce of four
      characters, and a number and a payload that read; and these are its parts. */
  lemma {:induction false} ParsesExactly(name: string, domain: string)
    ensures ParseName(name, domain).Ok? <==> QueryLabels(Seen(name), domain)
    ensures !ParseName(name, domain).Ok? ==> ParseName(name, domain) == WireError
    ensures QueryLabels(Seen(name), domain) ==>
      var ls := Seen(name);
      ParseName(name, domain) == Ok(Query(LabelSeq(ls[1]).value, ls[2], ls[3], DecodePad(ls[4]).value,
                                          Domain(domain), Lower(Strip(name))))
  {
    hide Split, Strip, Lower, LabelSeq, DecodePad, Zone, EndsWith;
    var parts, zone, lowered := Seen(name), Zone(Domain(domain)), Lower(Strip(name));
    if QueryLabels(parts, domain) {
      ZoneEnds(lowered, parts, Domain(domain));
      assert parts[..|parts| - |zone|] == parts[..5];
    }
  }

  /** The test of the end of the text is implied by the labels. */
  lemma ZoneEnds(lowered: string, parts: seq<string>, d: string)
    requires parts == Split(lowered) && |parts| == 5 + |Zone(d)| && parts[5..] == Zone(d)
    ensures EndsWith(lowered, "tunnel." + d)
  {
    hide Split, Zone, EndsWith;
    JoinSplit(lowered);
    ZoneAtFive(parts, d);
  }

  lemma ZoneAtFive(ls: seq<string>, d: string)
    requires |ls| == 5 + |Zone(d)| && ls[5..] == Zone(d)
    ensures EndsWith(Join(ls), "tunnel." + d)
  {
    hide Join, Zone, EndsWith, Split;
    assert ls == ls[..5] + ls[5..];
    JoinAppend(ls[..5], ls[5..]);
    ZoneText(d);
    AtEnd(Join(ls[..5]) + ".", "tunnel." + d);
  }

  /** A number label reads as its letters say, up to 1023. */
  lemma {:induction false} NumberReads(text: string)
    ensures LabelSeq(text).Ok? <==> LabelInt(text).Ok? && LabelInt(text).value <= 1023
    ensures LabelSeq(text).Ok? ==> LabelSeq(text).value == LabelInt(text).value
    ensures !LabelSeq(text).Ok? ==> LabelSeq(text) == WireError
    ensures LabelInt(text).Ok? <==> forall i :: 0 <= i < |text| ==> Index(UpperChar(text[i])) < 32
  {
    hide Numeral;
  }

  // ---- frames and fragments

  /** A frame reads as the bytes it announces, whatever follows, and fails exactly when
      it has no length or fewer bytes than it announces. */
  lemma {:induction false} Unframes(framed: seq<byte>)
    ensures Unframe(framed) ==
      if |framed| < 2 || |framed| - 2 < framed[0] as int * 256 + framed[1] as int then WireError
      else Ok(framed[2..2 + (framed[0] as int * 256 + framed[1] as int)])
  {
  }

  ghost predicate Agree(parsed: seq<Query>) {
    forall i, j :: 0 <= i < |parsed| && 0 <= j < |parsed| && parsed[i].seqNo == parsed[j].seqNo ==> parsed[i].chunk == parsed[j].chunk
  }

  lemma AgreeMore(parsed: seq<Query>)
    requires parsed != []
    ensures var init, q := parsed[..|parsed| - 1], parsed[|parsed| - 1];
      Agree(parsed) <==> Agree(init) && forall i :: 0 <= i < |init| && init[i].seqNo == q.seqNo ==> init[i].chunk == q.chunk
  {
    var init := parsed[..|parsed| - 1];
    assert forall i :: 0 <= i < |init| ==> init[i] == parsed[i];
    assert forall i :: 0 <= i < |parsed| - 1 ==> parsed[i] == init[i];
  }

  /** The chunks under the numbers they were parsed with, and no other. */
  ghost predicate NumberedAs(parsed: seq<Query>, m: Chunks) {
    && (forall k: nat :: k in m <==> exists i :: 0 <= i < |parsed| && parsed[i].seqNo == k)
    && forall i :: 0 <= i < |parsed| ==> parsed[i].seqNo in m && m[parsed[i].seqNo] == parsed[i].chunk
  }

  lemma NextNumbered(parsed: seq<Query>, m: Chunks)
    requires parsed != [] && NumberedAs(parsed[..|parsed| - 1], m)
    ensures var init, q := parsed[..|parsed| - 1], parsed[|parsed| - 1];
      (forall i :: 0 <= i < |init| && init[i].seqNo == q.seqNo ==> init[i].chunk == q.chunk)
      <==> !(q.seqNo in m && m[q.seqNo] != q.chunk)
    ensures var q := parsed[|parsed| - 1];
      !(q.seqNo in m && m[q.seqNo] != q.chunk) ==> NumberedAs(parsed, m[q.seqNo := q.chunk])
  {
    var init, q := parsed[..|parsed| - 1], parsed[|parsed| - 1];
    assert parsed == init + [q];
    if q.seqNo in m {
      var i :| 0 <= i < |init| && init[i].seqNo == q.seqNo;
      assert m[q.seqNo] == init[i].chunk;
    }
  }

  /** Parsed queries are numbered exactly when no two of one number differ, and then by
      their numbers. */
  lemma {:induction false} NumbersExactly(parsed: seq<Query>)
    ensures Numbered(parsed).Ok? <==> Agree(parsed)
    ensures Numbered(parsed).Ok? ==> NumberedAs(parsed, Numbered(parsed).value)
    decreases |parsed|
  {
    hide Agree, NumberedAs;
    if parsed == [] {
      NoneDisagree();
    } else {
      var init := parsed[..|parsed| - 1];
      NumbersExactly(init);
      AgreeMore(parsed);
      if Numbered(init).Ok? {
        NextNumbered(parsed, Numbered(init).value);
      }
    }
  }

  lemma NoneDisagree()
    ensures Agree([]) && NumberedAs([], map[])
  {
  }

  /** All fragments up to the highest number, joined in order. */
  ghost predicate Joins(m: Chunks, r: Result<seq<byte>>) {
    exists n: nat :: Contiguous(m, n) && (forall k: nat :: k in m ==> k < n) && r == Unframe(Run(m, n))
  }

  /** Reassembling parsed queries fails exactly when there are none, two of one number
      differ, a number is missing below another, or the bytes are no frame. */
  lemma {:induction false} ReassemblesAny(parsed: seq<Query>)
    ensures parsed == [] || !Agree(parsed) ==> Reassembled(parsed) == WireError
    ensures parsed != [] && Agree(parsed) ==> Numbered(parsed).Ok?
    ensures parsed != [] && Agree(parsed) && !NoGap(Numbered(parsed).value) ==> Reassembled(parsed) == WireError
    ensures parsed != [] && Agree(parsed) && NoGap(Numbered(parsed).value) ==> Joins(Numbered(parsed).value, Reassembled(parsed))
  {
    hide Run, Unframe, Numbered;
    NumbersExactly(parsed);
    if parsed != [] && Agree(parsed) {
      var m := Numbered(parsed).value;
      var n: nat := Highest(m, 1024) + 1;
      assert parsed[0].seqNo in m && parsed[0].seqNo < 1024;
      forall k: nat | k in m ensures k < 1024 {
        var i :| 0 <= i < |parsed| && parsed[i].seqNo == k;
      }
      assert NoGap(m) <==> Contiguous(m, n);
      assert forall k: nat :: k in m ==> k < n;
      if NoGap(m) {
        assert Reassembled(parsed) == Unframe(Run(m, n));
      }
    }
  }

  // ---- packets

  /** The two bytes at a position, high byte first. */
  function Pair(b: seq<byte>, i: nat): int
    requires i + 1 < |b|
  {
    b[i] as int * 256 + b[i + 1] as int
  }

  /** Any packet at all is a query exactly when it has a header with one question, a name
      that decodes, and type 16 and class 1 behind it; and it says its transaction and
      that name. */
  lemma {:induction false} QueriesExactly(packet: seq<byte>)
    ensures ParsedQueryPacket(packet).Ok? <==>
      && 12 <= |packet| && Pair(packet, 4) == 1 && NameAt(packet, 12, 0).Ok?
      && var end := NameAt(packet, 12, 0).value.end;
         end + 4 <= |packet| && Pair(packet, end) == 16 && Pair(packet, end + 2) == 1
    ensures ParsedQueryPacket(packet).Ok? ==>
      ParsedQueryPacket(packet).value == (Pair(packet, 0), Join(NameAt(packet, 12, 0).value.labels))
    ensures ParsedQueryPacket(packet) == OtherError <==>
      12 <= |packet| && Pair(packet, 4) == 1 && NameAt(packet, 12, 0) == OtherError
  {
    hide NameAt, Join;
  }

  /** Any packet with one question is an answer exactly when its names decode and its
      first record, if it announces one, is whole and of type 16; and it says its
      transaction, the low four bits of the flags, and the record's text. */
  lemma {:induction false} AnswersExactly(packet: seq<byte>)
    requires 12 <= |packet| && Pair(packet, 4) == 1
    ensures ParsedAnswer(packet).Ok? <==>
      && NameAt(packet, 12, 0).Ok?
      && var at := NameAt(packet, 12, 0).value.end + 4;
         (Pair(packet, 6) == 0 ||
          (NameAt(packet, at, 0).Ok?
           && var end := NameAt(packet, at, 0).value.end; end + 10 <= |packet| && Pair(packet, end) == 16))
    ensures ParsedAnswer(packet).Ok? && Pair(packet, 6) == 0 ==>
      ParsedAnswer(packet).value == Answer(Pair(packet, 0), packet[3] as int % 16, None)
    ensures ParsedAnswer(packet).Ok? && Pair(packet, 6) != 0 ==>
      var end := NameAt(packet, NameAt(packet, 12, 0).value.end + 4, 0).value.end;
      ParsedAnswer(packet).value == Answer(Pair(packet, 0), packet[3] as int % 16,
        Some(TxtText(Slice(packet, end + 10, end + 10 + Pair(packet, end + 8)))))
  {
    hide NameAt, TxtText, Slice, Skipped, RecordText, Word, Pair;
    OneSkipped(packet);
    LowBits(packet);
    PairIs(packet, 0);
    PairIs(packet, 4);
    PairIs(packet, 6);
    if NameAt(packet, 12, 0).Ok? {
      RecordIs(packet, NameAt(packet, 12, 0).value.end + 4);
    }
  }

  lemma PairIs(b: seq<byte>, i: nat)
    requires i + 1 < |b|
    ensures Word(b, i) == Pair(b, i)
  {
  }

  lemma LowBits(b: seq<byte>)
    requires 4 <= |b|
    ensures Word(b, 2) % 16 == b[3] as int % 16
  {
    assert Word(b, 2) == b[2] as int * 256 + b[3] as int;
  }

  lemma RecordIs(packet: seq<byte>, at: nat)
    ensures RecordText(packet, at).Ok? <==> (NameAt(packet, at, 0).Ok?
      && var end := NameAt(packet, at, 0).value.end; end + 10 <= |packet| && Pair(packet, end) == 16)
    ensures RecordText(packet, at).Ok? ==>
      var end := NameAt(packet, at, 0).value.end;
      RecordText(packet, at).value == TxtText(Slice(packet, end + 10, end + 10 + Pair(packet, end + 8)))
  {
    hide NameAt, TxtText, Slice;
  }

  lemma OneSkipped(packet: seq<byte>)
    ensures Skipped(packet, 12, 1) ==
      match NameAt(packet, 12, 0)
      case Ok(v) => Ok(v.end + 4)
      case WireError => WireError
      case OtherError => OtherError
  {
    hide NameAt;
    if NameAt(packet, 12, 0).Ok? {
      assert Skipped(packet, NameAt(packet, 12, 0).value.end + 4, 0) == Ok(NameAt(packet, 12, 0).value.end + 4);
    }
  }

  /** A pointer stands for the name it points to, wherever that is; one that points to
      itself is refused, and so is a label length of 64 to 191. */
  lemma {:induction false} Pointers(buf: seq<byte>, pos: nat)
    requires pos + 1 < |buf| && 192 <= buf[pos]
    ensures var to := (buf[pos] as int - 192) * 256 + buf[pos + 1] as int;
      && (NameAt(buf, pos, 0).Ok? <==> NameAt(buf, to, 1).Ok?)
      && (NameAt(buf, pos, 0).Ok? ==> NameAt(buf, pos, 0).value == Name([Join(NameAt(buf, to, 1).value.labels)], pos + 2))
      && (to == pos ==> NameAt(buf, pos, 0) == WireError)
  {
    hide NameAt, Join;
    PointerAt(buf, pos, 0);
    if (buf[pos] as int - 192) * 256 + buf[pos + 1] as int == pos {
      Loops(buf, pos, 0);
    }
  }

  lemma {:induction false} Loops(buf: seq<byte>, pos: nat, depth: nat)
    requires pos + 1 < |buf| && 192 <= buf[pos] && Target(buf, pos) == pos && depth <= 10
    ensures NameAt(buf, pos, depth) == WireError
    decreases 10 - depth
  {
    hide NameAt, Join, Target;
    PointerAt(buf, pos, depth);
    if depth < 10 {
      Loops(buf, pos, depth + 1);
    }
  }
}
