/** DNS names, TXT queries and TXT answers (sections 3.1, 3.3.14, 4.1.1 and
    4.1.4 of RFC 1035). */
module DnsPackets {
  import opened Wrappers
  import opened Sequences
  import opened ByteStrings
  import opened Base32
  import opened DottedNames

  // ---- names

  predicate Ascii(s: string) {
    forall i :: 0 <= i < |s| ==> s[i] as int < 128
  }

  function Raw(s: string): (b: seq<byte>)
    requires Ascii(s)
    ensures |b| == |s| && forall i :: 0 <= i < |b| ==> b[i] == s[i] as int && b[i] < 128
  {
    seq(|s|, i requires 0 <= i < |s| => s[i] as int)
  }

  predicate AsciiBytes(b: seq<byte>) {
    forall i :: 0 <= i < |b| ==> b[i] < 128
  }

  function Text(b: seq<byte>): (s: string)
    requires AsciiBytes(b)
    ensures |s| == |b| && forall i :: 0 <= i < |s| ==> s[i] == b[i] as char
  {
    seq(|b|, i requires 0 <= i < |b| => b[i] as char)
  }

  /** Label bytes up to and including the root, or the first label's error. */
  function LabelBytes(ls: seq<string>): Result<seq<byte>> {
    if ls == [] then Ok([0])
    else if ls[0] == "" then LabelBytes(ls[1..])
    else if !Ascii(ls[0]) then OtherError
    else if 63 < |ls[0]| then WireError
    else
      match LabelBytes(ls[1..])
      case Ok(rest) => Ok([|ls[0]|] + Raw(ls[0]) + rest)
      case e => e
  }

  /** _encode_name. */
  function NameBytes(name: string): Result<seq<byte>> {
    LabelBytes(Split(name))
  }

  datatype Name = Name(labels: seq<string>, end: nat)

  function Target(buf: seq<byte>, pos: nat): nat
    requires pos + 1 < |buf| && 192 <= buf[pos]
  {
    Word16(buf[pos] - 192, buf[pos + 1])
  }

  /** The labels at `pos`, with up to ten compression pointers followed. */
  function NameAt(buf: seq<byte>, pos: nat, depth: nat): Result<Name>
    decreases 11 - depth, |buf| - pos
  {
    if |buf| <= pos then WireError
    else
      var n := buf[pos];
      if n == 0 then Ok(Name([], pos + 1))
      else if 192 <= n then
        if |buf| <= pos + 1 then WireError
        else if 10 < depth + 1 then WireError
        else
          match NameAt(buf, Target(buf, pos), depth + 1)
          case Ok(inner) => Ok(Name([Join(inner.labels)], pos + 2))
          case e => e
      else if 64 <= n then WireError
      else
        var raw := Slice(buf, pos + 1, pos + 1 + n);
        if !AsciiBytes(raw) then OtherError
        else
          match NameAt(buf, pos + 1 + n, depth)
          case Ok(rest) => Ok(Name([Text(raw)] + rest.labels, rest.end))
          case e => e
  }

  function DottedName(r: Result<Name>): Result<(string, nat)> {
    match r
    case Ok(n) => Ok((Join(n.labels), n.end))
    case WireError => WireError
    case OtherError => OtherError
  }

  function After(labels: seq<string>, r: Result<Name>): Result<Name> {
    match r
    case Ok(n) => Ok(Name(labels + n.labels, n.end))
    case e => e
  }

  lemma AfterStep(labels: seq<string>, l: string, r: Result<Name>)
    ensures After(labels, After([l], r)) == After(labels + [l], r)
  {
    if r.Ok? {
      assert labels + ([l] + r.value.labels) == (labels + [l]) + r.value.labels;
    }
  }

  lemma NoName(buf: seq<byte>, pos: nat, depth: nat)
    requires |buf| <= pos || 64 <= buf[pos] < 192 || (192 <= buf[pos] && |buf| <= pos + 1)
    ensures NameAt(buf, pos, depth) == WireError
  {
  }

  lemma RootAt(buf: seq<byte>, pos: nat, depth: nat)
    requires pos < |buf| && buf[pos] == 0
    ensures NameAt(buf, pos, depth) == Ok(Name([], pos + 1))
  {
  }

  lemma PointerAt(buf: seq<byte>, pos: nat, depth: nat)
    requires pos + 1 < |buf| && 192 <= buf[pos] && depth <= 10
    ensures NameAt(buf, pos, depth) ==
      if 10 < depth + 1 then WireError
      else
        match NameAt(buf, Target(buf, pos), depth + 1)
        case Ok(inner) => Ok(Name([Join(inner.labels)], pos + 2))
        case e => e
  {
  }

  lemma LabelAt(buf: seq<byte>, pos: nat, depth: nat)
    requires pos < |buf| && 1 <= buf[pos] < 64
    ensures var raw := Slice(buf, pos + 1, pos + 1 + buf[pos]);
      NameAt(buf, pos, depth) ==
        if AsciiBytes(raw) then After([Text(raw)], NameAt(buf, pos + 1 + buf[pos], depth)) else OtherError
  {
  }

  /** _decode_name: ends on every buffer, whatever its pointers. */
  method DecodeName(buf: seq<byte>, offset: nat, depth: nat) returns (r: Result<(string, nat)>)
    ensures r == if 10 < depth then WireError else DottedName(NameAt(buf, offset, depth))
    decreases if depth <= 11 then 11 - depth else 0
  {
    hide NameAt, Join, Slice, AsciiBytes;
    if 10 < depth {
      return WireError;
    }
    var labels, pos, end := [], offset, offset;
    AfterNothing(NameAt(buf, offset, depth));
    while true
      invariant After(labels, NameAt(buf, pos, depth)) == NameAt(buf, offset, depth)
      decreases |buf| - pos
    {
      if |buf| <= pos {
        NoName(buf, pos, depth);
        return WireError;
      }
      var length := buf[pos] as int;
      if length == 0 {
        RootAt(buf, pos, depth);
        end := pos + 1;
        break;
      }
      if 192 <= length {
        if |buf| <= pos + 1 {
          NoName(buf, pos, depth);
          return WireError;
        }
        PointerAt(buf, pos, depth);
        end := pos + 2;
        var inner := DecodeName(buf, Target(buf, pos), depth + 1);
        if inner.WireError? {
          return WireError;
        }
        if inner.OtherError? {
          return OtherError;
        }
        labels := labels + [inner.value.0];
        break;
      }
      if 64 <= length {
        NoName(buf, pos, depth);
        return WireError;
      }
      LabelAt(buf, pos, depth);
      var raw := Slice(buf, pos + 1, pos + 1 + length);
      if !AsciiBytes(raw) {
        return OtherError;
      }
      AfterStep(labels, Text(raw), NameAt(buf, pos + 1 + length, depth));
      labels := labels + [Text(raw)];
      pos := pos + 1 + length;
    }
    assert labels + [] == labels;
    return Ok((Join(labels), end));
  }

  lemma AfterNothing(r: Result<Name>)
    ensures After([], r) == r
  {
    if r.Ok? {
      assert [] + r.value.labels == r.value.labels;
    }
  }

  lemma TextRaw(s: string)
    requires Ascii(s)
    ensures AsciiBytes(Raw(s)) && Text(Raw(s)) == s
  {
    forall i | 0 <= i < |s| ensures Text(Raw(s))[i] == s[i] {
      assert Raw(s)[i] as char == s[i];
    }
  }

  /** An encoded name, anywhere in a packet, decodes to its non-empty labels
      and its end. */
  lemma {:induction false} LabelsRoundTrip(pre: seq<byte>, ls: seq<string>, post: seq<byte>, depth: nat)
    requires LabelBytes(ls).Ok?
    ensures var b := LabelBytes(ls).value;
      NameAt(pre + b + post, |pre|, depth) == Ok(Name(NonEmpty(ls), |pre| + |b|))
    decreases |ls|
  {
    hide NameAt, Slice;
    var b := LabelBytes(ls).value;
    if ls == [] {
      RootAt(pre + b + post, |pre|, depth);
    } else if ls[0] == "" {
      LabelsRoundTrip(pre, ls[1..], post, depth);
      assert [] + NonEmpty(ls[1..]) == NonEmpty(ls[1..]);
    } else {
      var head, rest := [|ls[0]|] + Raw(ls[0]), LabelBytes(ls[1..]).value;
      LabelsRoundTrip(pre + head, ls[1..], post, depth);
      FirstLabel(pre, ls[0], rest, post, depth);
    }
  }

  lemma FirstLabel(pre: seq<byte>, l: string, rest: seq<byte>, post: seq<byte>, depth: nat)
    requires Ascii(l) && 1 <= |l| <= 63
    ensures var head := [|l|] + Raw(l);
      && pre + (head + rest) + post == (pre + head) + rest + post
      && NameAt(pre + (head + rest) + post, |pre|, depth)
           == After([l], NameAt((pre + head) + rest + post, |pre + head|, depth))
  {
    hide NameAt, After;
    var head := [|l|] + Raw(l);
    var buf := pre + (head + rest) + post;
    assert buf == (pre + head) + rest + post;
    assert buf == pre + ([|l|] + (Raw(l) + (rest + post)));
    LengthAndLabel(pre, |l|, Raw(l), rest + post);
    TextRaw(l);
    LabelAt(buf, |pre|, depth);
  }

  lemma LengthAndLabel(pre: seq<byte>, n: byte, raw: seq<byte>, rest: seq<byte>)
    requires n == |raw|
    ensures var buf := pre + ([n] + (raw + rest));
      buf[|pre|] == n && Slice(buf, |pre| + 1, |pre| + 1 + n) == raw
  {
    var buf := pre + ([n] + (raw + rest));
    assert buf[|pre| + 1..] == raw + rest;
    assert buf[|pre| + 1..|pre| + 1 + n] == raw;
    if |buf| <= |pre| + 1 + n {
      assert rest == [];
      assert raw + rest == raw;
    }
  }

  function Cleaned(name: string): string {
    Join(NonEmpty(Split(name)))
  }

  lemma {:induction false} EncodedNameDecodes(pre: seq<byte>, name: string, post: seq<byte>)
    requires NameBytes(name).Ok?
    ensures var b := NameBytes(name).value;
      DottedName(NameAt(pre + b + post, |pre|, 0)) == Ok((Cleaned(name), |pre| + |b|))
  {
    hide NameAt, LabelBytes, Join, NonEmpty, Split;
    LabelsRoundTrip(pre, Split(name), post, 0);
  }

  // ---- packets

  const TXT := 16
  const IN := 1

  function Header(txid: int, flags: nat, answers: nat): (b: seq<byte>)
    requires flags < 65536 && answers < 65536
    ensures |b| == 12
  {
    Bytes16(txid % 65536) + Bytes16(flags) + Bytes16(1) + Bytes16(answers) + Bytes16(0) + Bytes16(1)
  }

  function TypeClass(): (b: seq<byte>)
    ensures |b| == 4
  {
    Bytes16(TXT) + Bytes16(IN)
  }

  /** The EDNS0 record that advertises 1232 bytes. */
  function OptRecord(): seq<byte> {
    [0] + Bytes16(41) + Bytes16(EDNS0_UDP_SIZE) + [0, 0, 0, 0] + Bytes16(0)
  }

  function Word(b: seq<byte>, i: nat): nat
    requires i + 1 < |b|
  {
    Word16(b[i], b[i + 1])
  }

  lemma Word16Bytes16(pre: seq<byte>, n: nat, post: seq<byte>)
    requires n < 65536
    ensures |pre| + 1 < |pre + Bytes16(n) + post| && Word(pre + Bytes16(n) + post, |pre|) == n
  {
  }

  function QueryPacket(txid: int, name: string): Result<seq<byte>> {
    match NameBytes(name)
    case Ok(n) => Ok(Header(txid, 256, 0) + n + TypeClass() + OptRecord())
    case e => e
  }

  function ParsedQueryPacket(packet: seq<byte>): Result<(nat, string)> {
    if |packet| < 12 || Word(packet, 4) != 1 then WireError
    else
      match DottedName(NameAt(packet, 12, 0))
      case Ok(v) =>
        if |packet| < v.1 + 4 || Word(packet, v.1) != TXT || Word(packet, v.1 + 2) != IN then WireError
        else Ok((Word(packet, 0), v.0))
      case WireError => WireError
      case OtherError => OtherError
  }

  lemma HeaderWords(txid: int, flags: nat, answers: nat, rest: seq<byte>)
    requires flags < 65536 && answers < 65536
    ensures var p := Header(txid, flags, answers) + rest;
      Word(p, 0) == txid % 65536 && Word(p, 2) == flags && Word(p, 4) == 1 && Word(p, 6) == answers
  {
  }

  /** The type and class right after a name. */
  lemma TypeClassAt(pre: seq<byte>, post: seq<byte>)
    ensures var p := pre + TypeClass() + post;
      |pre| + 4 <= |p| && Word(p, |pre|) == TXT && Word(p, |pre| + 2) == IN
  {
  }

  lemma Joined(a: seq<byte>, b: seq<byte>, c: seq<byte>, d: seq<byte>)
    ensures a + b + c + d == (a + b) + c + d == a + b + (c + d) == a + (b + c + d)
  {
  }

  /** A query packet reads back as its transaction and its name. */
  lemma {:induction false} QueryRoundTrip(txid: int, name: string)
    requires NameBytes(name).Ok?
    ensures ParsedQueryPacket(QueryPacket(txid, name).value) == Ok((txid % 65536, Cleaned(name)))
  {
    hide NameAt, NameBytes, Cleaned, Header, TypeClass, OptRecord, DottedName, Word;
    var h, n := Header(txid, 256, 0), NameBytes(name).value;
    Joined(h, n, TypeClass(), OptRecord());
    HeaderWords(txid, 256, 0, n + TypeClass() + OptRecord());
    EncodedNameDecodes(h, name, TypeClass() + OptRecord());
    TypeClassAt(h + n, OptRecord());
  }

  // ---- TXT data

  function TxtPieces(payload: seq<byte>): seq<byte> {
    if |payload| <= 255 then [|payload|] + payload
    else [255] + payload[..255] + TxtPieces(payload[255..])
  }

  function TxtText(rdata: seq<byte>): seq<byte> {
    if rdata == [] then []
    else
      var n := rdata[0] as int;
      Slice(rdata, 1, 1 + n) + if |rdata| <= 1 + n then [] else TxtText(rdata[1 + n..])
  }

  lemma {:induction false} TxtRoundTrip(payload: seq<byte>)
    ensures TxtText(TxtPieces(payload)) == payload
    ensures |TxtPieces(payload)| == |payload| + if payload == [] then 1 else (|payload| + 254) / 255
    decreases |payload|
  {
    var r := TxtPieces(payload);
    if |payload| <= 255 {
      assert r[1..] == payload;
    } else {
      TxtRoundTrip(payload[255..]);
      assert r[1..256] == payload[..255] && r[256..] == TxtPieces(payload[255..]);
    }
  }

  method TxtRdata(payload: seq<byte>) returns (out: seq<byte>)
    ensures out == TxtPieces(payload)
  {
    if payload == [] {
      return [0];
    }
    out := [];
    var i := 0;
    while i < |payload|
      invariant 0 <= i
      invariant i < |payload| ==> TxtPieces(payload) == out + TxtPieces(payload[i..])
      invariant |payload| <= i ==> TxtPieces(payload) == out
    {
      var piece := Slice(payload, i, i + 255);
      TxtStep(payload, i, out);
      out := out + [|piece|] + piece;
      i := i + 255;
    }
  }

  lemma TxtStep(payload: seq<byte>, i: nat, out: seq<byte>)
    requires i < |payload|
    ensures var piece := Slice(payload, i, i + 255);
      out + TxtPieces(payload[i..]) ==
        out + [|piece|] + piece + if i + 255 < |payload| then TxtPieces(payload[i + 255..]) else []
  {
    var r := payload[i..];
    if 255 < |r| {
      assert r[..255] == payload[i..i + 255] && r[255..] == payload[i + 255..];
    }
  }

  method ParseTxtRdata(rdata: seq<byte>) returns (out: seq<byte>)
    ensures out == TxtText(rdata)
  {
    hide TxtText, Slice;
    out := [];
    var pos := 0;
    assert rdata[0..] == rdata;
    NoText();
    while pos < |rdata|
      invariant 0 <= pos
      invariant TxtText(rdata) == out + if pos < |rdata| then TxtText(rdata[pos..]) else []
    {
      var length := rdata[pos] as int;
      TextStep(rdata, pos, out);
      out := out + Slice(rdata, pos + 1, pos + 1 + length);
      pos := pos + 1 + length;
    }
  }

  lemma TextStep(rdata: seq<byte>, pos: nat, out: seq<byte>)
    requires pos < |rdata|
    ensures var next := pos + 1 + rdata[pos];
      out + TxtText(rdata[pos..]) ==
        out + Slice(rdata, pos + 1, next) + if next < |rdata| then TxtText(rdata[next..]) else []
  {
    hide *;
    var r, n := rdata[pos..], rdata[pos] as int;
    FirstPiece(r);
    SliceShift(rdata, pos, 1, 1 + n);
    if 1 + n < |r| {
      Dropped(rdata, pos, 1 + n);
      Assoc(out, Slice(r, 1, 1 + n), TxtText(r[1 + n..]));
    } else {
      Assoc(out, Slice(r, 1, 1 + n), []);
    }
  }

  lemma FirstPiece(r: seq<byte>)
    requires r != []
    ensures var n := r[0] as int;
      TxtText(r) == Slice(r, 1, 1 + n) + if |r| <= 1 + n then [] else TxtText(r[1 + n..])
  {
  }

  lemma NoText()
    ensures TxtText([]) == []
  {
  }

  // ---- answers

  datatype Answer = Answer(txid: nat, rcode: nat, payload: Option<seq<byte>>)

  /** Response and authoritative bits, and the code. */
  function Flags(rcode: int): (f: nat)
    ensures f < 65536 && f % 16 == rcode % 16
  {
    33792 + rcode % 16
  }

  function Record(name: seq<byte>, rdata: seq<byte>): seq<byte>
    requires |rdata| < 65536
  {
    name + TypeClass() + [0, 0, 0, 0] + Bytes16(|rdata|) + rdata
  }

  /** Packing a length over 16 bits raises an error that is not a WireError. */
  function AnswerPacket(txid: int, name: string, payload: Option<seq<byte>>, rcode: int): Result<seq<byte>> {
    match NameBytes(name)
    case Ok(n) =>
      if payload == None || rcode != 0 then Ok(Header(txid, Flags(rcode), 0) + n + TypeClass() + OptRecord())
      else if 65535 < |TxtPieces(payload.value)| then OtherError
      else
        Ok(Header(txid, Flags(rcode), 1) + n + TypeClass() + (Record(n, TxtPieces(payload.value)) + OptRecord()))
    case e => e
  }

  /** The position after `n` questions. */
  function Skipped(packet: seq<byte>, pos: nat, n: nat): Result<nat>
    decreases n
  {
    if n == 0 then Ok(pos)
    else
      match NameAt(packet, pos, 0)
      case Ok(v) => Skipped(packet, v.end + 4, n - 1)
      case WireError => WireError
      case OtherError => OtherError
  }

  function RecordText(packet: seq<byte>, pos: nat): Result<seq<byte>> {
    match NameAt(packet, pos, 0)
    case Ok(v) =>
      if |packet| < v.end + 10 || Word(packet, v.end) != TXT then WireError
      else Ok(TxtText(Slice(packet, v.end + 10, v.end + 10 + Word(packet, v.end + 8))))
    case WireError => WireError
    case OtherError => OtherError
  }

  function ParsedAnswer(packet: seq<byte>): Result<Answer> {
    if |packet| < 12 then WireError
    else
      var txid, rcode := Word(packet, 0), Word(packet, 2) % 16;
      match Skipped(packet, 12, Word(packet, 4))
      case Ok(pos) =>
        if Word(packet, 6) == 0 then Ok(Answer(txid, rcode, None))
        else
          (match RecordText(packet, pos)
           case Ok(p) => Ok(Answer(txid, rcode, Some(p)))
           case WireError => WireError
           case OtherError => OtherError)
      case WireError => WireError
      case OtherError => OtherError
  }

  method ParseAnswer(packet: seq<byte>) returns (r: Result<Answer>)
    ensures r == ParsedAnswer(packet)
  {
    hide NameAt, Slice, TxtText, Join, Word;
    if |packet| < 12 {
      return WireError;
    }
    var txid, rcode, questions := Word(packet, 0), Word(packet, 2) % 16, Word(packet, 4);
    var pos, k := 12, questions;
    while k != 0
      invariant 0 <= k && 0 <= pos && Skipped(packet, 12, questions) == Skipped(packet, pos, k)
      decreases k
    {
      var name := DecodeName(packet, pos, 0);
      if name.WireError? {
        return WireError;
      }
      if name.OtherError? {
        return OtherError;
      }
      pos := name.value.1 + 4;
      k := k - 1;
    }
    if Word(packet, 6) == 0 {
      return Ok(Answer(txid, rcode, None));
    }
    var name := DecodeName(packet, pos, 0);
    if name.WireError? {
      return WireError;
    }
    if name.OtherError? {
      return OtherError;
    }
    pos := name.value.1;
    if |packet| < pos + 10 || Word(packet, pos) != TXT {
      return WireError;
    }
    var text := ParseTxtRdata(Slice(packet, pos + 10, pos + 10 + Word(packet, pos + 8)));
    return Ok(Answer(txid, rcode, Some(text)));
  }

  /** The question is skipped to its end. */
  lemma QuestionSkipped(h: seq<byte>, name: string, rest: seq<byte>)
    requires NameBytes(name).Ok?
    ensures var n := NameBytes(name).value;
      Skipped(h + n + rest, |h|, 1) == Ok(|h + n| + 4)
  {
    hide NameAt, NameBytes, Cleaned, Join;
    EncodedNameDecodes(h, name, rest);
    var v := NameAt(h + NameBytes(name).value + rest, |h|, 0).value;
    assert Skipped(h + NameBytes(name).value + rest, v.end + 4, 0) == Ok(v.end + 4);
  }

  /** The resource record right after the question. */
  lemma RecordReads(pre: seq<byte>, name: string, payload: seq<byte>, post: seq<byte>)
    requires NameBytes(name).Ok? && |TxtPieces(payload)| < 65536
    ensures var rec := Record(NameBytes(name).value, TxtPieces(payload));
      RecordText(pre + (rec + post), |pre|) == Ok(payload)
  {
    hide NameAt, NameBytes, Cleaned, Join, TxtText, TxtPieces, Slice, TypeClass, Word;
    var n, rdata := NameBytes(name).value, TxtPieces(payload);
    var tail := [0, 0, 0, 0] + Bytes16(|rdata|) + rdata;
    var p := pre + (Record(n, rdata) + post);
    assert p == pre + n + (TypeClass() + tail + post);
    EncodedNameDecodes(pre, name, TypeClass() + tail + post);
    assert p == (pre + n) + TypeClass() + (tail + post);
    TypeClassAt(pre + n, tail + post);
    var before := pre + n + TypeClass() + [0, 0, 0, 0];
    assert p == before + Bytes16(|rdata|) + (rdata + post);
    Word16Bytes16(before, |rdata|, rdata + post);
    assert p == (before + Bytes16(|rdata|)) + rdata + post;
    SliceAt(before + Bytes16(|rdata|), rdata, post);
    TxtRoundTrip(payload);
  }

  /** An answer that builds reads back: transaction, code, and the payload
      when one was given and the code is zero. */
  lemma {:induction false} AnswerRoundTrip(txid: int, name: string, payload: Option<seq<byte>>, rcode: int)
    requires AnswerPacket(txid, name, payload, rcode).Ok?
    ensures ParsedAnswer(AnswerPacket(txid, name, payload, rcode).value) ==
      Ok(Answer(txid % 65536, rcode % 16, if rcode == 0 then payload else None))
  {
    hide NameAt, NameBytes, Cleaned, Header, TypeClass, OptRecord, Word, TxtPieces, RecordText, Skipped, Record, Flags;
    var full := payload != None && rcode == 0;
    var h, n := Header(txid, Flags(rcode), if full then 1 else 0), NameBytes(name).value;
    var rest := if full then Record(n, TxtPieces(payload.value)) + OptRecord() else OptRecord();
    var p := h + n + TypeClass() + rest;
    Joined(h, n, TypeClass(), rest);
    HeaderWords(txid, Flags(rcode), if full then 1 else 0, n + TypeClass() + rest);
    QuestionSkipped(h, name, TypeClass() + rest);
    if full {
      RecordReads(h + n + TypeClass(), name, payload.value, OptRecord());
    }
  }

  /** Which answers build: the TXT data, one length byte for every 255 bytes,
      has to fit 16 bits. */
  lemma {:induction false} AnswerBuilds(txid: int, name: string, payload: Option<seq<byte>>, rcode: int)
    ensures AnswerPacket(txid, name, payload, rcode).Ok? <==>
      NameBytes(name).Ok? && (payload.Some? && rcode == 0 ==> |payload.value| + (|payload.value| + 254) / 255 <= 65535)
  {
    hide NameBytes, TxtPieces, Header, TypeClass, Record, OptRecord;
    if payload.Some? {
      TxtRoundTrip(payload.value);
    }
  }

  // ---- sizes

  const EDNS0_UDP_SIZE := 1232

  /** The bytes of a name: each label with its length, and the root. */
  function WireLength(ls: seq<string>): nat {
    if ls == [] then 1 else (if ls[0] == "" then 0 else 1 + |ls[0]|) + WireLength(ls[1..])
  }

  lemma {:induction false} LabelBytesLength(ls: seq<string>)
    requires LabelBytes(ls).Ok?
    ensures |LabelBytes(ls).value| == WireLength(ls)
    decreases |ls|
  {
    if ls != [] {
      LabelBytesLength(ls[1..]);
    }
  }

  /** The bytes of a TXT payload: one more for every 255. */
  function TxtLength(n: nat): nat {
    n + if n == 0 then 1 else (n + 254) / 255
  }

  /** The size of an answer: the name is written twice when there is a payload,
      and fits what the query advertised exactly when that leaves room. */
  lemma {:induction false} AnswerSize(txid: int, name: string, payload: Option<seq<byte>>, rcode: int)
    requires AnswerPacket(txid, name, payload, rcode).Ok?
    ensures var n, size := WireLength(Split(name)), |AnswerPacket(txid, name, payload, rcode).value|;
      && NameBytes(name).Ok? && |NameBytes(name).value| == n
      && size == (if payload.Some? && rcode == 0 then 37 + 2 * n + TxtLength(|payload.value|) else 27 + n)
      && (payload.Some? && rcode == 0 ==> (size <= EDNS0_UDP_SIZE <==> 2 * n + TxtLength(|payload.value|) <= 1195))
  {
    hide Split, LabelBytes, TxtPieces, WireLength;
    LabelBytesLength(Split(name));
    if payload.Some? {
      TxtRoundTrip(payload.value);
    }
  }
}
