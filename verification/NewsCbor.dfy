/** The CBOR subset of the news page: integers, text and maps with definite
    lengths (sections 3 and 4.2.1 of RFC 8949). Text is its UTF-8 bytes. */
module NewsCbor {
  import opened Wrappers
  import opened ByteStrings
  import opened Powers
  import opened Numerals

  /** A map keeps its entries in insertion order. */
  datatype Value = Int(n: int) | Text(bytes: seq<byte>) | Map(entries: seq<Entry>)

  datatype Entry = Entry(key: Value, value: Value)

  // ---- heads

  function Big(n: nat, size: nat): (b: seq<byte>)
    ensures |b| == size
  {
    Digits(n, 256, size)
  }

  /** enc_uint; a number over four bytes does not encode. */
  function Head(major: nat, n: nat): (o: Option<seq<byte>>)
    requires major < 8
    ensures o.Some? ==> 1 <= |o.value|
  {
    if n < 24 then Some([major * 32 + n])
    else if n < 256 then Some([major * 32 + 24, n])
    else if n < 65536 then Some([major * 32 + 25] + Big(n, 2))
    else if n < 4294967296 then Some([major * 32 + 26] + Big(n, 4))
    else None
  }

  datatype HeadRead = HeadRead(major: nat, n: nat, next: nat)

  /** The head at `i`; a short slice reads as the bytes there are. */
  function ReadHead(b: seq<byte>, i: nat): (o: Option<HeadRead>)
    ensures o.Some? ==> i < o.value.next && i < |b| && o.value.major < 8
  {
    if |b| <= i then None
    else
      var major, info := b[i] as int / 32, b[i] as int % 32;
      if info < 24 then Some(HeadRead(major, info, i + 1))
      else if info == 24 then if |b| <= i + 1 then None else Some(HeadRead(major, b[i + 1], i + 2))
      else if info == 25 then Some(HeadRead(major, Numeral(Slice(b, i + 1, i + 3), 256), i + 3))
      else if info == 26 then Some(HeadRead(major, Numeral(Slice(b, i + 1, i + 5), 256), i + 5))
      else None
  }

  lemma BigReads(pre: seq<byte>, n: nat, size: nat, post: seq<byte>)
    requires n < Power(256, size)
    ensures Numeral(Slice(pre + Big(n, size) + post, |pre|, |pre| + size), 256) == n
  {
    hide Numeral, Digits;
    SliceAt(pre, Big(n, size), post);
    NumeralDigits(n, 256, size);
  }

  lemma Powers256()
    ensures Power(256, 2) == 65536 && Power(256, 4) == 4294967296
  {
    assert Power(256, 3) == 16777216;
  }

  lemma {:induction false} HeadRoundTrip(pre: seq<byte>, major: nat, n: nat, post: seq<byte>)
    requires major < 8 && Head(major, n).Some?
    ensures var h := Head(major, n).value;
      ReadHead(pre + h + post, |pre|) == Some(HeadRead(major, n, |pre| + |h|))
  {
    hide Numeral, Big, Power, Slice;
    Powers256();
    var h := Head(major, n).value;
    var b := pre + h + post;
    assert b[|pre|] == h[0];
    if 24 <= n < 256 {
      assert b[|pre| + 1] == h[1];
    } else if 256 <= n {
      var size := if n < 65536 then 2 else 4;
      assert b == (pre + [h[0]]) + Big(n, size) + post;
      BigReads(pre + [h[0]], n, size, post);
    }
  }

  lemma {:induction false} SliceBelow(s: seq<byte>)
    ensures Numeral(s, 256) < Power(256, |s|)
  {
    NumeralBelow(s, 256);
  }

  /** No head that reads as the same number is shorter. */
  lemma {:induction false} ShortestHead(b: seq<byte>, i: nat)
    requires ReadHead(b, i).Some?
    ensures var r := ReadHead(b, i).value;
      Head(r.major, r.n).Some? && |Head(r.major, r.n).value| <= r.next - i
  {
    hide Numeral;
    Powers256();
    var info := b[i] as int % 32;
    if info == 25 {
      SliceBelow(Slice(b, i + 1, i + 3));
      Rises(|Slice(b, i + 1, i + 3)|, 2);
    } else if info == 26 {
      SliceBelow(Slice(b, i + 1, i + 5));
      Rises(|Slice(b, i + 1, i + 5)|, 4);
    }
  }

  lemma {:induction false} Rises(a: nat, b: nat)
    requires a <= b
    ensures Power(256, a) <= Power(256, b)
    decreases b
  {
    if a < b {
      Rises(a, b - 1);
    }
  }

  // ---- values

  function Encoded(v: Value): (o: Option<seq<byte>>)
    ensures o.Some? ==> 1 <= |o.value|
    decreases v, 1
  {
    match v
    case Int(n) => if n < 0 then Head(1, -1 - n) else Head(0, n)
    case Text(bytes) =>
      (match Head(3, |bytes|)
       case Some(h) => Some(h + bytes)
       case None => None)
    case Map(entries) =>
      (match Head(5, |entries|)
       case Some(h) =>
         (match EncodedEntries(v, entries)
          case Some(body) => Some(h + body)
          case None => None)
       case None => None)
  }

  /** The entries of `whole` that are left to encode. */
  function EncodedEntries(ghost whole: Value, entries: seq<Entry>): Option<seq<byte>>
    requires whole.Map? && forall e :: e in entries ==> e in whole.entries
    decreases whole, 0, |entries|
  {
    if entries == [] then Some([])
    else
      var e := entries[0];
      assert e in whole.entries;
      match (Encoded(e.key), Encoded(e.value), EncodedEntries(whole, entries[1..]))
      case (Some(k), Some(v), Some(rest)) => Some(k + v + rest)
      case _ => None
  }

  /** A dictionary's entry is replaced in place or added at the end. */
  function With(entries: seq<Entry>, e: Entry): seq<Entry> {
    if entries == [] then [e]
    else if entries[0].key == e.key then [e] + entries[1..]
    else [entries[0]] + With(entries[1..], e)
  }

  function Left(b: seq<byte>, i: nat): nat {
    if i <= |b| then |b| - i else 0
  }

  /** dec; None stands for every exception. */
  function Decoded(b: seq<byte>, i: nat): (o: Option<(Value, nat)>)
    ensures o.Some? ==> i < o.value.1 && i < |b|
    decreases 2 * Left(b, i)
  {
    match ReadHead(b, i)
    case None => None
    case Some(h) =>
      if h.major == 0 then Some((Int(h.n), h.next))
      else if h.major == 1 then Some((Int(-1 - h.n), h.next))
      else if h.major == 3 then Some((Text(Slice(b, h.next, h.next + h.n)), h.next + h.n))
      else if h.major == 5 then
        match DecodedEntries(b, h.next, h.n, [])
        case Some(r) => Some((Map(r.0), r.1))
        case None => None
      else None
  }

  /** A map cannot be a key. */
  function DecodedEntries(b: seq<byte>, i: nat, n: nat, acc: seq<Entry>): (o: Option<(seq<Entry>, nat)>)
    ensures o.Some? ==> i <= o.value.1
    decreases 2 * Left(b, i) + 1
  {
    if n == 0 then Some((acc, i))
    else
      match Decoded(b, i)
      case None => None
      case Some(k) =>
        match Decoded(b, k.1)
        case None => None
        case Some(v) =>
          if k.0.Map? then None
          else DecodedEntries(b, v.1, n - 1, With(acc, Entry(k.0, v.0)))
  }

  // ---- round trip

  ghost predicate DistinctKeys(entries: seq<Entry>) {
    forall i, j :: 0 <= i < j < |entries| ==> entries[i].key != entries[j].key
  }

  /** Maps have distinct keys, none of them a map. */
  ghost predicate WellFormed(v: Value)
    decreases v
  {
    match v
    case Int(_) => true
    case Text(_) => true
    case Map(entries) =>
      DistinctKeys(entries) && forall e :: e in entries ==> !e.key.Map? && WellFormed(e.key) && WellFormed(e.value)
  }

  lemma {:induction false} WithNew(entries: seq<Entry>, e: Entry)
    requires forall i :: 0 <= i < |entries| ==> entries[i].key != e.key
    ensures With(entries, e) == entries + [e]
    decreases |entries|
  {
    if entries != [] {
      WithNew(entries[1..], e);
      assert [entries[0]] + (entries[1..] + [e]) == entries + [e];
    }
  }

  /** What is encoded, followed by anything, decodes to itself and its length. */
  lemma {:induction false} RoundTrip(pre: seq<byte>, v: Value, post: seq<byte>)
    requires WellFormed(v) && Encoded(v).Some?
    ensures var e := Encoded(v).value; Decoded(pre + e + post, |pre|) == Some((v, |pre| + |e|))
    decreases v, 1
  {
    hide ReadHead, Head, Slice, DecodedEntries, EncodedEntries;
    var e := Encoded(v).value;
    match v
    case Int(n) =>
      HeadRoundTrip(pre, if n < 0 then 1 else 0, if n < 0 then -1 - n else n, post);
    case Text(bytes) =>
      var h := Head(3, |bytes|).value;
      assert pre + e + post == pre + h + (bytes + post) == (pre + h) + bytes + post;
      HeadRoundTrip(pre, 3, |bytes|, bytes + post);
      SliceAt(pre + h, bytes, post);
    case Map(entries) =>
      var h, body := Head(5, |entries|).value, EncodedEntries(v, entries).value;
      assert pre + e + post == pre + h + (body + post) == (pre + h) + body + post;
      HeadRoundTrip(pre, 5, |entries|, body + post);
      EntriesRoundTrip(pre + h, v, [], entries, post);
      assert [] + entries == entries;
  }

  lemma EntryDecodes(b: seq<byte>, i: nat, n: nat, acc: seq<Entry>, k: Value, j: nat, w: Value, m: nat)
    requires 1 <= n && Decoded(b, i) == Some((k, j)) && Decoded(b, j) == Some((w, m)) && !k.Map?
    ensures DecodedEntries(b, i, n, acc) == DecodedEntries(b, m, n - 1, With(acc, Entry(k, w)))
  {
    hide ReadHead, With;
  }

  lemma NoEntries(b: seq<byte>, i: nat, acc: seq<Entry>)
    ensures DecodedEntries(b, i, 0, acc) == Some((acc, i))
  {
  }

  lemma EntryEncodes(v: Value, rest: seq<Entry>)
    requires v.Map? && rest != [] && (forall e :: e in rest ==> e in v.entries) && EncodedEntries(v, rest).Some?
    ensures var e := rest[0];
      && Encoded(e.key).Some? && Encoded(e.value).Some? && EncodedEntries(v, rest[1..]).Some?
      && EncodedEntries(v, rest).value ==
           Encoded(e.key).value + Encoded(e.value).value + EncodedEntries(v, rest[1..]).value
  {
    hide Head;
  }

  lemma Spliced(pre: seq<byte>, k: seq<byte>, w: seq<byte>, tail: seq<byte>, post: seq<byte>)
    ensures var b := pre + (k + w + tail) + post;
      b == pre + k + (w + tail + post) == (pre + k) + w + (tail + post) == (pre + k + w) + tail + post
  {
  }

  lemma Moved(v: Value, done: seq<Entry>, rest: seq<Entry>)
    requires v.Map? && WellFormed(v) && v.entries == done + rest && rest != []
    ensures var e := rest[0];
      && e in v.entries && !e.key.Map? && WellFormed(e.key) && WellFormed(e.value)
      && v.entries == (done + [e]) + rest[1..] && With(done, e) == done + [e]
  {
    assert v.entries[|done|] == rest[0];
    forall i | 0 <= i < |done| ensures done[i].key != rest[0].key {
      assert v.entries[i] == done[i];
    }
    WithNew(done, rest[0]);
  }

  lemma {:induction false} EntriesRoundTrip(pre: seq<byte>, v: Value, done: seq<Entry>, rest: seq<Entry>, post: seq<byte>)
    requires v.Map? && WellFormed(v) && v.entries == done + rest
    requires (forall e :: e in rest ==> e in v.entries) && EncodedEntries(v, rest).Some?
    ensures var body := EncodedEntries(v, rest).value;
      DecodedEntries(pre + body + post, |pre|, |rest|, done) == Some((v.entries, |pre| + |body|))
    decreases v, 0, |rest|
  {
    hide Decoded, DecodedEntries, EncodedEntries, Encoded, WellFormed, With;
    var body := EncodedEntries(v, rest).value;
    if rest == [] {
      assert done + rest == done;
      NothingEncodes(v);
      NoEntries(pre + body + post, |pre|, done);
    } else {
      var e := rest[0];
      Moved(v, done, rest);
      EntryEncodes(v, rest);
      var k, w, tail := Encoded(e.key).value, Encoded(e.value).value, EncodedEntries(v, rest[1..]).value;
      Spliced(pre, k, w, tail, post);
      RoundTrip(pre, e.key, w + tail + post);
      RoundTrip(pre + k, e.value, tail + post);
      EntryDecodes(pre + body + post, |pre|, |rest|, done, e.key, |pre| + |k|, e.value, |pre| + |k| + |w|);
      EntriesRoundTrip(pre + k + w, v, done + [e], rest[1..], post);
    }
  }

  lemma NothingEncodes(v: Value)
    requires v.Map?
    ensures EncodedEntries(v, []) == Some([])
  {
  }

  /** Values outside the range or lengths over four bytes do not encode; all
      others do. */
  ghost predicate InRange(v: Value)
    decreases v
  {
    match v
    case Int(n) => -4294967296 <= n < 4294967296
    case Text(bytes) => |bytes| < 4294967296
    case Map(entries) =>
      |entries| < 4294967296 && forall e :: e in entries ==> InRange(e.key) && InRange(e.value)
  }

  lemma {:induction false} EncodesExactly(v: Value)
    ensures Encoded(v).Some? <==> InRange(v)
    decreases v, 1
  {
    if v.Map? {
      EntriesEncode(v, v.entries);
    }
  }

  lemma {:induction false} EntriesEncode(v: Value, entries: seq<Entry>)
    requires v.Map? && forall e :: e in entries ==> e in v.entries
    ensures EncodedEntries(v, entries).Some? <==> forall e :: e in entries ==> InRange(e.key) && InRange(e.value)
    decreases v, 0, |entries|
  {
    if entries != [] {
      var e := entries[0];
      assert e in v.entries && entries == [e] + entries[1..];
      EncodesExactly(e.key);
      EncodesExactly(e.value);
      EntriesEncode(v, entries[1..]);
    }
  }

  // ---- the loops

  function Before(out: seq<byte>, o: Option<seq<byte>>): Option<seq<byte>> {
    match o
    case Some(rest) => Some(out + rest)
    case None => None
  }

  lemma EntryBefore(v: Value, rest: seq<Entry>, out: seq<byte>)
    requires v.Map? && rest != [] && forall e :: e in rest ==> e in v.entries
    ensures Before(out, EncodedEntries(v, rest)) ==
      match (Encoded(rest[0].key), Encoded(rest[0].value))
      case (Some(k), Some(w)) => Before(out + k + w, EncodedEntries(v, rest[1..]))
      case _ => None
  {
    hide Encoded;
    var k, w, tail := Encoded(rest[0].key), Encoded(rest[0].value), EncodedEntries(v, rest[1..]);
    if k.Some? && w.Some? && tail.Some? {
      assert out + (k.value + w.value + tail.value) == out + k.value + w.value + tail.value;
    }
  }

  method Enc(v: Value) returns (o: Option<seq<byte>>)
    ensures o == Encoded(v)
    decreases v
  {
    hide EncodedEntries, Head;
    match v
    case Int(n) =>
      o := if n < 0 then Head(1, -1 - n) else Head(0, n);
    case Text(bytes) =>
      var h := Head(3, |bytes|);
      o := if h.Some? then Some(h.value + bytes) else None;
    case Map(entries) =>
      var h := Head(5, |entries|);
      if h == None {
        return None;
      }
      var out, k := [], 0;
      assert entries[0..] == entries;
      assert Before([], EncodedEntries(v, entries)) == EncodedEntries(v, entries) by {
        BeforeNothing(EncodedEntries(v, entries));
      }
      while k < |entries|
        invariant 0 <= k <= |entries|
        invariant Before(out, EncodedEntries(v, entries[k..])) == EncodedEntries(v, entries)
      {
        EntryBefore(v, entries[k..], out);
        assert entries[k..][1..] == entries[k + 1..];
        var key := Enc(entries[k].key);
        var value := Enc(entries[k].value);
        if key == None || value == None {
          return None;
        }
        out := out + key.value + value.value;
        k := k + 1;
      }
      NothingEncodes(v);
      assert entries[k..] == [] && out + [] == out;
      o := Some(h.value + out);
  }

  lemma BeforeNothing(o: Option<seq<byte>>)
    ensures Before([], o) == o
  {
    if o.Some? {
      assert [] + o.value == o.value;
    }
  }

  lemma NextEntry(b: seq<byte>, i: nat, n: nat, acc: seq<Entry>)
    requires 1 <= n
    ensures DecodedEntries(b, i, n, acc) ==
      match Decoded(b, i)
      case None => None
      case Some(k) =>
        (match Decoded(b, k.1)
         case None => None
         case Some(v) => if k.0.Map? then None else DecodedEntries(b, v.1, n - 1, With(acc, Entry(k.0, v.0))))
  {
    hide ReadHead, With;
  }

  method Dec(b: seq<byte>, i: nat) returns (o: Option<(Value, nat)>)
    ensures o == Decoded(b, i)
    decreases Left(b, i)
  {
    hide DecodedEntries, ReadHead, With;
    var head := ReadHead(b, i);
    if head == None {
      return None;
    }
    var h := head.value;
    if h.major == 0 {
      return Some((Int(h.n), h.next));
    }
    if h.major == 1 {
      return Some((Int(-1 - h.n), h.next));
    }
    if h.major == 3 {
      return Some((Text(Slice(b, h.next, h.next + h.n)), h.next + h.n));
    }
    if h.major != 5 {
      return None;
    }
    var m, pos, left := [], h.next, h.n;
    while left != 0
      invariant 0 <= left && i < pos
      invariant DecodedEntries(b, pos, left, m) == DecodedEntries(b, h.next, h.n, [])
      decreases left
    {
      NextEntry(b, pos, left, m);
      var k := Dec(b, pos);
      if k == None {
        return None;
      }
      var v := Dec(b, k.value.1);
      if v == None || k.value.0.Map? {
        return None;
      }
      m := With(m, Entry(k.value.0, v.value.0));
      pos := v.value.1;
      left := left - 1;
    }
    NoEntries(b, pos, m);
    return Some((Map(m), pos));
  }
}
