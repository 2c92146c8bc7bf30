/** What the CBOR reader of the news page makes of any bytes. */
module CborLaws {
  import opened Wrappers
  import opened ByteStrings
  import opened Numerals
  import opened NewsCbor

  /** The number behind a first byte: in its low five bits up to 23, or in the one, two
      or four bytes after it; a slice cut short by the end counts as what is there. */
  ghost function Count(b: seq<byte>, i: nat): nat
    requires i < |b|
  {
    var info := b[i] as int % 32;
    if info < 24 then info
    else if info == 24 then (if i + 1 < |b| then b[i + 1] as int else 0)
    else if info == 25 then Numeral(Slice(b, i + 1, i + 3), 256)
    else Numeral(Slice(b, i + 1, i + 5), 256)
  }

  /** Where what the head announces begins. */
  function Body(b: seq<byte>, i: nat): nat
    requires i < |b|
  {
    var info := b[i] as int % 32;
    if info < 24 then i + 1 else if info == 24 then i + 2 else if info == 25 then i + 3 else i + 5
  }

  predicate Readable(b: seq<byte>, i: nat) {
    i < |b| && b[i] as int % 32 <= 26 && (b[i] as int % 32 == 24 ==> i + 1 < |b|)
  }

  /** Everything but maps: at the end, with a length form or a kind outside the subset
      nothing decodes; integers and text are what the head announces. */
  lemma {:induction false} Scalars(b: seq<byte>, i: nat)
    ensures !Readable(b, i) ==> Decoded(b, i) == None
    ensures Readable(b, i) ==>
      var kind, n, at := b[i] as int / 32, Count(b, i), Body(b, i);
      && (kind == 0 ==> Decoded(b, i) == Some((Int(n), at)))
      && (kind == 1 ==> Decoded(b, i) == Some((Int(-1 - n), at)))
      && (kind == 3 ==> Decoded(b, i) == Some((Text(Slice(b, at, at + n)), at + n)))
      && (kind != 0 && kind != 1 && kind != 3 && kind != 5 ==> Decoded(b, i) == None)
      && (kind == 5 ==> (Decoded(b, i).Some? <==> DecodedEntries(b, at, n, []).Some?))
      && (kind == 5 && Decoded(b, i).Some? ==>
            Decoded(b, i).value == (Map(DecodedEntries(b, at, n, []).value.0), DecodedEntries(b, at, n, []).value.1))
  {
    hide Numeral, Slice, DecodedEntries;
  }

  /** One entry of a map: its key and its value decode, the key is no map, and the rest
      follows; anything else fails the whole map. */
  lemma {:induction false} Entries(b: seq<byte>, i: nat, n: nat, acc: seq<Entry>)
    ensures n == 0 ==> DecodedEntries(b, i, n, acc) == Some((acc, i))
    ensures n != 0 && (Decoded(b, i) == None || Decoded(b, i).value.0.Map? || Decoded(b, Decoded(b, i).value.1) == None) ==>
      DecodedEntries(b, i, n, acc) == None
    ensures n != 0 && Decoded(b, i).Some? && !Decoded(b, i).value.0.Map? && Decoded(b, Decoded(b, i).value.1).Some? ==>
      var k := Decoded(b, i).value; var v := Decoded(b, k.1).value;
      DecodedEntries(b, i, n, acc) == DecodedEntries(b, v.1, n - 1, With(acc, Entry(k.0, v.0)))
  {
    hide ReadHead, With;
  }

  // ---- repeated keys

  function Keys(entries: seq<Entry>): (ks: seq<Value>)
    ensures |ks| == |entries| && forall i :: 0 <= i < |ks| ==> ks[i] == entries[i].key
  {
    seq(|entries|, i requires 0 <= i < |entries| => entries[i].key)
  }

  /** The entry replaces the first of its key, or goes last. */
  lemma {:induction false} WithIs(entries: seq<Entry>, e: Entry, k: nat)
    requires k <= |entries| && (forall i :: 0 <= i < k ==> entries[i].key != e.key)
    requires k < |entries| ==> entries[k].key == e.key
    ensures With(entries, e) == if k < |entries| then entries[k := e] else entries + [e]
    decreases k
  {
    if k != 0 {
      var rest := entries[1..];
      WithIs(rest, e, k - 1);
      if k < |entries| {
        assert entries[k := e] == [entries[0]] + rest[k - 1 := e];
      } else {
        assert entries + [e] == [entries[0]] + (rest + [e]);
      }
    }
  }

  /** A repeated key keeps its place and takes the later value; a new one goes last. */
  lemma {:induction false} LaterWins(entries: seq<Entry>, e: Entry)
    requires DistinctKeys(entries)
    ensures DistinctKeys(With(entries, e))
    ensures Keys(With(entries, e)) == if e.key in Keys(entries) then Keys(entries) else Keys(entries) + [e.key]
    ensures forall i :: 0 <= i < |With(entries, e)| ==>
      With(entries, e)[i] == if i < |entries| && entries[i].key != e.key then entries[i] else e
  {
    hide With;
    if e.key in Keys(entries) {
      var k :| 0 <= k < |entries| && Keys(entries)[k] == e.key;
      assert entries[k].key == e.key;
      WithIs(entries, e, k);
      assert Keys(entries[k := e]) == Keys(entries);
    } else {
      assert forall i :: 0 <= i < |entries| ==> entries[i].key == Keys(entries)[i];
      WithIs(entries, e, |entries|);
      assert Keys(entries + [e]) == Keys(entries) + [e.key];
    }
  }

  ghost predicate AllWellFormed(entries: seq<Entry>) {
    forall e :: e in entries ==> !e.key.Map? && WellFormed(e.key) && WellFormed(e.value)
  }

  /** Whatever the bytes, what decodes has distinct keys, none of them a map. */
  lemma {:induction false} DecodedWellFormed(b: seq<byte>, i: nat)
    ensures Decoded(b, i).Some? ==> WellFormed(Decoded(b, i).value.0)
    decreases 2 * Left(b, i)
  {
    hide ReadHead, Slice, DecodedEntries;
    var h := ReadHead(b, i);
    if h.Some? && h.value.major == 5 {
      EntriesWellFormed(b, h.value.next, h.value.n, []);
    }
  }

  lemma {:induction false} EntriesWellFormed(b: seq<byte>, i: nat, n: nat, acc: seq<Entry>)
    requires DistinctKeys(acc) && AllWellFormed(acc)
    ensures DecodedEntries(b, i, n, acc).Some? ==>
      DistinctKeys(DecodedEntries(b, i, n, acc).value.0) && AllWellFormed(DecodedEntries(b, i, n, acc).value.0)
    decreases 2 * Left(b, i) + 1
  {
    hide ReadHead, Decoded, DecodedEntries, With, WellFormed;
    Entries(b, i, n, acc);
    if n != 0 && Decoded(b, i).Some? {
      var k := Decoded(b, i).value;
      DecodedWellFormed(b, i);
      if Decoded(b, k.1).Some? {
        var v := Decoded(b, k.1).value;
        DecodedWellFormed(b, k.1);
        if !k.0.Map? {
          var e := Entry(k.0, v.0);
          LaterWins(acc, e);
          forall x | x in With(acc, e) ensures x == e || x in acc {
          }
          EntriesWellFormed(b, v.1, n - 1, With(acc, e));
        }
      }
    }
  }
}
