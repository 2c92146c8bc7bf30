/** Framing a payload, cutting it into chunks, and putting chunks together. */
module Fragments {
  import opened Wrappers
  import opened ByteStrings
  import opened Base32
  import opened DottedNames
  import opened QueryNames

  function Frame(payload: seq<byte>): Result<seq<byte>> {
    if 65535 < |payload| then WireError
    else Ok(Bytes16(|payload|) + payload)
  }

  function Unframe(framed: seq<byte>): Result<seq<byte>> {
    if |framed| < 2 then WireError
    else
      var n := Word16(framed[0], framed[1]);
      if |framed| - 2 < n then WireError else Ok(framed[2..2 + n])
  }

  lemma {:induction false} FrameRoundTrip(payload: seq<byte>, rest: seq<byte>)
    requires Frame(payload).Ok?
    ensures Unframe(Frame(payload).value + rest) == Ok(payload)
  {
    var f := Frame(payload).value;
    assert (f + rest)[2..2 + |payload|] == payload;
  }

  function Pieces(framed: seq<byte>): (c: seq<seq<byte>>)
    ensures framed != [] ==> c != []
  {
    if framed == [] then []
    else if |framed| <= 39 then [framed]
    else [framed[..39]] + Pieces(framed[39..])
  }

  function SplitChunks(framed: seq<byte>): seq<seq<byte>> {
    if framed == [] then [[]] else Pieces(framed)
  }

  function Concat(c: seq<seq<byte>>): seq<byte> {
    if c == [] then [] else Concat(c[..|c| - 1]) + c[|c| - 1]
  }

  lemma {:induction false} ConcatFront(x: seq<byte>, c: seq<seq<byte>>)
    ensures Concat([x] + c) == x + Concat(c)
    decreases |c|
  {
    var all := [x] + c;
    if c == [] {
      assert all[..0] == [];
      assert Concat(all[..0]) == [];
    } else {
      ConcatFront(x, c[..|c| - 1]);
      assert all[..|all| - 1] == [x] + c[..|c| - 1];
    }
  }

  /** The chunks are the frame, each one non-empty and full but the last. */
  lemma {:induction false} PiecesOf(framed: seq<byte>)
    requires framed != []
    ensures var c := Pieces(framed);
      && |c| == (|framed| + 38) / 39
      && Concat(c) == framed
      && c[0] == framed[..if |framed| <= 39 then |framed| else 39]
      && forall i :: 0 <= i < |c| ==> 1 <= |c[i]| <= 39
    decreases |framed|
  {
    if |framed| <= 39 {
      ConcatFront(framed, []);
      assert [framed] + [] == [framed];
    } else {
      PiecesOf(framed[39..]);
      ConcatFront(framed[..39], Pieces(framed[39..]));
      assert framed == framed[..39] + framed[39..];
    }
  }

  method CutChunks(framed: seq<byte>) returns (c: seq<seq<byte>>)
    ensures c == SplitChunks(framed)
  {
    if framed == [] {
      return [[]];
    }
    c := [];
    var i := 0;
    while i < |framed|
      invariant 0 <= i && (i <= |framed| ==> SplitChunks(framed) == c + Pieces(framed[i..]))
      invariant |framed| < i ==> SplitChunks(framed) == c
    {
      var j := if i + 39 <= |framed| then i + 39 else |framed|;
      PiecesStep(framed, i, c);
      c := c + [framed[i..j]];
      i := i + 39;
    }
  }

  lemma PiecesStep(framed: seq<byte>, i: nat, c: seq<seq<byte>>)
    requires i < |framed|
    ensures var j := if i + 39 <= |framed| then i + 39 else |framed|;
      c + Pieces(framed[i..]) == (c + [framed[i..j]]) + Pieces(framed[j..])
  {
    var r := framed[i..];
    if |r| <= 39 {
      assert framed[|framed|..] == [];
      assert framed[i..|framed|] == r;
    } else {
      assert r[..39] == framed[i..i + 39] && r[39..] == framed[i + 39..];
    }
  }

  /** A run of chunks that leaves out the last is shorter than the whole. */
  lemma {:induction false} ShorterRun(c: seq<seq<byte>>, k: nat)
    requires k < |c| && forall i :: 0 <= i < |c| ==> 1 <= |c[i]|
    ensures |Concat(c[..k])| < |Concat(c)|
    decreases |c|
  {
    var init := c[..|c| - 1];
    if k == |init| {
    } else {
      ShorterRun(init, k);
      assert init[..k] == c[..k];
    }
  }

  // ---- fragments received, by number

  type Chunks = map<nat, seq<byte>>

  /** The largest number present below `bound`, or 0. */
  function Highest(m: Chunks, bound: nat): (h: nat)
    ensures (exists k :: k in m && k < bound) ==> h in m && h < bound
    ensures forall k :: k in m && k < bound ==> k <= h
  {
    if bound == 0 then 0 else if bound - 1 in m then bound - 1 else Highest(m, bound - 1)
  }

  predicate Contiguous(m: Chunks, n: nat) {
    forall i :: 0 <= i < n ==> i in m
  }

  function Run(m: Chunks, n: nat): seq<byte>
    requires Contiguous(m, n)
  {
    if n == 0 then [] else Run(m, n - 1) + m[n - 1]
  }

  /** _try_assemble; sequence numbers go up to 1023. */
  function TryAssemble(m: Chunks): Result<seq<byte>> {
    var n := Highest(m, 1024) + 1;
    if 0 !in m || |m[0]| < 2 || !Contiguous(m, n) then WireError
    else
      var need := 2 + Word16(m[0][0], m[0][1]);
      if |Run(m, n)| < need then WireError else Unframe(Run(m, n)[..need])
  }

  /** Chunks that a sender cut from one payload. */
  ghost predicate Cut(c: seq<seq<byte>>, payload: seq<byte>) {
    Frame(payload).Ok? && c == SplitChunks(Frame(payload).value) && |c| <= 1024
  }

  ghost predicate From(m: Chunks, c: seq<seq<byte>>) {
    forall k :: k in m ==> k < |c| && m[k] == c[k]
  }

  lemma {:induction false} CutExactly(payload: seq<byte>)
    ensures (exists c :: Cut(c, payload)) <==> |payload| <= 39934
  {
    if Frame(payload).Ok? {
      PiecesOf(Frame(payload).value);
      if |payload| <= 39934 {
        assert Cut(SplitChunks(Frame(payload).value), payload);
      }
    }
  }

  lemma {:induction false} RunOf(m: Chunks, c: seq<seq<byte>>, n: nat)
    requires n <= |c| && Contiguous(m, n) && From(m, c)
    ensures Run(m, n) == Concat(c[..n])
    decreases n
  {
    if n != 0 {
      RunOf(m, c, n - 1);
      assert c[..n][..n - 1] == c[..n - 1];
    }
  }

  lemma CutShape(c: seq<seq<byte>>, payload: seq<byte>)
    requires Cut(c, payload)
    ensures 1 <= |c| && 2 <= |c[0]| && Concat(c) == Frame(payload).value
    ensures 2 + Word16(c[0][0], c[0][1]) == |Concat(c)|
    ensures forall i :: 0 <= i < |c| ==> 1 <= |c[i]| <= 39
  {
    PiecesOf(Frame(payload).value);
  }

  /** Any part of the fragments assembles to the payload when it is all of
      them, and to nothing when one is missing. */
  lemma {:induction false} AssemblesExactly(m: Chunks, c: seq<seq<byte>>, payload: seq<byte>)
    requires Cut(c, payload) && From(m, c)
    ensures Contiguous(m, |c|) ==> TryAssemble(m) == Ok(payload)
    ensures !Contiguous(m, |c|) ==> !TryAssemble(m).Ok?
  {
    hide Run, Concat, Frame, Unframe, SplitChunks, Pieces;
    CutShape(c, payload);
    var n := Highest(m, 1024) + 1;
    if 0 in m && Contiguous(m, n) {
      assert n <= |c|;
      RunOf(m, c, n);
      if n == |c| {
        assert c[..n] == c;
        Whole(Concat(c));
        FrameRoundTrip(payload, []);
        assert Frame(payload).value + [] == Frame(payload).value;
      } else {
        ShorterRun(c, n);
        assert n !in m;
      }
    }
  }

  lemma Whole(s: seq<byte>)
    ensures s[..|s|] == s
  {
  }

  ghost predicate NoGap(m: Chunks) {
    forall k, i: nat :: k in m && i <= k ==> i in m
  }

  lemma {:induction false} RunStarts(m: Chunks, n: nat)
    requires 1 <= n && Contiguous(m, n)
    ensures m[0] <= Run(m, n)
    decreases n
  {
    if n == 1 {
      assert Run(m, 0) == [];
    } else {
      RunStarts(m, n - 1);
    }
  }

  /** With the empty payload's fragment at number 0 a buffer assembles to the
      empty payload if and only if the numbers it holds have no gap. */
  lemma {:induction false} PollAssembles(m: Chunks)
    requires 0 in m && m[0] == [0, 0] && forall k :: k in m ==> k < 1024
    ensures TryAssemble(m) == if NoGap(m) then Ok([]) else WireError
  {
    hide Run;
    var n := Highest(m, 1024) + 1;
    assert NoGap(m) <==> Contiguous(m, n);
    if Contiguous(m, n) {
      RunStarts(m, n);
      assert Run(m, n)[..2] == [0, 0] && [0, 0][2..2] == [];
    }
  }

  // ---- reassembling a list of parsed queries

  function Numbered(parsed: seq<Query>): Result<Chunks> {
    if parsed == [] then Ok(map[])
    else
      var q := parsed[|parsed| - 1];
      match Numbered(parsed[..|parsed| - 1])
      case Ok(m) => if q.seqNo in m && m[q.seqNo] != q.chunk then WireError else Ok(m[q.seqNo := q.chunk])
      case e => WireError
  }

  /** reassemble. */
  function Reassembled(parsed: seq<Query>): Result<seq<byte>> {
    if parsed == [] then WireError
    else
      match Numbered(parsed)
      case Ok(m) =>
        var n := Highest(m, 1024) + 1;
        if Contiguous(m, n) then Unframe(Run(m, n)) else WireError
      case e => WireError
  }

  ghost predicate Delivered(parsed: seq<Query>, k: int) {
    exists i :: 0 <= i < |parsed| && parsed[i].seqNo == k
  }

  ghost predicate AllFrom(parsed: seq<Query>, c: seq<seq<byte>>) {
    forall i :: 0 <= i < |parsed| ==> parsed[i].seqNo < |c| && parsed[i].chunk == c[parsed[i].seqNo]
  }

  lemma {:induction false} NumberedFrom(parsed: seq<Query>, c: seq<seq<byte>>)
    requires AllFrom(parsed, c)
    ensures Numbered(parsed).Ok? && From(Numbered(parsed).value, c)
    ensures forall k :: k in Numbered(parsed).value <==> Delivered(parsed, k)
    decreases |parsed|
  {
    if parsed != [] {
      var init := parsed[..|parsed| - 1];
      NumberedFrom(init, c);
      assert parsed == init + [parsed[|parsed| - 1]];
    }
  }

  /** reassemble agrees: fragments in any order and number give the payload
      if and only if none is missing. */
  lemma {:induction false} ReassemblesExactly(parsed: seq<Query>, c: seq<seq<byte>>, payload: seq<byte>)
    requires Cut(c, payload) && AllFrom(parsed, c)
    ensures Reassembled(parsed) ==
      if forall k :: 0 <= k < |c| ==> Delivered(parsed, k) then Ok(payload) else WireError
  {
    hide Run, Concat, Frame, Unframe, SplitChunks, Pieces, Numbered;
    CutShape(c, payload);
    if parsed != [] {
      NumberedFrom(parsed, c);
      var m := Numbered(parsed).value;
      var n := Highest(m, 1024) + 1;
      assert Delivered(parsed, parsed[0].seqNo);
      assert n <= |c|;
      if !Contiguous(m, n) {
        var gap :| 0 <= gap < n && gap !in m;
        assert !Delivered(parsed, gap);
      }
      if Contiguous(m, n) {
        RunOf(m, c, n);
        if n == |c| {
          assert c[..n] == c;
          FrameRoundTrip(payload, []);
          assert Frame(payload).value + [] == Frame(payload).value;
        } else {
          assert !Delivered(parsed, n);
          TooShort(m, c, n, payload);
        }
      }
    } else {
      assert !Delivered(parsed, 0);
    }
  }

  /** An unfinished run fails to unframe. */
  lemma TooShort(m: Chunks, c: seq<seq<byte>>, n: nat, payload: seq<byte>)
    requires Cut(c, payload) && From(m, c) && 1 <= n < |c| && Contiguous(m, n)
    ensures Unframe(Run(m, n)) == WireError
  {
    hide Run, Concat, Frame, SplitChunks, Pieces;
    CutShape(c, payload);
    RunOf(m, c, n);
    ShorterRun(c, n);
    StartsWithFirst(c, n);
  }

  lemma {:induction false} StartsWithFirst(c: seq<seq<byte>>, n: nat)
    requires 1 <= n <= |c| && 2 <= |c[0]|
    ensures 2 <= |Concat(c[..n])| && Concat(c[..n])[..2] == c[0][..2]
    decreases n
  {
    assert c[..n][..n - 1] == c[..n - 1];
    if n == 1 {
      assert c[..1] == [c[0]] + [];
      ConcatFront(c[0], []);
    } else {
      StartsWithFirst(c, n - 1);
    }
  }

  method Reassemble(parsed: seq<Query>) returns (r: Result<seq<byte>>)
    ensures r == Reassembled(parsed)
  {
    if parsed == [] {
      return WireError;
    }
    var m: Chunks, i := map[], 0;
    assert parsed[..0] == [];
    while i < |parsed|
      invariant 0 <= i <= |parsed| && Numbered(parsed[..i]) == Ok(m)
    {
      var q := parsed[i];
      assert parsed[..i + 1][..i] == parsed[..i];
      if q.seqNo in m && m[q.seqNo] != q.chunk {
        Conflict(parsed, i + 1);
        return WireError;
      }
      m := m[q.seqNo := q.chunk];
      i := i + 1;
    }
    assert parsed[..i] == parsed;
    var n, out, k := Highest(m, 1024) + 1, [], 0;
    while k < n
      invariant 0 <= k <= n && Contiguous(m, k) && out == Run(m, k)
    {
      if k !in m {
        return WireError;
      }
      out := out + m[k];
      k := k + 1;
    }
    r := Unframe(out);
  }

  /** A conflict in a prefix is a conflict in the whole list. */
  lemma {:induction false} Conflict(parsed: seq<Query>, k: nat)
    requires k <= |parsed| && Numbered(parsed[..k]) == WireError
    ensures Numbered(parsed) == WireError
    decreases |parsed|
  {
    if k == |parsed| {
      assert parsed[..k] == parsed;
    } else {
      var init := parsed[..|parsed| - 1];
      assert init[..k] == parsed[..k];
      Conflict(init, k);
    }
  }

  /** The chunks of a payload that can be framed. */
  function ChunksOf(payload: seq<byte>): seq<seq<byte>> {
    if Frame(payload).Ok? then SplitChunks(Frame(payload).value) else []
  }

  /** The letters of the widest payload label: the first chunk is the longest. */
  function Widest(payload: seq<byte>): nat {
    if 39 <= |payload| + 2 then 63 else (8 * (|payload| + 2) + 4) / 5
  }

  /** What a caller can check before encoding a payload. */
  predicate Encodable(payload: seq<byte>, session: string, domain: string) {
    && |payload| <= 39934 && GoodLabels([session] + Split(Domain(domain)))
    && 19 + |session| + Widest(payload) + |Domain(domain)| <= 253
  }

  lemma ChunkWidths(payload: seq<byte>, c: seq<seq<byte>>)
    requires |payload| <= 65535 && c == SplitChunks(Frame(payload).value)
    ensures 1 <= |c| && |EncodeStrip(c[0])| == Widest(payload)
    ensures (|c| <= 1024 <==> |payload| <= 39934)
    ensures forall i :: 0 <= i < |c| ==> 1 <= |c[i]| <= 39 && |EncodeStrip(c[i])| <= Widest(payload)
  {
    hide EncodeStrip;
    PiecesOf(Frame(payload).value);
    LabelWidth(c[0]);
    forall i | 0 <= i < |c| ensures |EncodeStrip(c[i])| <= Widest(payload) {
      LabelWidth(c[i]);
      if |payload| + 2 < 39 {
        assert |c| == 1;
      }
    }
  }

  lemma OneNonce(session: string, nonce: string, z: seq<string>)
    requires |nonce| == 4
    ensures GoodLabels([session, nonce] + z) <==> GoodLabels([session] + z)
  {
    var a, b := [session, nonce] + z, [session] + z;
    assert a[0] == session && a[1] == nonce && b[0] == session;
    assert forall i :: 1 <= i < |b| ==> a[i + 1] == b[i];
    assert forall i :: 2 <= i < |a| ==> a[i] == b[i - 1];
  }

  ghost predicate AllBuild(c: seq<seq<byte>>, session: string, nonces: nat -> string, domain: string) {
    forall i :: 0 <= i < |c| ==> BuildName(c[i], i, session, nonces(i), domain).Ok?
  }

  /** Every chunk of a payload gets a name exactly when the caller's check
      passes: the number of chunks, the labels, and the longest name. */
  lemma {:induction false} EncodesExactly(payload: seq<byte>, session: string, nonces: nat -> string, domain: string)
    requires forall i :: |nonces(i)| == 4
    ensures Frame(payload).Ok? && AllBuild(ChunksOf(payload), session, nonces, domain)
      <==> Encodable(payload, session, domain)
  {
    hide BuildName, SplitChunks, EncodeStrip, GoodLabels, Widest;
    if |payload| <= 65535 {
      var c := ChunksOf(payload);
      ChunkWidths(payload, c);
      forall i | 0 <= i < |c|
        ensures BuildName(c[i], i, session, nonces(i), domain).Ok? <==>
          && i <= 1023 && GoodLabels([session] + Split(Domain(domain)))
          && 19 + |session| + |EncodeStrip(c[i])| + |Domain(domain)| <= 253
      {
        BuildsExactly(c[i], i, session, nonces(i), domain);
        OneNonce(session, nonces(i), Split(Domain(domain)));
      }
      if AllBuild(c, session, nonces, domain) {
        assert BuildName(c[0], 0, session, nonces(0), domain).Ok?;
        assert BuildName(c[|c| - 1], |c| - 1, session, nonces(|c| - 1), domain).Ok?;
      }
    }
  }

  /** What the far side reads of a name: nothing unless the session and the
      nonce have the parser's widths and no dot. */
  function ReadAs(chunk: seq<byte>, n: int, session: string, nonce: string, domain: string, name: string): Result<Query> {
    if 0 <= n <= 1023 && Readable(session, nonce)
    then Ok(Query(n, Lower(session), Lower(nonce), chunk, Domain(domain), Lower(name)))
    else WireError
  }

  /** The query names of one payload, one per chunk in order, and what each is
      read as; no name at all when the payload is too long or one name does not
      build. */
  method EncodeQueries(payload: seq<byte>, domain: string, session: string, nonces: nat -> string)
      returns (r: Result<seq<string>>)
    ensures r.Ok? <==> Frame(payload).Ok? && AllBuild(ChunksOf(payload), session, nonces, domain)
    ensures (forall i :: |nonces(i)| == 4) ==> (r.Ok? <==> Encodable(payload, session, domain))
    ensures !r.Ok? ==> r == WireError
    ensures r.Ok? ==> Cut(ChunksOf(payload), payload) && |r.value| == |ChunksOf(payload)|
    ensures r.Ok? ==> forall i :: 0 <= i < |r.value| ==>
      BuildName(ChunksOf(payload)[i], i, session, nonces(i), domain) == Ok(r.value[i])
    ensures r.Ok? ==> forall i :: 0 <= i < |r.value| ==>
      ParseName(r.value[i], domain) == ReadAs(ChunksOf(payload)[i], i, session, nonces(i), domain, r.value[i])
  {
    hide BuildName, SplitChunks, Frame, Encodable, ParseName;
    if forall i :: |nonces(i)| == 4 {
      EncodesExactly(payload, session, nonces, domain);
    }
    var framed := Frame(payload);
    if !framed.Ok? {
      return WireError;
    }
    var chunks := CutChunks(framed.value);
    var names, i := [], 0;
    while i < |chunks|
      invariant 0 <= i <= |chunks| && |names| == i
      invariant forall k :: 0 <= k < i ==> BuildName(chunks[k], k, session, nonces(k), domain) == Ok(names[k])
      invariant forall k :: 0 <= k < i ==>
        ParseName(names[k], domain) == ReadAs(chunks[k], k, session, nonces(k), domain, names[k])
    {
      var name := BuildName(chunks[i], i, session, nonces(i), domain);
      if !name.Ok? {
        return WireError;
      }
      SeqInRange(chunks[i], i, session, nonces(i), domain);
      NameRoundTrip(chunks[i], i, session, nonces(i), domain, domain);
      names := names + [name.value];
      i := i + 1;
    }
    if |chunks| != 0 {
      SeqInRange(chunks[|chunks| - 1], |chunks| - 1, session, nonces(|chunks| - 1), domain);
    }
    r := Ok(names);
  }
}
