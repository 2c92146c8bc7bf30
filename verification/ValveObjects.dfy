/** The responder as an object, and the whole way from a payload to the
    server's completed list. */
module ValveObjects {
  import opened Wrappers
  import opened ByteStrings
  import opened Base32
  import opened DottedNames
  import opened QueryNames
  import opened Fragments
  import opened DnsPackets
  import opened ValveServer
  import opened ValveDelivery

  // ---- a decoded name can always be encoded again

  ghost predicate Sound(ls: seq<string>) {
    forall i :: 0 <= i < |ls| ==> Ascii(ls[i]) && |ls[i]| <= 63
  }

  lemma {:induction false} SoundEncodes(ls: seq<string>)
    ensures LabelBytes(ls).Ok? <==> Sound(ls)
    decreases |ls|
  {
    if ls != [] {
      SoundEncodes(ls[1..]);
      assert ls[1..] == ls[1..] && (Sound(ls) <==> Sound([ls[0]]) && Sound(ls[1..])) by {
        SoundParts([ls[0]], ls[1..]);
        assert [ls[0]] + ls[1..] == ls;
      }
      assert Sound([ls[0]]) <==> Ascii(ls[0]) && |ls[0]| <= 63 by {
        assert [ls[0]][0] == ls[0];
      }
    }
  }

  lemma SoundParts(a: seq<string>, b: seq<string>)
    ensures Sound(a + b) <==> Sound(a) && Sound(b)
  {
    forall i | 0 <= i < |a| ensures (a + b)[i] == a[i] {
    }
    forall i | 0 <= i < |b| ensures (a + b)[|a| + i] == b[i] {
    }
    forall i | |a| <= i < |a + b| ensures (a + b)[i] == b[i - |a|] {
    }
  }

  /** The pieces of a short ASCII label are short ASCII labels. */
  lemma PiecesSound(s: string)
    requires Ascii(s) && |s| <= 63
    ensures Sound(Split(s))
  {
    hide Split;
    AsciiLabels(s);
    ShortSplit(s);
  }

  /** Every decoded name encodes. */
  lemma {:induction false} DecodedSound(buf: seq<byte>, pos: nat, depth: nat)
    requires NameAt(buf, pos, depth).Ok?
    ensures Sound(Split(Join(NameAt(buf, pos, depth).value.labels)))
    decreases 11 - depth, |buf| - pos
  {
    hide NameAt, Join, Split, Slice;
    if |buf| <= pos || 64 <= buf[pos] < 192 || (192 <= buf[pos] && |buf| <= pos + 1) {
      NoName(buf, pos, depth);
    } else if buf[pos] == 0 {
      RootAt(buf, pos, depth);
      EmptySound();
    } else if 192 <= buf[pos] {
      if depth <= 10 {
        PointerAt(buf, pos, depth);
        if depth < 10 {
          DecodedSound(buf, Target(buf, pos), depth + 1);
          JoinOne(Join(NameAt(buf, Target(buf, pos), depth + 1).value.labels));
        }
      } else {
        DeepPointer(buf, pos, depth);
      }
    } else {
      LabelAt(buf, pos, depth);
      var raw, next := Slice(buf, pos + 1, pos + 1 + buf[pos]), pos + 1 + buf[pos];
      DecodedSound(buf, next, depth);
      LabelJoined(Text(raw), NameAt(buf, next, depth).value.labels);
    }
  }

  lemma DeepPointer(buf: seq<byte>, pos: nat, depth: nat)
    requires pos + 1 < |buf| && 192 <= buf[pos] && 10 < depth
    ensures NameAt(buf, pos, depth) == WireError
  {
  }

  lemma EmptySound()
    ensures Sound(Split(Join([])))
  {
  }

  lemma LabelJoined(l: string, rest: seq<string>)
    requires Ascii(l) && |l| <= 63 && Sound(Split(Join(rest)))
    ensures Sound(Split(Join([l] + rest)))
  {
    hide Join, Split;
    PiecesSound(l);
    if rest == [] {
      assert [l] + rest == [l];
      JoinOne(l);
    } else {
      JoinMore(l, rest);
      SplitConcat(l, Join(rest));
      SoundParts(Split(l), Split(Join(rest)));
    }
  }

  /** So the responder can answer every query it can read. */
  lemma {:induction false} CanAnswer(data: seq<byte>, txid: int, payload: Option<seq<byte>>, rcode: int)
    requires ParsedQueryPacket(data).Ok? && (payload.Some? ==> |payload.value| <= 1152)
    ensures AnswerPacket(txid, ParsedQueryPacket(data).value.1, payload, rcode).Ok?
  {
    hide NameAt, Split, Join, LabelBytes, AnswerPacket;
    var name := ParsedQueryPacket(data).value.1;
    DecodedSound(data, 12, 0);
    SoundEncodes(Split(name));
    AnswerBuilds(txid, name, payload, rcode);
  }

  // ---- the size of an answer

  lemma {:induction false} WireAppend(a: seq<string>, b: seq<string>)
    ensures WireLength(a + b) == WireLength(a) + WireLength(b) - 1
    decreases |a|
  {
    if a == [] {
      assert a + b == b;
    } else {
      WireAppend(a[1..], b);
      assert (a + b)[1..] == a[1..] + b;
    }
  }

  lemma WireOne(l: string)
    ensures WireLength([l]) == if l == "" then 1 else 2 + |l|
  {
    assert [l][1..] == [];
  }

  /** Dots at the ends make empty labels, which are not written. */
  lemma {:induction false} WireStripped(s: string)
    ensures WireLength(Split(Strip(s))) == WireLength(Split(s))
    decreases |s|
  {
    hide Split, WireLength;
    if s != "" && s[0] == '.' {
      WireStripped(s[1..]);
      assert s == ['.'] + s[1..];
      SplitStep('.', s[1..]);
      WireAppend([""], Split(s[1..]));
      WireOne("");
    } else if s != "" && s[|s| - 1] == '.' {
      var t := s[..|s| - 1];
      WireStripped(t);
      assert s == t + "." + "";
      SplitConcat(t, "");
      SplitNothing();
      WireAppend(Split(t), [""]);
      WireOne("");
    }
  }

  lemma {:induction false} WireLowered(ls: seq<string>)
    ensures WireLength(LowerAll(ls)) == WireLength(ls)
    decreases |ls|
  {
    if ls != [] {
      WireLowered(ls[1..]);
      assert LowerAll(ls)[1..] == LowerAll(ls[1..]);
    }
  }

  /** A name that reads as a query takes at least 22 bytes. */
  lemma QueryLength(name: string, domain: string)
    requires ParseName(name, domain).Ok?
    ensures 22 <= WireLength(Split(name))
  {
    hide Split, WireLength, Strip, Lower, LabelSeq, DecodePad, EndsWith;
    var parts, zone := Split(Lower(Strip(name))), Zone(Domain(domain));
    var head := parts[..|parts| - |zone|];
    WireStripped(name);
    LowerSplits(Strip(name));
    WireLowered(Split(Strip(name)));
    assert parts == head + zone;
    WireAppend(head, zone);
    assert head == [head[0]] + ([head[1]] + ([head[2]] + ([head[3]] + [head[4]])));
    WireAppend([head[0]], [head[1]] + ([head[2]] + ([head[3]] + [head[4]])));
    WireAppend([head[1]], [head[2]] + ([head[3]] + [head[4]]));
    WireAppend([head[2]], [head[3]] + [head[4]]);
    WireAppend([head[3]], [head[4]]);
    WireOne(head[0]);
    WireOne(head[1]);
    WireOne(head[2]);
    WireOne(head[3]);
    WireOne(head[4]);
    WireAppend(["tunnel"], Split(Domain(domain)));
    WireOne("tunnel");
    WirePositive(Split(Domain(domain)));
  }

  lemma {:induction false} WirePositive(ls: seq<string>)
    ensures 1 <= WireLength(ls)
    decreases |ls|
  {
    if ls != [] {
      WirePositive(ls[1..]);
    }
  }

  /** An answer to a query fits the size the query advertised if and only if
      name and payload leave room; one at the payload limit never does. */
  lemma {:induction false} FullAnswerTooLong(txid: int, name: string, domain: string, taken: seq<byte>)
    requires ParseName(name, domain).Ok? && AnswerPacket(txid, name, Some(Frame(Fits(taken)).value), 0).Ok?
    ensures var size := |AnswerPacket(txid, name, Some(Frame(Fits(taken)).value), 0).value|;
      && (size <= EDNS0_UDP_SIZE <==> 2 * WireLength(Split(name)) + TxtLength(2 + |Fits(taken)|) <= 1195)
      && (BUDGET <= |taken| ==> EDNS0_UDP_SIZE < size)
  {
    hide Split, WireLength, ParseName, AnswerPacket;
    AnswerSize(txid, name, Some(Frame(Fits(taken)).value), 0);
    QueryLength(name, domain);
  }

  // ---- the object

  class TxtQueryServer {
    const domain: string
    const cfg: Config
    var sessions: map<string, Buf>
    var down: map<string, seq<byte>>
    var complete: seq<(string, seq<byte>)>
    var queriesOk: nat
    var queriesNx: nat

    constructor (domain: string, ttl: int, echo: bool)
      ensures State() == Empty() && this.domain == Domain(domain) && cfg == Config(ttl, echo)
      ensures queriesOk == 0 && queriesNx == 0
    {
      this.domain, cfg := Domain(domain), Config(ttl, echo);
      sessions, down, complete := map[], map[], [];
      queriesOk, queriesNx := 0, 0;
    }

    ghost function State(): Server
      reads this
    {
      Server(sessions, down, complete)
    }

    method QueueDown(session: string, payload: seq<byte>)
      modifies this
      ensures State() == Queued(old(State()), session, payload)
      ensures queriesOk == old(queriesOk) && queriesNx == old(queriesNx)
    {
      down := down[session := Waiting(down, session) + payload];
    }

    method LiveSessions(now: nat) returns (live: set<string>)
      modifies this
      ensures State() == old(State()).(sessions := Collected(old(sessions), now, cfg.ttl))
      ensures live == sessions.Keys
      ensures queriesOk == old(queriesOk) && queriesNx == old(queriesNx)
    {
      sessions := Collected(sessions, now, cfg.ttl);
      live := sessions.Keys;
    }

    method TakeComplete() returns (out: seq<(string, seq<byte>)>)
      modifies this
      ensures out == old(complete) && State() == old(State()).(complete := [])
      ensures queriesOk == old(queriesOk) && queriesNx == old(queriesNx)
    {
      out := complete;
      complete := [];
    }

    method Assemble(chunks: Chunks) returns (r: Result<seq<byte>>)
      ensures r == TryAssemble(chunks)
    {
      if 0 !in chunks || |chunks[0]| < 2 {
        return WireError;
      }
      var need := 2 + Word16(chunks[0][0], chunks[0][1]);
      var n, framed, i := Highest(chunks, 1024) + 1, [], 0;
      while i < n
        invariant 0 <= i <= n && Contiguous(chunks, i) && framed == Run(chunks, i)
      {
        if i !in chunks {
          return WireError;
        }
        framed := framed + chunks[i];
        i := i + 1;
      }
      if |framed| < need {
        return WireError;
      }
      return Unframe(framed[..need]);
    }

    /** The section under the lock: store the fragment, take what waits. */
    method Receive(q: Query, now: nat) returns (taken: seq<byte>)
      modifies this
      ensures var st := Stored(cfg, old(State()), q, now);
        && taken == Waiting(st.down, q.session)
        && State() == st.(down := Emptied(st.down, q.session))
      ensures queriesOk == old(queriesOk) + 1 && queriesNx == old(queriesNx)
    {
      var s := q.session;
      sessions := Collected(sessions, now, cfg.ttl);
      var chunks := Received(sessions, q);
      var assembled := Assemble(chunks);
      if assembled.Ok? {
        complete := complete + [(s, assembled.value)];
        if cfg.echo {
          down := down[s := Waiting(down, s) + assembled.value];
        }
        sessions := sessions - {s};
      } else {
        sessions := sessions[s := Buf(chunks, now)];
      }
      taken := Waiting(down, s);
      if taken != [] {
        down := down[s := []];
      }
      queriesOk := queriesOk + 1;
    }

    /** One datagram. What the answer says is read back with the client's parser. */
    method Handle(data: seq<byte>, now: nat) returns (reply: Result<Option<seq<byte>>>)
      modifies this
      ensures !ParsedQueryPacket(data).Ok? ==>
        State() == old(State()) && queriesOk == old(queriesOk) && queriesNx == old(queriesNx)
      ensures ParsedQueryPacket(data).WireError? ==> reply == Ok(None)
      ensures ParsedQueryPacket(data).OtherError? ==> reply == OtherError
      ensures ParsedQueryPacket(data).Ok? ==> reply.Ok? && reply.value.Some?
      ensures ParsedQueryPacket(data).Ok? ==>
        var (txid, name) := ParsedQueryPacket(data).value;
        match ParseName(name, domain)
        case Ok(q) =>
          var st := Stored(cfg, old(State()), q, now);
          var taken := Waiting(st.down, q.session);
          var emptied := st.(down := Emptied(st.down, q.session));
          && State() == (if Leftover(taken) == [] then emptied else PutBack(emptied, q.session, Leftover(taken)))
          && ParsedAnswer(reply.value.value) == Ok(Answer(txid, 0, Some(Frame(Fits(taken)).value)))
          && |reply.value.value| == 37 + 2 * WireLength(Split(name)) + TxtLength(2 + |Fits(taken)|)
          && queriesOk == old(queriesOk) + 1 && queriesNx == old(queriesNx)
        case _ =>
          && State() == old(State())
          && ParsedAnswer(reply.value.value) == Ok(Answer(txid, 3, None))
          && |reply.value.value| == 27 + WireLength(Split(name))
          && queriesOk == old(queriesOk) && queriesNx == old(queriesNx) + 1
    {
      hide ParsedQueryPacket, ParseName, Stored, AnswerPacket, ParsedAnswer, WireLength, Split, TxtLength;
      var parsed := ParseQuery(data);
      if !parsed.Ok? {
        return if parsed.WireError? then Ok(None) else OtherError;
      }
      var (txid, name) := parsed.value;
      TxidRange(data);
      var q := ParseName(name, domain);
      if !q.Ok? {
        queriesNx := queriesNx + 1;
        CanAnswer(data, txid, None, 3);
        AnswerRoundTrip(txid, name, None, 3);
        AnswerSize(txid, name, None, 3);
        return Ok(Some(AnswerPacket(txid, name, None, 3).value));
      }
      var taken := Receive(q.value, now);
      var s, rest := q.value.session, Leftover(taken);
      if BUDGET < |taken| {
        down := down[s := rest + Waiting(down, s)];
      }
      var framed := Frame(Fits(taken)).value;
      CanAnswer(data, txid, Some(framed), 0);
      AnswerRoundTrip(txid, name, Some(framed), 0);
      AnswerSize(txid, name, Some(framed), 0);
      return Ok(Some(AnswerPacket(txid, name, Some(framed), 0).value));
    }
  }

  method ParseQuery(packet: seq<byte>) returns (r: Result<(nat, string)>)
    ensures r == ParsedQueryPacket(packet)
  {
    hide NameAt, Join;
    if |packet| < 12 || Word(packet, 4) != 1 {
      return WireError;
    }
    var name := DecodeName(packet, 12, 0);
    if name.WireError? {
      return WireError;
    }
    if name.OtherError? {
      return OtherError;
    }
    var pos := name.value.1;
    if |packet| < pos + 4 || Word(packet, pos) != TXT || Word(packet, pos + 2) != IN {
      return WireError;
    }
    return Ok((Word(packet, 0), name.value.0));
  }

  lemma TxidRange(data: seq<byte>)
    requires ParsedQueryPacket(data).Ok?
    ensures ParsedQueryPacket(data).value.0 % 65536 == ParsedQueryPacket(data).value.0
  {
    hide NameAt;
  }

  // ---- from the payload to the server

  /** A built name in a query packet. The packet leaves out empty labels, so the
      server reads it if and only if, without them, two labels of the parser's
      widths stand between number and payload; for a readable session and nonce
      these are the two. */
  lemma {:induction false} WireToFragment(chunk: seq<byte>, n: int, session: string, nonce: string, domain: string, txid: int)
    requires BuildName(chunk, n, session, nonce, domain).Ok?
    requires Ascii(BuildName(chunk, n, session, nonce, domain).value)
    ensures var name := BuildName(chunk, n, session, nonce, domain).value;
      var mid := NonEmpty(Split(session) + Split(nonce));
      && QueryPacket(txid, name).Ok?
      && ParsedQueryPacket(QueryPacket(txid, name).value) == Ok((txid % 65536, Cleaned(name)))
      && ParseName(Cleaned(name), domain) ==
           (if Widths(mid) then Ok(Query(n, Lower(mid[0]), Lower(mid[1]), chunk, Domain(domain), Lower(Cleaned(name))))
            else WireError)
      && (Readable(session, nonce) ==> Cleaned(name) == name && mid == [session, nonce])
  {
    hide ParseName, ParsedQueryPacket, NameAt, Domain, BuildName, SeqLabel, EncodeStrip, Split, Join, LabelBytes,
      LabelSeq, DecodePad, NonEmpty, Zone, Front;
    var name := BuildName(chunk, n, session, nonce, domain).value;
    BuiltParts(chunk, n, session, nonce, domain);
    var s, d, payload := SeqLabel(n).value, Domain(domain), EncodeStrip(chunk);
    var mid := Split(session) + Split(nonce);
    BuiltSound(name, s, session, nonce, payload, d);
    QueryRoundTrip(txid, name);
    NonEmptyFront(s, mid, payload, Zone(d));
    MiddleShape(session, nonce);
    NonEmptyNoDots(mid);
    FrontParses(s, NonEmpty(mid), payload, domain, domain);
    if Readable(session, nonce) {
      AllNonEmpty([session, nonce]);
    }
  }

  lemma NonEmptyFront(s: string, mid: seq<string>, payload: string, z: seq<string>)
    requires s != "" && payload != "" && GoodLabels(z)
    ensures NonEmpty(Front(s, mid, payload) + z) == Front(s, NonEmpty(mid), payload) + z
  {
    hide NonEmpty;
    NonEmptyAppend(["q", s] + mid + [payload], z);
    NonEmptyAppend(["q", s] + mid, [payload]);
    NonEmptyAppend(["q", s], mid);
    AllNonEmpty(["q", s]);
    AllNonEmpty([payload]);
    AllNonEmpty(z);
  }

  lemma {:induction false} NonEmptyAppend(a: seq<string>, b: seq<string>)
    ensures NonEmpty(a + b) == NonEmpty(a) + NonEmpty(b)
    decreases |a|
  {
    if a == [] {
      assert a + b == b;
    } else {
      NonEmptyAppend(a[1..], b);
      assert (a + b)[1..] == a[1..] + b;
    }
  }

  lemma {:induction false} NonEmptyNoDots(ls: seq<string>)
    requires NoDots(ls)
    ensures NoDots(NonEmpty(ls))
    decreases |ls|
  {
    if ls != [] {
      NonEmptyNoDots(ls[1..]);
    }
  }

  /** The pieces of good labels are short, so the name encodes. */
  lemma BuiltSound(name: string, s: string, session: string, nonce: string, payload: string, d: string)
    requires Ascii(name) && name == Join(Labels(s, session, nonce, payload, d))
    requires GoodLabels(Labels(s, session, nonce, payload, d))
    ensures NameBytes(name).Ok?
  {
    hide Split, Join, LabelBytes;
    var ls := Labels(s, session, nonce, payload, d);
    AsciiLabels(name);
    SplitPieces(ls);
    ShortPieces(ls);
    SoundEncodes(Split(name));
  }

  lemma {:induction false} ShortPieces(ls: seq<string>)
    requires GoodLabels(ls)
    ensures forall i :: 0 <= i < |LabelPieces(ls)| ==> |LabelPieces(ls)[i]| <= 63
    decreases |ls|
  {
    hide Split;
    if ls != [] {
      ShortPieces(ls[1..]);
      ShortSplit(ls[0]);
    }
  }

  lemma {:induction false} ShortSplit(s: string)
    ensures forall i :: 0 <= i < |Split(s)| ==> |Split(s)[i]| <= |s|
    decreases |s|
  {
    if s != "" {
      ShortSplit(s[1..]);
    }
  }

  lemma {:induction false} AsciiLabels(name: string)
    requires Ascii(name)
    ensures forall i :: 0 <= i < |Split(name)| ==> Ascii(Split(name)[i])
    decreases |name|
  {
    if name != "" {
      AsciiLabels(name[1..]);
    }
  }

  /** Every query of the session is one of the client's names or a poll's, its
      letters in any case, as parsed. */
  ghost predicate Sent(events: seq<Event>, session: string, names: seq<string>, domain: string) {
    forall k :: 0 <= k < |events| && Own(events[k], Lower(session)) ==>
      IsName(events[k].q, names, domain) || IsPollName(events[k].q, session, domain)
  }

  ghost predicate IsName(q: Query, names: seq<string>, domain: string) {
    exists i, spelt :: 0 <= i < |names| && Lower(spelt) == Lower(names[i]) && ParseName(spelt, domain) == Ok(q)
  }

  /** A poll is the empty payload, sent with any nonce. */
  ghost predicate IsPollName(q: Query, session: string, domain: string) {
    exists nonce, spelt ::
      && BuildName([0, 0], 0, session, nonce, domain).Ok?
      && Lower(spelt) == Lower(BuildName([0, 0], 0, session, nonce, domain).value) && ParseName(spelt, domain) == Ok(q)
  }

  ghost predicate BuiltFrom(names: seq<string>, c: seq<seq<byte>>, session: string, nonces: nat -> string, domain: string) {
    |names| == |c| && forall i :: 0 <= i < |c| ==> BuildName(c[i], i, session, nonces(i), domain) == Ok(names[i])
  }

  /** A client's names, resolved in any order and any case, with any repetition,
      among its polls and any traffic of other sessions: what completes is the
      payload or a poll's empty one, the payload not before every fragment has
      arrived, and when all arrive within the TTL of each other, and no poll while
      some are held, the payload completes. */
  lemma {:induction false} PayloadDelivered(cfg: Config, payload: seq<byte>, c: seq<seq<byte>>, names: seq<string>, session: string,
                         nonces: nat -> string, domain: string, events: seq<Event>)
    requires Cut(c, payload) && BuiltFrom(names, c, session, nonces, domain)
    requires Sent(events, session, names, domain) && Clocked(events)
    ensures var s := Lower(session); var done := Ran(cfg, s, events).completed;
      && |done| == Times(done, payload) + (if payload == [] then 0 else Times(done, []))
      && (payload != [] ==> Times(done, []) <= Polls(events, s))
      && (payload in done ==> forall k :: 0 <= k < |c| ==> Arrived(events, s, c, k))
      && (Timely(cfg.ttl, s, events) && PollsIdle(cfg, s, events) && (forall k :: 0 <= k < |c| ==> Arrived(events, s, c, k))
          ==> payload in done)
  {
    hide Ran, Cut, Timely, Clocked, Arrived, PollsIdle, ParseName, BuildName, Own, Genuine, Times, Polls;
    var s := Lower(session);
    forall k | 0 <= k < |events| ensures Genuine(events[k], s, c) {
      EventGenuine(events[k], c, names, session, nonces, domain);
    }
    assert Honest(events, s, c);
    EmptiesPolled(cfg, s, c, payload, events);
    if k :| 0 <= k < |c| && !Arrived(events, s, c, k) {
      NeverOnProperSubset(cfg, s, c, payload, events, k);
    } else if Timely(cfg.ttl, s, events) && PollsIdle(cfg, s, events) {
      AllFragmentsComplete(cfg, s, c, payload, events);
    }
  }

  lemma EventGenuine(e: Event, c: seq<seq<byte>>, names: seq<string>, session: string, nonces: nat -> string,
                     domain: string)
    requires BuiltFrom(names, c, session, nonces, domain)
    requires Own(e, Lower(session)) ==> IsName(e.q, names, domain) || IsPollName(e.q, session, domain)
    ensures Genuine(e, Lower(session), c)
  {
    hide ParseName, BuildName, Lower;
    if Own(e, Lower(session)) {
      if IsName(e.q, names, domain) {
        var i, spelt :| 0 <= i < |names| && Lower(spelt) == Lower(names[i]) && ParseName(spelt, domain) == Ok(e.q);
        AnyCase(names[i], spelt, domain);
        NameRoundTrip(c[i], i, session, nonces(i), domain, domain);
      } else {
        var nonce, spelt :|
          && BuildName([0, 0], 0, session, nonce, domain).Ok?
          && Lower(spelt) == Lower(BuildName([0, 0], 0, session, nonce, domain).value)
          && ParseName(spelt, domain) == Ok(e.q);
        AnyCase(BuildName([0, 0], 0, session, nonce, domain).value, spelt, domain);
        NameRoundTrip([0, 0], 0, session, nonce, domain, domain);
      }
    }
  }
}
