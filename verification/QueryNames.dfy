/** Query names: q.<seq>.<session>.<nonce>.<payload>.tunnel.<domain>. */
module QueryNames {
  import opened Wrappers
  import opened Powers
  import opened Base32
  import opened DottedNames

  type SeqNo = n: nat | n <= 1023

  datatype Query = Query(seqNo: SeqNo, session: string, nonce: string, chunk: seq<byte>, domain: string, name: string)

  function SeqLabel(n: int): Result<string> {
    if 0 <= n <= 1023 then IntLabel(n, 2) else WireError
  }

  function LabelSeq(text: string): Result<SeqNo> {
    match LabelInt(text)
    case Ok(n) => if n > 1023 then WireError else Ok(n)
    case _ => WireError
  }

  predicate GoodLabels(ls: seq<string>) {
    forall i :: 0 <= i < |ls| ==> 1 <= |ls[i]| <= 63
  }

  function Zone(domain: string): (z: seq<string>)
    ensures 2 <= |z|
  {
    ["tunnel"] + Split(domain)
  }

  function Domain(text: string): string {
    Lower(Strip(text))
  }

  function Labels(s: string, session: string, nonce: string, payload: string, domain: string): (ls: seq<string>)
    ensures 7 <= |ls| && ls[..5] == ["q", s, session, nonce, payload] && ls[5..] == Zone(domain)
  {
    ["q", s, session, nonce, payload] + Zone(domain)
  }

  function BuildName(chunk: seq<byte>, n: int, session: string, nonce: string, domain: string): Result<string> {
    var payload := EncodeStrip(chunk);
    if |payload| > 63 || !SeqLabel(n).Ok? then WireError
    else
      var labels := Labels(SeqLabel(n).value, session, nonce, payload, Domain(domain));
      if !GoodLabels(labels) || |Join(labels)| > 253 then WireError else Ok(Join(labels))
  }

  function ParseName(name: string, expected: string): Result<Query> {
    var domain, lowered := Domain(expected), Lower(Strip(name));
    var parts, zone := Split(lowered), Zone(domain);
    if !EndsWith(lowered, "tunnel." + domain) then WireError
    else if |parts| < |zone| || parts[|parts| - |zone|..] != zone then WireError
    else
      var head := parts[..|parts| - |zone|];
      if |head| != 5 || head[0] != "q" || |head[2]| != 6 || |head[3]| != 4 then WireError
      else if !LabelSeq(head[1]).Ok? || !DecodePad(head[4]).Ok? then WireError
      else
        Ok(Query(LabelSeq(head[1]).value, head[2], head[3], DecodePad(head[4]).value, domain, lowered))
  }

  lemma ZoneText(domain: string)
    ensures Join(Zone(domain)) == "tunnel." + domain
  {
    JoinSplit(domain);
    JoinMore("tunnel", Split(domain));
  }

  lemma LowerSplit(domain: string)
    ensures LowerAll(Split(Lower(domain))) == Split(Lower(domain))
  {
    hide Split;
    LowerSplits(Lower(domain));
    LowerTwice(domain);
  }

  /** The labels before the zone. */
  function Front(s: string, mid: seq<string>, payload: string): (h: seq<string>)
    ensures |h| == 3 + |mid| && h[0] == "q" && h[1] == s && h[|h| - 1] == payload
    ensures forall i :: 0 <= i < |mid| ==> h[i + 2] == mid[i]
  {
    ["q", s] + mid + [payload]
  }

  /** What splitting the lower-cased name finds. */
  lemma LoweredName(front: seq<string>, d: string)
    requires front != [] && front[0] == "q" && NoDots(front) && GoodLabels(Zone(d)) && LowerAll(Split(d)) == Split(d)
    ensures var name := Join(front + Zone(d));
      && Strip(name) == name
      && Split(Lower(name)) == LowerAll(front) + Zone(d) && EndsWith(Lower(name), "tunnel." + d)
  {
    hide Join, Strip, Split, Lower, LowerAll, Zone, EndsWith, NoDots;
    var ls, z := front + Zone(d), Zone(d);
    ZoneNoDots(d);
    LastOf(front, z);
    JoinEnds(ls);
    Unstripped(Join(ls));
    LowerJoin(ls);
    LowerAppend(front, z);
    ZoneLowered(d);
    LowerNoDots(front);
    BothNoDots(LowerAll(front), z);
    SplitJoin(LowerAll(front) + z);
    JoinAppend(LowerAll(front), z);
    ZoneText(d);
    AtEnd(Join(LowerAll(front)) + ".", "tunnel." + d);
  }

  lemma LastOf(front: seq<string>, z: seq<string>)
    requires z != [] && NoDots(z) && GoodLabels(z)
    ensures var last := (front + z)[|front + z| - 1]; last != "" && last[|last| - 1] != '.'
  {
    assert (front + z)[|front + z| - 1] == z[|z| - 1];
  }

  lemma LowerAppend(a: seq<string>, b: seq<string>)
    ensures LowerAll(a + b) == LowerAll(a) + LowerAll(b)
  {
  }

  lemma ZoneLowered(d: string)
    requires LowerAll(Split(d)) == Split(d)
    ensures LowerAll(Zone(d)) == Zone(d)
  {
    hide Split;
    LowerAppend(["tunnel"], Split(d));
    assert Lower("tunnel") == "tunnel";
    assert LowerAll(["tunnel"]) == ["tunnel"];
  }

  lemma LowerNoDots(ls: seq<string>)
    requires NoDots(ls)
    ensures NoDots(LowerAll(ls)) && |LowerAll(ls)| == |ls|
  {
  }

  lemma BothNoDots(a: seq<string>, b: seq<string>)
    requires NoDots(a) && NoDots(b)
    ensures NoDots(a + b)
  {
  }

  lemma ZoneNoDots(d: string)
    ensures NoDots(Zone(d))
  {
  }

  lemma AtEnd(a: string, b: string)
    ensures EndsWith(a + b, b)
  {
  }

  /** The parser on a name that splits into a head and the zone. */
  lemma ParsedPieces(name: string, expected: string, head: seq<string>)
    requires var lowered := Lower(Strip(name));
      Split(lowered) == head + Zone(Domain(expected)) && EndsWith(lowered, "tunnel." + Domain(expected))
    ensures ParseName(name, expected) ==
      if |head| == 5 && head[0] == "q" && |head[2]| == 6 && |head[3]| == 4
         && LabelSeq(head[1]).Ok? && DecodePad(head[4]).Ok?
      then Ok(Query(LabelSeq(head[1]).value, head[2], head[3], DecodePad(head[4]).value,
                    Domain(expected), Lower(Strip(name))))
      else WireError
  {
    hide Split, Zone, EndsWith, LabelSeq, DecodePad, Lower, Strip;
    var z := Zone(Domain(expected));
    Suffix(head + z, |head|);
    assert (head + z)[|head|..] == z && (head + z)[..|head|] == head;
  }

  /** Two labels of the parser's widths, between the number and the payload. */
  predicate Widths(mid: seq<string>) {
    |mid| == 2 && |mid[0]| == 6 && |mid[1]| == 4
  }

  /** A name of labels without dots parses if and only if two of the right
      widths stand between its number and its payload. */
  lemma FrontParses(s: string, mid: seq<string>, payload: string, domain: string, expected: string)
    requires NoDot(s) && NoDots(mid) && NoDot(payload) && GoodLabels(Zone(Domain(domain)))
    requires Domain(expected) == Domain(domain) && LabelSeq(Lower(s)).Ok? && DecodePad(Lower(payload)).Ok?
    ensures var name := Join(Front(s, mid, payload) + Zone(Domain(domain)));
      ParseName(name, expected) ==
        if Widths(mid) then
          Ok(Query(LabelSeq(Lower(s)).value, Lower(mid[0]), Lower(mid[1]),
                   DecodePad(Lower(payload)).value, Domain(domain), Lower(name)))
        else WireError
  {
    hide Split, Join, LabelSeq, DecodePad, Strip, Zone, EndsWith, ParseName, Lower, GoodLabels;
    var d, front := Domain(domain), Front(s, mid, payload);
    LowerSplit(Strip(domain));
    assert Lower("q") == "q" by { LowerQ(); }
    LoweredName(front, d);
    ParsedPieces(Join(front + Zone(d)), expected, LowerAll(front));
    SameLength(mid);
  }

  lemma LowerQ()
    ensures Lower("q") == "q"
  {
  }

  lemma SameLength(mid: seq<string>)
    ensures forall i :: 0 <= i < |mid| ==> |Lower(mid[i])| == |mid[i]|
  {
  }

  // ---- built names

  /** What the parser can read back. */
  predicate Readable(session: string, nonce: string) {
    |session| == 6 && |nonce| == 4 && NoDot(session) && NoDot(nonce)
  }

  /** A session or a nonce with a dot is several labels. */
  lemma MiddleShape(session: string, nonce: string)
    ensures NoDots(Split(session) + Split(nonce))
    ensures Widths(Split(session) + Split(nonce)) <==> Readable(session, nonce)
    ensures Readable(session, nonce) ==> Split(session) + Split(nonce) == [session, nonce]
  {
    hide Split;
    SplitSingle(session);
    SplitSingle(nonce);
  }

  /** The labels a built name splits into. */
  lemma NamePieces(s: string, session: string, nonce: string, payload: string, d: string)
    requires NoDot(s) && NoDot(payload)
    ensures var mid := Split(session) + Split(nonce);
      && Split(Join(Labels(s, session, nonce, payload, d))) == Front(s, mid, payload) + Zone(d)
      && Join(Labels(s, session, nonce, payload, d)) == Join(Front(s, mid, payload) + Zone(d))
  {
    hide LabelPieces, Split, Zone, Join;
    var z := Zone(d);
    var ls := Labels(s, session, nonce, payload, d);
    SplitPieces(ls);
    JoinSplit(Join(ls));
    ZoneNoDots(d);
    PiecesWhole(z);
    SplitSingle("q");
    SplitSingle(s);
    SplitSingle(payload);
    PiecesMore(payload, z);
    PiecesMore(nonce, [payload] + z);
    PiecesMore(session, [nonce] + ([payload] + z));
    PiecesMore(s, [session] + ([nonce] + ([payload] + z)));
    PiecesMore("q", [s] + ([session] + ([nonce] + ([payload] + z))));
    assert ls == ["q"] + ([s] + ([session] + ([nonce] + ([payload] + z))));
  }

  lemma Suffix(ls: seq<string>, k: nat)
    requires k <= |ls|
    ensures |ls[k..]| == |ls| - k && |ls| - |ls[k..]| == k
  {
  }

  lemma Unstripped(name: string)
    requires name == "" || (name[0] != '.' && name[|name| - 1] != '.')
    ensures Strip(name) == name
  {
  }

  /** What a name that builds is made of. */
  lemma BuiltParts(chunk: seq<byte>, n: int, session: string, nonce: string, domain: string)
    requires BuildName(chunk, n, session, nonce, domain).Ok?
    ensures 0 <= n <= 1023 && SeqLabel(n).Ok?
    ensures var s, d, payload := SeqLabel(n).value, Domain(domain), EncodeStrip(chunk);
      && BuildName(chunk, n, session, nonce, domain).value
           == Join(Front(s, Split(session) + Split(nonce), payload) + Zone(d))
           == Join(Labels(s, session, nonce, payload, d))
      && Split(BuildName(chunk, n, session, nonce, domain).value)
           == Front(s, Split(session) + Split(nonce), payload) + Zone(d)
      && NoDot(s) && NoDot(payload) && 1 <= |s| && 1 <= |payload| && GoodLabels(Labels(s, session, nonce, payload, d))
      && GoodLabels(Zone(d)) && LabelSeq(Lower(s)) == Ok(n) && DecodePad(Lower(payload)) == Ok(chunk)
  {
    hide Split, Join, Strip, EncodeStrip, DecodePad, SeqLabel, LabelSeq, Zone, Front;
    SeqInRange(chunk, n, session, nonce, domain);
    SeqLabelReads(n);
    LabelShape(chunk);
    LabelRoundTrip(chunk);
    NamePieces(SeqLabel(n).value, session, nonce, EncodeStrip(chunk), Domain(domain));
    GoodZone(SeqLabel(n).value, session, nonce, EncodeStrip(chunk), Domain(domain));
  }

  lemma GoodZone(s: string, session: string, nonce: string, payload: string, d: string)
    requires GoodLabels(Labels(s, session, nonce, payload, d))
    ensures GoodLabels(Zone(d))
  {
    hide Split;
    var ls := Labels(s, session, nonce, payload, d);
    forall i | 0 <= i < |Zone(d)| ensures Zone(d)[i] == ls[i + 5] {
      assert ls[5..][i] == ls[i + 5];
    }
  }

  lemma SeqLabelReads(n: int)
    requires 0 <= n <= 1023
    ensures SeqLabel(n).Ok? && |SeqLabel(n).value| == 2 && NoDot(SeqLabel(n).value)
    ensures LabelSeq(Lower(SeqLabel(n).value)) == Ok(n)
  {
    assert Power(32, 2) == 1024;
    IntLabelRoundTrip(n, 2);
  }

  /** The parser does not look at the width of the number's label: with more or
      fewer leading `a`s than the builder writes it reads as the same number. */
  lemma {:induction false} NumberAliases(text: string)
    ensures LabelSeq("a" + text) == LabelSeq(text)
  {
    LeadingZero(text);
  }

  lemma {:induction false} StripAnyCase(a: string, b: string)
    requires Lower(a) == Lower(b)
    ensures Lower(Strip(a)) == Lower(Strip(b))
    decreases |a|
  {
    hide Lower;
    SameDots(a, b);
    if a != "" && a[0] == '.' {
      LowerTail(a, b, 1, |a|);
      StripAnyCase(a[1..], b[1..]);
    } else if a != "" && a[|a| - 1] == '.' {
      LowerTail(a, b, 0, |a| - 1);
      StripAnyCase(a[..|a| - 1], b[..|b| - 1]);
    }
  }

  lemma SameDots(a: string, b: string)
    requires Lower(a) == Lower(b)
    ensures |a| == |b| && forall i :: 0 <= i < |a| ==> (a[i] == '.' <==> b[i] == '.')
  {
    assert |a| == |Lower(a)| == |b|;
    forall i | 0 <= i < |a| ensures a[i] == '.' <==> b[i] == '.' {
      assert LowerChar(a[i]) == Lower(a)[i] == Lower(b)[i] == LowerChar(b[i]);
    }
  }

  lemma LowerTail(a: string, b: string, i: nat, j: nat)
    requires Lower(a) == Lower(b) && i <= j <= |a| == |b|
    ensures Lower(a[i..j]) == Lower(b[i..j])
  {
    assert Lower(a[i..j]) == Lower(a)[i..j];
    assert Lower(b[i..j]) == Lower(b)[i..j];
  }

  /** Whatever case the resolvers on the way gave the letters of a name, it
      parses the same. */
  lemma {:induction false} AnyCase(name: string, other: string, expected: string)
    requires Lower(other) == Lower(name)
    ensures ParseName(other, expected) == ParseName(name, expected)
  {
    hide Lower, Strip;
    StripAnyCase(other, name);
  }

  /** A name that builds parses back to its parts if and only if its session
      and nonce have the parser's widths and no dot; the builder checks neither. */
  lemma {:induction false} NameRoundTrip(chunk: seq<byte>, n: int, session: string, nonce: string, domain: string, expected: string)
    requires BuildName(chunk, n, session, nonce, domain).Ok? && Domain(expected) == Domain(domain)
    ensures var name := BuildName(chunk, n, session, nonce, domain).value;
      ParseName(name, expected) ==
        if Readable(session, nonce) then
          Ok(Query(n, Lower(session), Lower(nonce), chunk, Domain(domain), Lower(name)))
        else WireError
  {
    hide Split, Join, Strip, EncodeStrip, DecodePad, SeqLabel, LabelSeq, ParseName, BuildName, Front, GoodLabels;
    BuiltParts(chunk, n, session, nonce, domain);
    MiddleShape(session, nonce);
    FrontParses(SeqLabel(n).value, Split(session) + Split(nonce), EncodeStrip(chunk), domain, expected);
  }

  /** So a session id of another width builds names that nobody can read. */
  lemma {:induction false} BuiltUnreadable()
    ensures BuildName([], 0, "ABC23", "7XYZ", "valve.example").Ok?
    ensures ParseName(BuildName([], 0, "ABC23", "7XYZ", "valve.example").value, "valve.example") == WireError
  {
    hide BuildName, ParseName;
    ValveExample();
    BuildsExactly([], 0, "ABC23", "7XYZ", "valve.example");
    NameRoundTrip([], 0, "ABC23", "7XYZ", "valve.example", "valve.example");
  }

  lemma ValveExample()
    ensures Domain("valve.example") == "valve.example"
    ensures GoodLabels(["ABC23", "7XYZ"] + Split("valve.example"))
    ensures |EncodeStrip([])| == 1
  {
    hide Split, GoodLabels;
    Unstripped("valve.example");
    assert Lower("valve.example") == "valve.example";
    assert "valve.example" == "valve" + "." + "example";
    SplitFront("valve", "example");
    SplitOne("example");
    FourGood("ABC23", "7XYZ", "valve", "example");
    assert ["ABC23", "7XYZ"] + (["valve"] + ["example"]) == ["ABC23", "7XYZ", "valve", "example"];
  }

  lemma FourGood(a: string, b: string, c: string, d: string)
    requires 1 <= |a| <= 63 && 1 <= |b| <= 63 && 1 <= |c| <= 63 && 1 <= |d| <= 63
    ensures GoodLabels([a, b, c, d])
  {
  }

  lemma SeqInRange(chunk: seq<byte>, n: int, session: string, nonce: string, domain: string)
    requires BuildName(chunk, n, session, nonce, domain).Ok?
    ensures 0 <= n <= 1023
  {
  }

  /** A name fails to build exactly when the chunk is over 39 bytes, the
      number is out of range, a label is bad, or the whole is over 253. */
  lemma {:induction false} BuildsExactly(chunk: seq<byte>, n: int, session: string, nonce: string, domain: string)
    ensures BuildName(chunk, n, session, nonce, domain).Ok? <==>
      && |chunk| <= 39 && 0 <= n <= 1023 && GoodLabels([session, nonce] + Split(Domain(domain)))
      && 15 + |session| + |nonce| + |EncodeStrip(chunk)| + |Domain(domain)| <= 253
  {
    hide Split, Join, EncodeStrip, Strip, SeqLabel;
    if 0 <= n <= 1023 {
      SeqLabelReads(n);
      LabelShape(chunk);
      var d, payload := Domain(domain), EncodeStrip(chunk);
      var s := SeqLabel(n).value;
      JoinedLength(s, session, nonce, payload, d);
      GoodParts(s, session, nonce, payload, d);
    } else {
      NoSeqLabel(n);
    }
  }

  lemma NoSeqLabel(n: int)
    requires !(0 <= n <= 1023)
    ensures !SeqLabel(n).Ok?
  {
  }

  lemma JoinedLength(s: string, session: string, nonce: string, payload: string, d: string)
    ensures |Join(Labels(s, session, nonce, payload, d))| ==
      1 + |s| + |session| + |nonce| + |payload| + 5 + 7 + |d|
  {
    hide Split, Join;
    var rest := Zone(d);
    ZoneText(d);
    JoinMore(payload, rest);
    JoinMore(nonce, [payload] + rest);
    JoinMore(session, [nonce] + ([payload] + rest));
    JoinMore(s, [session] + ([nonce] + ([payload] + rest)));
    JoinMore("q", [s] + ([session] + ([nonce] + ([payload] + rest))));
    assert Labels(s, session, nonce, payload, d)
        == ["q"] + ([s] + ([session] + ([nonce] + ([payload] + rest))));
  }

  lemma GoodParts(s: string, session: string, nonce: string, payload: string, d: string)
    requires 1 <= |s| <= 63 && 1 <= |payload|
    ensures GoodLabels(Labels(s, session, nonce, payload, d)) <==>
      (|payload| <= 63 && GoodLabels([session, nonce] + Split(d)))
  {
    hide Split;
    var ls, p, z := Labels(s, session, nonce, payload, d), [session, nonce] + Split(d), Split(d);
    assert ls[4] == payload && ls[2] == session && ls[3] == nonce && ls[5] == "tunnel";
    assert p[0] == session && p[1] == nonce;
    assert forall i :: 0 <= i < |z| ==> ls[i + 6] == z[i] && p[i + 2] == z[i];
    assert forall i :: 2 <= i < |p| ==> p[i] == z[i - 2];
    assert forall i :: 6 <= i < |ls| ==> ls[i] == z[i - 6];
  }
}
