/** Addresses of the broadcast relay: one spelling each, one storage key each. */
module BroadcastPaths {
  import opened Wrappers
  import opened DecimalText

  datatype Route =
    | Descriptor(author: string, seqNo: nat)
    | ForkReport(author: string, hash: string)
    | Object(hash: string)

  const MAX_SEQ := 0xffff_ffff

  predicate Hex(s: string) {
    forall i :: 0 <= i < |s| ==> '0' <= s[i] <= '9' || 'a' <= s[i] <= 'f'
  }

  /** Digits without a leading zero. */
  predicate Decimal(s: string) {
    s != "" && (forall i :: 0 <= i < |s| ==> IsDigit(s[i])) && (s[0] == '0' ==> s == "0")
  }

  function DecimalValue(s: string): Option<int> {
    if Decimal(s) then ParseNat(s) else None
  }

  /** The parts between slashes have fixed widths, so the path is cut by
      position; author and hash have no slash of their own. */
  function ParsePath(p: string): Option<Route> {
    if |p| < 4 || p[0] != '/' || p[2] != '/' then None
    else if p[1] == 'a' then
      if 36 < |p| && Hex(p[3..35]) && p[35] == '/' && DecimalValue(p[36..]).Some?
        && 0 <= DecimalValue(p[36..]).value <= MAX_SEQ
      then Some(Descriptor(p[3..35], DecimalValue(p[36..]).value)) else None
    else if p[1] == 'f' then
      if |p| == 100 && Hex(p[3..35]) && p[35] == '/' && Hex(p[36..]) then Some(ForkReport(p[3..35], p[36..])) else None
    else if p[1] == 'o' then
      if |p| == 67 && Hex(p[3..]) then Some(Object(p[3..])) else None
    else None
  }

  ghost predicate Valid(r: Route) {
    match r
    case Descriptor(author, n) => |author| == 32 && Hex(author) && n <= MAX_SEQ
    case ForkReport(author, hash) => |author| == 32 && Hex(author) && |hash| == 64 && Hex(hash)
    case Object(hash) => |hash| == 64 && Hex(hash)
  }

  function PathText(r: Route): string {
    match r
    case Descriptor(author, n) => "/a/" + author + "/" + NatText(n)
    case ForkReport(author, hash) => "/f/" + author + "/" + hash
    case Object(hash) => "/o/" + hash
  }

  function StorageKey(r: Route): string {
    match r
    case Descriptor(author, n) => "d:" + author + ":" + NatText(n)
    case ForkReport(author, hash) => "f:" + author + ":" + hash
    case Object(hash) => "o:" + hash
  }

  lemma DecimalParts(s: string)
    requires Decimal(s)
    ensures s != "" && IsDigit(s[|s| - 1]) && (|s| == 1 && s != "0" ==> s[0] != '0')
    ensures 2 <= |s| ==> Decimal(s[..|s| - 1]) && s[..|s| - 1] != "0"
  {
    if 2 <= |s| {
      assert s[..|s| - 1][0] == s[0];
    }
  }

  /** Decimal text without leading zeros is what its value prints. */
  lemma {:induction false} DecimalPrints(s: string)
    requires Decimal(s)
    ensures ParseNat(s).Some? && 0 <= ParseNat(s).value && NatText(ParseNat(s).value) == s
    ensures s != "0" ==> 1 <= ParseNat(s).value
    decreases |s|
  {
    hide NatText, DigitChar, Decimal, ParseNat;
    DecimalParts(s);
    ParseLast(s);
    var init, c := s[..|s| - 1], s[|s| - 1];
    assert s == init + [c];
    LastDigit(c);
    if |s| == 1 {
      assert init == "";
      OneDigit(c as int - '0' as int);
      assert s != "0" ==> c != '0';
    } else {
      DecimalPrints(init);
      MoreDigits(ParseNat(init).value, c as int - '0' as int);
    }
  }

  lemma ParseLast(s: string)
    requires s != "" && IsDigit(s[|s| - 1])
    ensures var init, d := s[..|s| - 1], s[|s| - 1] as int - '0' as int;
      && (|s| == 1 ==> ParseNat(s) == Some(d))
      && (2 <= |s| && ParseNat(init).Some? ==> ParseNat(s) == Some(ParseNat(init).value * 10 + d))
  {
  }

  lemma OneDigit(d: nat)
    requires d < 10
    ensures NatText(d) == [DigitChar(d)]
  {
  }

  lemma MoreDigits(v: nat, d: nat)
    requires 1 <= v && d < 10
    ensures NatText(v * 10 + d) == NatText(v) + [DigitChar(d)]
  {
    var n := v * 10 + d;
    assert n / 10 == v && n % 10 == d;
  }

  lemma LastDigit(c: char)
    requires IsDigit(c)
    ensures 0 <= c as int - '0' as int < 10 && DigitChar(c as int - '0' as int) == c
  {
  }

  lemma {:induction false} PrintsDecimal(n: nat)
    ensures Decimal(NatText(n)) && (NatText(n)[0] == '0' ==> n == 0)
    decreases n
  {
    NatTextParses(n);
    if 10 <= n {
      PrintsDecimal(n / 10);
    }
  }

  lemma ParsedIsSpelled(p: string, r: Route)
    requires ParsePath(p) == Some(r)
    ensures Valid(r) && p == PathText(r)
  {
    hide NatText, ParseNat;
    Pieces(p);
    if r.Descriptor? {
      DecimalPrints(p[36..]);
    }
  }

  lemma SpelledParses(r: Route)
    requires Valid(r)
    ensures ParsePath(PathText(r)) == Some(r)
  {
    hide NatText, ParseNat;
    var p := PathText(r);
    match r
    case Descriptor(author, n) =>
      PrintsDecimal(n);
      NatTextParses(n);
      assert p[3..35] == author && p[36..] == NatText(n);
    case ForkReport(author, hash) =>
      assert p[3..35] == author && p[36..] == hash;
    case Object(hash) =>
      assert p[3..] == hash;
  }

  /** Every accepted path is the one spelling of a valid address, and every
      valid address has an accepted path. */
  lemma {:induction false} OneSpelling(p: string, r: Route)
    ensures ParsePath(p) == Some(r) <==> Valid(r) && p == PathText(r)
  {
    hide ParsePath, Valid, PathText;
    if ParsePath(p) == Some(r) {
      ParsedIsSpelled(p, r);
    }
    if Valid(r) && p == PathText(r) {
      SpelledParses(r);
    }
  }

  lemma Pieces(p: string)
    requires 4 <= |p|
    ensures p == [p[0], p[1], p[2]] + p[3..]
    ensures 36 <= |p| && p[35] == '/' ==> p == [p[0], p[1], p[2]] + p[3..35] + "/" + p[36..]
  {
  }

  /** Different addresses never share a storage key, and no key is `meta`. */
  lemma {:induction false} KeysDistinct(r: Route, q: Route)
    requires Valid(r) && Valid(q)
    ensures StorageKey(r) == StorageKey(q) ==> r == q
    ensures StorageKey(r) != "meta"
  {
    var k, m := StorageKey(r), StorageKey(q);
    KeyShape(r);
    KeyShape(q);
    if k == m && r.Descriptor? && q.Descriptor? {
      NatTextParses(r.seqNo);
      NatTextParses(q.seqNo);
    }
  }

  lemma KeyShape(r: Route)
    requires Valid(r)
    ensures var k := StorageKey(r);
      && 35 <= |k| && k[1] == ':'
      && match r
         case Descriptor(author, n) => k[0] == 'd' && k[2..34] == author && k[35..] == NatText(n)
         case ForkReport(author, hash) => k[0] == 'f' && k[2..34] == author && k[35..] == hash
         case Object(hash) => k[0] == 'o' && k[2..] == hash
  {
  }

  // ---- the addresses, letter by letter

  ghost predicate LowerHex(s: string, n: nat) {
    |s| == n && forall i :: 0 <= i < n ==> s[i] in "0123456789abcdef"
  }

  ghost predicate Spells(p: string, r: Route) {
    match r
    case Descriptor(author, n) => LowerHex(author, 32) && n <= 4_294_967_295 && p == "/a/" + author + "/" + NatText(n)
    case ForkReport(author, hash) => LowerHex(author, 32) && LowerHex(hash, 64) && p == "/f/" + author + "/" + hash
    case Object(hash) => LowerHex(hash, 64) && p == "/o/" + hash
  }

  /** Exactly three kinds of path are accepted: /a/ with 32 and a number up to 2^32 - 1,
      /f/ with 32 and 64, and /o/ with 64 lower-case hexadecimal digits. */
  lemma {:induction false} AcceptedExactly(p: string, r: Route)
    ensures ParsePath(p) == Some(r) <==> Spells(p, r)
    ensures ParsePath(p) == None <==> forall q :: !Spells(p, q)
  {
    hide ParsePath, Hex, LowerHex;
    forall q: Route ensures ParsePath(p) == Some(q) <==> Spells(p, q) {
      OneSpelling(p, q);
      HexIs(if q.Object? then q.hash else q.author, if q.Object? then 64 else 32);
      if q.ForkReport? {
        HexIs(q.hash, 64);
      }
    }
    if ParsePath(p).Some? {
      assert Spells(p, ParsePath(p).value);
    }
  }

  lemma HexIs(s: string, n: nat)
    ensures LowerHex(s, n) <==> |s| == n && Hex(s)
  {
    forall i | 0 <= i < |s| ensures s[i] in "0123456789abcdef" <==> '0' <= s[i] <= '9' || 'a' <= s[i] <= 'f' {
      HexDigit(s[i]);
    }
  }

  lemma HexDigit(c: char)
    ensures c in "0123456789abcdef" <==> '0' <= c <= '9' || 'a' <= c <= 'f'
    ensures c in "0123456789" <==> '0' <= c <= '9'
  {
    var h, d := "0123456789abcdef", "0123456789";
    if '0' <= c <= '9' {
      assert h[c as int - 48] == c && d[c as int - 48] == c;
    } else if 'a' <= c <= 'f' {
      assert h[c as int - 97 + 10] == c;
    }
  }
}
