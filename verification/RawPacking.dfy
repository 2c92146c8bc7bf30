/** Plain 10-bit packing, the fallback that caps the cost of a block. The
    packed bytes and the symbols are digits of one number in base 256 and in
    base 1024. */
module RawPacking {
  import opened Wrappers
  import opened Powers
  import opened Numerals

  // ---- digit strings

  predicate AreSymbols(syms: seq<int>) {
    forall i :: 0 <= i < |syms| ==> 0 <= syms[i] < 1024
  }

  function Num1024(syms: seq<int>): nat
    requires AreSymbols(syms)
  {
    Numeral(syms, 1024)
  }

  function Num256(b: seq<byte>): nat {
    Numeral(b, 256)
  }

  lemma {:induction false} PowerBytes(n: nat)
    ensures Power(256, n) == Pow2(8 * n) && Power(1024, n) == Pow2(10 * n)
    decreases n
  {
    Pow2Digits();
    if n != 0 {
      PowerBytes(n - 1);
      Pow2Add(8, 8 * (n - 1));
      Pow2Add(10, 10 * (n - 1));
    }
  }

  lemma Num1024Prefix(syms: seq<int>, k: nat)
    requires k <= |syms| && AreSymbols(syms)
    ensures Num1024(syms) / Pow2(10 * (|syms| - k)) == Num1024(syms[..k])
    ensures Num1024(syms) < Pow2(10 * |syms|)
  {
    PowerBytes(|syms| - k);
    PowerBytes(|syms|);
    NumeralPrefix(syms, 1024, k);
    NumeralBelow(syms, 1024);
  }

  lemma Num256Prefix(b: seq<byte>, k: nat)
    requires k <= |b|
    ensures Num256(b) / Pow2(8 * (|b| - k)) == Num256(b[..k])
  {
    PowerBytes(|b| - k);
    NumeralPrefix(b, 256, k);
  }

  // ---- packing

  function PackedLength(n: nat): nat {
    (10 * n + 7) / 8
  }

  /** The symbols' bits, most significant first, zero-padded to a byte. */
  function Packed(syms: seq<int>): (b: seq<byte>)
    requires AreSymbols(syms)
    ensures |b| == PackedLength(|syms|)
  {
    var n := PackedLength(|syms|);
    Digits(Num1024(syms) * Pow2(8 * n - 10 * |syms|), 256, n)
  }

  /** The first `n` symbols of a byte string, or None when it is too short. */
  function Unpacked(body: seq<byte>, n: nat): (o: Option<seq<int>>)
    ensures o.Some? ==> |o.value| == n && AreSymbols(o.value)
  {
    if 8 * |body| < 10 * n then None
    else Some(seq(n, j requires 0 <= j < n => SymbolOf(body, j)))
  }

  function SymbolOf(body: seq<byte>, j: nat): (s: int)
    requires 10 * (j + 1) <= 8 * |body|
    ensures 0 <= s < 1024
  {
    Num256(body) / Pow2(8 * |body| - 10 * (j + 1)) % 1024
  }

  lemma PaddedBelow(v: nat, bits: nat, pad: nat)
    requires v < Pow2(bits)
    ensures 0 <= v * Pow2(pad) < Pow2(bits + pad)
  {
    Pow2Add(bits, pad);
    Scaled(v, Pow2(bits), Pow2(pad));
  }

  lemma Scaled(a: int, b: int, c: int)
    requires 0 <= a < b && 1 <= c
    ensures 0 <= a * c < b * c
  {
  }

  lemma PaddedDigits(v: nat, bits: nat, pad: nat, n: nat)
    requires v < Pow2(bits) && bits + pad == 8 * n
    ensures 0 <= v * Pow2(pad) && Numeral(Digits(v * Pow2(pad), 256, n), 256) == v * Pow2(pad)
  {
    PaddedBelow(v, bits, pad);
    PowerBytes(n);
    NumeralDigits(v * Pow2(pad), 256, n);
  }

  lemma PackedValue(syms: seq<int>, pad: nat)
    requires AreSymbols(syms) && 8 * PackedLength(|syms|) == 10 * |syms| + pad
    ensures Num256(Packed(syms)) == Num1024(syms) * Pow2(pad)
  {
    Num1024Prefix(syms, 0);
    PaddedDigits(Num1024(syms), 10 * |syms|, pad, PackedLength(|syms|));
  }

  /** Dropping the padding and the later symbols leaves the symbols so far. */
  lemma Unpadded(v: nat, pad: nat, low: nat)
    ensures v * Pow2(pad) / Pow2(pad + low) == v / Pow2(low)
  {
    ShiftTwice(v * Pow2(pad), pad, low);
    Quotient(v * Pow2(pad), Pow2(pad), v, 0);
  }

  lemma {:induction false} PackedSymbol(syms: seq<int>, j: nat)
    requires AreSymbols(syms) && j < |syms|
    ensures SymbolOf(Packed(syms), j) == syms[j]
  {
    var pad := 8 * PackedLength(|syms|) - 10 * |syms|;
    PackedValue(syms, pad);
    Unpadded(Num1024(syms), pad, 10 * (|syms| - (j + 1)));
    Num1024Prefix(syms, j + 1);
    LastDigit(syms[..j + 1]);
  }

  lemma LastDigit(syms: seq<int>)
    requires AreSymbols(syms) && syms != []
    ensures Num1024(syms) % 1024 == syms[|syms| - 1]
  {
  }

  /** Packing loses nothing. */
  lemma {:induction false} PackRoundTrip(syms: seq<int>)
    requires AreSymbols(syms)
    ensures Unpacked(Packed(syms), |syms|) == Some(syms)
  {
    forall j | 0 <= j < |syms| ensures SymbolOf(Packed(syms), j) == syms[j] {
      PackedSymbol(syms, j);
    }
    assert Unpacked(Packed(syms), |syms|).value == syms;
  }

  // ---- the packing loops

  /** The packer after the symbols `done`: every whole byte is out, the last
      `nbits` bits of `acc` are still to go. */
  ghost predicate Packing(done: seq<int>, acc: nat, nbits: nat, bytes: seq<byte>) {
    && AreSymbols(done) && acc == Num1024(done)
    && nbits < 8 && 8 * |bytes| + nbits == 10 * |done|
    && Num256(bytes) == acc / Pow2(nbits)
  }

  lemma WithSymbol(done: seq<int>, sym: int, nbits: nat)
    requires AreSymbols(done) && 0 <= sym < 1024
    ensures AreSymbols(done + [sym]) && Num1024(done + [sym]) == Num1024(done) * 1024 + sym
    ensures Num1024(done + [sym]) / Pow2(nbits + 10) == Num1024(done) / Pow2(nbits)
  {
    var more := done + [sym];
    assert more[..|done|] == done;
    Pow2Digits();
    ShiftTwice(Num1024(more), 10, nbits);
    assert Num1024(more) / 1024 == Num1024(done);
  }

  lemma WithByte(bytes: seq<byte>, acc: nat, nbits: nat)
    requires 8 <= nbits && Num256(bytes) == acc / Pow2(nbits)
    ensures Num256(bytes + [acc / Pow2(nbits - 8) % 256]) == acc / Pow2(nbits - 8)
  {
    var more := bytes + [acc / Pow2(nbits - 8) % 256];
    assert more[..|bytes|] == bytes;
    Pow2Digits();
    ShiftTwice(acc, nbits - 8, 8);
  }

  /** The body of the packing loop. */
  method PushSymbol(acc: nat, nbits: nat, bytes: seq<byte>, sym: int, ghost done: seq<int>)
      returns (acc': nat, nbits': nat, bytes': seq<byte>)
    requires Packing(done, acc, nbits, bytes) && 0 <= sym < 1024
    ensures Packing(done + [sym], acc', nbits', bytes')
  {
    WithSymbol(done, sym, nbits);
    acc', nbits', bytes' := acc * 1024 + sym, nbits + 10, bytes;
    while nbits' >= 8
      invariant nbits' < 18 && 8 * |bytes'| + nbits' == 10 * (|done| + 1)
      invariant Num256(bytes') == acc' / Pow2(nbits')
    {
      WithByte(bytes', acc', nbits');
      nbits' := nbits' - 8;
      bytes' := bytes' + [acc' / Pow2(nbits') % 256];
    }
  }

  /** The last byte, padded with zero bits. */
  method Flush(acc: nat, nbits: nat, bytes: seq<byte>, ghost done: seq<int>) returns (all: seq<byte>)
    requires Packing(done, acc, nbits, bytes)
    ensures all == Packed(done)
  {
    all := bytes;
    if nbits != 0 {
      all := all + [acc * Pow2(8 - nbits) % 256];
      assert all[..|bytes|] == bytes;
      LastByte(acc, nbits);
    }
    var pad := 8 * |all| - 10 * |done|;
    PackedIs(all, done, pad);
  }

  lemma PackedIs(all: seq<byte>, done: seq<int>, pad: nat)
    requires AreSymbols(done) && |all| == PackedLength(|done|) && 8 * |all| == 10 * |done| + pad
    requires Num256(all) == Num1024(done) * Pow2(pad)
    ensures all == Packed(done)
  {
    PackedValue(done, pad);
    DigitsNumeral(all, 256);
    DigitsNumeral(Packed(done), 256);
  }

  lemma LastByte(acc: nat, nbits: nat)
    requires 0 < nbits < 8
    ensures 0 <= acc * Pow2(8 - nbits)
    ensures acc / Pow2(nbits) * 256 + acc * Pow2(8 - nbits) % 256 == acc * Pow2(8 - nbits)
  {
    var p, q := Pow2(nbits), Pow2(8 - nbits);
    Pow2Digits();
    Pow2Add(nbits, 8 - nbits);
    Scaled(0, p, 1);
    assert 0 <= acc * q by { Product(q, 0, acc); assert q * acc == acc * q; }
    DivScaled(acc, p, q);
  }

  lemma DivScaled(x: nat, p: nat, q: nat)
    requires 1 <= p && 1 <= q && p * q == 256
    ensures x / p * 256 + x * q % 256 == x * q
  {
    var d, r := x / p, x % p;
    assert x == d * p + r;
    assert x * q == d * (p * q) + r * q by { Distribute(d, p, r, q); }
    Product(q, r, p - 1);
    assert r * q == q * r && q * (p - 1) == 256 - q by { assert q * p == p * q; }
    Quotient(x * q, 256, d, r * q);
  }

  lemma Distribute(d: int, p: int, r: int, q: int)
    ensures (d * p + r) * q == d * (p * q) + r * q
  {
  }

  /** The unpacker after `k` symbols and `pos` bytes. */
  ghost predicate Unpacking(body: seq<byte>, k: nat, acc: nat, nbits: int, pos: nat) {
    pos <= |body| && acc == Num256(body[..pos]) && nbits == 8 * pos - 10 * k && 0 <= nbits < 8
  }

  /** The body of the unpacking loop; None where the body ends early. */
  method PullSymbol(body: seq<byte>, acc: nat, nbits: int, pos: nat, ghost k: nat)
      returns (sym: Option<int>, acc': nat, nbits': int, pos': nat)
    requires Unpacking(body, k, acc, nbits, pos)
    ensures sym.Some? <==> 10 * (k + 1) <= 8 * |body|
    ensures sym.Some? ==> sym.value == SymbolOf(body, k) && Unpacking(body, k + 1, acc', nbits', pos')
  {
    acc', nbits', pos' := acc, nbits, pos;
    while nbits' < 10
      invariant pos' <= |body| && acc' == Num256(body[..pos']) && nbits' == 8 * pos' - 10 * k && 0 <= nbits' < 18
    {
      if pos' >= |body| {
        return None, acc', nbits', pos';
      }
      assert body[..pos' + 1][..pos'] == body[..pos'];
      acc' := acc' * 256 + body[pos'] as int;
      pos' := pos' + 1;
      nbits' := nbits' + 8;
    }
    nbits' := nbits' - 10;
    Num256Prefix(body, pos');
    ShiftTwice(Num256(body), 8 * (|body| - pos'), nbits');
    sym := Some(acc' / Pow2(nbits') % 1024);
  }
}
