/** Numerals in any base, most significant digit first. */
module Numerals {
  import opened Powers

  function Numeral(ds: seq<nat>, b: nat): nat {
    if ds == [] then 0 else Numeral(ds[..|ds| - 1], b) * b + ds[|ds| - 1]
  }

  function Digits(v: nat, b: nat, n: nat): (ds: seq<nat>)
    requires 1 <= b
    ensures |ds| == n && forall i :: 0 <= i < n ==> ds[i] < b
  {
    if n == 0 then [] else Digits(v / b, b, n - 1) + [v % b]
  }

  ghost predicate Below(ds: seq<nat>, b: nat) {
    forall i :: 0 <= i < |ds| ==> ds[i] < b
  }

  lemma DivMod(v: nat, b: nat, d: nat)
    requires d < b
    ensures 0 <= v * b && (v * b + d) / b == v && (v * b + d) % b == d
  {
    Quotient(v * b + d, b, v, d);
  }

  lemma {:induction false} DigitsNumeral(ds: seq<nat>, b: nat)
    requires 1 <= b && Below(ds, b)
    ensures Digits(Numeral(ds, b), b, |ds|) == ds
    decreases |ds|
  {
    if ds != [] {
      var init := ds[..|ds| - 1];
      DigitsNumeral(init, b);
      DivMod(Numeral(init, b), b, ds[|ds| - 1]);
    }
  }

  lemma {:induction false} NumeralDigits(v: nat, b: nat, n: nat)
    requires 1 <= b && v < Power(b, n)
    ensures Numeral(Digits(v, b, n), b) == v
    decreases n
  {
    hide Numeral;
    if n == 0 {
      NoDigits(b);
    } else {
      QuotientBelow(v, b, Power(b, n - 1));
      NumeralDigits(v / b, b, n - 1);
      NumeralStep(Digits(v / b, b, n - 1), v % b, b);
      DivBack(v, b);
    }
  }

  lemma NoDigits(b: nat)
    ensures Numeral([], b) == 0
  {
  }

  lemma DivBack(v: nat, b: nat)
    requires 1 <= b
    ensures v / b * b + v % b == v
  {
  }

  lemma NumeralStep(ds: seq<nat>, d: nat, b: nat)
    ensures Numeral(ds + [d], b) == Numeral(ds, b) * b + d
  {
    var e := ds + [d];
    assert e[..|e| - 1] == ds;
  }

  lemma {:induction false} ZeroNumeral(ds: seq<nat>, b: nat)
    ensures Numeral([0] + ds, b) == Numeral(ds, b)
    decreases |ds|
  {
    hide Numeral;
    if ds == [] {
      assert [] + [0] == [0] + ds == [0];
      NumeralStep([], 0, b);
      NoDigits(b);
    } else {
      var init, d := ds[..|ds| - 1], ds[|ds| - 1];
      ZeroNumeral(init, b);
      NumeralStep([0] + init, d, b);
      NumeralStep(init, d, b);
      assert init + [d] == ds && ([0] + init) + [d] == [0] + ds;
    }
  }

  lemma QuotientBelow(v: nat, b: nat, p: nat)
    requires 1 <= b && v < b * p
    ensures v / b < p
  {
    var q := v / b;
    assert v == b * q + v % b;
    if p <= q {
      Times(b, p, q);
    }
  }

  lemma Times(a: nat, x: nat, y: nat)
    requires x <= y
    ensures a * x <= a * y && x * a <= y * a
  {
  }

  lemma Appended(n: nat, b: nat, d: nat, p: nat)
    requires n < p && d < b
    ensures n * b + d < b * p
  {
    Times(b, n + 1, p);
    assert b * (n + 1) == n * b + b;
  }

  lemma {:induction false} NumeralBelow(ds: seq<nat>, b: nat)
    requires Below(ds, b)
    ensures Numeral(ds, b) < Power(b, |ds|)
    decreases |ds|
  {
    if ds != [] {
      var init, p := ds[..|ds| - 1], Power(b, |ds| - 1);
      NumeralBelow(init, b);
      Appended(Numeral(init, b), b, ds[|ds| - 1], p);
    }
  }

  /** Dividing by a power drops the last digits. */
  lemma {:induction false} NumeralPrefix(ds: seq<nat>, b: nat, k: nat)
    requires 1 <= b && Below(ds, b) && k <= |ds|
    ensures 1 <= Power(b, |ds| - k) && Numeral(ds, b) / Power(b, |ds| - k) == Numeral(ds[..k], b)
    decreases |ds|
  {
    PowerPositive(b, |ds| - k);
    if k == |ds| {
      assert ds[..k] == ds;
    } else {
      var init, d := ds[..|ds| - 1], ds[|ds| - 1];
      NumeralPrefix(init, b, k);
      assert init[..k] == ds[..k];
      DivMod(Numeral(init, b), b, d);
      DivDiv(Numeral(ds, b), b, Power(b, |init| - k));
    }
  }

  /** The leading digits are the digits of the quotient. */
  lemma {:induction false} DigitsPrefix(v: nat, b: nat, n: nat, k: nat)
    requires 1 <= b && k <= n
    ensures 1 <= Power(b, n - k) && Digits(v, b, n)[..k] == Digits(v / Power(b, n - k), b, k)
    decreases n
  {
    PowerPositive(b, n - k);
    if k == n {
      assert Digits(v, b, n)[..k] == Digits(v, b, n);
    } else {
      DigitsPrefix(v / b, b, n - 1, k);
      assert Digits(v, b, n)[..k] == Digits(v / b, b, n - 1)[..k];
      PowerPositive(b, n - 1 - k);
      DivDiv(v, b, Power(b, n - 1 - k));
    }
  }
}
