/** Powers of two and the division facts behind shifts. */
module Powers {

  function Power(b: nat, n: nat): nat {
    if n == 0 then 1 else b * Power(b, n - 1)
  }

  function Pow2(n: nat): (p: nat)
    ensures 1 <= p
  {
    PowerPositive(2, n);
    Power(2, n)
  }

  lemma {:induction false} PowerPositive(b: nat, n: nat)
    requires 1 <= b
    ensures 1 <= Power(b, n)
    decreases n
  {
    if n != 0 {
      PowerPositive(b, n - 1);
      Product(b, 1, Power(b, n - 1));
    }
  }

  lemma {:induction false} PowerSplit(b: nat, n: nat, k: nat)
    ensures Power(b, n + k) == Power(b, n) * Power(b, k) == Power(b, k) * Power(b, n)
    decreases k
  {
    if k != 0 {
      PowerSplit(b, n, k - 1);
      assert b * (Power(b, n) * Power(b, k - 1)) == Power(b, n) * (b * Power(b, k - 1));
    }
  }

  lemma Pow2Add(a: nat, b: nat)
    ensures Pow2(a + b) == Pow2(a) * Pow2(b)
  {
    PowerSplit(2, a, b);
  }

  lemma Pow2Digits()
    ensures Pow2(8) == 256 && Pow2(10) == 1024
  {
    assert Pow2(4) == 16;
    Pow2Add(4, 4);
    Pow2Add(8, 2);
  }

  /** Dropping bits twice is dropping them at once. */
  lemma ShiftTwice(x: nat, a: nat, b: nat)
    ensures x / Pow2(a) / Pow2(b) == x / Pow2(a + b)
  {
    Pow2Add(a, b);
    DivDiv(x, Pow2(a), Pow2(b));
  }

  lemma DivDiv(x: nat, a: nat, b: nat)
    requires 1 <= a && 1 <= b
    ensures a * b != 0 && x / a / b == x / (a * b)
  {
    var y := x / a;
    var q, rest := y / b, y % b;
    Regrouped(x, a, b, y, q, rest, x % a);
    Product(a, rest, b - 1);
    assert a * (b - 1) == a * b - a;
    Quotient(x, a * b, q, a * rest + x % a);
  }

  lemma Regrouped(x: int, a: int, b: int, y: int, q: int, r: int, s: int)
    requires x == a * y + s && y == b * q + r
    ensures x == q * (a * b) + (a * r + s)
  {
    assert a * (b * q + r) == a * (b * q) + a * r;
    assert a * (b * q) == q * (a * b);
  }

  lemma Product(a: int, b: int, c: int)
    requires 0 <= a && 0 <= b <= c
    ensures 0 <= a * b <= a * c
  {
  }

  lemma Quotient(x: int, d: int, q: int, r: int)
    requires 0 < d && x == q * d + r && 0 <= r < d
    ensures x / d == q && x % d == r
  {
    var e := x / d - q;
    assert (x / d) * d + x % d == x;
    assert e * d == (x / d) * d - q * d;
    assert d * e == e * d && d * (-e) == -(e * d);
    if 1 <= e { Product(d, 1, e); }
    if e <= -1 { Product(d, 1, -e); }
  }
}
