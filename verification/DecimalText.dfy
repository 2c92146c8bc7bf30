/** Integers as decimal text. */
module DecimalText {
  import opened Wrappers

  const DIGITS := "0123456789"

  function DigitChar(d: int): char
    requires 0 <= d < 10
  {
    DIGITS[d]
  }

  function NatText(n: nat): (s: string)
    ensures 1 <= |s|
  {
    if n < 10 then [DigitChar(n)] else NatText(n / 10) + [DigitChar(n % 10)]
  }

  /** Python's `str` of an integer. */
  function IntText(n: int): (s: string)
    ensures 1 <= |s|
  {
    if n < 0 then "-" + NatText(-n) else NatText(n)
  }

  predicate IsDigit(c: char) {
    '0' <= c <= '9'
  }

  function ParseNat(s: string): Option<int> {
    if s == [] || !IsDigit(s[|s| - 1]) then None
    else
      var d := s[|s| - 1] as int - '0' as int;
      if |s| == 1 then Some(d)
      else
        match ParseNat(s[..|s| - 1])
        case None => None
        case Some(v) => Some(v * 10 + d)
  }

  /** Python's `int` on an optional minus sign and decimal digits. */
  function ParseInt(s: string): Option<int> {
    if s != [] && s[0] == '-' then
      match ParseNat(s[1..])
      case None => None
      case Some(v) => Some(-v)
    else ParseNat(s)
  }

  lemma {:induction false} NatTextParses(n: nat)
    ensures ParseNat(NatText(n)) == Some(n)
    ensures forall c <- NatText(n) :: IsDigit(c)
    decreases n
  {
    if 10 <= n {
      NatTextParses(n / 10);
      assert NatText(n)[..|NatText(n)| - 1] == NatText(n / 10);
    }
  }

  lemma IntTextParses(n: int)
    ensures ParseInt(IntText(n)) == Some(n)
    ensures forall c <- IntText(n) :: IsDigit(c) || c == '-'
  {
    NatTextParses(if n < 0 then -n else n);
    if n < 0 {
      assert IntText(n)[1..] == NatText(-n);
    } else {
      assert NatText(n)[0] in NatText(n);
    }
  }
}
