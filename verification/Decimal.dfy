/** Numbers written out, as names and merge keys carry them. */
module Decimal {
  const DIGITS := "0123456789"

  function OfNat(n: nat): (s: string)
    ensures s != []
    ensures forall i :: 0 <= i < |s| ==> s[i] in DIGITS
  {
    if n < 10 then [DIGITS[n]] else OfNat(n / 10) + [DIGITS[n % 10]]
  }

  function Of(n: int): string {
    if n < 0 then "-" + OfNat(-n) else OfNat(n)
  }

  lemma DigitsDiffer(i: nat, j: nat)
    requires i < 10 && j < 10 && DIGITS[i] == DIGITS[j]
    ensures i == j
  {
  }

  /** Different numbers are written differently. */
  lemma {:induction false} NatInjective(a: nat, b: nat)
    requires OfNat(a) == OfNat(b)
    ensures a == b
    decreases a
  {
    var s, t := OfNat(a), OfNat(b);
    if a < 10 || b < 10 {
      assert |s| == 1 <==> a < 10;
      assert |t| == 1 <==> b < 10;
      DigitsDiffer(a, b);
    } else {
      assert s[..|s| - 1] == OfNat(a / 10) && t[..|t| - 1] == OfNat(b / 10);
      NatInjective(a / 10, b / 10);
      DigitsDiffer(a % 10, b % 10);
    }
  }

  lemma Sign(n: int)
    ensures Of(n) != [] && (Of(n)[0] == '-' <==> n < 0)
  {
    if n >= 0 {
      assert OfNat(n)[0] in DIGITS;
    }
  }

  lemma AfterSign(n: int)
    requires n < 0
    ensures Of(n)[1..] == OfNat(-n)
  {
  }

  lemma Injective(a: int, b: int)
    requires Of(a) == Of(b)
    ensures a == b
  {
    Sign(a);
    Sign(b);
    if a < 0 {
      AfterSign(a);
      AfterSign(b);
      NatInjective(-a, -b);
    } else {
      NatInjective(a, b);
    }
  }
}
