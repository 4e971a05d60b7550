/** Decimal numerals, as `std::to_string` and `printf` write them. */
module Decimal {
  import opened Bytes

  predicate IsDigit(b: byte) { 48 <= b <= 57 }

  function Digit(n: nat): byte
    requires n < 10
  {
    48 + n as byte
  }

  function Digits(n: nat): (t: Text)
    ensures t != [] && forall i :: 0 <= i < |t| ==> IsDigit(t[i])
  {
    if n < 10 then [Digit(n)] else Digits(n / 10) + [Digit(n % 10)]
  }

  /** The number a run of digits denotes. */
  function Value(t: Text): nat
    requires forall i :: 0 <= i < |t| ==> IsDigit(t[i])
  {
    if t == [] then 0
    else
      var last := t[|t| - 1];
      assert IsDigit(last);
      10 * Value(t[..|t| - 1]) + (last as nat - 48)
  }

  lemma {:induction false} ValueOfDigits(n: nat)
    ensures Value(Digits(n)) == n
    decreases n
  {
    if n >= 10 {
      ValueOfDigits(n / 10);
      assert Digits(n)[..|Digits(n)| - 1] == Digits(n / 10);
    }
  }

  lemma DigitsInjective(m: nat, n: nat)
    requires Digits(m) == Digits(n)
    ensures m == n
  {
    ValueOfDigits(m);
    ValueOfDigits(n);
  }
}
