/** Decimal digits and the number they spell. */
module Decimals {

  type Digit = d: nat | d < 10

  function Val(ds: seq<Digit>): nat {
    if ds == [] then 0 else 10 * Val(ds[..|ds| - 1]) + ds[|ds| - 1]
  }

  /** The digits of a number, without leading zeros. */
  function DigitsOf(n: nat): (ds: seq<Digit>)
    ensures |ds| >= 1
    ensures n > 0 ==> ds[0] != 0
  {
    if n < 10 then [n] else DigitsOf(n / 10) + [n % 10]
  }

  lemma {:induction false} ValDigits(n: nat)
    ensures Val(DigitsOf(n)) == n
  {
    if n < 10 {
      assert [n][..0] == [];
    } else {
      ValDigits(n / 10);
      assert DigitsOf(n)[..|DigitsOf(n)| - 1] == DigitsOf(n / 10);
    }
  }
}
