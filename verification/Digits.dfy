/** Numerals in base 2 to 16, most significant digit first. */
module Digits {
  /** The number a numeral writes, read left to right. */
  function ValueOf(digits: seq<nat>, base: nat): nat {
    if digits == [] then 0 else ValueOf(digits[..|digits| - 1], base) * base + digits[|digits| - 1]
  }

  lemma Splits(n: nat, base: nat)
    requires base >= 2
    ensures n / base * base + n % base == n && n % base < base
    ensures n >= base ==> n / base < n
  {
  }

  /** A number's shortest numeral; "0" for zero. */
  function NumeralOf(n: nat, base: nat): (r: seq<nat>)
    requires base >= 2
    ensures r != [] && forall i :: 0 <= i < |r| ==> r[i] < base
    decreases n
  {
    Splits(n, base);
    if n < base then [n] else NumeralOf(n / base, base) + [n % base]
  }

  lemma LastDigit(front: seq<nat>, digit: nat, base: nat)
    ensures ValueOf(front + [digit], base) == ValueOf(front, base) * base + digit
  {
    assert (front + [digit])[..|front|] == front;
  }

  /** Reading a number's numeral gives the number back. */
  lemma {:induction false} ReadsBack(n: nat, base: nat)
    requires base >= 2
    ensures ValueOf(NumeralOf(n, base), base) == n
    decreases n
  {
    Splits(n, base);
    if n < base {
      LastDigit([], n, base);
      assert [] + [n] == [n];
    } else {
      ReadsBack(n / base, base);
      LastDigit(NumeralOf(n / base, base), n % base, base);
    }
  }
}
