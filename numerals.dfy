/**
 * Decimal numerals: `int(...)` on a digit string, `f"{n:02d}"`, and the
 * round-half-to-even of Python's `round` on an exact fraction.
 */
module Numerals {
  import opened Chars

  predicate AllDigits(d: string) { forall j :: 0 <= j < |d| ==> IsDigit(d[j]) }

  /** The value of a string of decimal digits; the empty string is 0. */
  function DigitsValue(d: string): nat
    requires AllDigits(d)
  {
    if d == [] then 0 else DigitsValue(d[..|d| - 1]) * 10 + (d[|d| - 1] as int - '0' as int)
  }

  function Pow10(n: nat): (p: nat)
    ensures p >= 1
  {
    if n == 0 then 1 else 10 * Pow10(n - 1)
  }

  function DigitChar(n: nat): (c: char)
    requires n < 10
    ensures IsDigit(c) && c as int - '0' as int == n
  {
    ('0' as int + n) as char
  }

  /** A string of at most `n` digits denotes a value below 10^n. */
  lemma {:induction false} DigitsValueBelow(d: string)
    requires AllDigits(d)
    ensures DigitsValue(d) < Pow10(|d|)
  {
    if d != [] {
      DigitsValueBelow(d[..|d| - 1]);
    }
  }

  /** The shortest decimal numeral of `n`, as `str(n)` prints it. */
  function ShowNat(n: nat): (r: string)
    ensures |r| >= 1 && AllDigits(r)
    ensures DigitsValue(r) == n
    ensures r[0] == '0' ==> n == 0 && |r| == 1
    ensures |r| == 1 <==> n < 10
  {
    if n < 10 then [DigitChar(n)]
    else
      var r := ShowNat(n / 10) + [DigitChar(n % 10)];
      assert r[..|r| - 1] == ShowNat(n / 10);
      r
  }

  /** `f"{n:02d}"`: the numeral of `n`, padded with zeros to at least two digits. */
  function Pad2(n: nat): (r: string)
    ensures AllDigits(r) && DigitsValue(r) == n
    ensures |r| >= 2
    ensures |r| == 2 <==> n < 100
    ensures n >= 10 ==> r[0] != '0'
  {
    if n < 10 then
      var r := ['0', DigitChar(n)];
      assert r[..1] == ['0'];
      assert DigitsValue(r[..1]) == 0 by { assert r[..1][..0] == []; }
      r
    else
      var r := ShowNat(n);
      r
  }

  /** The two odd multiples of a half around `r`, in units of `den`. */
  lemma HalfNeighbours(r: int, den: int)
    ensures (2 * r - 1) * den == 2 * (r * den) - den
    ensures (2 * r + 1) * den == 2 * (r * den) + den
  {
  }

  lemma NextMultiple(q: int, den: int)
    ensures (q + 1) * den == q * den + den
  {
  }

  /**
   * Python's `round` for the exact fraction `num / den`: the nearest integer,
   * ties going to the even neighbour.
   */
  function RoundHalfEven(num: nat, den: nat): (r: nat)
    requires den > 0
    ensures (2 * r - 1) * den <= 2 * num <= (2 * r + 1) * den
    ensures 2 * num == (2 * r - 1) * den || 2 * num == (2 * r + 1) * den ==> r % 2 == 0
  {
    var q, rem := num / den, num % den;
    assert num == q * den + rem;
    NextMultiple(q, den);
    var r := if 2 * rem > den then q + 1
      else if 2 * rem < den then q
      else if q % 2 == 0 then q
      else q + 1;
    HalfNeighbours(r, den);
    r
  }
}
