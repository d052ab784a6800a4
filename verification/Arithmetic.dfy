/** Facts about products and quotients that the other modules share. */
module Arithmetic {

  function Max(a: nat, b: nat): nat { if a > b then a else b }
  function Min(a: nat, b: nat): nat { if a < b then a else b }

  /** Division of the source language, which truncates toward zero. */
  function Quotient(a: int, b: int): int
    requires b > 0
  {
    if a >= 0 then a / b else -(-a / b)
  }

  lemma MulMonotone(a: int, b: int, c: int)
    requires a <= b && 0 <= c
    ensures a * c <= b * c
  {
  }

  lemma MulLess(a: int, b: int, c: int)
    requires a < b && 0 < c
    ensures a * c + c <= b * c
  {
    MulMonotone(a + 1, b, c);
    assert (a + 1) * c == a * c + c;
  }

  /** `x / c` is the one `q` with `q * c <= x < q * c + c`. */
  lemma QuotientUnique(x: int, c: int, q: int)
    requires 0 < c && q * c <= x < q * c + c
    ensures x / c == q && x % c == x - q * c
  {
    var p := x / c;
    assert x == p * c + x % c;
    if p < q { MulLess(p, q, c); }
    if q < p { MulLess(q, p, c); }
  }

  lemma QuotientBounds(x: int, c: int)
    requires 0 < c
    ensures x / c * c <= x < x / c * c + c
  {
  }

  lemma QuotientBetween(x: int, c: int, lo: int, hi: int)
    requires 0 < c && lo * c <= x < hi * c + c
    ensures lo <= x / c <= hi
  {
    QuotientBounds(x, c);
    if x / c < lo { MulLess(x / c, lo, c); }
    if hi < x / c { MulLess(hi, x / c, c); }
  }

  lemma QuotientMonotone(x: int, y: int, c: int)
    requires 0 < c && x <= y
    ensures x / c <= y / c
  {
    QuotientBounds(x, c);
    QuotientBounds(y, c);
    if y / c < x / c { MulLess(y / c, x / c, c); }
  }

  lemma QuotientShift(x: int, k: int, c: int)
    requires 0 < c
    ensures (x + k * c) / c == x / c + k
  {
    QuotientBounds(x, c);
    assert (x / c + k) * c == x / c * c + k * c;
    QuotientUnique(x + k * c, c, x / c + k);
  }
}
