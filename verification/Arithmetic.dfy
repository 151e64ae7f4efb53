/** Facts about products and Euclidean division that the solver needs one at a time. */
module Arithmetic {

  lemma MulLe(d: int, a: int, b: int)
    requires d >= 0 && a <= b
    ensures d * a <= d * b
  {
  }

  lemma Distribute(d: int, a: int, b: int)
    ensures d * (a + b) == d * a + d * b
    ensures d * (a - b) == d * a - d * b
  {
  }

  lemma DivModUnique(x: int, d: int, q: int, r: int)
    requires d > 0 && x == d * q + r && 0 <= r < d
    ensures x / d == q && x % d == r
  {
    var q' := x / d;
    assert d * q' <= x < d * q' + d;
    Distribute(d, q', 1);
    if q' < q { MulLe(d, q' + 1, q); } else if q < q' { Distribute(d, q, 1); MulLe(d, q + 1, q'); }
  }

  lemma DivBounds(x: int, d: int)
    requires d > 0
    ensures d * (x / d) <= x < d * (x / d) + d
  {
  }

  /** A quotient lies between the bounds that its dividend keeps. */
  lemma DivRange(x: int, d: int, lo: int, hi: int)
    requires d > 0 && d * lo <= x < d * hi
    ensures lo <= x / d < hi
  {
    var q := x / d;
    DivBounds(x, d);
    if q < lo { Distribute(d, q, 1); MulLe(d, q + 1, lo); }
    if q >= hi { MulLe(d, hi, q); }
  }

  lemma DivNonNegative(x: int, d: int)
    requires d > 0 && x >= 0
    ensures x / d >= 0
  {
  }

  lemma DivDiv(x: int, a: int, b: int)
    requires a >= 1 && b >= 1
    ensures a * b >= 1
    ensures (x / a) / b == x / (a * b)
    ensures x % a + a * ((x / a) % b) == x % (a * b)
  {
    var q, r := x / a, x % a;
    var c, e := q / b, q % b;
    MulLe(a, 1, b);
    assert a * (b * c) == (a * b) * c;
    Distribute(a, b * c, e);
    MulLe(a, e + 1, b);
    Distribute(a, e, 1);
    MulLe(a, 0, e);
    DivModUnique(x, a * b, c, a * e + r);
  }
}
