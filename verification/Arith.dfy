/** Division facts used where a width is a parameter and not a literal. */
module Arith {

  lemma MulGe(k: int, d: int)
    requires k >= 1 && d > 0
    ensures k * d >= d
  {
    assert k * d == (k - 1) * d + d;
    assert (k - 1) * d >= 0;
  }

  lemma MulMono(a: int, b: int, d: int)
    requires a <= b && d >= 0
    ensures a * d <= b * d
  {
    assert b * d - a * d == (b - a) * d;
  }

  // Quotient and remainder are unique.
  lemma DivModUnique(q: int, a: int, b: int, d: int)
    requires d > 0 && q == a * d + b && 0 <= b < d
    ensures q / d == a && q % d == b
  {
    var a', b' := q / d, q % d;
    assert q == a' * d + b';
    assert (a - a') * d == b' - b;
    if a - a' >= 1 {
      MulGe(a - a', d);
    } else if a - a' <= -1 {
      MulGe(a' - a, d);
    }
  }
}
