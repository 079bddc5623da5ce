/** Multiplication and division by a variable. */
module Arithmetic {

  lemma MultipleGrows(d: int, n: nat)
    requires d >= 1
    ensures d * n >= n
  {
  }

  lemma SmallMultiple(d: int, n: nat, v: int)
    requires d * n == v && 0 - n < v < n
    ensures d == 0
  {
    if d >= 1 { MultipleGrows(d, n); }
    if d <= -1 { MultipleGrows(-d, n); }
  }

  /** Quotient and remainder are unique. */
  lemma DivMod(q: nat, r: nat, n: nat)
    requires r < n
    ensures (q * n + r) / n == q && (q * n + r) % n == r
  {
    var x := q * n + r;
    assert x == x / n * n + x % n;
    SmallMultiple(x / n - q, n, r - x % n);
  }

  lemma MulMonotone(a: nat, b: nat, n: nat)
    requires a <= b
    ensures a * n <= b * n
  {
  }

  /** Dividing by a product is dividing twice. */
  lemma DivDiv(x: nat, a: nat, b: nat)
    requires a > 0 && b > 0
    ensures a * b > 0 && x / (a * b) == x / a / b
  {
    var y := x / a;
    Quotient(x, a);
    Quotient(y, b);
    Nested(x, y / b, y % b, x % a, a, b);
    DivMod(y / b, y % b * a + x % a, a * b);
  }

  lemma Quotient(x: nat, a: nat)
    requires a > 0
    ensures x == x / a * a + x % a && x % a < a
  {
  }

  lemma Nested(x: nat, q: nat, r: nat, s: nat, a: nat, b: nat)
    requires x == (q * b + r) * a + s && r < b && s < a
    ensures a * b > 0 && x == q * (a * b) + (r * a + s) && r * a + s < a * b
  {
    MulMonotone(r + 1, b, a);
    assert (r + 1) * a == r * a + a;
    assert (q * b + r) * a == q * (a * b) + r * a;
  }
}
