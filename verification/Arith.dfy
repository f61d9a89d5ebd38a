/** Facts about products, quotients and remainders that the solver does not find by itself. */
module Arith {

  lemma MulLe(a: nat, b: nat, n: nat)
    requires a <= b
    ensures n * a <= n * b
  {
  }

  /** The quotient and the remainder of a division are the only pair of their kind. */
  lemma DivModUnique(a: nat, n: nat, q: nat, r: nat)
    requires n > 0 && r < n && a == n * q + r
    ensures a / n == q && a % n == r
  {
    var p := a / n;
    if p > q {
      MulLe(q + 1, p, n);
    } else if p < q {
      MulLe(p + 1, q, n);
    }
  }
}
