/** Division facts used where a modulus is not a literal. */
module Arith {

  lemma MulMono(a: nat, b: nat, m: nat)
    requires a <= b
    ensures a * m <= b * m
  {
  }

  lemma DivNonNegative(x: nat, m: nat)
    requires m > 0
    ensures x / m >= 0
  {
  }

  /** A number written as q * m + r with r < m has quotient q and remainder r. */
  lemma DivModUnique(x: nat, m: nat, q: nat, r: nat)
    requires m > 0 && x == q * m + r && r < m
    ensures x / m == q && x % m == r
  {
    var q', r' := x / m, x % m;
    assert x == q' * m + r' by {
      assert x == m * q' + r';
    }
    assert (q' + 1) * m == q' * m + m && (q + 1) * m == q * m + m;
    if q' < q {
      MulMono(q' + 1, q, m);
      assert false;
    } else if q < q' {
      MulMono(q + 1, q', m);
      assert false;
    }
  }
}
