/** Facts about Euclidean division on natural numbers, shared by the board and puzzle models. */
module Arith {

  /** Quotient and remainder are the only ones: `x == q L + r` with `0 <= r < L`. */
  lemma DivModUnique(x: nat, L: nat, q: nat, r: nat)
    requires 0 <= r < L && x == q * L + r
    ensures x / L == q && x % L == r
  {
    var q', r' := x / L, x % L;
    assert x == q' * L + r';
    MulStep(q, q', L);
    MulStep(q', q, L);
  }

  /** A larger factor gives a product at least one `L` larger. */
  lemma MulStep(a: nat, b: nat, L: nat)
    ensures a < b ==> a * L + L <= b * L
  {
    if a < b {
      var d := b - a;
      assert b * L == a * L + d * L;
    }
  }

  /** Adding one divisor leaves the remainder as it is. */
  lemma ModShift(y: nat, L: nat)
    requires L >= 1
    ensures (y + L) % L == y % L && (y + L) / L == y / L + 1
  {
    DivModUnique(y + L, L, y / L + 1, y % L);
  }
}
