/** Integer division facts that the solver does not find on its own. */
module Arithmetic {

  lemma {:induction false} MultipleBound(k: nat, d: nat)
    requires k > 0
    ensures k * d >= d
  {
    if k > 1 {
      MultipleBound(k - 1, d);
      assert k * d == (k - 1) * d + d;
    }
  }

  lemma DivUnique(n: int, d: nat, q: int, r: int)
    requires n == q * d + r && 0 <= r < d
    ensures n / d == q
  {
    var p, t := n / d, n % d;
    assert n == p * d + t && 0 <= t < d;
    assert (q - p) * d == q * d - p * d == t - r;
    assert (p - q) * d == r - t;
    if q > p {
      MultipleBound(q - p, d);
    } else if q < p {
      MultipleBound(p - q, d);
    }
  }
}
