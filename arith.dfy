/** Facts about Euclidean division that the duration and batching arithmetic rely on. */
module Arith {

  lemma MulMono(a: int, b: int, d: nat)
    requires a <= b
    ensures a * d <= b * d
  {
    assert b * d - a * d == (b - a) * d;
  }

  /** On non-negative numbers, `x / d` and `x % d` are the only quotient and remainder (what `Math.floor(x / d)` and `x % d` give). */
  lemma DivModUnique(x: int, d: int, q: int, r: int)
    requires d > 0 && 0 <= r < d && x == q * d + r
    ensures x / d == q && x % d == r
  {
    var q', r' := x / d, x % d;
    assert x == q' * d + r';
    if q < q' {
      MulMono(q + 1, q', d);
    } else if q' < q {
      MulMono(q' + 1, q, d);
    }
  }

  /** Going from `k` to `k + 1` adds one to `k / d` exactly when `k + 1` is a multiple of `d`. */
  lemma DivSucc(k: nat, d: nat)
    requires d > 0
    ensures (k + 1) / d == k / d + (if (k + 1) % d == 0 then 1 else 0)
  {
    var q, r := k / d, k % d;
    if r + 1 == d {
      DivModUnique(k + 1, d, q + 1, 0);
    } else {
      DivModUnique(k + 1, d, q, r + 1);
    }
  }
}
