/** Quotients and remainders by a variable, in the small steps the solver can take. */
module DivMod {

  lemma MulMonotone(n: nat, a: nat, b: nat)
    ensures a <= b ==> n * a <= n * b
  {
  }

  lemma QuotientUnique(x: nat, q: nat, r: nat, n: nat)
    requires n > 0 && x == n * q + r && r < n
    ensures x % n == r && x / n == q
  {
    var q', r' := x / n, x % n;
    assert x == n * q' + r';
    MulMonotone(n, q' + 1, q);
    MulMonotone(n, q + 1, q');
  }

  /** Adding to a number of known remainder wraps at most once. */
  lemma ModAdd(x: nat, d: nat, n: nat)
    requires n > 0 && d <= n
    ensures (x + d) % n == if x % n + d < n then x % n + d else x % n + d - n
  {
    var q, r := x / n, x % n;
    assert x == n * q + r;
    if r + d < n {
      QuotientUnique(x + d, q, r + d, n);
    } else if r + d < 2 * n {
      assert x + d == n * (q + 1) + (r + d - n);
      QuotientUnique(x + d, q + 1, r + d - n, n);
    }
  }
}
