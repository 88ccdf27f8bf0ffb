/** The arithmetic of "one full snapshot every k flushes". */
module Cadence {

  lemma Spread(k: int, p: int, q: int)
    requires k > 0
    ensures k * p - k * q == k * (p - q)
    ensures p - q >= 1 ==> k * (p - q) >= k
    ensures p - q <= -1 ==> k * (p - q) <= -k
  {
  }

  lemma QuotientUnique(k: int, p: int, s: int, q: int, r: int)
    requires k > 0 && 0 <= s < k && 0 <= r < k && k * p + s == k * q + r
    ensures p == q && s == r
  {
    Spread(k, p, q);
    var kp, kq, kd := k * p, k * q, k * (p - q);
    assert kd == r - s;
  }

  lemma DivModUnique(n: int, k: int, q: int, r: int)
    requires k > 0 && n == k * q + r && 0 <= r < k
    ensures n / k == q && n % k == r
  {
    QuotientUnique(k, n / k, n % k, q, r);
  }

  lemma ModStep(n: nat, k: int)
    requires k > 0 && n % k != 0
    ensures n > 0 && (n - 1) % k + 1 == n % k
  {
    DivModUnique(n - 1, k, n / k, n % k - 1);
  }

  /** The number of full snapshots among the first `n` flushes goes up exactly on a full turn. */
  lemma CeilStep(n: nat, k: int)
    requires k > 0
    ensures (n + 1 + k - 1) / k == (n + k - 1) / k + (if n % k == 0 then 1 else 0)
  {
    var q, r := n / k, n % k;
    assert n + k == k * (q + 1) + r;
    DivModUnique(n + k, k, q + 1, r);
    if r == 0 {
      assert n + k - 1 == k * q + (k - 1);
      DivModUnique(n + k - 1, k, q, k - 1);
    } else {
      DivModUnique(n + k - 1, k, q + 1, r - 1);
    }
  }

  lemma CeilOfNothing(k: int)
    requires k > 0
    ensures (k - 1) / k == 0
  {
    DivModUnique(k - 1, k, 0, k - 1);
  }
}
