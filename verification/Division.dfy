/**
 * Facts about rounding down that bucket edges and rounded shares both lean on. They
 * are proved from the quotient and remainder alone, with every product written out,
 * because a solver left to find them by itself is neither quick nor dependable; the
 * models then use them instead of reasoning about division where it occurs.
 */
module Division {

  lemma {:induction false} Multiples(k: int, x: int)
    requires k > 0
    ensures x >= 1 ==> k * x >= k
    ensures x <= -1 ==> k * x <= -k
  {
    assert k * x == k + k * (x - 1) && k * x == -k + k * (x + 1);
  }

  lemma {:induction false} QuotientIs(a: int, k: int, q: int, r: int)
    requires k > 0 && a == k * q + r && 0 <= r < k
    ensures a / k == q
  {
    var x := q - a / k;
    assert k * x == a % k - r;
    Multiples(k, x);
  }

  lemma {:induction false} DivideMonotone(a: int, b: int, k: int)
    requires a <= b && k > 0
    ensures a / k <= b / k
  {
    var x := a / k - b / k;
    assert k * x == (a - a % k) - (b - b % k);
    Multiples(k, x);
  }

  lemma {:induction false} DivideStep(a: int, k: int)
    requires k > 0
    ensures (a + k) / k == a / k + 1
  {
    var q, r := a / k, a % k;
    assert a + k == k * (q + 1) + r;
    QuotientIs(a + k, k, q + 1, r);
  }
}
