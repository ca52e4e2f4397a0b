/** Division with remainder by a variable divisor. */
module Modular {

  lemma Distribute(k: int, a: int, q: int)
    ensures k * (a - q) == k * a - k * q
  {
  }

  lemma LargeMultiple(k: int, d: int)
    requires k > 0
    ensures d >= 1 ==> k * d >= k
    ensures d <= -1 ==> k * d <= -k
  {
  }

  lemma QuotientIsUnique(k: int, q: int, r: int, q': int, r': int)
    requires k > 0 && 0 <= r < k && 0 <= r' < k
    requires k * q + r == k * q' + r'
    ensures q == q' && r == r'
  {
    Distribute(k, q, q');
    LargeMultiple(k, q - q');
  }

  lemma Remainder(z: int, k: int, q: int, r: int)
    requires k > 0 && 0 <= r < k && z == k * q + r
    ensures z / k == q && z % k == r
  {
    QuotientIsUnique(k, z / k, z % k, q, r);
  }

  predicate Divides(k: int, n: int)
    requires k > 0
  {
    n % k == 0
  }

  /** The distance from `a` up to the next multiple of `k`, as the cron expressions compute it. */
  lemma DistanceToMultiple(a: nat, k: int)
    requires k > 0
    ensures 0 <= (k - a) % k < k
    ensures Divides(k, a + (k - a) % k)
    ensures forall b :: a <= b < a + (k - a) % k ==> !Divides(k, b)
  {
    var q, r := a / k, a % k;
    assert a == k * q + r;
    if r == 0 {
      assert k - a == k * (1 - q) by { Distribute(k, 1, q); }
      Remainder(k - a, k, 1 - q, 0);
    } else {
      assert k - a == k * (0 - q) + (k - r) by { Distribute(k, 0, q); }
      Remainder(k - a, k, 0 - q, k - r);
      assert a + (k - r) == k * (q + 1) by { Distribute(k, q, -1); }
      Remainder(a + (k - r), k, q + 1, 0);
    }
    forall b | a <= b < a + (k - a) % k
      ensures !Divides(k, b)
    {
      Remainder(b, k, q, b - k * q);
    }
  }
}
