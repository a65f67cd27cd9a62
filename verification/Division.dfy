/** Facts about Euclidean division by a variable divisor. */
module Division {
  lemma MulAtLeast(k: int, d: int)
    requires k > 0 && d >= 1
    ensures k * d >= k
  {
    assert k * d == k + k * (d - 1);
  }

  lemma Distribute(k: int, a: int, b: int)
    ensures k * a - k * b == k * (a - b)
  {}

  lemma Divide(n: int, k: int)
    requires k > 0
    ensures n == k * (n / k) + n % k && 0 <= n % k < k
  {}

  lemma Unique(n: int, k: int, q: int, r: int)
    requires k > 0 && n == k * q + r && 0 <= r < k
    ensures n / k == q && n % k == r
  {
    Divide(n, k);
    UniquePair(k, q, r, n / k, n % k);
  }

  lemma UniquePair(k: int, q: int, r: int, q': int, r': int)
    requires k > 0 && k * q + r == k * q' + r' && 0 <= r < k && 0 <= r' < k
    ensures q == q' && r == r'
  {
    Distribute(k, q, q');
    if q > q' { MulAtLeast(k, q - q'); }
    else if q < q' { MulAtLeast(k, q' - q); Distribute(k, q', q); }
  }

  ghost predicate IsMultiple(x: int, k: int)
    requires k > 0
  {
    x % k == 0
  }

  /** (x + mask) & ~mask for a power-of-two k = mask + 1. */
  function RoundUp(x: int, k: int): int
    requires k > 0
  {
    x + k - 1 - (x + k - 1) % k
  }

  lemma RoundUpFacts(x: int, k: int)
    requires k > 0
    ensures var r := RoundUp(x, k); x <= r <= x + k - 1 && IsMultiple(r, k) && (r == x <==> IsMultiple(x, k))
  {
    var y := x + k - 1;
    Divide(y, k);
    var r := RoundUp(x, k);
    Unique(r, k, y / k, 0);
    if x % k == 0 {
      Divide(x, k);
      Unique(y, k, x / k, k - 1);
    }
  }

  lemma RoundUpKeeps8(x: int, k: int)
    requires k > 0 && k % 8 == 0
    ensures RoundUp(x, k) % 8 == 0
  {
    var y := x + k - 1;
    Divide(y, k);
    var j := k / 8;
    assert k * (y / k) == 8 * (j * (y / k));
  }
}
