/** Facts about division and concatenation that the other modules call by name. */
module Arith {

  lemma QuotientIs(n: nat, d: nat, q: nat, r: nat)
    requires n == d * q + r && r < d
    ensures n / d == q
  {
    var e := n / d - q;
    assert d * e == r - n % d by {
      assert n == d * (n / d) + n % d;
      assert d * (n / d) == d * q + d * e;
    }
    MulBounds(d, e);
  }

  lemma MulBounds(d: int, e: int)
    requires d > 0
    ensures e >= 1 ==> d * e >= d
    ensures e <= -1 ==> d * e <= -d
  {
    if e >= 1 {
      assert d * e == d * (e - 1) + d;
    } else if e <= -1 {
      assert d * e == -(d * (-e - 1) + d);
    }
  }

  lemma Spread(k: nat, q: nat, r: nat)
    requires r < 256
    ensures k * (256 * q + r) == (k * 256) * q + k * r
    ensures 0 <= k * r <= k * 255
  {
    assert k * (255 - r) >= 0;
    assert k * 255 == k * (255 - r) + k * r;
    assert k * (256 * q + r) == k * (256 * q) + k * r;
  }

  lemma DivDiv(n: nat, k: nat)
    requires k > 0
    ensures n / k / 256 == n / (k * 256)
  {
    var q, r := n / k, n % k;
    var q', r' := q / 256, q % 256;
    Spread(k, q', r');
    QuotientIs(n, k * 256, q', k * r' + r);
  }

  lemma WrapAdd(x: nat, y: nat, range: nat)
    requires range > 0
    ensures (x % range + y) % range == (x + y) % range
  {
    var s := x % range + y;
    assert x + y == range * (s / range + x / range) + s % range by {
      assert x == range * (x / range) + x % range;
      assert s == range * (s / range) + s % range;
      assert range * (s / range + x / range) == range * (s / range) + range * (x / range);
    }
    QuotientIs(x + y, range, s / range + x / range, s % range);
  }

  lemma Regroup<T>(a: seq<T>, b: seq<T>, c: seq<T>, d: seq<T>, e: seq<T>)
    ensures (a + b) + c + d + e == a + (b + c + d + e)
  {
  }

  lemma RegroupTwo<T>(a: seq<T>, b: seq<T>, c: seq<T>, d: seq<T>, d': seq<T>, e: seq<T>)
    ensures (a + b) + c + (d + d') + e == a + (b + c + d) + (d' + e)
  {
  }
}
