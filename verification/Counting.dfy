/** Integer division and finite index sets. */
module Counting {
  lemma MulMonotone(d: nat, x: int, y: int)
    requires x <= y
    ensures d * x <= d * y
  {
  }

  lemma DivMonotone(a: nat, b: nat, d: nat)
    requires a <= b && d > 0
    ensures 0 <= a / d <= b / d
  {
    var p, q := a / d, b / d;
    if p > q {
      MulMonotone(d, q + 1, p);
    }
  }

  lemma DivBelow(a: nat, q: nat, d: nat)
    requires d > 0 && a <= q * d
    ensures a / d <= q
  {
    var p := a / d;
    if p > q {
      MulMonotone(d, q + 1, p);
    }
  }

  lemma DivShare(a: nat, d: nat)
    requires d > 0
    ensures d * (a / d) <= a < d * (a / d + 1)
  {
  }

  lemma DivExact(q: nat, d: nat)
    requires d > 0
    ensures d * q / d == q
  {
    var p := d * q / d;
    DivShare(d * q, d);
    if p < q {
      MulMonotone(d, p + 1, q);
    } else if q < p {
      MulMonotone(d, q + 1, p);
    }
  }

  lemma SubsetSize<T>(a: set<T>, b: set<T>)
    requires a <= b
    ensures |a| <= |b|
  {
    assert b == a + (b - a);
  }

  /** The set {0, ..., n - 1}. */
  function Indices(n: nat): (r: set<nat>)
    ensures |r| == n && forall i: nat :: i in r <==> i < n
  {
    if n == 0 then {} else Indices(n - 1) + {n - 1}
  }
}
