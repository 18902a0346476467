/** Facts about integer multiplication and division used by the scan and the report. */
module Arithmetic {

  lemma MulDistributes(a: int, b: int, w: int)
    ensures a * w - b * w == (a - b) * w
  {
  }

  lemma MulAtLeast(a: int, w: int)
    requires a >= 1 && w >= 0
    ensures a * w >= w
  {
  }

  lemma MulMonotone(a: int, b: int, w: int)
    requires a <= b && w >= 0
    ensures a * w <= b * w
  {
    MulDistributes(b, a, w);
  }

  /** Quotient and remainder are the only such pair. */
  lemma DivModUnique(x: int, w: int, q: int, r: int)
    requires w >= 1 && x == q * w + r && 0 <= r < w
    ensures q == x / w && r == x % w
  {
    var q', r' := x / w, x % w;
    assert x == q' * w + r' && 0 <= r' < w;
    if q < q' {
      MulDistributes(q', q, w);
      MulAtLeast(q' - q, w);
      assert false;
    } else if q' < q {
      MulDistributes(q, q', w);
      MulAtLeast(q - q', w);
      assert false;
    }
  }

  lemma DivMonotone(x: nat, y: nat, d: nat)
    requires d >= 1 && x <= y
    ensures x / d <= y / d
  {
    var qx, qy := x / d, y / d;
    if qx > qy {
      MulDistributes(qx, qy, d);
      MulAtLeast(qx - qy, d);
      assert false;
    }
  }
}
