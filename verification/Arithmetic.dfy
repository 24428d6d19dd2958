/** Integer division by a variable divisor, where the verifier needs help. */
module Arithmetic {

  lemma MulBounds(d: int, x: int, y: int)
    requires 0 < d
    ensures x < y ==> d * x + d <= d * y
  {
    if x < y {
      var k := y - x - 1;
      assert 0 <= d * k;
      assert d * y == d * (x + 1 + k) == d * x + d + d * k;
    }
  }

  lemma DivModUnique(v: int, d: int, q: int, r: int)
    requires 0 <= r < d && v == d * q + r
    ensures v % d == r && v / d == q
  {
    var q', r' := v / d, v % d;
    assert v == d * q' + r';
    MulBounds(d, q', q);
    MulBounds(d, q, q');
  }
}
