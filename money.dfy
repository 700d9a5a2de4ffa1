/** Amounts of money. The source keeps chips, stakes and payouts as numbers
    and rounds with `+(x).toFixed(2)`; here they are exact reals and that
    rounding is `Round2`. */
module Money {

  /** `y` is a whole number of cents. */
  predicate IsCents(y: real)
  {
    (y * 100.0).Floor as real == y * 100.0
  }

  /** The number of cents nearest to `m`, a tie going up. */
  function NearestCents(m: real): int
  {
    (m * 100.0 + 0.5).Floor
  }

  lemma NearestCentsBounds(m: real)
    ensures var c := NearestCents(m) as real / 100.0;
      IsCents(c) && IsCents(-c) && -0.005 <= c - m <= 0.005
  {
    var n := NearestCents(m);
    var d := n as real - m * 100.0;
    assert -0.5 < d <= 0.5;
    var c := n as real / 100.0;
    assert c - m == d / 100.0;
    assert c * 100.0 == n as real;
    assert (c * 100.0).Floor == n;
    assert (-c) * 100.0 == (-n) as real;
    assert ((-c) * 100.0).Floor == -n;
  }

  /** `+(x).toFixed(2)` on the exact value of `x`: the magnitude is rounded
      to the nearest cent, a tie going to the larger magnitude, and the sign
      is put back. */
  function Round2(x: real): (r: real)
    ensures IsCents(r)
    ensures -0.005 <= r - x <= 0.005
  {
    if x >= 0.0 then
      NearestCentsBounds(x);
      NearestCents(x) as real / 100.0
    else
      NearestCentsBounds(-x);
      -(NearestCents(-x) as real / 100.0)
  }

  /** An amount that is already a whole number of cents is left as it is. */
  lemma Round2KeepsCents(y: real)
    requires IsCents(y)
    ensures Round2(y) == y
  {
    var k := (y * 100.0).Floor;
    if y >= 0.0 {
      assert y * 100.0 + 0.5 == k as real + 0.5;
      assert NearestCents(y) == k;
    } else {
      assert -y * 100.0 + 0.5 == -(k as real) + 0.5;
      assert NearestCents(-y) == -k;
    }
  }
}
