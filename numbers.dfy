/**
  The numbers the controller computes with. Prices are counted in cents and percentages in
  hundredths of a percent, so `Number(x.toFixed(2))` becomes rounding a rational to an integer.
*/
module Numbers {

  /** A JavaScript Number as far as the controller can produce one: minus infinity (what
      `Math.max()` of no arguments yields) or a whole number of hundredths. */
  datatype Hundredths = NegInfinity | Finite(value: int)

  /** `Number(x.toFixed(2))` for x = num / den hundredths: the nearest integer, with a tie going
      away from zero (toFixed rounds the magnitude and keeps the sign). */
  function RoundHalfAway(num: int, den: int): (n: int)
    requires den > 0
    ensures -den <= 2 * (n * den - num) <= den
    ensures 2 * (n * den - num) == den ==> num >= 0
    ensures 2 * (n * den - num) == -den ==> num < 0
  {
    if num >= 0 then
      var q := (2 * num + den) / (2 * den);
      DivBounds(2 * num + den, 2 * den);
      q
    else
      var q := (2 * (-num) + den) / (2 * den);
      DivBounds(2 * (-num) + den, 2 * den);
      -q
  }

  /** Euclidean division brackets its dividend. */
  lemma DivBounds(a: int, b: int)
    requires a >= 0 && b > 0
    ensures b * (a / b) <= a < b * (a / b) + b
  {
  }

  /** a <= b survives scaling by a positive factor, both ways. */
  lemma ScaleMonotone(a: int, b: int, f: int)
    requires f > 0
    ensures a <= b <==> a * f <= b * f
  {
    if a <= b {
      assert b * f - a * f == (b - a) * f;
    } else {
      assert a * f - b * f == (a - b) * f;
    }
  }

  /** Comparing a rounded quotient with an integer t compares the exact quotient with
      t + 1/2, a tie counting as above when it is not negative. */
  lemma RoundedAbove(num: int, den: int, t: int)
    requires den > 0
    ensures RoundHalfAway(num, den) > t <==>
      2 * num > (2 * t + 1) * den || (2 * num == (2 * t + 1) * den && t >= 0)
  {
    var n := RoundHalfAway(num, den);
    var bar := (2 * t + 1) * den;
    assert bar == 2 * (t * den) + den;
    if n > t {
      ScaleMonotone(t + 1, n, den);
      assert (t + 1) * den == t * den + den;
      assert 2 * num >= bar;
      if 2 * num == bar && t < 0 {
        ScaleMonotone(n, t + 1, den);
        assert 2 * (n * den - num) == den;
        ScaleMonotone(2 * t + 1, -1, den);
      }
    } else {
      ScaleMonotone(n, t, den);
      assert 2 * num <= bar;
      if 2 * num == bar && t >= 0 {
        ScaleMonotone(t, n, den);
        assert 2 * (n * den - num) == -den;
        ScaleMonotone(0, 2 * t + 1, den);
      }
    }
  }
}
