/** round() to a number of decimals, on exact values: nearest, ties to even. */
module Rounding {

  function ToInt(x: real): (n: int)
    ensures n as real - 0.5 <= x <= n as real + 0.5
    ensures x == n as real - 0.5 || x == n as real + 0.5 ==> n % 2 == 0
  {
    var below := x.Floor;
    var part := x - below as real;
    if part < 0.5 then below
    else if part > 0.5 then below + 1
    else if below % 2 == 0 then below else below + 1
  }

  lemma ToIntMonotone(x: real, y: real)
    requires x <= y
    ensures ToInt(x) <= ToInt(y)
  {
    if x.Floor < y.Floor {
      assert x.Floor + 1 <= y.Floor;
    }
  }

  /** Round to multiples of 1 / scale: 100 for two decimals, 1000 for three. */
  function Round(x: real, scale: real): real
    requires scale > 0.0
  {
    ToInt(x * scale) as real / scale
  }

  /** The multiple nearest to the value, and on a tie the even one: what ToInt promises, scaled. */
  lemma RoundIs(x: real, scale: real)
    requires scale > 0.0
    ensures Round(x, scale) * scale == ToInt(x * scale) as real
  {
    hide ToInt;
    Back(ToInt(x * scale) as real, scale);
  }

  lemma Back(y: real, scale: real)
    requires scale > 0.0
    ensures y / scale * scale == y
  {
  }

  lemma RoundMonotone(x: real, y: real, scale: real)
    requires scale > 0.0 && x <= y
    ensures Round(x, scale) <= Round(y, scale)
  {
    hide ToInt;
    MulMonotone(x, y, scale);
    ToIntMonotone(x * scale, y * scale);
    DivMonotone(ToInt(x * scale) as real, ToInt(y * scale) as real, scale);
  }

  lemma MulMonotone(a: real, b: real, s: real)
    requires a <= b && s > 0.0
    ensures a * s <= b * s
  {
    assert b * s - a * s == (b - a) * s;
  }

  lemma DivMonotone(a: real, b: real, s: real)
    requires a <= b && s > 0.0
    ensures a / s <= b / s
  {
    assert b / s - a / s == (b - a) / s;
  }

  lemma RoundNonNegative(x: real, scale: real)
    requires scale > 0.0 && x >= 0.0
    ensures Round(x, scale) >= 0.0
  {
    RoundMonotone(0.0, x, scale);
    assert 0.0 * scale == 0.0 && ToInt(0.0) == 0;
    assert Round(0.0, scale) == 0.0;
  }
}
