/**
 * The pure progress helpers of the widget: `Int.inverse`, `Float.maxScale`
 * and `Float.divideScale`. They split one overall progress value into `n`
 * staggered segments, each of which ramps from 0 to 1 while the overall
 * value crosses its own `1/n`-wide slice. Floats are modelled as reals.
 */
module Easing {

  /** The number of segments the drawing code uses (`parts`). */
  const Parts := 4

  function Min(a: real, b: real): real { if a <= b then a else b }
  function Max(a: real, b: real): real { if a >= b then a else b }

  /** `Int.inverse`: the reciprocal of a non-zero integer. */
  function Inverse(n: int): (r: real)
    requires n != 0
    ensures r * (n as real) == 1.0
  {
    1.0 / (n as real)
  }

  /** `Float.maxScale`: how far `x` lies past the start `i/n` of segment `i`, never negative. */
  function MaxScale(x: real, i: int, n: int): (r: real)
    requires n != 0
    ensures r >= 0.0 && r >= x - (i as real) / (n as real)
    ensures r == 0.0 || r == x - (i as real) / (n as real)
  {
    Max(0.0, x - (i as real) * Inverse(n))
  }

  /**
   * `Float.divideScale`: the progress of segment `i` of `n`, scaled back to a
   * whole unit. For a positive `n` it stays in [0, 1], is 0 before the slice
   * `[i/n, (i+1)/n]`, 1 after it, and ramps linearly inside it.
   */
  function DivideScale(x: real, i: int, n: int): (r: real)
    requires n != 0
    ensures n > 0 ==> 0.0 <= r <= 1.0
    ensures n > 0 && x <= (i as real) / (n as real) ==> r == 0.0
    ensures n > 0 && x >= ((i + 1) as real) / (n as real) ==> r == 1.0
    ensures n > 0 && (i as real) / (n as real) <= x <= ((i + 1) as real) / (n as real) ==>
              r == (x - (i as real) / (n as real)) * (n as real)
  {
    var lo := Min(Inverse(n), MaxScale(x, i, n));
    if n > 0 then SliceCases(x, i, n); lo * (n as real) else lo * (n as real)
  }

  /**
   * The three regions of slice `i` of `n`, for the progress clipped to the
   * slice and shifted to start at 0.
   */
  lemma SliceCases(x: real, i: int, n: int)
    requires n > 0
    ensures var lo := Min(Inverse(n), MaxScale(x, i, n));
            0.0 <= lo * (n as real) <= 1.0 &&
            (x <= (i as real) / (n as real) ==> lo == 0.0) &&
            (x >= ((i + 1) as real) / (n as real) ==> lo * (n as real) == 1.0) &&
            ((i as real) / (n as real) <= x <= ((i + 1) as real) / (n as real) ==>
               lo == x - (i as real) / (n as real))
  {
    var lo := Min(Inverse(n), MaxScale(x, i, n));
    var start, width := (i as real) / (n as real), Inverse(n);
    assert width > 0.0;
    assert ((i + 1) as real) / (n as real) == start + width;
    assert 0.0 <= lo <= width;
    Scaled(lo, width, n as real);
  }

  /** Scaling by a positive factor keeps order and sign. */
  lemma Scaled(a: real, b: real, c: real)
    ensures 0.0 <= a <= b && c > 0.0 ==> 0.0 <= a * c <= b * c
  {
  }

  /** A segment never goes backwards while the overall progress grows. */
  lemma DivideScaleMonotone(x: real, y: real, i: int, n: int)
    requires n > 0 && x <= y
    ensures DivideScale(x, i, n) <= DivideScale(y, i, n)
  {
    var start, end := (i as real) / (n as real), ((i + 1) as real) / (n as real);
    if x <= start {
      assert DivideScale(x, i, n) == 0.0;
    } else if y >= end {
      assert DivideScale(y, i, n) == 1.0;
    } else {
      var dx, dy := DivideScale(x, i, n), DivideScale(y, i, n);
      assert dy - dx == (y - x) * (n as real);
      NonNegative(y - x, n as real);
    }
  }

  lemma NonNegative(a: real, c: real)
    requires a >= 0.0 && c > 0.0
    ensures a * c >= 0.0
  {
  }

  /**
   * The segments are staggered: while the overall progress lies in slice `k`,
   * every earlier segment is complete and every later one has not started.
   */
  lemma Staggered(x: real, k: int, n: int)
    requires n > 0 && 0 <= k < n
    requires (k as real) / (n as real) <= x <= ((k + 1) as real) / (n as real)
    ensures forall j :: 0 <= j < k ==> DivideScale(x, j, n) == 1.0
    ensures forall j :: k < j < n ==> DivideScale(x, j, n) == 0.0
  {
    forall j | 0 <= j < k
      ensures DivideScale(x, j, n) == 1.0
    {
      assert ((j + 1) as real) / (n as real) <= (k as real) / (n as real);
    }
    forall j | k < j < n
      ensures DivideScale(x, j, n) == 0.0
    {
      assert ((k + 1) as real) / (n as real) <= (j as real) / (n as real);
    }
  }

  /**
   * The four drawing phases: while the value `sf` the drawing code cuts into
   * `Parts` segments lies in quarter `k`, the segments `sf1 .. sf4` are
   * complete before `k`, not yet started after it, and segment `k` itself
   * ramps across its quarter.
   */
  lemma DrawPhases(x: real, k: int)
    requires 0 <= k < Parts
    requires (k as real) / (Parts as real) <= x <= ((k + 1) as real) / (Parts as real)
    ensures forall j :: 0 <= j < Parts ==>
              DivideScale(x, j, Parts) ==
                if j < k then 1.0
                else if j > k then 0.0
                else (x - (k as real) / (Parts as real)) * (Parts as real)
  {
    Staggered(x, k, Parts);
  }
}
