/**
 * The world-to-pixel transform of the map renderer and the radii it draws
 * pearls with. JavaScript computes these in floating point and rounds with
 * `Math.round`; here the quotient is the exact rational and the rounding is
 * half-up, which `Math.round` does.
 */
module Geometry {
  import opened Models

  /** `MAP_DATA`: world range [-160, 160] onto the pixel rectangle (51, 59)-(945, 898). */
  const MAP_DATA: MapData := MapData(
    -160, 160, 320,
    Rect(51, 59, 945, 898),
    945 - 51, 898 - 59)

  /** `Math.round(n / d)` for a positive `d`: the nearest integer, halves going up. */
  function RoundDiv(n: int, d: int): (r: int)
    requires d > 0
    ensures 2 * d * r <= 2 * n + d < 2 * d * r + 2 * d
  {
    (2 * n + d) / (2 * d)
  }

  /**
   * One axis of `worldToPixel`:
   * `round(origin + ((v - worldMin) / worldSpan) * (size - 1))`.
   * The result is the integer nearest the exact mapped value.
   */
  function AxisToPixel(v: int, worldMin: int, worldSpan: int, origin: int, size: int): (p: int)
    requires worldSpan > 0
    ensures 2 * worldSpan * p <= 2 * (origin * worldSpan + (v - worldMin) * (size - 1)) + worldSpan
    ensures 2 * (origin * worldSpan + (v - worldMin) * (size - 1)) + worldSpan < 2 * worldSpan * (p + 1)
  {
    RoundDiv(origin * worldSpan + (v - worldMin) * (size - 1), worldSpan)
  }

  /** `worldToPixel(px, py, mapData)`: pixel x from world x, pixel y from world y. */
  function WorldToPixel(px: int, py: int, m: MapData): (r: (int, int))
    requires m.worldSpan > 0
    ensures 2 * m.worldSpan * r.0 <= 2 * (m.interior.x0 * m.worldSpan + (px - m.worldMin) * (m.interiorWidth - 1)) + m.worldSpan
              < 2 * m.worldSpan * (r.0 + 1)
    ensures 2 * m.worldSpan * r.1 <= 2 * (m.interior.y0 * m.worldSpan + (py - m.worldMin) * (m.interiorHeight - 1)) + m.worldSpan
              < 2 * m.worldSpan * (r.1 + 1)
  {
    (AxisToPixel(px, m.worldMin, m.worldSpan, m.interior.x0, m.interiorWidth),
     AxisToPixel(py, m.worldMin, m.worldSpan, m.interior.y0, m.interiorHeight))
  }

  /** The constants of `MAP_DATA` are consistent with one another. */
  lemma MapDataConsistent()
    ensures MAP_DATA.worldSpan == MAP_DATA.worldMax - MAP_DATA.worldMin
    ensures MAP_DATA.interiorWidth == MAP_DATA.interior.x1 - MAP_DATA.interior.x0 == 894
    ensures MAP_DATA.interiorHeight == MAP_DATA.interior.y1 - MAP_DATA.interior.y0 == 839
  {
  }

  /* ---------------------------------------------------------------- */

  /** The sign of a product with a positive factor is the sign of the other factor. */
  lemma MulSign(k: int, d: int)
    requires d > 0
    ensures k * d < 0 <==> k < 0
    ensures k * d > 0 <==> k > 0
  {
  }

  lemma DivExact(a: int, d: int, q: int, r: int)
    requires d > 0 && 0 <= r < d && a == q * d + r
    ensures a / d == q
  {
    var q', r' := a / d, a % d;
    assert (q - q') * d == r' - r;
    assert (q - q' - 1) * d == r' - r - d;
    assert (q - q' + 1) * d == r' - r + d;
    MulSign(q - q' - 1, d);
    MulSign(q - q' + 1, d);
  }

  lemma MulMonotone(a: int, b: int, c: int)
    requires a <= b && c >= 0
    ensures a * c <= b * c
  {
    assert b * c - a * c == (b - a) * c;
    assert (b - a) * c >= 0;
  }

  lemma DivMonotone(a: int, b: int, d: int)
    requires a <= b && d > 0
    ensures a / d <= b / d
  {
    var qa, qb := a / d, b / d;
    assert (qa - qb - 1) * d == a - b - a % d + b % d - d;
    MulSign(qa - qb - 1, d);
  }

  /** The world minimum lands on the origin of the interior, on any axis. */
  lemma AxisMinimum(worldMin: int, worldSpan: int, origin: int, size: int)
    requires worldSpan > 0
    ensures AxisToPixel(worldMin, worldMin, worldSpan, origin, size) == origin
  {
    var n := origin * worldSpan + (worldMin - worldMin) * (size - 1);
    assert n == origin * worldSpan;
    DivExact(2 * n + worldSpan, 2 * worldSpan, origin, worldSpan);
  }

  /** The world maximum lands `size - 1` pixels past the origin, not `size`. */
  lemma AxisMaximum(worldMin: int, worldSpan: int, origin: int, size: int)
    requires worldSpan > 0
    ensures AxisToPixel(worldMin + worldSpan, worldMin, worldSpan, origin, size) == origin + size - 1
  {
    var n := origin * worldSpan + (worldMin + worldSpan - worldMin) * (size - 1);
    assert n == (origin + size - 1) * worldSpan;
    DivExact(2 * n + worldSpan, 2 * worldSpan, origin + size - 1, worldSpan);
  }

  /** Each axis is non-decreasing in its world coordinate. */
  lemma AxisMonotone(v1: int, v2: int, worldMin: int, worldSpan: int, origin: int, size: int)
    requires worldSpan > 0 && size >= 1 && v1 <= v2
    ensures AxisToPixel(v1, worldMin, worldSpan, origin, size)
         <= AxisToPixel(v2, worldMin, worldSpan, origin, size)
  {
    MulMonotone(v1 - worldMin, v2 - worldMin, size - 1);
    var n1 := origin * worldSpan + (v1 - worldMin) * (size - 1);
    var n2 := origin * worldSpan + (v2 - worldMin) * (size - 1);
    DivMonotone(2 * n1 + worldSpan, 2 * n2 + worldSpan, 2 * worldSpan);
  }

  /** Every world coordinate in range lands on a pixel of the interior, edges included. */
  lemma AxisInRange(v: int, worldMin: int, worldSpan: int, origin: int, size: int)
    requires worldSpan > 0 && size >= 1 && worldMin <= v <= worldMin + worldSpan
    ensures origin <= AxisToPixel(v, worldMin, worldSpan, origin, size) <= origin + size - 1
  {
    AxisMinimum(worldMin, worldSpan, origin, size);
    AxisMaximum(worldMin, worldSpan, origin, size);
    AxisMonotone(worldMin, v, worldMin, worldSpan, origin, size);
    AxisMonotone(v, worldMin + worldSpan, worldMin, worldSpan, origin, size);
  }

  /** `worldToPixel(-160, -160) = (51, 59)`: the world minimum is the interior's top-left corner. */
  lemma WorldMinimumCorner()
    ensures WorldToPixel(-160, -160, MAP_DATA) == (51, 59)
  {
    AxisMinimum(-160, 320, 51, 894);
    AxisMinimum(-160, 320, 59, 839);
  }

  /** `worldToPixel(160, 160) = (944, 897)`, one pixel short of `interior.x1` and `interior.y1`. */
  lemma WorldMaximumCorner()
    ensures WorldToPixel(160, 160, MAP_DATA) == (944, 897)
  {
    AxisMaximum(-160, 320, 51, 894);
    AxisMaximum(-160, 320, 59, 839);
  }

  /** Every world point of [-160, 160]² lands in [51, 944] × [59, 897]. */
  lemma WorldPointsLandInside(px: int, py: int)
    requires -160 <= px <= 160 && -160 <= py <= 160
    ensures 51 <= WorldToPixel(px, py, MAP_DATA).0 <= 944
    ensures 59 <= WorldToPixel(px, py, MAP_DATA).1 <= 897
  {
    AxisInRange(px, -160, 320, 51, 894);
    AxisInRange(py, -160, 320, 59, 839);
  }

  /**
   * The pixel x depends on the world x alone and the pixel y on the world y
   * alone, and each is non-decreasing in its input.
   */
  lemma WorldToPixelSeparableAndMonotone(x1: int, x2: int, y1: int, y2: int, m: MapData)
    requires m.worldSpan > 0 && m.interiorWidth >= 1 && m.interiorHeight >= 1
    requires x1 <= x2 && y1 <= y2
    ensures WorldToPixel(x1, y1, m).0 == WorldToPixel(x1, y2, m).0
    ensures WorldToPixel(x1, y1, m).1 == WorldToPixel(x2, y1, m).1
    ensures WorldToPixel(x1, y1, m).0 <= WorldToPixel(x2, y1, m).0
    ensures WorldToPixel(x1, y1, m).1 <= WorldToPixel(x1, y2, m).1
  {
    AxisMonotone(x1, x2, m.worldMin, m.worldSpan, m.interior.x0, m.interiorWidth);
    AxisMonotone(y1, y2, m.worldMin, m.worldSpan, m.interior.y0, m.interiorHeight);
  }

  /* ---------------------------------------------------------------- */

  function Min(a: int, b: int): int {
    if a <= b then a else b
  }

  function Max(a: int, b: int): int {
    if a >= b then a else b
  }

  /**
   * `dotRadius = max(4, round(min(width, height) / 128))`. It scales with the
   * image, is never below 4, and is exactly the rounded scale once that is 4 or more.
   */
  function DotRadius(width: int, height: int): (r: int)
    ensures r >= 4
    ensures r >= 5 ==> 128 * r - 64 <= Min(width, height) < 128 * r + 64
    ensures Min(width, height) >= 448 ==> 128 * r - 64 <= Min(width, height) < 128 * r + 64
    ensures Min(width, height) < 576 ==> r == 4
  {
    Max(4, RoundDiv(Min(width, height), 128))
  }

  /** The border radius: two more than the dot radius. */
  function BorderRadius(dot: int): (r: int)
    ensures r - dot == 2
  {
    dot + 2
  }

  /** On a 996 × 958 base image the dots have radius 7 and the border radius 9. */
  lemma RadiiOfTestImage()
    ensures DotRadius(996, 958) == 7 && BorderRadius(DotRadius(996, 958)) == 9
  {
  }
}
