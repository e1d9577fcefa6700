/**
 * The hard-edged disk rasteriser and what a sequence of pearl markers leaves
 * at each pixel. The image is an in-place pixel buffer; pixels that a disk
 * would put outside it are skipped.
 */
module Raster {
  import opened PearlColors

  /**
   * The offset (dx, dy) from a centre is painted by a disk of radius `r`: it
   * lies in the square the loops visit and within distance `r`.
   */
  predicate InDisk(dx: int, dy: int, r: int) {
    -r <= dx <= r && -r <= dy <= r && dx * dx + dy * dy <= r * r
  }

  /** The offset is painted by the ring between radii `inner` (excluded) and `outer` (included). */
  predicate InRing(dx: int, dy: int, inner: int, outer: int) {
    -outer <= dx <= outer && -outer <= dy <= outer
    && dx * dx + dy * dy <= outer * outer && dx * dx + dy * dy > inner * inner
  }

  /** For a non-negative radius the square adds nothing: the disk is exactly `dx² + dy² ≤ r²`. */
  lemma DiskByDistance(dx: int, dy: int, r: int)
    requires r >= 0
    ensures InDisk(dx, dy, r) <==> dx * dx + dy * dy <= r * r
  {
    SquareBound(dx, r);
    SquareBound(dy, r);
  }

  /** A square no larger than `r²` comes from a value within `[-r, r]`. */
  lemma SquareBound(a: int, r: int)
    requires r >= 0
    ensures a * a >= 0
    ensures a * a <= r * r ==> -r <= a <= r
  {
    if a > r {
      MulStrict(a, r);
    } else if a < -r {
      MulStrict(-a, r);
    }
  }

  lemma MulStrict(a: int, r: int)
    requires a > r >= 0
    ensures a * a > r * r
  {
    assert a * a - r * r == (a - r) * (a + r);
    assert (a - r) * (a + r) > 0 by { assert a - r > 0 && a + r > 0; }
  }

  lemma SquaresOrdered(r: int, s: int)
    requires 0 <= r <= s
    ensures r * r <= s * s
  {
    assert s * s - r * r == (s - r) * (s + r);
  }

  /** A disk lies inside every larger one. */
  lemma DiskGrows(dx: int, dy: int, r: int, s: int)
    requires r <= s
    ensures InDisk(dx, dy, r) ==> InDisk(dx, dy, s)
  {
    if r >= 0 {
      SquaresOrdered(r, s);
    }
  }

  /** A pixel as a disk writing the value `v` leaves it: `v` inside, the old value elsewhere. */
  function DiskPixel(p: int, x: int, y: int, cx: int, cy: int, r: int, v: int): int {
    if InDisk(x - cx, y - cy, r) then v else p
  }

  /** A pixel as a ring writing the value `v` leaves it. */
  function RingPixel(p: int, x: int, y: int, cx: int, cy: int, inner: int, outer: int, v: int): int {
    if InRing(x - cx, y - cy, inner, outer) then v else p
  }

  /** The border colour the renderer uses. */
  const BorderColour := 0x000000

  /** One pearl marker: its pixel centre and the pixel value its colour disk writes. */
  datatype Mark = Mark(cx: int, cy: int, colour: int)

  /** The marker for a centre and a colour, as the drawing code stores it in a pixel. */
  function MarkOf(cx: int, cy: int, colour: int): (m: Mark)
    ensures m.cx == cx && m.cy == cy && 0 <= m.colour <= 0xffffff
    ensures 0 <= colour <= 0xffffff ==> m.colour == colour
  {
    Mark(cx, cy, PixelValue(colour))
  }

  /** The border disk of a marker: radius `dot + 2`. */
  predicate Covers(m: Mark, x: int, y: int, dot: int) {
    InDisk(x - m.cx, y - m.cy, dot + 2)
  }

  /** One marker as the renderer draws it: a black disk of radius `dot + 2`, then the colour disk. */
  function MarkPixel(p: int, x: int, y: int, m: Mark, dot: int): int {
    DiskPixel(DiskPixel(p, x, y, m.cx, m.cy, dot + 2, BorderColour), x, y, m.cx, m.cy, dot, m.colour)
  }

  /** One marker as the older command draws it: only the black ring, then the colour disk. */
  function RingMarkPixel(p: int, x: int, y: int, m: Mark, dot: int): int {
    DiskPixel(RingPixel(p, x, y, m.cx, m.cy, dot, dot + 2, BorderColour), x, y, m.cx, m.cy, dot, m.colour)
  }

  /** The pixel (x, y) after the markers are drawn one after another, in order, over `p`. */
  function Render(p: int, x: int, y: int, marks: seq<Mark>, dot: int): (v: int)
    ensures v == p || v == BorderColour || exists k :: 0 <= k < |marks| && v == marks[k].colour
  {
    if marks == [] then p
    else MarkPixel(Render(p, x, y, marks[..|marks| - 1], dot), x, y, marks[|marks| - 1], dot)
  }

  /** Drawing one more marker applies it on top of the picture so far. */
  lemma RenderStep(p: int, x: int, y: int, marks: seq<Mark>, m: Mark, dot: int)
    ensures Render(p, x, y, marks + [m], dot) == MarkPixel(Render(p, x, y, marks, dot), x, y, m, dot)
  {
    assert (marks + [m])[..|marks|] == marks;
  }

  /** A pixel that went through a marker's two disks on top of `Render(p0, ...)` is the render with that marker added. */
  lemma DisksExtendRender(p0: int, q: int, p1: int, p2: int, x: int, y: int, marks: seq<Mark>, m: Mark, dot: int)
    requires q == Render(p0, x, y, marks, dot)
    requires p1 == DiskPixel(q, x, y, m.cx, m.cy, dot + 2, BorderColour)
    requires p2 == DiskPixel(p1, x, y, m.cx, m.cy, dot, m.colour)
    ensures p2 == Render(p0, x, y, marks + [m], dot)
  {
    RenderStep(p0, x, y, marks, m, dot);
  }

  /** The same with ring-then-disk markers. */
  function RenderRings(p: int, x: int, y: int, marks: seq<Mark>, dot: int): (v: int)
    ensures v == p || v == BorderColour || exists k :: 0 <= k < |marks| && v == marks[k].colour
  {
    if marks == [] then p
    else RingMarkPixel(RenderRings(p, x, y, marks[..|marks| - 1], dot), x, y, marks[|marks| - 1], dot)
  }

  /** A ring marker drawn over the ring render of a prefix gives the render with that marker appended. */
  lemma RingMarkExtendsRender(p0: int, q: int, p: int, x: int, y: int, marks: seq<Mark>, m: Mark, dot: int)
    requires q == RenderRings(p0, x, y, marks, dot)
    requires p == RingMarkPixel(q, x, y, m, dot)
    ensures p == RenderRings(p0, x, y, marks + [m], dot)
  {
    assert (marks + [m])[..|marks|] == marks;
  }

  /** A pixel that went through a marker's ring and disk on top of `RenderRings(p0, ...)` is the render with that marker added. */
  lemma RingAndDiskExtendRender(p0: int, q: int, p1: int, p2: int, x: int, y: int, marks: seq<Mark>, m: Mark, dot: int)
    requires q == RenderRings(p0, x, y, marks, dot)
    requires p1 == RingPixel(q, x, y, m.cx, m.cy, dot, dot + 2, BorderColour)
    requires p2 == DiskPixel(p1, x, y, m.cx, m.cy, dot, m.colour)
    ensures p2 == RenderRings(p0, x, y, marks + [m], dot)
  {
    assert (marks + [m])[..|marks|] == marks;
  }

  /** What a covering marker leaves: its colour within `dot`, black in the ring beyond. */
  function MarkColourAt(m: Mark, x: int, y: int, dot: int): int {
    if InDisk(x - m.cx, y - m.cy, dot) then m.colour else BorderColour
  }

  /* ---------------------------------------------------------------- */

  /**
   * After one marker: pixels with `d² ≤ dot²` have its colour, pixels with
   * `dot² < d² ≤ border²` are black, pixels beyond the border are untouched.
   */
  lemma MarkerZones(p: int, x: int, y: int, m: Mark, dot: int)
    requires dot >= 0
    ensures var dx, dy := x - m.cx, y - m.cy;
      && (dx * dx + dy * dy <= dot * dot ==> MarkPixel(p, x, y, m, dot) == m.colour)
      && (dot * dot < dx * dx + dy * dy <= (dot + 2) * (dot + 2) ==> MarkPixel(p, x, y, m, dot) == BorderColour)
      && ((dot + 2) * (dot + 2) < dx * dx + dy * dy ==> MarkPixel(p, x, y, m, dot) == p)
  {
    DiskByDistance(x - m.cx, y - m.cy, dot);
    DiskByDistance(x - m.cx, y - m.cy, dot + 2);
    DiskGrows(x - m.cx, y - m.cy, dot, dot + 2);
  }

  /** Drawing the ring and then the disk leaves every pixel as drawing two disks does. */
  lemma RingThenDiskIsDiskThenDisk(p: int, x: int, y: int, m: Mark, dot: int)
    requires dot >= 0
    ensures RingMarkPixel(p, x, y, m, dot) == MarkPixel(p, x, y, m, dot)
  {
    DiskByDistance(x - m.cx, y - m.cy, dot);
  }

  /** Hence both ways of drawing a whole marker list give the same picture. */
  lemma {:induction false} RenderingsAgree(p: int, x: int, y: int, marks: seq<Mark>, dot: int)
    requires dot >= 0
    ensures RenderRings(p, x, y, marks, dot) == Render(p, x, y, marks, dot)
  {
    if marks != [] {
      RenderingsAgree(p, x, y, marks[..|marks| - 1], dot);
      RingThenDiskIsDiskThenDisk(Render(p, x, y, marks[..|marks| - 1], dot), x, y, marks[|marks| - 1], dot);
    }
  }

  /** A marker whose border covers the pixel replaces it entirely. */
  lemma CoveringMarkerDecides(p: int, x: int, y: int, m: Mark, dot: int)
    requires dot >= 0 && Covers(m, x, y, dot)
    ensures MarkPixel(p, x, y, m, dot) == MarkColourAt(m, x, y, dot)
  {
    DiskGrows(x - m.cx, y - m.cy, dot, dot + 2);
  }

  /**
   * Paint order: a pixel covered by several markers ends with what the last
   * covering one wrote.
   */
  lemma {:induction false} LastCoverWins(p: int, x: int, y: int, marks: seq<Mark>, dot: int, i: nat)
    requires dot >= 0 && i < |marks| && Covers(marks[i], x, y, dot)
    requires forall j :: i < j < |marks| ==> !Covers(marks[j], x, y, dot)
    ensures Render(p, x, y, marks, dot) == MarkColourAt(marks[i], x, y, dot)
  {
    var last := |marks| - 1;
    var init := marks[..last];
    if i == last {
      CoveringMarkerDecides(Render(p, x, y, init, dot), x, y, marks[i], dot);
    } else {
      assert !Covers(marks[last], x, y, dot);
      assert init[i] == marks[i];
      LastCoverWins(p, x, y, init, dot, i);
    }
  }

  /** A pixel no marker covers keeps its base value. */
  lemma {:induction false} UncoveredKeepsBase(p: int, x: int, y: int, marks: seq<Mark>, dot: int)
    requires forall j :: 0 <= j < |marks| ==> !Covers(marks[j], x, y, dot)
    ensures Render(p, x, y, marks, dot) == p
  {
    if marks != [] {
      var init := marks[..|marks| - 1];
      assert forall j :: 0 <= j < |init| ==> init[j] == marks[j];
      UncoveredKeepsBase(p, x, y, init, dot);
      var m := marks[|marks| - 1];
      DiskGrows(x - m.cx, y - m.cy, dot, dot + 2);
    }
  }

  /* ---------------------------------------------------------------- */

  /** The offsets of row `dy` from column `dx` to `r` that a disk of radius `r` paints, left to right. */
  function RowOffsets(dy: int, r: int, dx: int): seq<(int, int)>
    decreases r - dx + 1
  {
    if dx > r then []
    else (if InDisk(dx, dy, r) then [(dx, dy)] else []) + RowOffsets(dy, r, dx + 1)
  }

  /** The offsets of rows `dy` to `r`, in the order the loops visit them. */
  function RowsOffsets(r: int, dy: int): seq<(int, int)>
    decreases r - dy + 1
  {
    if dy > r then [] else RowOffsets(dy, r, -r) + RowsOffsets(r, dy + 1)
  }

  /** Every offset a disk of radius `r` paints, once each, in loop order. */
  function DiskOffsets(r: int): seq<(int, int)> {
    RowsOffsets(r, -r)
  }

  lemma {:induction false} RowOffsetsExact(dy: int, r: int, dx: int)
    ensures forall o :: o in RowOffsets(dy, r, dx) <==> o.1 == dy && dx <= o.0 && InDisk(o.0, o.1, r)
    ensures forall i, j :: 0 <= i < j < |RowOffsets(dy, r, dx)| ==>
      RowOffsets(dy, r, dx)[i].0 < RowOffsets(dy, r, dx)[j].0
    decreases r - dx + 1
  {
    if dx <= r {
      RowOffsetsExact(dy, r, dx + 1);
    }
  }

  lemma {:induction false} RowsOffsetsExact(r: int, dy: int)
    ensures forall o :: o in RowsOffsets(r, dy) <==> dy <= o.1 && InDisk(o.0, o.1, r)
    ensures forall i, j :: 0 <= i < j < |RowsOffsets(r, dy)| ==> RowsOffsets(r, dy)[i] != RowsOffsets(r, dy)[j]
    decreases r - dy + 1
  {
    if dy <= r {
      RowOffsetsExact(dy, r, -r);
      RowsOffsetsExact(r, dy + 1);
      var row, rest := RowOffsets(dy, r, -r), RowsOffsets(r, dy + 1);
      var all := row + rest;
      forall i, j | 0 <= i < j < |all|
        ensures all[i] != all[j]
      {
        if j < |row| {
          assert all[i] == row[i] && all[j] == row[j];
        } else if i >= |row| {
          assert all[i] == rest[i - |row|] && all[j] == rest[j - |row|];
        } else {
          assert all[i] in row && all[j] in rest;
        }
      }
    }
  }

  /** The offsets listed are exactly the painted ones, and none is listed twice. */
  lemma DiskOffsetsExact(r: int)
    ensures forall o :: o in DiskOffsets(r) <==> InDisk(o.0, o.1, r)
    ensures forall i, j :: 0 <= i < j < |DiskOffsets(r)| ==> DiskOffsets(r)[i] != DiskOffsets(r)[j]
  {
    RowsOffsetsExact(r, -r);
  }

  /** A disk of radius 4 paints 49 pixels, and the offset (5, 0) is not among them. */
  lemma RadiusFourDisk()
    ensures |DiskOffsets(4)| == 49
    ensures (5, 0) !in DiskOffsets(4)
    ensures (4, 0) in DiskOffsets(4) && (3, 3) !in DiskOffsets(4)
  {
    DiskOffsetsExact(4);
    RadiusFourNorthRows();
    RadiusFourSouthRows();
  }

  lemma RadiusFourNorthRows()
    ensures |RowOffsets(-4, 4, -4)| == 1 && |RowOffsets(-3, 4, -4)| == 5
    ensures |RowOffsets(-2, 4, -4)| == 7 && |RowOffsets(-1, 4, -4)| == 7
  {
    assert |RowOffsets(-4, 4, -4)| == 1;
    assert |RowOffsets(-3, 4, -4)| == 5;
    assert |RowOffsets(-2, 4, -4)| == 7;
    assert |RowOffsets(-1, 4, -4)| == 7;
  }

  lemma RadiusFourSouthRows()
    ensures |RowOffsets(0, 4, -4)| == 9 && |RowOffsets(1, 4, -4)| == 7 && |RowOffsets(2, 4, -4)| == 7
    ensures |RowOffsets(3, 4, -4)| == 5 && |RowOffsets(4, 4, -4)| == 1
  {
    assert |RowOffsets(0, 4, -4)| == 9;
    assert |RowOffsets(1, 4, -4)| == 7;
    assert |RowOffsets(2, 4, -4)| == 7;
    assert |RowOffsets(3, 4, -4)| == 5;
    assert |RowOffsets(4, 4, -4)| == 1;
  }

  /* ---------------------------------------------------------------- */

  /** A decoded image: `pixels[x, y]` is the pixel in column x and row y. */
  class Image {
    const width: nat
    const height: nat
    const pixels: array2<int>

    ghost predicate Valid()
    {
      pixels.Length0 == width && pixels.Length1 == height
    }

    /** Wraps a decoded pixel buffer; its dimensions become the image's. */
    constructor (buffer: array2<int>)
      ensures width == buffer.Length0 && height == buffer.Length1
      ensures pixels == buffer && Valid()
    {
      width := buffer.Length0;
      height := buffer.Length1;
      pixels := buffer;
    }

    /** Offsets (dx, dy) already visited in row-major order, before column `cdx` of row `cdy`. */
    static predicate Visited(dx: int, dy: int, cdx: int, cdy: int) {
      dy < cdy || (dy == cdy && dx < cdx)
    }

    /** The pixel value for a colour: its red, green and blue bytes, packed with full opacity. */
    static method OpaqueColour(colour: int) returns (value: int)
      ensures value == PixelValue(colour)
    {
      var r, g, b := RedChannel(colour), GreenChannel(colour), BlueChannel(colour);
      value := Pack(r, g, b);
      ChannelsRoundTrip(colour);
    }

    /**
     * Paints the disk of `radius` around (centerX, centerY) in `colour`,
     * skipping the pixels that fall outside the image.
     */
    method DrawCircle(centerX: int, centerY: int, radius: int, colour: int)
      requires Valid()
      modifies pixels
      ensures forall x, y :: 0 <= x < width && 0 <= y < height ==>
        pixels[x, y] == DiskPixel(old(pixels[x, y]), x, y, centerX, centerY, radius, PixelValue(colour))
    {
      var value := OpaqueColour(colour);
      FillDisk(centerX, centerY, radius, value);
    }

    /** The disk loops: every in-image pixel within `radius` of the centre receives `value`. */
    method FillDisk(centerX: int, centerY: int, radius: int, value: int)
      requires Valid()
      modifies pixels
      ensures forall x, y :: 0 <= x < width && 0 <= y < height ==>
        pixels[x, y] == DiskPixel(old(pixels[x, y]), x, y, centerX, centerY, radius, value)
    {
      var dy := -radius;
      while dy <= radius
        invariant -radius <= dy && (radius >= 0 ==> dy <= radius + 1)
        invariant forall x, y :: 0 <= x < width && 0 <= y < height ==>
          pixels[x, y] == if y - centerY < dy && InDisk(x - centerX, y - centerY, radius) then value else old(pixels[x, y])
      {
        var dx := -radius;
        while dx <= radius
          invariant -radius <= dx <= radius + 1
          invariant forall x, y :: 0 <= x < width && 0 <= y < height ==>
            pixels[x, y] == if Visited(x - centerX, y - centerY, dx, dy) && InDisk(x - centerX, y - centerY, radius)
              then value else old(pixels[x, y])
        {
          if dx * dx + dy * dy <= radius * radius {
            var x := centerX + dx;
            var y := centerY + dy;
            if x >= 0 && x < width && y >= 0 && y < height {
              pixels[x, y] := value;
            }
          }
          dx := dx + 1;
        }
        dy := dy + 1;
      }
    }

    /**
     * The ring loops: every in-image pixel farther than `inner` and at most
     * `outer` from the centre receives `value`.
     */
    method FillRing(centerX: int, centerY: int, inner: int, outer: int, value: int)
      requires Valid()
      modifies pixels
      ensures forall x, y :: 0 <= x < width && 0 <= y < height ==>
        pixels[x, y] == RingPixel(old(pixels[x, y]), x, y, centerX, centerY, inner, outer, value)
    {
      var dy := -outer;
      while dy <= outer
        invariant -outer <= dy && (outer >= 0 ==> dy <= outer + 1)
        invariant forall x, y :: 0 <= x < width && 0 <= y < height ==>
          pixels[x, y] == if y - centerY < dy && InRing(x - centerX, y - centerY, inner, outer) then value else old(pixels[x, y])
      {
        var dx := -outer;
        while dx <= outer
          invariant -outer <= dx <= outer + 1
          invariant forall x, y :: 0 <= x < width && 0 <= y < height ==>
            pixels[x, y] == if Visited(x - centerX, y - centerY, dx, dy) && InRing(x - centerX, y - centerY, inner, outer)
              then value else old(pixels[x, y])
        {
          var dist2 := dx * dx + dy * dy;
          if dist2 <= outer * outer && dist2 > inner * inner {
            var x := centerX + dx;
            var y := centerY + dy;
            if x >= 0 && x < width && y >= 0 && y < height {
              pixels[x, y] := value;
            }
          }
          dx := dx + 1;
        }
        dy := dy + 1;
      }
    }

    /** One marker as the generator draws it: the black border disk, then the dot in its colour. */
    method DrawMarker(m: Mark, dotRadius: int, borderRadius: int)
      requires Valid() && borderRadius == dotRadius + 2 && 0 <= m.colour <= 0xffffff
      modifies pixels
      ensures forall x, y :: 0 <= x < width && 0 <= y < height ==>
        pixels[x, y] == MarkPixel(old(pixels[x, y]), x, y, m, dotRadius)
    {
      assert PixelValue(BorderColour) == BorderColour && PixelValue(m.colour) == m.colour;
      DrawCircle(m.cx, m.cy, borderRadius, BorderColour);
      label AfterBorder:
      DrawCircle(m.cx, m.cy, dotRadius, m.colour);
      forall x, y | 0 <= x < width && 0 <= y < height
        ensures pixels[x, y] == MarkPixel(old(pixels[x, y]), x, y, m, dotRadius)
      {
        assert old@AfterBorder(pixels[x, y]) == DiskPixel(old(pixels[x, y]), x, y, m.cx, m.cy, dotRadius + 2, BorderColour);
      }
    }

    /** The markers drawn one after another, in list order. */
    method DrawMarks(marks: seq<Mark>, dotRadius: int, borderRadius: int)
      requires Valid() && borderRadius == dotRadius + 2
      requires forall k :: 0 <= k < |marks| ==> 0 <= marks[k].colour <= 0xffffff
      modifies pixels
      ensures forall x, y :: 0 <= x < width && 0 <= y < height ==>
        pixels[x, y] == Render(old(pixels[x, y]), x, y, marks, dotRadius)
    {
      var i := 0;
      while i < |marks|
        invariant 0 <= i <= |marks|
        invariant forall x, y :: 0 <= x < width && 0 <= y < height ==>
          pixels[x, y] == Render(old(pixels[x, y]), x, y, marks[..i], dotRadius)
      {
        label BeforeMark:
        DrawMarker(marks[i], dotRadius, borderRadius);
        forall x, y | 0 <= x < width && 0 <= y < height
          ensures pixels[x, y] == Render(old(pixels[x, y]), x, y, marks[..i] + [marks[i]], dotRadius)
        {
          assert old@BeforeMark(pixels[x, y]) == Render(old(pixels[x, y]), x, y, marks[..i], dotRadius);
          RenderStep(old(pixels[x, y]), x, y, marks[..i], marks[i], dotRadius);
        }
        PrefixStep(marks, i);
        i := i + 1;
      }
      assert marks[..|marks|] == marks;
    }

    /** One marker as the older command draws it: the black ring outside the dot, then the dot. */
    method DrawRingMarker(m: Mark, dotRadius: int, borderRadius: int)
      requires Valid() && borderRadius == dotRadius + 2 && 0 <= m.colour <= 0xffffff
      modifies pixels
      ensures forall x, y :: 0 <= x < width && 0 <= y < height ==>
        pixels[x, y] == RingMarkPixel(old(pixels[x, y]), x, y, m, dotRadius)
    {
      var value := OpaqueColour(m.colour);
      FillRing(m.cx, m.cy, dotRadius, borderRadius, BorderColour);
      label AfterRing:
      FillDisk(m.cx, m.cy, dotRadius, value);
      forall x, y | 0 <= x < width && 0 <= y < height
        ensures pixels[x, y] == RingMarkPixel(old(pixels[x, y]), x, y, m, dotRadius)
      {
        assert old@AfterRing(pixels[x, y]) == RingPixel(old(pixels[x, y]), x, y, m.cx, m.cy, dotRadius, dotRadius + 2, BorderColour);
      }
    }

    /** The ring markers drawn one after another, in list order. */
    method DrawRingMarks(marks: seq<Mark>, dotRadius: int, borderRadius: int)
      requires Valid() && borderRadius == dotRadius + 2
      requires forall k :: 0 <= k < |marks| ==> 0 <= marks[k].colour <= 0xffffff
      modifies pixels
      ensures forall x, y :: 0 <= x < width && 0 <= y < height ==>
        pixels[x, y] == RenderRings(old(pixels[x, y]), x, y, marks, dotRadius)
    {
      var i := 0;
      while i < |marks|
        invariant 0 <= i <= |marks|
        invariant forall x, y :: 0 <= x < width && 0 <= y < height ==>
          pixels[x, y] == RenderRings(old(pixels[x, y]), x, y, marks[..i], dotRadius)
      {
        label BeforeMark:
        DrawRingMarker(marks[i], dotRadius, borderRadius);
        forall x, y | 0 <= x < width && 0 <= y < height
          ensures pixels[x, y] == RenderRings(old(pixels[x, y]), x, y, marks[..i] + [marks[i]], dotRadius)
        {
          RingMarkExtendsRender(old(pixels[x, y]), old@BeforeMark(pixels[x, y]), pixels[x, y], x, y, marks[..i], marks[i], dotRadius);
        }
        PrefixStep(marks, i);
        i := i + 1;
      }
      assert marks[..|marks|] == marks;
    }
  }

  /** A prefix one longer is the prefix with that element appended. */
  lemma PrefixStep(marks: seq<Mark>, i: nat)
    requires i < |marks|
    ensures marks[..i + 1] == marks[..i] + [marks[i]]
  {
  }
}
