/**
 * The pearl map of the image generator: every pearl is drawn, in list order,
 * as a black border disk and then a disk in its enum colour.
 */
module ImageGenerator {
  import opened Models
  import opened PearlColors
  import opened Geometry
  import opened Raster

  /** The marker of one pearl: its pixel position under `MAP_DATA` and its table colour. */
  function PearlMark(p: Pearl): (m: Mark)
    ensures (m.cx, m.cy) == WorldToPixel(p.x, p.y, MAP_DATA)
    ensures m.colour == GetPearlHexColor(p.color)
  {
    var c := WorldToPixel(p.x, p.y, MAP_DATA);
    MarkOf(c.0, c.1, GetPearlHexColor(p.color))
  }

  /** The markers of a pearl list, one per pearl, in the same order. */
  function PearlMarks(pearls: seq<Pearl>): (ms: seq<Mark>)
    ensures |ms| == |pearls|
    ensures forall i :: 0 <= i < |pearls| ==> ms[i] == PearlMark(pearls[i])
  {
    seq(|pearls|, i requires 0 <= i < |pearls| => PearlMark(pearls[i]))
  }

  /**
   * Paints every pearl over the base map: for each, the border disk of
   * radius `dot + 2` in black and then the dot in the pearl's colour, where
   * `dot` follows from the image's size.
   */
  method GeneratePearlMap(image: Image, pearls: seq<Pearl>)
    requires image.Valid()
    modifies image.pixels
    ensures forall x, y :: 0 <= x < image.width && 0 <= y < image.height ==>
      image.pixels[x, y] == Render(old(image.pixels[x, y]), x, y, PearlMarks(pearls), DotRadius(image.width, image.height))
  {
    var dotRadius := DotRadius(image.width, image.height);
    var borderRadius := BorderRadius(dotRadius);
    var marks := PearlMarks(pearls);
    image.DrawMarks(marks, dotRadius, borderRadius);
  }

  /**
   * The black border shows as a ring two pixels wide around the dot: along a
   * ray from the centre the first two pixels past the dot are black and the
   * third is outside the marker.
   */
  lemma BorderRingWidth(dot: int)
    requires dot >= 0
    ensures !InRing(dot, 0, dot, BorderRadius(dot))
    ensures InRing(dot + 1, 0, dot, BorderRadius(dot)) && InRing(dot + 2, 0, dot, BorderRadius(dot))
    ensures !InRing(dot + 3, 0, dot, BorderRadius(dot))
  {
  }

  /** The centres of the world origin and of the far corner. */
  lemma ScenarioMarks()
    ensures PearlMark(Pearl(0, 0, "red", BottomRight)) == Mark(498, 478, 0xff0000)
    ensures PearlMark(Pearl(160, 160, "blue", BottomRight)) == Mark(944, 897, 0x0000ff)
  {
    WorldMaximumCorner();
    MemberValues();
    assert RoundDiv(51 * 320 + 160 * 893, 320) == 498;
    assert RoundDiv(59 * 320 + 160 * 838, 320) == 478;
  }

  /**
   * A red pearl at the origin and a blue one at (160, 160) on a 996 × 958
   * map: each pixel within radius 9 of a centre shows that marker (its colour
   * within radius 7, black beyond), and every other pixel keeps the base map.
   */
  lemma TwoPearlScenario(base: int, x: int, y: int)
    ensures var pearls := [Pearl(0, 0, "red", BottomRight), Pearl(160, 160, "blue", BottomRight)];
      var r := Render(base, x, y, PearlMarks(pearls), DotRadius(996, 958));
      && (InDisk(x - 498, y - 478, 9) ==> r == if InDisk(x - 498, y - 478, 7) then 0xff0000 else BorderColour)
      && (InDisk(x - 944, y - 897, 9) ==> r == if InDisk(x - 944, y - 897, 7) then 0x0000ff else BorderColour)
      && (!InDisk(x - 498, y - 478, 9) && !InDisk(x - 944, y - 897, 9) ==> r == base)
  {
    var pearls := [Pearl(0, 0, "red", BottomRight), Pearl(160, 160, "blue", BottomRight)];
    var marks := PearlMarks(pearls);
    ScenarioMarks();
    assert marks == [Mark(498, 478, 0xff0000), Mark(944, 897, 0x0000ff)];
    RadiiOfTestImage();
    var dot := DotRadius(996, 958);
    if Covers(marks[1], x, y, dot) {
      LastCoverWins(base, x, y, marks, dot, 1);
    } else if Covers(marks[0], x, y, dot) {
      LastCoverWins(base, x, y, marks, dot, 0);
    } else {
      UncoveredKeepsBase(base, x, y, marks, dot);
    }
  }
}
