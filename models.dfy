/** The record shapes the commands and the renderer share. */
module Models {
  import opened Sequences

  /**
   * The four quadrants a pearl is filed under. The sign convention (which
   * sign pair gets which name) is the one the add command applies.
   */
  datatype PearlSector = BottomRight | TopRight | BottomLeft | TopLeft

  /**
   * A stored pearl. `color` is the enum's string value as it sits in the JSON
   * file, so any string can occur; `sector` is stored alongside the coordinates.
   */
  datatype Pearl = Pearl(x: int, y: int, color: string, sector: PearlSector)

  /** A pixel rectangle given by two corners. */
  datatype Rect = Rect(x0: int, y0: int, x1: int, y1: int)

  /**
   * The world-to-image geometry: the world range on both axes and the pixel
   * rectangle inside the base image that the range is mapped onto.
   */
  datatype MapData = MapData(
    worldMin: int,
    worldMax: int,
    worldSpan: int,
    interior: Rect,
    interiorWidth: int,
    interiorHeight: int)

  /** The records whose colour string equals `colour`, in list order. */
  function WithColour(pearls: seq<Pearl>, colour: string): (r: seq<Pearl>)
    ensures |r| <= |pearls|
    ensures forall i :: 0 <= i < |r| ==> r[i].color == colour
  {
    Filter(pearls, ColourIs(colour))
  }

  /**
   * The colour filter keeps the pearls of exactly that colour, in their
   * original order, each as often as it occurs.
   */
  lemma WithColourMeaning(pearls: seq<Pearl>, colour: string)
    ensures IsSubsequence(WithColour(pearls, colour), pearls)
    ensures forall p :: p in WithColour(pearls, colour) <==> p in pearls && p.color == colour
    ensures forall p :: multiset(WithColour(pearls, colour))[p] == if p.color == colour then multiset(pearls)[p] else 0
  {
    var keep := ColourIs(colour);
    FilterIsSubsequence(pearls, keep);
    FilterCounts(pearls, keep);
    MembershipByCount(WithColour(pearls, colour), pearls, colour);
  }

  /** The record's colour string equals `colour`. */
  function ColourIs(colour: string): Pearl -> bool {
    (p: Pearl) => p.color == colour
  }

  /** Filtering a list with one more pearl at the end. */
  lemma WithColourAppend(pearls: seq<Pearl>, p: Pearl, colour: string)
    ensures WithColour(pearls + [p], colour) == WithColour(pearls, colour) + (if p.color == colour then [p] else [])
  {
    FilterAppend(pearls, p, ColourIs(colour));
  }

  lemma MembershipByCount(r: seq<Pearl>, pearls: seq<Pearl>, colour: string)
    requires forall p :: multiset(r)[p] == if p.color == colour then multiset(pearls)[p] else 0
    ensures forall p :: p in r <==> p in pearls && p.color == colour
  {
    forall p
      ensures p in r <==> p in pearls && p.color == colour
    {
      assert p in r <==> multiset(r)[p] > 0;
      assert p in pearls <==> multiset(pearls)[p] > 0;
    }
  }
}
