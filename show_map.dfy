/**
 * The show-map command: it reads the stored pearls, keeps those of the
 * requested colour, and paints them with its own copy of the renderer, which
 * resolves colours from strings and draws each border as a ring.
 */
module ShowMap {
  import opened Wrappers
  import opened Sequences
  import opened Models
  import opened PearlColors
  import opened ColorParsing
  import opened Geometry
  import opened Raster
  import opened ImageGenerator

  const WORLD_MIN := -160
  const WORLD_MAX := 160

  /** The command's own geometry constants, with the span computed from the bounds. */
  const SHOW_MAP_DATA: MapData := MapData(
    WORLD_MIN, WORLD_MAX, WORLD_MAX - WORLD_MIN,
    Rect(51, 59, 945, 898), 945 - 51, 898 - 59)

  /** The inline transform uses the same numbers as the shared renderer. */
  lemma SameGeometry()
    ensures SHOW_MAP_DATA == MAP_DATA
    ensures SHOW_MAP_DATA.worldSpan == 320
  {
  }

  /**
   * The pearls to draw: all stored ones (none when the file cannot be read),
   * narrowed to one colour when a non-empty filter is given.
   */
  function Shown(stored: Option<seq<Pearl>>, filterColor: Option<string>): (r: seq<Pearl>)
    ensures (filterColor.None? || filterColor.value == "") ==> r == stored.GetOr([])
    ensures filterColor.Some? && filterColor.value != "" ==>
      && IsSubsequence(r, stored.GetOr([]))
      && (forall p :: p in r <==> p in stored.GetOr([]) && p.color == filterColor.value)
      && forall p :: multiset(r)[p] == if p.color == filterColor.value then multiset(stored.GetOr([]))[p] else 0
  {
    var pearls := stored.GetOr([]);
    if filterColor.Some? && filterColor.value != "" then
      WithColourMeaning(pearls, filterColor.value);
      WithColour(pearls, filterColor.value)
    else pearls
  }

  /** The colour the command draws a pearl in: its colour string, or white when it is empty, parsed. */
  function ShownColour(p: Pearl): (hex: int)
    ensures hex >= 0
    ensures p.color != "" ==> hex == ParseColor(p.color)
    ensures p.color == "" ==> hex == DefaultHex
  {
    var s := ColorOrDefault(p.color);
    assert s == "#ffffff" ==> ParseColor(s) == DefaultHex by {
      if s == "#ffffff" { HashedWhite(s); }
    }
    ParseColor(s)
  }

  /** The marker of one pearl as this command places and colours it. */
  function ShowMark(p: Pearl): (m: Mark)
    ensures (m.cx, m.cy) == WorldToPixel(p.x, p.y, SHOW_MAP_DATA)
    ensures m.colour == PixelValue(ShownColour(p))
  {
    var c := WorldToPixel(p.x, p.y, SHOW_MAP_DATA);
    MarkOf(c.0, c.1, ShownColour(p))
  }

  function ShowMarks(pearls: seq<Pearl>): (ms: seq<Mark>)
    ensures |ms| == |pearls|
    ensures forall i :: 0 <= i < |pearls| ==> ms[i] == ShowMark(pearls[i])
  {
    seq(|pearls|, i requires 0 <= i < |pearls| => ShowMark(pearls[i]))
  }

  /** The command's answer: a text message, or the rendered map. */
  datatype Reply = Message(text: string) | MapAttachment

  const NO_PEARLS := "No pearls found."

  /**
   * Runs the command on the decoded base map. With nothing to show it
   * answers "No pearls found." and leaves the image alone; otherwise every
   * shown pearl is painted, in order, as a black ring and a colour disk.
   */
  method Execute(image: Image, stored: Option<seq<Pearl>>, filterColor: Option<string>) returns (reply: Reply)
    requires image.Valid()
    modifies image.pixels
    ensures Shown(stored, filterColor) == [] ==> reply == Message(NO_PEARLS) && unchanged(image.pixels)
    ensures Shown(stored, filterColor) != [] ==> reply == MapAttachment
    ensures Shown(stored, filterColor) != [] ==> forall x, y :: 0 <= x < image.width && 0 <= y < image.height ==>
      image.pixels[x, y] == RenderRings(old(image.pixels[x, y]), x, y, ShowMarks(Shown(stored, filterColor)),
        DotRadius(image.width, image.height))
  {
    var pearls := stored.GetOr([]);
    if filterColor.Some? && filterColor.value != "" {
      pearls := WithColour(pearls, filterColor.value);
    }
    if |pearls| == 0 {
      return Message(NO_PEARLS);
    }
    PaintPearls(image, pearls);
    reply := MapAttachment;
  }

  /** The per-pearl loops of the command: a black ring between the dot and the border, then the colour dot. */
  method PaintPearls(image: Image, pearls: seq<Pearl>)
    requires image.Valid()
    modifies image.pixels
    ensures forall x, y :: 0 <= x < image.width && 0 <= y < image.height ==>
      image.pixels[x, y] == RenderRings(old(image.pixels[x, y]), x, y, ShowMarks(pearls), DotRadius(image.width, image.height))
  {
    var dotRadius := DotRadius(image.width, image.height);
    var borderRadius := dotRadius + 2;
    var marks := ShowMarks(pearls);
    image.DrawRingMarks(marks, dotRadius, borderRadius);
  }

  /* ---------------------------------------------------------------- */

  /** The colour string is one of the enum's values. */
  predicate IsEnumColour(s: string) {
    exists c: PearlColor :: c.Value() == s
  }

  /** For enum colours both renderers place and colour a pearl identically. */
  lemma SameMarker(p: Pearl)
    requires IsEnumColour(p.color)
    ensures ShowMark(p) == PearlMark(p)
  {
    var c: PearlColor :| c.Value() == p.color;
    SameGeometry();
    TableAgreesWithLadder(c);
    assert ColorOrDefault(p.color) == p.color;
  }

  /**
   * The show-map picture equals the image generator's for pearls with enum
   * colours: the ring-then-disk drawing paints what two disks paint.
   */
  lemma ShowMapMatchesGenerator(base: int, x: int, y: int, pearls: seq<Pearl>, width: int, height: int)
    requires forall i :: 0 <= i < |pearls| ==> IsEnumColour(pearls[i].color)
    ensures RenderRings(base, x, y, ShowMarks(pearls), DotRadius(width, height))
         == Render(base, x, y, PearlMarks(pearls), DotRadius(width, height))
  {
    forall i | 0 <= i < |pearls|
      ensures ShowMarks(pearls)[i] == PearlMarks(pearls)[i]
    {
      SameMarker(pearls[i]);
    }
    assert ShowMarks(pearls) == PearlMarks(pearls);
    RenderingsAgree(base, x, y, PearlMarks(pearls), DotRadius(width, height));
  }

  /** A pearl with no colour string is drawn white. */
  lemma MissingColourIsWhite(p: Pearl)
    requires p.color == ""
    ensures ShownColour(p) == 0xffffff
  {
    HashedWhite(ColorOrDefault(p.color));
  }
}
