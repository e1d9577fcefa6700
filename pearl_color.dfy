/** The closed set of pearl colours and their 24-bit RGB values. */
module PearlColors {

  /** The eight colours a pearl can be registered with. */
  datatype PearlColor = White | Black | Red | Yellow | Green | Blue | Cyan | Magenta {

    /** The string value of the enum member, which is what gets stored. */
    function Value(): (s: string)
      ensures |s| > 0 && forall i :: 0 <= i < |s| ==> 'a' <= s[i] <= 'z'
    {
      match this
      case White => "white"
      case Black => "black"
      case Red => "red"
      case Yellow => "yellow"
      case Green => "green"
      case Blue => "blue"
      case Cyan => "cyan"
      case Magenta => "magenta"
    }
  }

  const AllColors: seq<PearlColor> := [White, Black, Red, Yellow, Green, Blue, Cyan, Magenta]

  /** The value a colour with no matching member, or an unparseable colour, falls back to. */
  const DefaultHex := 0xffffff

  /**
   * `GetPearlHexColor`: a `switch` over the member strings with a `default`
   * branch, applied to whatever colour string a record holds.
   */
  function GetPearlHexColor(color: string): (hex: int)
    ensures 0 <= hex <= 0xffffff
    ensures (forall c: PearlColor :: color != c.Value()) ==> hex == DefaultHex
  {
    if color == White.Value() then 0xffffff
    else if color == Black.Value() then 0x000000
    else if color == Red.Value() then 0xff0000
    else if color == Yellow.Value() then 0xffff00
    else if color == Green.Value() then 0x00ff00
    else if color == Blue.Value() then 0x0000ff
    else if color == Cyan.Value() then 0x00ffff
    else if color == Magenta.Value() then 0xff00ff
    else DefaultHex
  }

  /** The eight fixed values, member by member. */
  lemma MemberValues()
    ensures GetPearlHexColor("white") == 0xffffff
    ensures GetPearlHexColor("black") == 0x000000
    ensures GetPearlHexColor("red") == 0xff0000
    ensures GetPearlHexColor("yellow") == 0xffff00
    ensures GetPearlHexColor("green") == 0x00ff00
    ensures GetPearlHexColor("blue") == 0x0000ff
    ensures GetPearlHexColor("cyan") == 0x00ffff
    ensures GetPearlHexColor("magenta") == 0xff00ff
  {
  }

  /** Every member is in the list of all members. */
  lemma AllColorsComplete(c: PearlColor)
    ensures c in AllColors
  {
  }

  /** Distinct members have distinct string values and distinct RGB values. */
  lemma MembersDistinct(c: PearlColor, d: PearlColor)
    requires c != d
    ensures c.Value() != d.Value()
    ensures GetPearlHexColor(c.Value()) != GetPearlHexColor(d.Value())
  {
    assert |c.Value()| != |d.Value()| || c.Value()[0] != d.Value()[0];
    MemberHex(c);
    MemberHex(d);
  }

  /** Each member's value selects its own branch of the switch. */
  lemma MemberHex(c: PearlColor)
    ensures GetPearlHexColor(c.Value()) == HexOf(c)
  {
    MemberValues();
  }

  /** The RGB value each member stands for. */
  function HexOf(c: PearlColor): int {
    match c
    case White => 0xffffff
    case Black => 0x000000
    case Red => 0xff0000
    case Yellow => 0xffff00
    case Green => 0x00ff00
    case Blue => 0x0000ff
    case Cyan => 0x00ffff
    case Magenta => 0xff00ff
  }

  /** A string that is no member's value gets white; so does "white" itself. */
  lemma UnknownIsWhite()
    ensures GetPearlHexColor("") == 0xffffff
    ensures GetPearlHexColor("Red") == 0xffffff
    ensures GetPearlHexColor("purple") == 0xffffff
  {
  }

  /** Bits 23-16 of a colour, as `(c >> 16) & 0xff` gives them. */
  function RedChannel(c: int): (r: int)
    ensures 0 <= r <= 255
  {
    (c / 0x10000) % 0x100
  }

  /** Bits 15-8 of a colour, as `(c >> 8) & 0xff` gives them. */
  function GreenChannel(c: int): (g: int)
    ensures 0 <= g <= 255
  {
    (c / 0x100) % 0x100
  }

  /** Bits 7-0 of a colour, as `c & 0xff` gives them. */
  function BlueChannel(c: int): (b: int)
    ensures 0 <= b <= 255
  {
    c % 0x100
  }

  /** Three 8-bit channels packed back into a 24-bit value. */
  function Pack(r: int, g: int, b: int): (v: int)
    requires 0 <= r <= 255 && 0 <= g <= 255 && 0 <= b <= 255
    ensures 0 <= v <= 0xffffff
  {
    r * 0x10000 + g * 0x100 + b
  }

  /** The colour a pixel receives: the low 24 bits, which are what the three channels carry. */
  function PixelValue(c: int): (v: int)
    ensures 0 <= v <= 0xffffff
    ensures 0 <= c <= 0xffffff ==> v == c
  {
    c % 0x1000000
  }

  /** Splitting a colour into its channels and packing them again keeps its low 24 bits. */
  lemma ChannelsRoundTrip(c: int)
    ensures Pack(RedChannel(c), GreenChannel(c), BlueChannel(c)) == PixelValue(c)
  {
    var q := c / 0x100;
    var q2 := q / 0x100;
    var q3 := q2 / 0x100;
    var b, g, r := c % 0x100, q % 0x100, q2 % 0x100;
    assert c == q * 0x100 + b;
    assert q == q2 * 0x100 + g;
    assert q2 == q3 * 0x100 + r;
    assert c == q2 * 0x10000 + (g * 0x100 + b);
    assert c / 0x10000 == q2;
    assert c == q3 * 0x1000000 + (r * 0x10000 + g * 0x100 + b);
    assert c % 0x1000000 == r * 0x10000 + g * 0x100 + b;
  }
}
