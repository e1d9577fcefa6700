/**
 * The colour ladder of the older map command: a colour string is trimmed,
 * loses one leading `#`, is looked up case-insensitively among the eight
 * names, and is then read as decimal digits, as six hex digits, or falls
 * back to white.
 */
module ColorParsing {
  import opened Wrappers
  import opened Digits
  import opened PearlColors

  /** The ECMAScript WhiteSpace and LineTerminator code points: what `trim` removes. */
  predicate IsTrimmable(c: char) {
    || c == '\t' || c == '\n' || c == '\U{000B}' || c == '\U{000C}' || c == '\r'
    || c == ' ' || c == '\U{00A0}' || c == '\U{1680}' || ('\U{2000}' <= c <= '\U{200A}')
    || c == '\U{2028}' || c == '\U{2029}' || c == '\U{202F}' || c == '\U{205F}'
    || c == '\U{3000}' || c == '\U{FEFF}'
  }

  predicate AllTrimmable(s: string) {
    forall i :: 0 <= i < |s| ==> IsTrimmable(s[i])
  }

  function TrimStart(s: string): (r: string)
    ensures r == [] || !IsTrimmable(r[0])
  {
    if s != [] && IsTrimmable(s[0]) then TrimStart(s[1..]) else s
  }

  function TrimEnd(s: string): (r: string)
    ensures r == [] || !IsTrimmable(r[|r| - 1])
  {
    if s != [] && IsTrimmable(s[|s| - 1]) then TrimEnd(s[..|s| - 1]) else s
  }

  /** Removes the whitespace and line terminators at both ends. */
  function Trim(s: string): (r: string)
    ensures r == [] || (!IsTrimmable(r[0]) && !IsTrimmable(r[|r| - 1]))
  {
    var t := TrimStart(s);
    TrimEndKeepsStart(t);
    TrimEnd(t)
  }

  lemma {:induction false} TrimEndKeepsStart(t: string)
    requires t == [] || !IsTrimmable(t[0])
    ensures TrimEnd(t) == [] || !IsTrimmable(TrimEnd(t)[0])
  {
    if t != [] && IsTrimmable(t[|t| - 1]) {
      TrimEndKeepsStart(t[..|t| - 1]);
    }
  }

  /** Drops one leading `#` when there is one; a second `#` stays. */
  function StripHash(s: string): (r: string)
    ensures |s| > 0 && s[0] == '#' ==> s == "#" + r
    ensures (|s| == 0 || s[0] != '#') ==> r == s
  {
    if |s| > 0 && s[0] == '#' then s[1..] else s
  }

  /**
   * `toLowerCase` on one character, as far as it can matter for the lookup:
   * ASCII capitals, and the Kelvin sign, which lower-cases to `k`.
   */
  function LowerChar(c: char): char {
    if 'A' <= c <= 'Z' then ((c as int) + 32) as char
    else if c == '\U{212A}' then 'k'
    else c
  }

  function ToLower(s: string): (r: string)
    ensures |r| == |s| && forall i :: 0 <= i < |s| ==> r[i] == LowerChar(s[i])
  {
    seq(|s|, i requires 0 <= i < |s| => LowerChar(s[i]))
  }

  /**
   * What the lower-casing leaves: no ASCII capital and no Kelvin sign, each
   * capital turned into its small letter, every other character kept; so a
   * second pass changes nothing.
   */
  lemma ToLowerMeaning(s: string)
    ensures forall i :: 0 <= i < |s| ==> !('A' <= ToLower(s)[i] <= 'Z') && ToLower(s)[i] != '\U{212A}'
    ensures forall i :: 0 <= i < |s| && 'A' <= s[i] <= 'Z' ==> ToLower(s)[i] as int - 'a' as int == s[i] as int - 'A' as int
    ensures forall i :: 0 <= i < |s| && !('A' <= s[i] <= 'Z') && s[i] != '\U{212A}' ==> ToLower(s)[i] == s[i]
    ensures ToLower(ToLower(s)) == ToLower(s)
  {
  }

  /** The `named` record: the eight colour names with their hex spelling. */
  function NamedHex(key: string): (r: Option<string>)
    ensures r.Some? ==> |r.value| == 6 && AllHex(r.value)
    ensures r.None? <==> forall c: PearlColor :: key != c.Value()
  {
    if key == White.Value() then Some("ffffff")
    else if key == Black.Value() then Some("000000")
    else if key == Red.Value() then Some("ff0000")
    else if key == Yellow.Value() then Some("ffff00")
    else if key == Green.Value() then Some("00ff00")
    else if key == Blue.Value() then Some("0000ff")
    else if key == Cyan.Value() then Some("00ffff")
    else if key == Magenta.Value() then Some("ff00ff")
    else
      NoMember(key);
      None
  }

  /** A key that differs from each of the eight values differs from every member's value. */
  lemma NoMember(key: string)
    requires key != White.Value() && key != Black.Value() && key != Red.Value()
    requires key != Yellow.Value() && key != Green.Value() && key != Blue.Value()
    requires key != Cyan.Value() && key != Magenta.Value()
    ensures forall c: PearlColor :: key != c.Value()
  {
    forall c: PearlColor ensures key != c.Value() {
      match c
      case White =>
      case Black =>
      case Red =>
      case Yellow =>
      case Green =>
      case Blue =>
      case Cyan =>
      case Magenta =>
    }
  }

  predicate IsHexDigit(c: char) {
    IsDigit(c) || 'a' <= c <= 'f' || 'A' <= c <= 'F'
  }

  function HexDigitValue(c: char): (d: nat)
    requires IsHexDigit(c)
    ensures d < 16
  {
    if IsDigit(c) then DigitValue(c)
    else if 'a' <= c <= 'f' then (c as int) - ('a' as int) + 10
    else (c as int) - ('A' as int) + 10
  }

  predicate AllHex(s: string) {
    forall i :: 0 <= i < |s| ==> IsHexDigit(s[i])
  }

  /** The number a string of hex digits denotes, most significant digit first. */
  function HexValue(s: string): (v: nat)
    requires AllHex(s)
    ensures v < Power16(|s|)
  {
    if s == [] then 0 else HexValue(s[..|s| - 1]) * 16 + HexDigitValue(s[|s| - 1])
  }

  function Power16(n: nat): (p: nat)
    ensures p > 0
  {
    if n == 0 then 1 else 16 * Power16(n - 1)
  }

  /** What is left of the input once it is trimmed and one `#` is gone. */
  function Stripped(colorStr: string): string {
    StripHash(Trim(colorStr))
  }

  /**
   * `parseColor`. Only a run of decimal digits can exceed 24 bits; every other
   * outcome is a 24-bit colour.
   */
  function ParseColor(colorStr: string): (hex: int)
    ensures hex >= 0
    ensures hex > 0xffffff ==> |Stripped(colorStr)| > 0 && AllDigits(Stripped(colorStr))
  {
    var s := Stripped(colorStr);
    var t := NamedHex(ToLower(s)).GetOr(s);
    assert t != s ==> |t| == 6;
    ReadNumber(t)
  }

  /**
   * The last rungs of the ladder: all decimal digits are read in base 10,
   * otherwise exactly six hex digits in base 16, otherwise white.
   */
  function ReadNumber(t: string): (hex: int)
    ensures hex >= 0
    ensures hex > 0xffffff ==> |t| > 0 && AllDigits(t) && |t| > 6
  {
    if |t| > 0 && AllDigits(t) then
      assert |t| <= 6 ==> DecimalValue(t) < Power10(|t|) <= Power10(6) by {
        if |t| <= 6 { Power10Monotone(|t|, 6); }
      }
      DecimalValue(t)
    else if |t| == 6 && AllHex(t) then
      assert Power16(6) == 0x1000000;
      HexValue(t)
    else
      DefaultHex
  }

  lemma {:induction false} Power10Monotone(m: nat, n: nat)
    requires m <= n
    ensures Power10(m) <= Power10(n)
  {
    if m < n {
      Power10Monotone(m, n - 1);
    }
  }

  /** An empty or missing colour string is replaced by white's hex spelling before parsing. */
  function ColorOrDefault(color: string): (r: string)
    ensures r != []
  {
    if color == "" then "#ffffff" else color
  }

  /* ---------------------------------------------------------------- */

  lemma {:induction false} TrimStartPrefix(w: string, s: string)
    requires AllTrimmable(w)
    ensures TrimStart(w + s) == TrimStart(s)
  {
    if w != [] {
      assert (w + s)[1..] == w[1..] + s;
      TrimStartPrefix(w[1..], s);
    } else {
      assert w + s == s;
    }
  }

  lemma {:induction false} TrimEndSuffix(s: string, w: string)
    requires AllTrimmable(w)
    ensures TrimEnd(s + w) == TrimEnd(s)
  {
    if w != [] {
      assert (s + w)[..|s + w| - 1] == s + w[..|w| - 1];
      TrimEndSuffix(s, w[..|w| - 1]);
    } else {
      assert s + w == s;
    }
  }

  /** Trimming commutes with appending whitespace to the part trimmed from the front. */
  lemma {:induction false} TrimStartThenSuffix(s: string, w: string)
    requires AllTrimmable(w)
    ensures TrimEnd(TrimStart(s + w)) == TrimEnd(TrimStart(s))
  {
    if s == [] {
      assert s + w == w;
      TrimStartPrefix(w, []);
      assert w + [] == w;
    } else if IsTrimmable(s[0]) {
      assert (s + w)[1..] == s[1..] + w;
      TrimStartThenSuffix(s[1..], w);
    } else {
      TrimEndSuffix(s, w);
    }
  }

  /** Surrounding whitespace never changes what `trim` returns. */
  lemma TrimSurrounding(w1: string, s: string, w2: string)
    requires AllTrimmable(w1) && AllTrimmable(w2)
    ensures Trim(w1 + s + w2) == Trim(s)
  {
    assert w1 + s + w2 == w1 + (s + w2);
    TrimStartPrefix(w1, s + w2);
    TrimStartThenSuffix(s, w2);
  }

  /** A string with no whitespace at either end is its own trim. */
  lemma TrimNoop(s: string)
    requires s == [] || (!IsTrimmable(s[0]) && !IsTrimmable(s[|s| - 1]))
    ensures Trim(s) == s
  {
  }

  /** Whitespace around a colour string is ignored: the trim comes before every test. */
  lemma IgnoresSurroundingWhitespace(w1: string, s: string, w2: string)
    requires AllTrimmable(w1) && AllTrimmable(w2)
    ensures ParseColor(w1 + s + w2) == ParseColor(s)
  {
    TrimSurrounding(w1, s, w2);
  }

  /** One leading `#` in front of an already trimmed string is dropped before any test. */
  lemma IgnoresOneHash(s: string)
    requires Trim(s) == s
    requires s == [] || s[0] != '#'
    ensures ParseColor("#" + s) == ParseColor(s)
  {
    var h := "#" + s;
    assert h[0] == '#' && !IsTrimmable(h[0]);
    assert h[1..] == s;
    if s != [] {
      assert h[|h| - 1] == s[|s| - 1];
    }
    TrimNoop(h);
  }

  /** A second `#` is not stripped: the remaining `#` matches nothing and gives white. */
  lemma TwoHashesGiveWhite(s: string)
    ensures ParseColor("##" + s) == DefaultHex
  {
    var h := "##" + s;
    assert !IsTrimmable(h[0]);
    assert TrimStart(h) == h;
    var t := TrimEnd(h);
    TrimEndKeepsPrefix(h, 2);
    assert t[..2] == "##";
    var u := StripHash(Trim(h));
    assert u == t[1..] && u[0] == '#';
    assert ToLower(u)[0] == '#';
    assert NamedHex(ToLower(u)) == None by {
      forall c: PearlColor ensures ToLower(u) != c.Value() {
        assert 'a' <= c.Value()[0] <= 'z';
      }
    }
    assert !IsHexDigit(u[0]) && !IsDigit(u[0]);
  }

  lemma {:induction false} TrimEndKeepsPrefix(h: string, k: nat)
    requires k <= |h| && forall i :: 0 <= i < k ==> !IsTrimmable(h[i])
    ensures k <= |TrimEnd(h)| && TrimEnd(h)[..k] == h[..k]
  {
    if h != [] && IsTrimmable(h[|h| - 1]) {
      TrimEndKeepsPrefix(h[..|h| - 1], k);
    }
  }

  /** A character whose lower-case form is a lower-case letter is a letter or the Kelvin sign. */
  lemma LowerLetter(c: char)
    requires 'a' <= LowerChar(c) <= 'z'
    ensures !IsTrimmable(c) && c != '#'
  {
  }

  /**
   * The eight names are matched case-insensitively: any spelling whose lower
   * case is a member's value resolves to that member's table value.
   */
  lemma NamesCaseInsensitive(c: PearlColor, u: string)
    requires ToLower(u) == c.Value()
    ensures ParseColor(u) == GetPearlHexColor(c.Value())
  {
    var v := c.Value();
    assert |u| == |v| > 0;
    LowerLetter(u[0]);
    LowerLetter(u[|u| - 1]);
    TrimNoop(u);
    assert Stripped(u) == u;
    NamedEntryMatchesTable(c);
  }

  /** A six-digit hex string, digit by digit. */
  lemma HexSix(s: string)
    requires |s| == 6 && AllHex(s)
    ensures HexValue(s) == ((((HexDigitValue(s[0]) * 16 + HexDigitValue(s[1])) * 16
      + HexDigitValue(s[2])) * 16 + HexDigitValue(s[3])) * 16 + HexDigitValue(s[4])) * 16
      + HexDigitValue(s[5])
  {
    assert HexValue(s[..1]) == HexDigitValue(s[0]) by {
      assert s[..1][..0] == [];
    }
    assert HexValue(s[..2]) == HexValue(s[..1]) * 16 + HexDigitValue(s[1]) by {
      assert s[..2][..1] == s[..1];
    }
    assert HexValue(s[..3]) == HexValue(s[..2]) * 16 + HexDigitValue(s[2]) by {
      assert s[..3][..2] == s[..2];
    }
    assert HexValue(s[..4]) == HexValue(s[..3]) * 16 + HexDigitValue(s[3]) by {
      assert s[..4][..3] == s[..3];
    }
    assert HexValue(s[..5]) == HexValue(s[..4]) * 16 + HexDigitValue(s[4]) by {
      assert s[..5][..4] == s[..4];
    }
    assert HexValue(s) == HexValue(s[..5]) * 16 + HexDigitValue(s[5]);
  }

  /** The hex spellings of the `named` record, read as the ladder reads them. */
  lemma ReadWhite() ensures ReadNumber("ffffff") == 0xffffff {
    assert !IsDigit("ffffff"[0]);
    HexSix("ffffff");
  }

  lemma ReadBlack() ensures ReadNumber("000000") == 0 {
    ZeroDigits("000000");
  }

  lemma ReadRed() ensures ReadNumber("ff0000") == 0xff0000 {
    assert !IsDigit("ff0000"[0]);
    HexSix("ff0000");
  }

  lemma ReadYellow() ensures ReadNumber("ffff00") == 0xffff00 {
    assert !IsDigit("ffff00"[0]);
    HexSix("ffff00");
  }

  lemma ReadGreen() ensures ReadNumber("00ff00") == 0x00ff00 {
    assert !IsDigit("00ff00"[2]);
    HexSix("00ff00");
  }

  lemma ReadBlue() ensures ReadNumber("0000ff") == 0x0000ff {
    assert !IsDigit("0000ff"[4]);
    HexSix("0000ff");
  }

  lemma ReadCyan() ensures ReadNumber("00ffff") == 0x00ffff {
    assert !IsDigit("00ffff"[2]);
    HexSix("00ffff");
  }

  lemma ReadMagenta() ensures ReadNumber("ff00ff") == 0xff00ff {
    assert !IsDigit("ff00ff"[0]);
    HexSix("ff00ff");
  }

  /** Each entry of the `named` record reads back as the member's table value. */
  lemma NamedEntryMatchesTable(c: PearlColor)
    ensures NamedHex(c.Value()).Some?
    ensures ReadNumber(NamedHex(c.Value()).value) == GetPearlHexColor(c.Value())
  {
    NamedValues();
    MemberHex(c);
    match c
    case White => ReadWhite();
    case Black => ReadBlack();
    case Red => ReadRed();
    case Yellow => ReadYellow();
    case Green => ReadGreen();
    case Blue => ReadBlue();
    case Cyan => ReadCyan();
    case Magenta => ReadMagenta();
  }

  /** The `named` record, entry by entry. */
  lemma NamedValues()
    ensures NamedHex("white") == Some("ffffff")
    ensures NamedHex("black") == Some("000000")
    ensures NamedHex("red") == Some("ff0000")
    ensures NamedHex("yellow") == Some("ffff00")
    ensures NamedHex("green") == Some("00ff00")
    ensures NamedHex("blue") == Some("0000ff")
    ensures NamedHex("cyan") == Some("00ffff")
    ensures NamedHex("magenta") == Some("ff00ff")
  {
  }

  lemma {:induction false} ZeroDigits(s: string)
    requires forall i :: 0 <= i < |s| ==> s[i] == '0'
    ensures AllDigits(s) && DecimalValue(s) == 0
  {
    if s != [] {
      ZeroDigits(s[..|s| - 1]);
    }
  }

  /** The closed enum table and the string ladder agree on every member's value. */
  lemma TableAgreesWithLadder(c: PearlColor)
    ensures ParseColor(c.Value()) == GetPearlHexColor(c.Value())
  {
    var v := c.Value();
    assert ToLower(v) == v;
    NamesCaseInsensitive(c, v);
  }

  /** A run of decimal digits is read in base 10, even when it is six characters long. */
  lemma DigitsReadAsDecimal(s: string)
    requires |s| > 0 && AllDigits(s)
    ensures ParseColor(s) == DecimalValue(s)
  {
    assert !IsTrimmable(s[0]) && !IsTrimmable(s[|s| - 1]);
    TrimNoop(s);
    assert Stripped(s) == s;
    assert ToLower(s) == s by {
      assert forall i :: 0 <= i < |s| ==> ToLower(s)[i] == s[i];
    }
    assert NamedHex(s) == None by {
      forall c: PearlColor ensures s != c.Value() {
        assert 'a' <= c.Value()[0] <= 'z';
      }
    }
    assert NamedHex(ToLower(Stripped(s))).GetOr(Stripped(s)) == s;
  }

  predicate IsLowerHex(c: char) {
    IsDigit(c) || 'a' <= c <= 'f'
  }

  /** Strings that differ at a position both have are different strings. */
  lemma DifferAt(l: string, v: string, k: nat)
    requires k < |v| && !IsLowerHex(v[k])
    requires forall i :: 0 <= i < |l| ==> IsLowerHex(l[i])
    ensures l != v
  {
    if k < |l| {
      assert IsLowerHex(l[k]);
    }
  }

  /** No colour name consists of hex digits only. */
  lemma NoNameIsHex(s: string)
    requires AllHex(s)
    ensures NamedHex(ToLower(s)) == None
  {
    var l := ToLower(s);
    assert forall i :: 0 <= i < |l| ==> IsLowerHex(l[i]);
    forall c: PearlColor
      ensures l != c.Value()
    {
      match c
      case White => DifferAt(l, c.Value(), 0);
      case Black => DifferAt(l, c.Value(), 1);
      case Red => DifferAt(l, c.Value(), 0);
      case Yellow => DifferAt(l, c.Value(), 0);
      case Green => DifferAt(l, c.Value(), 0);
      case Blue => DifferAt(l, c.Value(), 1);
      case Cyan => DifferAt(l, c.Value(), 1);
      case Magenta => DifferAt(l, c.Value(), 0);
    }
  }

  /** Exactly six hex digits that are not all decimal digits are read in base 16, with or without `#`. */
  lemma SixHexDigitsReadAsHex(s: string)
    requires |s| == 6 && AllHex(s) && !AllDigits(s)
    ensures ParseColor(s) == HexValue(s)
    ensures ParseColor("#" + s) == HexValue(s)
  {
    assert !IsTrimmable(s[0]) && !IsTrimmable(s[5]) && s[0] != '#';
    TrimNoop(s);
    IgnoresOneHash(s);
    NoNameIsHex(s);
    assert Power16(6) == 0x1000000;
  }

  /** Hex digits of any other length than six, not all decimal, give white. */
  lemma WrongLengthHexIsWhite(colorStr: string)
    requires AllHex(Stripped(colorStr)) && !AllDigits(Stripped(colorStr))
    requires |Stripped(colorStr)| != 6
    ensures ParseColor(colorStr) == DefaultHex
  {
    NoNameIsHex(Stripped(colorStr));
  }

  /**
   * A string that, once trimmed and stripped of one `#`, holds a character
   * that is no hex digit and is no colour name in any case, gives white.
   */
  lemma UnknownNameIsWhite(colorStr: string, i: nat)
    requires i < |Stripped(colorStr)| && !IsHexDigit(Stripped(colorStr)[i])
    requires forall c: PearlColor :: ToLower(Stripped(colorStr)) != c.Value()
    ensures ParseColor(colorStr) == DefaultHex
  {
  }

  /** Nothing left once trimmed and stripped of one `#` (as for `"#"` or blanks) gives white. */
  lemma EmptyStrippedIsWhite(colorStr: string)
    requires Stripped(colorStr) == []
    ensures ParseColor(colorStr) == DefaultHex
  {
  }

  /** Upper case is ignored: `"RED"` is red. */
  lemma UpperNameExample(s: string)
    requires s == "RED"
    ensures ParseColor(s) == 0xff0000
  {
    var l := ToLower(s);
    assert l[0] == 'r' && l[1] == 'e' && l[2] == 'd';
    assert l == Red.Value();
    NamesCaseInsensitive(Red, s);
  }

  /** `"black"` is black, 0. */
  lemma LowerNameExample(s: string)
    requires s == "black"
    ensures ParseColor(s) == 0
  {
    TableAgreesWithLadder(Black);
  }

  /** Decimal digits are read in base 10, even six of them: `"123456"` is 123456. */
  lemma SixDigitExample(s: string)
    requires s == "123456"
    ensures ParseColor(s) == 123456
  {
    assert DecimalValue(s[..1]) == 1;
    assert DecimalValue(s[..2]) == 12 by { assert s[..2][..1] == s[..1]; }
    assert DecimalValue(s[..3]) == 123 by { assert s[..3][..2] == s[..2]; }
    assert DecimalValue(s[..4]) == 1234 by { assert s[..4][..3] == s[..3]; }
    assert DecimalValue(s[..5]) == 12345 by { assert s[..5][..4] == s[..4]; }
    assert s[..6] == s;
    DigitsReadAsDecimal(s);
  }

  /** `"16711680"` is the decimal spelling of red. */
  lemma EightDigitExample(s: string)
    requires s == "16711680"
    ensures ParseColor(s) == 0xff0000
  {
    assert DecimalValue(s[..1]) == 1;
    assert DecimalValue(s[..2]) == 16 by { assert s[..2][..1] == s[..1]; }
    assert DecimalValue(s[..3]) == 167 by { assert s[..3][..2] == s[..2]; }
    assert DecimalValue(s[..4]) == 1671 by { assert s[..4][..3] == s[..3]; }
    assert DecimalValue(s[..5]) == 16711 by { assert s[..5][..4] == s[..4]; }
    assert DecimalValue(s[..6]) == 167116 by { assert s[..6][..5] == s[..5]; }
    assert DecimalValue(s[..7]) == 1671168 by { assert s[..7][..6] == s[..6]; }
    assert s[..8] == s;
    DigitsReadAsDecimal(s);
  }

  lemma DecimalRendered(n: nat)
    ensures ParseColor(NatToString(n)) == n
  {
    DecimalRoundTrip(n);
    DigitsReadAsDecimal(NatToString(n));
  }

  /** `"#00ff00"` is read in base 16. */
  lemma HexExample(s: string)
    requires s == "#00ff00"
    ensures ParseColor(s) == 0x00ff00
  {
    var digits := s[1..];
    assert s == "#" + digits;
    ReadGreen();
    assert digits == "00ff00" && !IsDigit(digits[2]);
    SixHexDigitsReadAsHex(digits);
  }

  /** An unknown name, five hex digits and the empty string all give white. */
  lemma FallbackExamples(name: string, short: string, empty: string)
    requires name == "bogus" && short == "fffff" && empty == ""
    ensures ParseColor(name) == DefaultHex
    ensures ParseColor(short) == DefaultHex
    ensures ParseColor(empty) == DefaultHex
  {
    TrimNoop(name);
    assert Stripped(name) == name;
    forall c: PearlColor ensures ToLower(name) != c.Value() {
      NoNameAt(c, name);
    }
    assert !IsHexDigit(name[1]);
    UnknownNameIsWhite(name, 1);
    TrimNoop(short);
    assert Stripped(short) == short;
    assert !IsDigit(short[0]);
    WrongLengthHexIsWhite(short);
    assert Stripped(empty) == empty;
    assert NamedHex(empty) == None;
  }

  lemma NoNameAt(c: PearlColor, s: string)
    requires s == "bogus"
    ensures ToLower(s) != c.Value()
  {
    var l := ToLower(s);
    assert l[0] == 'b' && l[1] == 'o' && l[2] == 'g' && |l| == 5;
    match c
    case White =>
    case Black => assert c.Value()[1] != l[1];
    case Red =>
    case Yellow =>
    case Green =>
    case Blue => assert c.Value()[1] != l[1];
    case Cyan =>
    case Magenta =>
  }

  /** Replacing an empty colour by `#ffffff` never changes the colour drawn. */
  lemma DefaultStringIsWhite(color: string)
    ensures ParseColor(ColorOrDefault(color)) == ParseColor(color)
  {
    if color == "" {
      assert Stripped(color) == color;
      assert NamedHex(color) == None;
      HashedWhite(ColorOrDefault(color));
    }
  }

  lemma HashedWhite(s: string)
    requires s == "#ffffff"
    ensures ParseColor(s) == 0xffffff
  {
    var digits := s[1..];
    assert s == "#" + digits;
    ReadWhite();
    assert digits == "ffffff" && !IsDigit(digits[0]);
    SixHexDigitsReadAsHex(digits);
  }
}
