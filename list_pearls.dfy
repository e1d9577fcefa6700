/**
 * The list-pearls command: optional sector and colour filters, grouping by
 * colour in first-appearance order, each group sorted by position, and one
 * embed field per group.
 */
module ListPearls {
  import opened Wrappers
  import opened Sequences
  import opened Models
  import opened Digits
  import opened AddPearl
  import opened NumberFormatter
  import opened ColorParsing

  /** The sector a filter choice selects; any other choice selects none, and then nothing is filtered out. */
  function SectorForLabel(choice: string): (r: Option<PearlSector>)
    ensures r.Some? <==> choice in ["(-,+)", "(+,+)", "(-,-)", "(+,-)"]
  {
    if choice == "(-,+)" then Some(BottomLeft)
    else if choice == "(+,+)" then Some(BottomRight)
    else if choice == "(-,-)" then Some(TopLeft)
    else if choice == "(+,-)" then Some(TopRight)
    else None
  }

  /** The choice of the quadrant of a point: the signs of x and y, zero written as `+`. */
  function QuadrantLabel(x: int, y: int): string {
    "(" + (if x >= 0 then "+" else "-") + "," + (if y >= 0 then "+" else "-") + ")"
  }

  /** The four labels and what they select; the choice of a point's quadrant selects the point's sector. */
  lemma LabelTable(x: int, y: int)
    ensures SectorForLabel("(-,+)") == Some(BottomLeft) && SectorForLabel("(+,+)") == Some(BottomRight)
    ensures SectorForLabel("(-,-)") == Some(TopLeft) && SectorForLabel("(+,-)") == Some(TopRight)
    ensures SectorForLabel(QuadrantLabel(x, y)) == Some(SectorOf(x, y))
  {
  }

  /** Distinct points' quadrant labels select the same sector only when they are the same choice. */
  lemma LabelsOfSector(choice: string, x: int, y: int)
    requires SectorForLabel(choice).Some?
    ensures SectorForLabel(choice) == Some(SectorOf(x, y)) <==> choice == QuadrantLabel(x, y)
  {
    LabelTable(x, y);
  }

  /** The sector test of the filter callback. */
  function InLabelledSector(choice: string): Pearl -> bool {
    (p: Pearl) => SectorForLabel(choice).None? || p.sector == SectorForLabel(choice).value
  }

  /** The pearls the sector filter keeps, in order. */
  function SectorFilter(pearls: seq<Pearl>, choice: string): (r: seq<Pearl>)
    ensures IsSubsequence(r, pearls)
    ensures forall p :: p in r <==> p in pearls && InLabelledSector(choice)(p)
    ensures forall p :: multiset(r)[p] == if InLabelledSector(choice)(p) then multiset(pearls)[p] else 0
  {
    var keep := InLabelledSector(choice);
    FilterIsSubsequence(pearls, keep);
    FilterCounts(pearls, keep);
    var r := Filter(pearls, keep);
    forall p ensures p in r <==> p in pearls && keep(p) {
      assert p in r <==> multiset(r)[p] > 0;
      assert p in pearls <==> multiset(pearls)[p] > 0;
    }
    r
  }

  /** An unrecognised choice keeps every pearl. */
  lemma UnknownLabelKeepsAll(pearls: seq<Pearl>, choice: string)
    requires SectorForLabel(choice).None?
    ensures SectorFilter(pearls, choice) == pearls
  {
    FilterKeepsAll(pearls, InLabelledSector(choice));
  }

  /**
   * With sectors as the add command stores them, a recognised choice keeps
   * exactly the pearls whose coordinate signs it spells.
   */
  lemma LabelKeepsMatchingSigns(pearls: seq<Pearl>, choice: string)
    requires SectorsConsistent(pearls) && SectorForLabel(choice).Some?
    ensures forall p :: p in SectorFilter(pearls, choice) <==> p in pearls && QuadrantLabel(p.x, p.y) == choice
  {
    forall p | p in pearls
      ensures InLabelledSector(choice)(p) <==> QuadrantLabel(p.x, p.y) == choice
    {
      LabelsOfSector(choice, p.x, p.y);
    }
  }

  /* ---------------------------------------------------------------- */

  /** The outcome of the two filters: a reply that ends the command, or the pearls to list. */
  datatype Selection = Stop(message: string) | Listed(pearls: seq<Pearl>)

  /** An option the command acts on: given and not the empty string. */
  predicate Given(option: Option<string>) {
    option.Some? && option.value != ""
  }

  /** The stored pearls after the sector filter, when one is given. */
  function BySector(pearls: seq<Pearl>, sectorFilter: Option<string>): seq<Pearl> {
    if Given(sectorFilter) then SectorFilter(pearls, sectorFilter.value) else pearls
  }

  /** Then after the colour filter, when one is given. */
  function ByColour(pearls: seq<Pearl>, colourFilter: Option<string>): seq<Pearl> {
    if Given(colourFilter) then WithColour(pearls, colourFilter.value) else pearls
  }

  /**
   * The command up to grouping: an empty file, an empty sector and an empty
   * colour selection each end it with their own message.
   */
  function Select(stored: Option<seq<Pearl>>, sectorFilter: Option<string>, colourFilter: Option<string>): (s: Selection)
    ensures s.Listed? ==> s.pearls != []
    ensures stored.GetOr([]) != [] && !Given(sectorFilter) && !Given(colourFilter) ==> s == Listed(stored.GetOr([]))
    ensures Given(colourFilter) && s.Listed? ==> forall i :: 0 <= i < |s.pearls| ==> s.pearls[i].color == colourFilter.value
  {
    var pearls := stored.GetOr([]);
    if pearls == [] then Stop("No pearls found.")
    else
      var inSector := BySector(pearls, sectorFilter);
      if Given(sectorFilter) && inSector == [] then Stop("No pearls found in sector " + sectorFilter.value + ".")
      else
        var inColour := ByColour(inSector, colourFilter);
        if Given(colourFilter) && inColour == [] then Stop("No pearls found with color " + colourFilter.value + ".")
        else Listed(inColour)
  }

  /** The pearls listed are a non-empty, order-preserving selection of exactly those passing both filters. */
  lemma SelectionIsFiltered(stored: Option<seq<Pearl>>, sectorFilter: Option<string>, colourFilter: Option<string>)
    requires Select(stored, sectorFilter, colourFilter).Listed?
    ensures var r := Select(stored, sectorFilter, colourFilter).pearls;
      && r != []
      && IsSubsequence(r, stored.GetOr([]))
      && (forall p :: p in r <==>
           (p in stored.GetOr([])
            && (Given(sectorFilter) ==> InLabelledSector(sectorFilter.value)(p))
            && (Given(colourFilter) ==> p.color == colourFilter.value)))
      && forall p :: multiset(r)[p] ==
           if (Given(sectorFilter) ==> InLabelledSector(sectorFilter.value)(p))
              && (Given(colourFilter) ==> p.color == colourFilter.value)
           then multiset(stored.GetOr([]))[p] else 0
  {
    var pearls := stored.GetOr([]);
    var inSector := BySector(pearls, sectorFilter);
    var inColour := ByColour(inSector, colourFilter);
    assert IsSubsequence(inSector, pearls) by {
      if !Given(sectorFilter) { SubsequenceOfItself(pearls); }
    }
    if Given(colourFilter) {
      WithColourMeaning(inSector, colourFilter.value);
    } else {
      SubsequenceOfItself(inSector);
    }
    SubsequenceTransitive(inColour, inSector, pearls);
  }

  lemma {:induction false} SubsequenceOfItself<T>(s: seq<T>)
    ensures IsSubsequence(s, s)
  {
    if s != [] {
      SubsequenceOfItself(s[1..]);
    }
  }

  /** Which message ends the command, and when. */
  lemma StopMessages(stored: Option<seq<Pearl>>, sectorFilter: Option<string>, colourFilter: Option<string>)
    ensures stored.GetOr([]) == [] ==> Select(stored, sectorFilter, colourFilter) == Stop("No pearls found.")
    ensures stored.GetOr([]) != [] && Given(sectorFilter) && BySector(stored.GetOr([]), sectorFilter) == [] ==>
      Select(stored, sectorFilter, colourFilter) == Stop("No pearls found in sector " + sectorFilter.value + ".")
    ensures (stored.GetOr([]) != [] && BySector(stored.GetOr([]), sectorFilter) != [] && Given(colourFilter)
             && ByColour(BySector(stored.GetOr([]), sectorFilter), colourFilter) == []) ==>
      Select(stored, sectorFilter, colourFilter) == Stop("No pearls found with color " + colourFilter.value + ".")
    ensures Select(stored, sectorFilter, colourFilter).Stop? <==>
      || stored.GetOr([]) == []
      || (Given(sectorFilter) && BySector(stored.GetOr([]), sectorFilter) == [])
      || (Given(colourFilter) && ByColour(BySector(stored.GetOr([]), sectorFilter), colourFilter) == [])
  {
    if !Given(sectorFilter) {
      assert BySector(stored.GetOr([]), sectorFilter) == stored.GetOr([]);
    }
  }

  /* ---------------------------------------------------------------- */

  /** Some pearl of the list has that colour. */
  predicate HasColour(pearls: seq<Pearl>, colour: string) {
    exists i :: 0 <= i < |pearls| && pearls[i].color == colour
  }

  /**
   * The colours of the list, each once, in the order they first appear: the
   * key order of the grouping object.
   */
  function Colours(pearls: seq<Pearl>): (cs: seq<string>)
    ensures |cs| <= |pearls|
    ensures cs == [] <==> pearls == []
  {
    if pearls == [] then []
    else
      var prev := Colours(pearls[..|pearls| - 1]);
      var c := pearls[|pearls| - 1].color;
      if c in prev then prev else prev + [c]
  }

  /** The position of the first pearl of a colour. */
  function FirstIndex(pearls: seq<Pearl>, colour: string): (k: nat)
    requires HasColour(pearls, colour)
    ensures k < |pearls| && pearls[k].color == colour
    ensures forall j :: 0 <= j < k ==> pearls[j].color != colour
  {
    var init := pearls[..|pearls| - 1];
    if HasColour(init, colour) then
      var k := FirstIndex(init, colour);
      assert forall j :: 0 <= j <= k ==> init[j] == pearls[j];
      k
    else
      assert forall j :: 0 <= j < |init| ==> init[j] == pearls[j];
      |pearls| - 1
  }

  lemma HasColourAppend(init: seq<Pearl>, p: Pearl, colour: string)
    ensures HasColour(init + [p], colour) <==> HasColour(init, colour) || p.color == colour
  {
    var ps := init + [p];
    if HasColour(init, colour) {
      var i :| 0 <= i < |init| && init[i].color == colour;
      assert ps[i] == init[i];
    }
    if HasColour(ps, colour) && p.color != colour {
      var i :| 0 <= i < |ps| && ps[i].color == colour;
      assert i < |init| && ps[i] == init[i];
    }
    assert ps[|init|] == p;
  }

  /**
   * `Colours` lists exactly the colours that occur, none twice, in the order
   * of their first occurrence.
   */
  lemma {:induction false} ColoursFacts(pearls: seq<Pearl>)
    ensures forall c :: c in Colours(pearls) <==> HasColour(pearls, c)
    ensures forall i, j :: 0 <= i < j < |Colours(pearls)| ==> Colours(pearls)[i] != Colours(pearls)[j]
    ensures forall i, j :: 0 <= i < j < |Colours(pearls)| ==>
      FirstIndex(pearls, Colours(pearls)[i]) < FirstIndex(pearls, Colours(pearls)[j])
  {
    if pearls != [] {
      var init := pearls[..|pearls| - 1];
      var p := pearls[|pearls| - 1];
      assert pearls == init + [p];
      ColoursFacts(init);
      forall c ensures HasColour(pearls, c) <==> HasColour(init, c) || p.color == c {
        HasColourAppend(init, p, c);
      }
      var prev := Colours(init);
      forall c | c in prev ensures FirstIndex(pearls, c) == FirstIndex(init, c) {
      }
      if p.color !in prev {
        assert FirstIndex(pearls, p.color) == |init|;
      }
    }
  }

  /** No pearl of a colour, no pearl in its group. */
  lemma AbsentColourEmptyGroup(pearls: seq<Pearl>, colour: string)
    requires !HasColour(pearls, colour)
    ensures WithColour(pearls, colour) == []
  {
    FilterKeepsNone(pearls, ColourIs(colour));
  }

  /**
   * The grouping loop: a dictionary from colour to that colour's pearls, in
   * list order, with the keys in first-appearance order.
   */
  method GroupByColour(pearls: seq<Pearl>) returns (colours: seq<string>, groups: map<string, seq<Pearl>>)
    ensures colours == Colours(pearls)
    ensures forall c :: c in groups <==> c in colours
    ensures forall c :: c in groups ==> groups[c] == WithColour(pearls, c)
  {
    colours := [];
    groups := map[];
    var i := 0;
    while i < |pearls|
      invariant 0 <= i <= |pearls|
      invariant Grouped(pearls[..i], colours, groups)
    {
      var pearl := pearls[i];
      ghost var before, keysBefore := groups, colours;
      var group := if pearl.color in groups then groups[pearl.color] else [];
      if pearl.color !in groups {
        colours := colours + [pearl.color];
      }
      groups := groups[pearl.color := group + [pearl]];
      GroupingStep(pearls, i, keysBefore, before, colours, groups);
      i := i + 1;
    }
    GroupedWhole(pearls, colours, groups);
  }

  /** The invariant at the end of the loop is the method's postcondition. */
  lemma GroupedWhole(pearls: seq<Pearl>, colours: seq<string>, groups: map<string, seq<Pearl>>)
    requires Grouped(pearls[..|pearls|], colours, groups)
    ensures colours == Colours(pearls)
    ensures forall c :: c in groups <==> c in colours
    ensures forall c :: c in groups ==> groups[c] == WithColour(pearls, c)
  {
    assert pearls[..|pearls|] == pearls;
  }

  /** The key list and the dictionary are those of `prefix`: the loop invariant of the grouping. */
  ghost predicate Grouped(prefix: seq<Pearl>, colours: seq<string>, groups: map<string, seq<Pearl>>) {
    && colours == Colours(prefix)
    && (forall c :: c in groups <==> c in colours)
    && (forall c :: c in groups ==> groups[c] == WithColour(prefix, c))
  }

  /** One pass of the grouping loop, from the groups of a prefix to those of the prefix one pearl longer. */
  lemma GroupingStep(pearls: seq<Pearl>, i: nat, colours: seq<string>, groups: map<string, seq<Pearl>>,
                     colours': seq<string>, groups': map<string, seq<Pearl>>)
    requires i < |pearls| && Grouped(pearls[..i], colours, groups)
    requires colours' == if pearls[i].color in groups then colours else colours + [pearls[i].color]
    requires groups' == groups[pearls[i].color := (if pearls[i].color in groups then groups[pearls[i].color] else []) + [pearls[i]]]
    ensures Grouped(pearls[..i + 1], colours', groups')
  {
    assert pearls[..i + 1] == pearls[..i] + [pearls[i]];
    ColoursStep(pearls[..i], pearls[i]);
    GroupsStep(pearls[..i], pearls[i], groups);
  }

  /** One pass of the grouping loop keeps the key list right. */
  lemma ColoursStep(prefix: seq<Pearl>, p: Pearl)
    ensures Colours(prefix + [p]) == if p.color in Colours(prefix) then Colours(prefix) else Colours(prefix) + [p.color]
  {
    assert (prefix + [p])[..|prefix|] == prefix;
  }

  /** One pass of the grouping loop keeps every group right. */
  lemma GroupsStep(prefix: seq<Pearl>, p: Pearl, groups: map<string, seq<Pearl>>)
    requires forall c :: c in groups <==> c in Colours(prefix)
    requires forall c :: c in groups ==> groups[c] == WithColour(prefix, c)
    ensures (if p.color in groups then groups[p.color] else []) + [p] == WithColour(prefix + [p], p.color)
    ensures forall c :: c in groups && c != p.color ==> groups[c] == WithColour(prefix + [p], c)
  {
    WithColourAppend(prefix, p, p.color);
    if p.color !in groups {
      ColoursFacts(prefix);
      AbsentColourEmptyGroup(prefix, p.color);
    }
    forall c | c in groups && c != p.color
      ensures groups[c] == WithColour(prefix + [p], c)
    {
      WithColourAppend(prefix, p, c);
    }
  }

  /** Every pearl lands in exactly one group: the one of its colour. */
  lemma EachPearlInOneGroup(pearls: seq<Pearl>, p: Pearl)
    requires p in pearls
    ensures p.color in Colours(pearls)
    ensures p in WithColour(pearls, p.color)
    ensures multiset(WithColour(pearls, p.color))[p] == multiset(pearls)[p]
    ensures forall c :: c != p.color ==> p !in WithColour(pearls, c)
  {
    ColoursFacts(pearls);
    forall c ensures p in WithColour(pearls, c) <==> p.color == c {
      WithColourMeaning(pearls, c);
    }
    WithColourMeaning(pearls, p.color);
    var i :| 0 <= i < |pearls| && pearls[i] == p;
    assert HasColour(pearls, p.color);
  }

  /** The total size of the groups of the given colours. */
  function GroupSizes(pearls: seq<Pearl>, colours: seq<string>): nat {
    if colours == [] then 0
    else GroupSizes(pearls, colours[..|colours| - 1]) + |WithColour(pearls, colours[|colours| - 1])|
  }

  /** One more pearl adds one to the total when its colour is among distinct colours, and nothing otherwise. */
  lemma {:induction false} GroupSizesAppend(init: seq<Pearl>, p: Pearl, colours: seq<string>)
    requires forall i, j :: 0 <= i < j < |colours| ==> colours[i] != colours[j]
    ensures GroupSizes(init + [p], colours) == GroupSizes(init, colours) + (if p.color in colours then 1 else 0)
  {
    if colours != [] {
      var front := colours[..|colours| - 1];
      var c := colours[|colours| - 1];
      assert colours == front + [c];
      GroupSizesAppend(init, p, front);
      WithColourAppend(init, p, c);
      assert p.color in colours <==> p.color in front || p.color == c;
      assert p.color == c ==> p.color !in front;
    }
  }

  /** The group sizes add up to the number of pearls listed. */
  lemma {:induction false} GroupSizesSum(pearls: seq<Pearl>)
    ensures GroupSizes(pearls, Colours(pearls)) == |pearls|
  {
    if pearls != [] {
      var init := pearls[..|pearls| - 1];
      var p := pearls[|pearls| - 1];
      assert pearls == init + [p];
      GroupSizesSum(init);
      ColoursFacts(init);
      var prev := Colours(init);
      GroupSizesAppend(init, p, prev);
      if p.color !in prev {
        assert (prev + [p.color])[..|prev|] == prev;
        WithColourAppend(init, p, p.color);
        AbsentColourEmptyGroup(init, p.color);
      }
    }
  }

  /* ---------------------------------------------------------------- */

  /** The sort comparator: the x difference, or the y difference when x is equal; negative when `a` comes first. */
  function ComparePositions(a: Pearl, b: Pearl): (d: int)
    ensures d < 0 <==> a.x < b.x || (a.x == b.x && a.y < b.y)
    ensures d == 0 <==> a.x == b.x && a.y == b.y
  {
    if a.x - b.x != 0 then a.x - b.x else a.y - b.y
  }

  /** `a` may stay before `b`. */
  predicate InOrder(a: Pearl, b: Pearl) {
    ComparePositions(a, b) <= 0
  }

  /** The comparator orders by x, then by y. */
  lemma ComparatorIsPositionOrder(a: Pearl, b: Pearl)
    ensures InOrder(a, b) <==> a.x < b.x || (a.x == b.x && a.y <= b.y)
    ensures InOrder(a, b) || InOrder(b, a)
  {
  }

  predicate SortedByPosition(s: seq<Pearl>) {
    forall i, j :: 0 <= i < j < |s| ==> InOrder(s[i], s[j])
  }

  /** Puts `p` after the last element of `s` that may precede it. */
  function Insert(s: seq<Pearl>, p: Pearl): (r: seq<Pearl>)
    ensures multiset(r) == multiset(s) + multiset{p}
  {
    if s == [] then [p]
    else if InOrder(s[|s| - 1], p) then s + [p]
    else
      var init := s[..|s| - 1];
      assert s == init + [s[|s| - 1]];
      Insert(init, p) + [s[|s| - 1]]
  }

  /** The group order after `sort`: stable insertion by position. */
  function SortByPosition(s: seq<Pearl>): (r: seq<Pearl>)
    ensures multiset(r) == multiset(s)
  {
    if s == [] then []
    else
      assert s == s[..|s| - 1] + [s[|s| - 1]];
      Insert(SortByPosition(s[..|s| - 1]), s[|s| - 1])
  }

  lemma {:induction false} InsertSorted(s: seq<Pearl>, p: Pearl)
    requires SortedByPosition(s)
    ensures SortedByPosition(Insert(s, p))
  {
    if s != [] && !InOrder(s[|s| - 1], p) {
      var init := s[..|s| - 1];
      var last := s[|s| - 1];
      InsertSorted(init, p);
      var r := Insert(init, p);
      forall q | q in r ensures InOrder(q, last) {
        assert q in multiset(r);
        assert q == p || q in multiset(init);
      }
      forall i, j | 0 <= i < j < |r| + 1 ensures InOrder((r + [last])[i], (r + [last])[j]) {
        if j == |r| {
          assert (r + [last])[i] == r[i] && r[i] in r;
        } else {
          assert (r + [last])[i] == r[i] && (r + [last])[j] == r[j];
        }
      }
    }
  }

  /** The sorted group is ordered by position and holds the same pearls. */
  lemma {:induction false} SortIsSortedPermutation(s: seq<Pearl>)
    ensures SortedByPosition(SortByPosition(s))
    ensures multiset(SortByPosition(s)) == multiset(s)
    ensures |SortByPosition(s)| == |s|
  {
    if s != [] {
      SortIsSortedPermutation(s[..|s| - 1]);
      InsertSorted(SortByPosition(s[..|s| - 1]), s[|s| - 1]);
    }
    assert |multiset(SortByPosition(s))| == |multiset(s)|;
  }

  /** Stable: a group already in position order is left as it is. */
  lemma {:induction false} SortKeepsSorted(s: seq<Pearl>)
    requires SortedByPosition(s)
    ensures SortByPosition(s) == s
  {
    if s != [] {
      var init := s[..|s| - 1];
      assert SortedByPosition(init) by {
        forall i, j | 0 <= i < j < |init| ensures InOrder(init[i], init[j]) {
          assert init[i] == s[i] && init[j] == s[j];
        }
      }
      SortKeepsSorted(init);
      if init != [] {
        assert init[|init| - 1] == s[|s| - 2];
      }
      assert init + [s[|s| - 1]] == s;
    }
  }

  /* ---------------------------------------------------------------- */

  /** `toUpperCase` on the first character of a colour string, for ASCII letters. */
  function UpperChar(c: char): char {
    if 'a' <= c <= 'z' then ((c as int) - 32) as char else c
  }

  /** The colour string with its first character upper-cased and the rest kept. */
  function Capitalize(s: string): (r: string)
    ensures |r| == |s|
    ensures s != [] ==> r[1..] == s[1..] && LowerChar(r[0]) == LowerChar(s[0])
  {
    if s == [] then [] else [UpperChar(s[0])] + s[1..]
  }

  /** Capitalising changes only the first character, and only its case. */
  lemma CapitalizeOnlyFirst(s: string)
    ensures s != [] ==> Capitalize(s)[1..] == s[1..]
    ensures ToLower(Capitalize(s)) == ToLower(s)
    ensures s != [] && 'a' <= s[0] <= 'z' ==> 'A' <= Capitalize(s)[0] <= 'Z'
  {
    if s != [] {
      var r := Capitalize(s);
      assert LowerChar(r[0]) == LowerChar(s[0]);
      assert forall i :: 1 <= i < |s| ==> r[i] == s[i];
    }
  }

  /** The title of a group's field: the colour capitalised, then the number of pearls in parentheses. */
  function FieldName(colour: string, count: nat): (name: string)
    ensures Capitalize(colour) + " (" <= name && name[|name| - 1] == ')'
  {
    Capitalize(colour) + " (" + NatToString(count) + ")"
  }

  /** Reads the count back out of a field title for the given colour. */
  function ReadCount(name: string, colour: string): Option<nat> {
    var head := Capitalize(colour) + " (";
    if |name| > |head| + 1 && name[..|head|] == head && name[|name| - 1] == ')'
       && AllDigits(name[|head|..|name| - 1])
    then Some(DecimalValue(name[|head|..|name| - 1]))
    else None
  }

  /** The count in a title is recoverable: reading it back gives the group's size. */
  lemma FieldNameRoundTrip(colour: string, count: nat)
    ensures ReadCount(FieldName(colour, count), colour) == Some(count)
  {
    var head := Capitalize(colour) + " (";
    var digits := NatToString(count);
    var name := FieldName(colour, count);
    assert name == head + digits + ")";
    assert name[..|head|] == head;
    assert name[|head|..|name| - 1] == digits;
    DecimalRoundTrip(count);
  }

  lemma FieldNameExamples()
    ensures FieldName("red", 3) == "Red (3)"
    ensures FieldName("magenta", 12) == "Magenta (12)"
  {
    assert NatToString(3) == "3";
    assert NatToString(12) == NatToString(1) + "2";
    TitleOf("red", "Red", 3, "3");
    TitleOf("magenta", "Magenta", 12, "12");
  }

  /** A title assembled from its capitalised colour and its count's digits. */
  lemma TitleOf(colour: string, capitalised: string, count: nat, digits: string)
    requires colour != [] && capitalised == [UpperChar(colour[0])] + colour[1..] && NatToString(count) == digits
    ensures FieldName(colour, count) == capitalised + " (" + digits + ")"
  {
  }

  /** A pearl's line in the field: its coordinates as `(x, y)`, each through `addNumberPrefix`. */
  function Location(p: Pearl): string {
    At(p.x, p.y)
  }

  function Locations(group: seq<Pearl>): (ls: seq<string>)
    ensures |ls| == |group|
    ensures forall i :: 0 <= i < |group| ==> ls[i] == Location(group[i])
  {
    seq(|group|, i requires 0 <= i < |group| => Location(group[i]))
  }

  /** The lines joined with a newline between consecutive lines. */
  function JoinLines(lines: seq<string>): string {
    if |lines| == 0 then ""
    else if |lines| == 1 then lines[0]
    else JoinLines(lines[..|lines| - 1]) + "\n" + lines[|lines| - 1]
  }

  /** The number of line breaks in a string. */
  function Newlines(s: string): nat {
    if s == [] then 0 else Newlines(s[..|s| - 1]) + (if s[|s| - 1] == '\n' then 1 else 0)
  }

  lemma {:induction false} NewlinesAppend(a: string, b: string)
    ensures Newlines(a + b) == Newlines(a) + Newlines(b)
    decreases |b|
  {
    if b == [] {
      assert a + b == a;
    } else {
      assert (a + b)[..|a + b| - 1] == a + b[..|b| - 1];
      assert (a + b)[|a + b| - 1] == b[|b| - 1];
      NewlinesAppend(a, b[..|b| - 1]);
    }
  }

  /** Joining lines that hold no break gives one break fewer than lines, and an empty join only for no lines. */
  lemma {:induction false} JoinLinesCount(lines: seq<string>)
    requires |lines| > 0
    requires forall i :: 0 <= i < |lines| ==> lines[i] != "" && Newlines(lines[i]) == 0
    ensures Newlines(JoinLines(lines)) == |lines| - 1
    ensures JoinLines(lines) != "" && JoinLines(lines)[0] == lines[0][0]
  {
    if |lines| > 1 {
      var init := lines[..|lines| - 1];
      JoinLinesCount(init);
      assert init[0] == lines[0];
      NewlinesAppend(JoinLines(init), "\n");
      NewlinesAppend(JoinLines(init) + "\n", lines[|lines| - 1]);
      assert Newlines("\n") == 1 by { assert "\n"[..0] == []; }
    }
  }

  /** A string of digits, signs and punctuation other than a line break has no line break. */
  lemma NoNewlines(s: string)
    requires forall i :: 0 <= i < |s| ==> s[i] != '\n'
    ensures Newlines(s) == 0
    decreases |s|
  {
    if s != [] {
      NoNewlines(s[..|s| - 1]);
    }
  }

  /** Every location line is a single non-empty line. */
  lemma LocationIsOneLine(p: Pearl)
    ensures Location(p) != "" && Newlines(Location(p)) == 0
  {
    var x, y := AddNumberPrefix(p.x), AddNumberPrefix(p.y);
    PrefixIsOneLine(p.x);
    PrefixIsOneLine(p.y);
    NoNewlines(x);
    NoNewlines(y);
    NoNewlines("(");
    NoNewlines(", ");
    NoNewlines(")");
    NewlinesAppend("(", x);
    NewlinesAppend("(" + x, ", ");
    NewlinesAppend("(" + x + ", ", y);
    NewlinesAppend("(" + x + ", " + y, ")");
  }

  lemma PrefixIsOneLine(n: int)
    ensures forall i :: 0 <= i < |AddNumberPrefix(n)| ==> AddNumberPrefix(n)[i] != '\n'
  {
    if n > 0 {
      PositiveShape(n);
    } else {
      NonPositiveShape(n);
      if n < 0 {
        assert AllDigits(AddNumberPrefix(n)[1..]);
      }
    }
  }

  /** The field text: one location per line, or `None` exactly when there is none. */
  function FieldValue(group: seq<Pearl>): (v: string)
    ensures v != ""
    ensures v == "None" <==> group == []
  {
    LocationLinesStart(group);
    var joined := JoinLines(Locations(group));
    if joined == "" then "None" else joined
  }

  /** The joined locations are empty only for an empty group, and otherwise open with the first `(`. */
  lemma LocationLinesStart(group: seq<Pearl>)
    ensures group == [] ==> JoinLines(Locations(group)) == ""
    ensures group != [] ==> JoinLines(Locations(group)) != "" && JoinLines(Locations(group))[0] == '('
  {
    if group != [] {
      var ls := Locations(group);
      forall i | 0 <= i < |ls| ensures ls[i] != "" && Newlines(ls[i]) == 0 {
        LocationIsOneLine(group[i]);
      }
      JoinLinesCount(ls);
      assert ls[0][0] == '(';
    }
  }

  /** A non-empty group's text is its locations, one per line, never the `None` fallback. */
  lemma FieldValueLines(group: seq<Pearl>)
    requires group != []
    ensures FieldValue(group) == JoinLines(Locations(group)) != "None"
    ensures Newlines(FieldValue(group)) == |group| - 1
  {
    var ls := Locations(group);
    forall i | 0 <= i < |ls| ensures ls[i] != "" && Newlines(ls[i]) == 0 {
      LocationIsOneLine(group[i]);
    }
    JoinLinesCount(ls);
    assert ls[0][0] == '(';
  }

  /** One embed field; every field the command adds is not inline. */
  datatype Field = Field(name: string, value: string)

  /** The command's answer: a text message, or the embed with its fields. */
  datatype ListReply = Message(text: string) | Embed(fields: seq<Field>)

  /** The field added for a key and its (sorted) group. */
  function FieldOf(colour: string, group: seq<Pearl>): Field {
    Field(FieldName(colour, |group|), FieldValue(group))
  }

  /** The field of one colour: its pearls sorted by position, counted and listed. */
  function GroupField(pearls: seq<Pearl>, colour: string): Field {
    FieldOf(colour, SortByPosition(WithColour(pearls, colour)))
  }

  /** The whole command as a function of the stored list and the two options. */
  function ListReplyFor(stored: Option<seq<Pearl>>, sectorFilter: Option<string>, colourFilter: Option<string>): (r: ListReply)
    ensures r.Message? <==> Select(stored, sectorFilter, colourFilter).Stop?
    ensures r.Embed? ==> 1 <= |r.fields| <= |Select(stored, sectorFilter, colourFilter).pearls|
  {
    match Select(stored, sectorFilter, colourFilter)
    case Stop(message) => Message(message)
    case Listed(pearls) =>
      var colours := Colours(pearls);
      Embed(seq(|colours|, k requires 0 <= k < |colours| => GroupField(pearls, colours[k])))
  }

  /** The field of a colour that occurs: its count reads back as the group size, and it lists one line per pearl. */
  lemma GroupFieldFacts(pearls: seq<Pearl>, colour: string)
    requires HasColour(pearls, colour)
    ensures ReadCount(GroupField(pearls, colour).name, colour) == Some(|WithColour(pearls, colour)|)
    ensures GroupField(pearls, colour).value != "None"
    ensures Newlines(GroupField(pearls, colour).value) + 1 == |WithColour(pearls, colour)|
  {
    var unsorted := WithColour(pearls, colour);
    var group := SortByPosition(unsorted);
    SortIsSortedPermutation(unsorted);
    FieldNameRoundTrip(colour, |group|);
    var i :| 0 <= i < |pearls| && pearls[i].color == colour;
    WithColourMeaning(pearls, colour);
    assert pearls[i] in unsorted;
    FieldValueLines(group);
  }

  /**
   * The embed has one field per colour present, in first-appearance order;
   * each counts and lists that colour's pearls, one per line, and the counts
   * add up to the number of pearls selected.
   */
  lemma EmbedDescribesGroups(stored: Option<seq<Pearl>>, sectorFilter: Option<string>, colourFilter: Option<string>)
    requires Select(stored, sectorFilter, colourFilter).Listed?
    ensures var pearls := Select(stored, sectorFilter, colourFilter).pearls;
      var fields := ListReplyFor(stored, sectorFilter, colourFilter).fields;
      && |fields| == |Colours(pearls)|
      && (forall k :: 0 <= k < |fields| ==>
            && ReadCount(fields[k].name, Colours(pearls)[k]) == Some(|WithColour(pearls, Colours(pearls)[k])|)
            && fields[k].value != "None"
            && Newlines(fields[k].value) + 1 == |WithColour(pearls, Colours(pearls)[k])|)
      && GroupSizes(pearls, Colours(pearls)) == |pearls|
  {
    var pearls := Select(stored, sectorFilter, colourFilter).pearls;
    var colours := Colours(pearls);
    var fields := ListReplyFor(stored, sectorFilter, colourFilter).fields;
    ColoursFacts(pearls);
    forall k | 0 <= k < |fields|
      ensures fields[k] == GroupField(pearls, colours[k])
      ensures ReadCount(fields[k].name, colours[k]) == Some(|WithColour(pearls, colours[k])|)
      ensures fields[k].value != "None"
      ensures Newlines(fields[k].value) + 1 == |WithColour(pearls, colours[k])|
    {
      GroupFieldFacts(pearls, colours[k]);
    }
    GroupSizesSum(pearls);
  }

  /**
   * Runs the command: filter, group, sort each group in place, then add one
   * field per group, in key order.
   */
  method Execute(stored: Option<seq<Pearl>>, sectorFilter: Option<string>, colourFilter: Option<string>)
    returns (reply: ListReply)
    ensures reply == ListReplyFor(stored, sectorFilter, colourFilter)
  {
    var selection := Select(stored, sectorFilter, colourFilter);
    if selection.Stop? {
      return Message(selection.message);
    }
    var pearls := selection.pearls;
    var colours, groups := GroupByColour(pearls);
    ColoursFacts(pearls);
    groups := SortGroups(pearls, colours, groups);
    var fields := GroupFields(pearls, colours, groups);
    reply := Embed(fields);
  }

  /** The loop that sorts every colour's group in place, key by key. */
  method SortGroups(pearls: seq<Pearl>, colours: seq<string>, groups: map<string, seq<Pearl>>)
    returns (sorted: map<string, seq<Pearl>>)
    requires forall i, j :: 0 <= i < j < |colours| ==> colours[i] != colours[j]
    requires forall c :: c in groups <==> c in colours
    requires forall c :: c in groups ==> groups[c] == WithColour(pearls, c)
    ensures forall c :: c in sorted <==> c in colours
    ensures forall c :: c in sorted ==> sorted[c] == SortByPosition(WithColour(pearls, c))
  {
    sorted := groups;
    var i := 0;
    while i < |colours|
      invariant 0 <= i <= |colours|
      invariant forall c :: c in sorted <==> c in colours
      invariant forall k :: 0 <= k < i ==> sorted[colours[k]] == SortByPosition(WithColour(pearls, colours[k]))
      invariant forall k :: i <= k < |colours| ==> sorted[colours[k]] == WithColour(pearls, colours[k])
    {
      var colour := colours[i];
      var group := sorted[colour];
      sorted := sorted[colour := SortByPosition(group)];
      SortedStep(pearls, colours, i, sorted);
      i := i + 1;
    }
    forall c | c in sorted ensures sorted[c] == SortByPosition(WithColour(pearls, c)) {
      var k :| 0 <= k < |colours| && colours[k] == c;
    }
  }

  lemma SortedStep(pearls: seq<Pearl>, colours: seq<string>, i: nat, sorted: map<string, seq<Pearl>>)
    requires i < |colours|
    requires forall j, k :: 0 <= j < k < |colours| ==> colours[j] != colours[k]
    requires forall c :: c in sorted <==> c in colours
    requires forall k :: 0 <= k < i ==> sorted[colours[k]] == SortByPosition(WithColour(pearls, colours[k]))
    requires forall k :: i < k < |colours| ==> sorted[colours[k]] == WithColour(pearls, colours[k])
    requires sorted[colours[i]] == SortByPosition(WithColour(pearls, colours[i]))
    ensures forall k :: 0 <= k < i + 1 ==> sorted[colours[k]] == SortByPosition(WithColour(pearls, colours[k]))
  {
  }

  /** The loop adding one field per key, in key order. */
  method GroupFields(pearls: seq<Pearl>, colours: seq<string>, groups: map<string, seq<Pearl>>)
    returns (fields: seq<Field>)
    requires forall c :: c in colours ==> c in groups && groups[c] == SortByPosition(WithColour(pearls, c))
    ensures |fields| == |colours|
    ensures forall k :: 0 <= k < |colours| ==> fields[k] == GroupField(pearls, colours[k])
  {
    ghost var expected := seq(|colours|, k requires 0 <= k < |colours| => GroupField(pearls, colours[k]));
    fields := [];
    var i := 0;
    while i < |colours|
      invariant 0 <= i <= |colours|
      invariant fields == expected[..i]
    {
      var field := FieldOf(colours[i], groups[colours[i]]);
      assert field == expected[i];
      PrefixExtend(expected, i);
      fields := fields + [field];
      i := i + 1;
    }
    assert expected[..|colours|] == expected;
  }
}
