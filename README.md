# Pearl map bot: a verified model of its rendering core and command rules

The bot records "pearl" locations at integer world coordinates in
[-160, 160]² and answers slash commands. This project models the parts of
it that hold logic:

- **The map renderer** (`generatePearlMap` in `src/utils/imageGenerator.ts`).
  - `worldToPixel` maps a world point onto the interior rectangle
    (51, 59)-(945, 898) of the base image.
  - The dot radius is `max(4, round(min(w, h) / 128))`, and the border radius is two more.
  - `drawCircle` is a hard-edged disk rasteriser. It writes into the image's pixel buffer in place and skips pixels off the image.
  - Each pearl, in list order, is painted as a black border disk and then a disk in its colour.
- **The older map command** (`show-map.ts`). It has its own copy of the
  transform and a string colour ladder, `parseColor`. It draws a black ring
  (`dot² < d² ≤ border²`) and then the colour disk.
- **Colour resolution.** This is the closed `PearlColor` enum with its table
  `GetPearlHexColor`, which sends every unknown tag to white.
- **The add and clear commands:**
  - the sign-based sector, where zero counts as positive;
  - the in-place append;
  - the duplicate check;
  - the confirmation prompt when yesterday's list holds the same pearl;
  - the reply chosen from the number of deleted rows.
- **The list command:**
  - the sector-label filter and the colour filter;
  - grouping into a dictionary keyed by colour;
  - sorting each group by x, then y;
  - one embed field per group.
- **`addNumberPrefix`**, which prints a coordinate.

How the model is built:

- **Pixels.** The image is a class `Raster.Image` holding `width`, `height`
  and an `array2<int>`.
  - `DrawCircle`, `FillDisk` and `FillRing` are methods with the source's nested loops.
  - Their postconditions are stated pixel by pixel against `DiskPixel` and `RingPixel`.
- **Whole pictures.** The final picture is specified by `Raster.Render` (disk, then disk)
  and `Raster.RenderRings` (ring, then disk). Each is a left fold over the
  markers at one pixel. The two paint loops are proved against them.
- **Loops that build state** are methods proved against specification
  functions:
  - the grouping loop, the sort loop and the field loop of the list command;
  - the two paint loops;
  - the add command's run, with its in-place `push` on a `PearlList` object.
- **Pure code** is modelled as functions with lemmas about them. This covers the transform, both colour resolvers, the filters, the sector rule and the reply choices.

Rounding follows `Math.round` on the exact rational: `floor((2n + d) / (2d))`,
so halves go up.

The model follows three behaviours of the code:

- `parseColor` trims whitespace before stripping `#`.
- The add, list and map commands read and write a JSON list; the clear command calls SQL.
- With yesterday's file present but no matching pearl in it, the add command neither adds nor replies. The `else` at `add-pearl.ts:126` belongs to the existence test at line 91. `AddPearl.UnmatchedYesterdayDoesNothing` states this.

## Model

| member | source | states |
|---|---|---|
| Geometry.RoundDiv | src/utils/imageGenerator.ts:27 | the result is the integer nearest n/d, halves rounded up (`Math.round` on the exact quotient) |
| Geometry.AxisToPixel | src/utils/imageGenerator.ts:26-31 | the pixel is the nearest integer to `origin + (v - worldMin) / span * (size - 1)` |
| Geometry.WorldToPixel | src/utils/imageGenerator.ts:24-32 | each pixel coordinate is the nearest integer, halves up, to the exact mapped value of its own world coordinate under the map data |
| Geometry.MapDataConsistent | src/utils/imageGenerator.ts:10-22 | the span is `worldMax - worldMin` and the interior width and height are 894 and 839, as the rectangle's corners give |
| Geometry.AxisMinimum | src/utils/imageGenerator.ts:26-31 | the world minimum lands exactly on the interior origin, on either axis and for any geometry |
| Geometry.AxisMaximum | src/utils/imageGenerator.ts:25-30 | the world maximum lands on `origin + size - 1`, one pixel short of the corner the comment names |
| Geometry.AxisMonotone | src/utils/imageGenerator.ts:26-31 | each axis is non-decreasing in its world coordinate |
| Geometry.AxisInRange | src/utils/imageGenerator.ts:26-31 | every in-range coordinate lands inside `[origin, origin + size - 1]` |
| Geometry.WorldMinimumCorner | src/utils/imageGenerator.ts:10-31 | `worldToPixel(-160, -160) = (51, 59)` |
| Geometry.WorldMaximumCorner | src/utils/imageGenerator.ts:24-31 | `worldToPixel(160, 160) = (944, 897)` |
| Geometry.WorldPointsLandInside | src/utils/imageGenerator.ts:24-31 | every world point of [-160, 160]² maps into [51, 944] × [59, 897] |
| Geometry.WorldToPixelSeparableAndMonotone | src/utils/imageGenerator.ts:26-31 | pixel x depends only on world x and pixel y only on world y; both are non-decreasing |
| Geometry.DotRadius | src/utils/imageGenerator.ts:61 | the radius is at least 4; once above 4 it is the rounded `min(w, h) / 128`; below 576 pixels it is 4 |
| Geometry.RadiiOfTestImage | src/utils/imageGenerator.ts:61-62 | a 996 × 958 image gets radius 7 and border 9 |
| PearlColors.PearlColor.Value | src/models/PearlColor.ts:1-10 | each member's string is its lowercase name: non-empty, all letters a-z |
| PearlColors.GetPearlHexColor | src/models/PearlColor.ts:12-33 | every result lies in [0, 0xffffff]; a tag that is no member's string gets white |
| PearlColors.MemberValues | src/models/PearlColor.ts:12-29 | each of the eight members maps to its fixed 24-bit value |
| PearlColors.MemberHex | src/models/PearlColor.ts:12-29 | for every member, looking up its string gives that member's value in an independent per-member table |
| PearlColors.MembersDistinct | src/models/PearlColor.ts:1-29 | distinct members have distinct strings and distinct colour values |
| PearlColors.UnknownIsWhite | src/models/PearlColor.ts:30-31 | the empty string, "Red" and "purple" fall to the default white |
| PearlColors.RedChannel | src/utils/imageGenerator.ts:35 | the red channel, bits 23-16, lies in [0, 255] |
| PearlColors.GreenChannel | src/utils/imageGenerator.ts:36 | the green channel, bits 15-8, lies in [0, 255] |
| PearlColors.BlueChannel | src/utils/imageGenerator.ts:37 | the blue channel, bits 7-0, lies in [0, 255] |
| PearlColors.PixelValue | src/utils/imageGenerator.ts:35-38 | the written colour is 24-bit and equals the input for every 24-bit input |
| PearlColors.ChannelsRoundTrip | src/commands/pearls/show-map.ts:114-116 | packing the three channels again gives the colour's low 24 bits |
| Raster.DiskByDistance | src/utils/imageGenerator.ts:43-45 | for r ≥ 0, the loop box plus the test `dx² + dy² ≤ r²` is exactly the distance test |
| Raster.DiskGrows | src/utils/imageGenerator.ts:43-45 | a point in a disk is in every larger disk |
| Raster.MarkOf | src/utils/imageGenerator.ts:65-66 | a marker keeps its centre, stores a 24-bit colour, and keeps a 24-bit colour as it is |
| Raster.Render | src/utils/imageGenerator.ts:64-72 | a pixel after the markers holds its base value, black, or the colour of one of the markers: drawing never makes up a colour |
| Raster.RenderRings | src/commands/pearls/show-map.ts:111-145 | the same for the older command's ring markers: base value, black, or one marker's colour |
| Raster.RenderStep | src/utils/imageGenerator.ts:64-72 | drawing one more pearl applies its marker on top of the picture so far |
| Raster.DisksExtendRender | src/utils/imageGenerator.ts:69-71 | a border disk and then a dot drawn over the render of a prefix give the render with that pearl appended |
| Raster.RingAndDiskExtendRender | src/commands/pearls/show-map.ts:118-144 | a ring and then a dot drawn over the ring render of a prefix give the ring render with that pearl appended |
| Raster.RingMarkExtendsRender | src/commands/pearls/show-map.ts:118-144 | one ring marker drawn over the ring render of a prefix gives the ring render with that marker appended |
| Raster.MarkerZones | src/utils/imageGenerator.ts:68-71 | after one pearl: `d² ≤ dot²` has its colour, `dot² < d² ≤ border²` is black, pixels beyond are untouched |
| Raster.RingThenDiskIsDiskThenDisk | src/commands/pearls/show-map.ts:119-144 | ring-then-disk leaves every pixel as border-disk-then-disk does |
| Raster.RenderingsAgree | src/commands/pearls/show-map.ts:111-145 | a whole list drawn ring-then-disk equals the list drawn disk-then-disk |
| Raster.CoveringMarkerDecides | src/utils/imageGenerator.ts:69-71 | a marker whose border covers a pixel decides it regardless of what was there |
| Raster.LastCoverWins | src/utils/imageGenerator.ts:64-72 | a pixel covered by several markers ends with what the last covering one wrote |
| Raster.UncoveredKeepsBase | src/utils/imageGenerator.ts:64-72 | a pixel no marker covers keeps its base value |
| Raster.RowOffsetsExact | src/utils/imageGenerator.ts:44-45 | the inner loop's painted offsets are exactly the disk points of that row from dx on, none twice |
| Raster.RowsOffsetsExact | src/utils/imageGenerator.ts:43-45 | the outer loop's painted offsets are exactly the disk points from row dy down, none twice |
| Raster.DiskOffsetsExact | src/utils/imageGenerator.ts:43-45 | the painted offsets are exactly `{(dx, dy) : dx² + dy² ≤ r²}`, none twice |
| Raster.RadiusFourDisk | src/utils/imageGenerator.ts:43-48 | for radius 4 exactly 49 offsets are painted; (5, 0) is not, (4, 0) is, (3, 3) is not |
| Raster.Image.constructor | src/utils/imageGenerator.ts:40-41 | the image's width and height are its buffer's dimensions |
| Raster.Image.OpaqueColour | src/utils/imageGenerator.ts:35-38 | the value written for a colour is its low 24 bits |
| Raster.Image.DrawCircle | src/utils/imageGenerator.ts:34-54 | every in-bounds pixel in the disk gets the colour; every other pixel keeps its value; nothing outside the buffer is written, for any centre |
| Raster.Image.FillDisk | src/utils/imageGenerator.ts:43-53 | the nested loops leave each in-bounds pixel as `DiskPixel` of its old value |
| Raster.Image.FillRing | src/commands/pearls/show-map.ts:119-130 | the ring loops set exactly the in-bounds pixels with `inner² < d² ≤ outer²` |
| Raster.Image.DrawMarker | src/utils/imageGenerator.ts:68-71 | every in-bounds pixel ends as its old value with the black border disk and then the coloured dot applied |
| Raster.Image.DrawMarks | src/utils/imageGenerator.ts:64-72 | every in-bounds pixel ends as `Render` of its old value over the markers, in list order |
| Raster.Image.DrawRingMarker | src/commands/pearls/show-map.ts:118-144 | every in-bounds pixel ends as its old value with the black ring and then the coloured dot applied |
| Raster.Image.DrawRingMarks | src/commands/pearls/show-map.ts:111-145 | every in-bounds pixel ends as `RenderRings` of its old value over the markers, in list order |
| ImageGenerator.PearlMark | src/utils/imageGenerator.ts:65-66 | a pearl's marker is centred at `worldToPixel` under `MAP_DATA` and coloured by the enum table |
| ImageGenerator.BorderRingWidth | src/utils/imageGenerator.ts:61-71 | with the border radius two more than the dot, along a ray from the centre the dot's last pixel is not black, the next two are in the black ring, and the third is outside the marker |
| ImageGenerator.GeneratePearlMap | src/utils/imageGenerator.ts:56-72 | after the loop every pixel is the base pixel with all pearls' markers drawn in list order |
| ImageGenerator.ScenarioMarks | src/utils/imageGenerator.ts:64-66 | a red pearl at (0, 0) is centred at (498, 478) and a blue one at (160, 160) at (944, 897) |
| ImageGenerator.TwoPearlScenario | src/utils/imageGenerator.ts:56-72 | on a 996 × 958 map these two pearls change exactly the pixels of their two border disks; those pixels show colour or black, and all others keep the base |
| ShowMap.SameGeometry | src/commands/pearls/show-map.ts:55-72 | the command's inline constants equal `MAP_DATA` |
| ShowMap.Shown | src/commands/pearls/show-map.ts:31-42 | with no filter all stored pearls are shown (none if the file is unreadable); with one, exactly the pearls of that colour, in order, each as often as it is stored |
| ShowMap.ShowMark | src/commands/pearls/show-map.ts:112-116 | a pearl's marker is at the inline transform and coloured by `parseColor(color \|\| '#ffffff')` |
| ShowMap.ShownColour | src/commands/pearls/show-map.ts:113 | never negative; a non-empty colour string is parsed as it is, and an empty one gives white |
| ShowMap.Execute | src/commands/pearls/show-map.ts:39-145 | nothing to show answers "No pearls found." and leaves the image alone; otherwise it answers with the map, whose every pixel is the ring render of the shown pearls over the base |
| ShowMap.PaintPearls | src/commands/pearls/show-map.ts:111-145 | the per-pearl ring and disk loops leave every pixel as the ring render of the pearls |
| ShowMap.SameMarker | src/commands/pearls/show-map.ts:74-116 | for an enum colour both commands place and colour a pearl identically |
| ShowMap.ShowMapMatchesGenerator | src/commands/pearls/show-map.ts:111-145 | for enum-coloured pearls the older command's picture equals the generator's, pixel by pixel |
| ShowMap.MissingColourIsWhite | src/commands/pearls/show-map.ts:113 | a pearl with no colour string is drawn white |
| ColorParsing.Trim | src/commands/pearls/show-map.ts:86 | the result starts and ends with no ECMAScript whitespace or line terminator |
| ColorParsing.StripHash | src/commands/pearls/show-map.ts:87 | one leading `#` is removed, and nothing else is |
| ColorParsing.ToLowerMeaning | src/commands/pearls/show-map.ts:99 | no ASCII capital or Kelvin sign is left; each capital becomes its small letter; other characters are kept; lowering twice is lowering once |
| ColorParsing.NamedHex | src/commands/pearls/show-map.ts:89-99 | exactly the eight member names have an entry, each six hex digits |
| ColorParsing.NamedValues | src/commands/pearls/show-map.ts:89-98 | each of the eight names has its fixed six-digit entry |
| ColorParsing.ParseColor | src/commands/pearls/show-map.ts:83-109 | the result is never negative; only an all-digit string can exceed 24 bits |
| ColorParsing.ReadNumber | src/commands/pearls/show-map.ts:100-108 | the decimal, hex and white rungs always give a non-negative colour; only a run of more than six decimal digits exceeds 24 bits |
| ColorParsing.ColorOrDefault | src/commands/pearls/show-map.ts:113 | the string passed on is never empty |
| ColorParsing.TrimSurrounding | src/commands/pearls/show-map.ts:86 | trimming ignores whitespace added on either side |
| ColorParsing.IgnoresSurroundingWhitespace | src/commands/pearls/show-map.ts:86 | surrounding whitespace never changes the colour |
| ColorParsing.IgnoresOneHash | src/commands/pearls/show-map.ts:87 | one leading `#` never changes the colour |
| ColorParsing.TwoHashesGiveWhite | src/commands/pearls/show-map.ts:87-108 | only one `#` is stripped, so `##...` is white |
| ColorParsing.NamesCaseInsensitive | src/commands/pearls/show-map.ts:89-101 | any spelling that lower-cases to a member name gives that member's table value |
| ColorParsing.NamedEntryMatchesTable | src/commands/pearls/show-map.ts:89-98 | each named entry reads as the enum table's value |
| ColorParsing.TableAgreesWithLadder | src/models/PearlColor.ts:12-29 | for every member, `GetPearlHexColor` equals `parseColor` of the member's string |
| ColorParsing.DigitsReadAsDecimal | src/commands/pearls/show-map.ts:101 | a string of decimal digits is read in base 10, whatever its length |
| ColorParsing.DecimalRendered | src/commands/pearls/show-map.ts:101 | the decimal rendering of any number reads back as that number |
| ColorParsing.SixHexDigitsReadAsHex | src/commands/pearls/show-map.ts:103 | six hex digits, not all decimal, with or without `#`, are read in base 16 |
| ColorParsing.WrongLengthHexIsWhite | src/commands/pearls/show-map.ts:103-108 | hex digits of any other length give white |
| ColorParsing.UnknownNameIsWhite | src/commands/pearls/show-map.ts:99-108 | a non-name holding a non-hex character gives white |
| ColorParsing.EmptyStrippedIsWhite | src/commands/pearls/show-map.ts:86-108 | an input that is empty once trimmed and stripped of its `#` (such as "#" or " # ") gives white |
| ColorParsing.UpperNameExample | src/commands/pearls/show-map.ts:99 | `parseColor("RED") = 0xff0000` |
| ColorParsing.LowerNameExample | src/commands/pearls/show-map.ts:99 | `parseColor("black") = 0` |
| ColorParsing.SixDigitExample | src/commands/pearls/show-map.ts:101 | `"123456"` is read in base 10 as 123456 |
| ColorParsing.EightDigitExample | src/commands/pearls/show-map.ts:101 | `"16711680"` gives 0xff0000 |
| ColorParsing.HexExample | src/commands/pearls/show-map.ts:103 | `"#00ff00"` gives 0x00ff00 |
| ColorParsing.FallbackExamples | src/commands/pearls/show-map.ts:104-108 | an unknown name, five hex digits and the empty string all give white |
| ColorParsing.DefaultStringIsWhite | src/commands/pearls/show-map.ts:113 | replacing an empty colour by `#ffffff` never changes the colour drawn |
| ColorParsing.HashedWhite | src/commands/pearls/show-map.ts:113 | `parseColor("#ffffff") = 0xffffff` |
| Models.WithColourMeaning | src/commands/pearls/list-pearls.ts:80 | the colour filter keeps exactly the pearls of that colour, in order, each as often as it occurs |
| Models.WithColour | src/commands/pearls/list-pearls.ts:80 | the filtered list is no longer than its input, and every pearl in it has the given colour |
| Models.WithColourAppend | src/commands/pearls/show-map.ts:41 | filtering a list with one more pearl adds that pearl exactly when its colour matches |
| Sequences.FilterIsSubsequence | src/commands/pearls/list-pearls.ts:59-72 | `filter` returns an order-preserving subsequence |
| Sequences.FilterCounts | src/commands/pearls/list-pearls.ts:59-72 | `filter` keeps every occurrence of an accepted value and none of a rejected one |
| Sequences.FilterKeepsAll | src/commands/pearls/list-pearls.ts:69-70 | a filter that accepts every element returns its input |
| AddPearl.SectorByQuadrant | src/commands/pearls/add-pearl.ts:141-143 | each sector is exactly one sign pattern, with zero counted as positive |
| AddPearl.SectorOf | src/commands/pearls/add-pearl.ts:141-143 | the sector is a right one iff x ≥ 0 and a bottom one iff y ≥ 0 |
| AddPearl.NewPearl | src/commands/pearls/add-pearl.ts:141-145 | the new record has the given x, y and colour, and its sector is the one its coordinates give |
| AddPearl.PearlList.constructor | src/commands/pearls/add-pearl.ts:75-80 | the object holds the loaded list |
| AddPearl.PearlList.AddPearl | src/commands/pearls/add-pearl.ts:140-145 | the list becomes the old list with exactly one record `{x, y, color, sector}` appended |
| AddPearl.AppendKeepsSectors | src/commands/pearls/add-pearl.ts:141-145 | appending keeps every stored sector equal to the one its coordinates give |
| AddPearl.AppendKeepsUnique | src/commands/pearls/add-pearl.ts:87-90 | appending a free position keeps positions unique |
| AddPearl.AddDecision | src/commands/pearls/add-pearl.ts:54-136 | a list is saved only when all three options are given, with the "Added a ..." reply; the prompt shows only for a pearl of that colour at that place in yesterday's list, with its text; no reply means no save and no prompt |
| AddPearl.Confirmation | src/commands/pearls/add-pearl.ts:94-123 | the prompt shows iff yesterday's list holds the pearl; a save happens iff it does and the answer is "Yes", and then it is the loaded list plus the new record; a reply follows iff the prompt showed |
| AddPearl.Execute | src/commands/pearls/add-pearl.ts:54-136 | the run's prompt, reply and saved list are those of the decision over its inputs |
| AddPearl.Confirm | src/commands/pearls/add-pearl.ts:91-125 | the yesterday branch's outcome is that of the confirmation rule; the object's list gains the new record when yesterday holds the pearl and the answer is "Yes", and is unchanged otherwise |
| AddPearl.SavedIsOneAppend | src/commands/pearls/add-pearl.ts:118-145 | whenever a list is written, it is the loaded list plus exactly the new record, and the reply is "Added a ..." |
| AddPearl.DuplicateBlocks | src/commands/pearls/add-pearl.ts:87-90 | a pearl at the same (x, y), in any colour, stops the add with the duplicate message |
| AddPearl.AddKeepsInvariants | src/commands/pearls/add-pearl.ts:87-145 | a list with unique positions and correct sectors keeps both after a save |
| AddPearl.YesterdayNeedsConfirmation | src/commands/pearls/add-pearl.ts:94-123 | a matching pearl from yesterday shows the prompt; the add happens iff the answer is "Yes"; "No" cancels; no answer fails |
| AddPearl.SavedWithoutPrompt | src/commands/pearls/add-pearl.ts:91-129 | a pearl is saved without a prompt iff the options are present, the list is readable, the position is free and yesterday's file is absent |
| AddPearl.UnmatchedYesterdayDoesNothing | src/commands/pearls/add-pearl.ts:91-126 | yesterday's file present without a matching pearl: no prompt, no reply, nothing saved |
| AddPearl.NonListFails | src/commands/pearls/add-pearl.ts:75-135 | a file that parses to something other than an array, today's or (for a free position) yesterday's, ends in the failure reply with nothing saved |
| AddPearl.MessageExample | src/commands/pearls/add-pearl.ts:88-128 | the added and duplicate messages print coordinates through `addNumberPrefix` |
| ListPearls.LabelTable | src/commands/pearls/list-pearls.ts:59-72 | the four labels select BottomLeft, BottomRight, TopLeft and TopRight; a point's sign label selects its sector |
| ListPearls.SectorForLabel | src/commands/pearls/list-pearls.ts:59-72 | a sector is selected iff the label is one of the four recognised ones |
| ListPearls.LabelsOfSector | src/commands/pearls/list-pearls.ts:59-72 | a recognised label selects a point's sector iff it is that point's sign label |
| ListPearls.SectorFilter | src/commands/pearls/list-pearls.ts:58-72 | the sector filter returns an order-preserving subsequence of exactly the pearls it accepts, each kept as often as it occurs |
| ListPearls.UnknownLabelKeepsAll | src/commands/pearls/list-pearls.ts:69-70 | an unrecognised label keeps every pearl |
| ListPearls.Select | src/commands/pearls/list-pearls.ts:53-85 | a listing is never empty; with no filter a non-empty store is listed whole; with a colour filter every listed pearl has that colour |
| ListPearls.LabelKeepsMatchingSigns | src/commands/pearls/list-pearls.ts:59-72 | with sectors stored as the add command derives them, a label keeps exactly the pearls whose signs it spells |
| ListPearls.SelectionIsFiltered | src/commands/pearls/list-pearls.ts:58-85 | the listed pearls are a non-empty subsequence of the stored ones: exactly those passing both filters, each as often as it is stored |
| ListPearls.StopMessages | src/commands/pearls/list-pearls.ts:53-85 | empty input, an empty sector and an empty colour each reply their own message; these are the only ways to stop |
| ListPearls.FirstIndex | src/commands/pearls/list-pearls.ts:88-91 | the index found is the first pearl of that colour |
| ListPearls.Colours | src/commands/pearls/list-pearls.ts:87-93 | there are no more keys than pearls, and no keys exactly when there are no pearls |
| ListPearls.ColoursFacts | src/commands/pearls/list-pearls.ts:87-95 | the keys are exactly the colours present, none twice, ordered by first occurrence |
| ListPearls.GroupByColour | src/commands/pearls/list-pearls.ts:87-93 | the loop's keys are the colours in first-appearance order, and each group is that colour's pearls in list order |
| ListPearls.GroupingStep | src/commands/pearls/list-pearls.ts:88-92 | one pass of the loop turns the keys and groups of a prefix into those of the prefix one pearl longer |
| ListPearls.EachPearlInOneGroup | src/commands/pearls/list-pearls.ts:87-93 | every pearl lands in the group of its colour, with all its occurrences, and in no other group |
| ListPearls.GroupSizesAppend | src/commands/pearls/list-pearls.ts:88-93 | one more pearl adds one to the total of the groups of distinct colours iff its colour is among them |
| ListPearls.GroupSizesSum | src/commands/pearls/list-pearls.ts:87-93 | the group sizes add up to the number of pearls |
| ListPearls.ComparePositions | src/commands/pearls/list-pearls.ts:96 | negative iff a comes first by x, then y; zero iff the positions are equal |
| ListPearls.ComparatorIsPositionOrder | src/commands/pearls/list-pearls.ts:96 | `a.x - b.x \|\| a.y - b.y` orders by x, then y, and is total |
| ListPearls.Insert | src/commands/pearls/list-pearls.ts:96 | inserting adds exactly one element |
| ListPearls.SortByPosition | src/commands/pearls/list-pearls.ts:96 | the sort is a permutation |
| ListPearls.InsertSorted | src/commands/pearls/list-pearls.ts:96 | inserting into a sorted group keeps it sorted |
| ListPearls.SortIsSortedPermutation | src/commands/pearls/list-pearls.ts:96 | each group ends sorted by x then y, as a permutation of its content |
| ListPearls.SortKeepsSorted | src/commands/pearls/list-pearls.ts:96 | the sort is stable: a group already in order stays as it is |
| ListPearls.SortGroups | src/commands/pearls/list-pearls.ts:95-97 | after the loop every key's group is its colour's pearls, sorted |
| ListPearls.Capitalize | src/commands/pearls/list-pearls.ts:111 | everything after the first character is kept, and the first changes at most in case |
| ListPearls.CapitalizeOnlyFirst | src/commands/pearls/list-pearls.ts:111 | capitalising changes only the first character and only its case, making a lowercase letter a capital |
| ListPearls.FieldName | src/commands/pearls/list-pearls.ts:111 | the title starts with the capitalised colour and ` (`, and ends with `)` |
| ListPearls.TitleOf | src/commands/pearls/list-pearls.ts:111 | a colour whose capitalised form and a count whose digits are known give exactly the title `Capitalised (digits)` |
| ListPearls.FieldNameRoundTrip | src/commands/pearls/list-pearls.ts:111 | a field title is the capitalised colour, then ` (count)`, from which the count reads back |
| ListPearls.FieldNameExamples | src/commands/pearls/list-pearls.ts:111 | `red` with 3 pearls is titled "Red (3)" |
| ListPearls.JoinLinesCount | src/commands/pearls/list-pearls.ts:106-108 | joining n single-line entries makes a non-empty text with n - 1 line breaks |
| ListPearls.LocationIsOneLine | src/commands/pearls/list-pearls.ts:107 | each location `(x, y)` is one non-empty line |
| ListPearls.LocationLinesStart | src/commands/pearls/list-pearls.ts:106-108 | the joined locations are empty iff the group is, and otherwise start with the first `(` |
| ListPearls.FieldValue | src/commands/pearls/list-pearls.ts:105-112 | the text is never empty, and is `None` exactly for an empty group |
| ListPearls.FieldValueLines | src/commands/pearls/list-pearls.ts:105-112 | a non-empty group's text is its locations, one per line, never the `None` fallback |
| ListPearls.GroupFieldFacts | src/commands/pearls/list-pearls.ts:104-115 | a present colour's field counts its pearls and lists one line per pearl |
| ListPearls.EmbedDescribesGroups | src/commands/pearls/list-pearls.ts:87-115 | one field per colour in first-appearance order; each counts and lists its pearls; the counts add up to the selection |
| ListPearls.GroupFields | src/commands/pearls/list-pearls.ts:104-115 | the field loop adds one field per key, in key order |
| ListPearls.ListReplyFor | src/commands/pearls/list-pearls.ts:39-117 | the reply is a text message exactly when the selection stops; otherwise the embed has at least one field and no more than the listed pearls |
| ListPearls.Execute | src/commands/pearls/list-pearls.ts:39-117 | the reply is the list command's as a function of the stored list and the two options |
| ClearPearl.SameSectorAsAdd | src/commands/pearls/clear-pearl.ts:38-40 | the sector computed for deletion equals the add command's derivation |
| ClearPearl.ClearSector | src/commands/pearls/clear-pearl.ts:38-40 | the sector is a right one iff x ≥ 0 and a bottom one iff y ≥ 0 |
| ClearPearl.ClearDecision | src/commands/pearls/clear-pearl.ts:32-53 | a deletion is requested iff both coordinates are given, and then at exactly those; the "Both X and Y ..." reply comes exactly when none is |
| ClearPearl.DeletionRequested | src/commands/pearls/clear-pearl.ts:32-42 | a missing coordinate replies "Both X and Y coordinates are required." and deletes nothing; otherwise exactly (x, y) in its own sector is deleted |
| ClearPearl.ReplyByRows | src/commands/pearls/clear-pearl.ts:44-53 | 0 rows replies "No pearl found at ..."; a failure replies the error text; "Cleared pearl at ..." iff some rows were deleted |
| ClearPearl.PrefixInjective | src/commands/pearls/clear-pearl.ts:45-49 | different coordinates print differently |
| ClearPearl.PointIdentifiesCoordinates | src/commands/pearls/clear-pearl.ts:45-49 | the printed `(X: x, Y: y)` determines both coordinates |
| ClearPearl.RepliesIdentifyPoint | src/commands/pearls/clear-pearl.ts:45-49 | both replies name the requested point unambiguously |
| ClearPearl.ClearedExample | src/commands/pearls/clear-pearl.ts:49 | clearing (5, -3) replies "Cleared pearl at (X: +5, Y: -3)." |
| ClearPearl.NotFoundExample | src/commands/pearls/clear-pearl.ts:45 | missing (0, 7) replies "No pearl found at (X: 0, Y: +7)." |
| NumberFormatter.AddNumberPrefix | src/utils/numberFormatter.ts:1-3 | never empty; starts with `+` iff n > 0; without that `+` it parses back to n |
| NumberFormatter.PrefixExamples | tests/numberFormatter.test.ts:4-14 | 5 gives "+5", -5 gives "-5", 0 gives "0" |
| NumberFormatter.PositiveShape | src/utils/numberFormatter.ts:2 | for n > 0 the result is `+` followed by the decimal digits of n |
| NumberFormatter.NonPositiveShape | src/utils/numberFormatter.ts:2 | for n ≤ 0 the result is the plain decimal with its `-`, and "0" for zero |
| Digits.DecimalRoundTrip | src/utils/numberFormatter.ts:2 | reading back a rendered natural number gives the number |
| Digits.IntRoundTrip | src/utils/numberFormatter.ts:2 | parsing undoes rendering for every integer |

## Left out

- Discord is not modelled: command registration, defer/edit/reply, embeds as objects, attachments, ephemeral follow-ups and buttons. Each command's output is modelled as the text, fields or image it produces.
- The confirmation wait (`awaitMessageComponent`, 60 s) is an input: `Yes`, `No`, or `NoAnswer` for the timeout.
- `fs` and `JSON.parse` are not modelled. A stored list is an input: `Absent`, `Corrupt`, `NotAList` (it parses, but not to an array) or `Present(list)` for the add command, and an `Option` for the commands that treat an unreadable file as empty. Writing the file is modelled as the list handed back.
- A stored array whose elements are not pearl records, and a non-array read by the list and map commands, are not modelled. Only a hand-edited file holds one.
- `deletePearl` and `src/utils/mysqlService.ts` are foreign SQL. The row count, or a failure (`None`), is an input of `ClearPearl.ClearDecision`.
- The embed's title, green colour and timestamp are fixed decoration and carry no logic. The replies in each command's outer `catch`, other than the ones above, are left out for the same reason.
- Jimp is not modelled: reading the BMP, encoding the PNG, and `rgbaToInt`'s alpha byte. A pixel holds the 24-bit RGB value written, and the base map is a given pixel array.
- Floating point is not modelled. `worldToPixel` and `dotRadius` use exact rationals with halves rounded up, which `Math.round` does. Bit-exactness at exact .5 cases that doubles could misround is not claimed.
- ColorParsing.ParseColor: `parseInt` beyond 2^53 loses precision in JavaScript. The model reads the exact value, and the channels take its low 24 bits.
- ColorParsing.ToLower: only ASCII capitals and the Kelvin sign are lowered. These are the only characters whose lowering can produce one of the eight names.
- ListPearls.Capitalize: `toUpperCase` is modelled for ASCII letters only. The stored colours are lowercase ASCII enum strings.
- ListPearls.SortByPosition: the engine's in-place sort is modelled as a stable insertion sort on a value. Both are stable, so they give the same order; the in-place update is not modelled.
- ListPearls.GroupByColour: JavaScript orders integer-like object keys first. Colour keys are enum strings, so first-appearance order is modelled.
- ListPearls.GroupByColour: a colour naming an `Object.prototype` member (`constructor`, `toString`, `__proto__`) already has a truthy entry in the plain object, so the `push` at `list-pearls.ts:92` throws and the command answers its `catch` reply. The model groups such a colour like any other; only a hand-edited file holds one.
- `id`, `created_at` and `config.json`'s min/max coordinates are not modelled. Discord enforces these coordinate bounds before the commands run.
- `PearlSector.ts` is not part of this model. Its four cases are modelled as the datatype `Models.PearlSector`.
- `src/index.ts`, `src/utils/dateUtils.ts`, `help.ts`, `pearl-help.ts`, `show-leaderboard.ts`, `Command.ts` and `CustomClient.ts` are not modelled. They are loading, scheduling, clock, static text and Discord types.
