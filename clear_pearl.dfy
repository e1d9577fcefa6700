/**
 * The clear-pearl command: both coordinates are required, the sector is
 * derived from their signs, the database deletes by position and sector, and
 * the number of deleted rows picks the reply.
 */
module ClearPearl {
  import opened Wrappers
  import opened Models
  import opened Digits
  import opened NumberFormatter
  import opened AddPearl

  /** The sector the command computes for the deletion, written out as this command writes it. */
  function ClearSector(x: int, y: int): (s: PearlSector)
    ensures (s == PearlSector.BottomRight || s == PearlSector.TopRight) <==> x >= 0
    ensures (s == PearlSector.BottomRight || s == PearlSector.BottomLeft) <==> y >= 0
  {
    if x >= 0 then (if y >= 0 then PearlSector.BottomRight else PearlSector.TopRight)
    else (if y >= 0 then PearlSector.BottomLeft else PearlSector.TopLeft)
  }

  /** The clear command files a point under the same sector as the add command. */
  lemma SameSectorAsAdd(x: int, y: int)
    ensures ClearSector(x, y) == SectorOf(x, y)
    ensures ClearSector(x, y) == BottomRight <==> x >= 0 && y >= 0
    ensures ClearSector(x, y) == TopLeft <==> x < 0 && y < 0
  {
    SectorByQuadrant(x, y);
  }

  /** The arguments of the `deletePearl` call. */
  datatype DeleteRequest = DeleteRequest(x: int, y: int, sector: PearlSector)

  /** What one run does: the deletion it asks for, if any, and its reply. */
  datatype ClearOutcome = ClearOutcome(request: Option<DeleteRequest>, reply: string)

  const MISSING_MESSAGE := "Both X and Y coordinates are required."
  const ERROR_MESSAGE := "An error occurred while clearing the pearl."

  /** A point as the replies print it: `(X: x, Y: y)`, each coordinate through `addNumberPrefix`. */
  function Point(x: int, y: int): string {
    "(X: " + AddNumberPrefix(x) + ", Y: " + AddNumberPrefix(y) + ")"
  }

  function NotFoundMessage(x: int, y: int): string {
    "No pearl found at " + Point(x, y) + "."
  }

  function ClearedMessage(x: int, y: int): string {
    "Cleared pearl at " + Point(x, y) + "."
  }

  /**
   * The command for the two options and the database's answer to the
   * deletion: the number of rows it removed, or `None` when it failed.
   * The answer is only consulted when a deletion is asked for.
   */
  function ClearDecision(x: Option<int>, y: Option<int>, affectedRows: Option<nat>): (r: ClearOutcome)
    ensures r.request.Some? <==> x.Some? && y.Some?
    ensures r.request.Some? ==> r.request.value.x == x.value && r.request.value.y == y.value
    ensures r.reply == MISSING_MESSAGE <==> r.request.None?
  {
    if x.None? || y.None? then ClearOutcome(None, MISSING_MESSAGE)
    else
      var request := Some(DeleteRequest(x.value, y.value, ClearSector(x.value, y.value)));
      assert MISSING_MESSAGE[0] == 'B';
      assert ERROR_MESSAGE[0] == 'A' && NotFoundMessage(x.value, y.value)[0] == 'N' && ClearedMessage(x.value, y.value)[0] == 'C';
      if affectedRows.None? then ClearOutcome(request, ERROR_MESSAGE)
      else if affectedRows.value == 0 then ClearOutcome(request, NotFoundMessage(x.value, y.value))
      else ClearOutcome(request, ClearedMessage(x.value, y.value))
  }

  /** A missing coordinate asks for no deletion; otherwise exactly the given point is deleted in its own sector. */
  lemma DeletionRequested(x: Option<int>, y: Option<int>, affectedRows: Option<nat>)
    ensures ClearDecision(x, y, affectedRows).request.None? <==> x.None? || y.None?
    ensures x.None? || y.None? ==> ClearDecision(x, y, affectedRows).reply == MISSING_MESSAGE
    ensures x.Some? && y.Some? ==>
      ClearDecision(x, y, affectedRows).request == Some(DeleteRequest(x.value, y.value, SectorOf(x.value, y.value)))
  {
    if x.Some? && y.Some? {
      SameSectorAsAdd(x.value, y.value);
    }
  }

  /** Zero rows answers "No pearl found", any other count "Cleared pearl", a failure the error message. */
  lemma ReplyByRows(x: int, y: int, affectedRows: Option<nat>)
    ensures affectedRows == Some(0) ==> ClearDecision(Some(x), Some(y), affectedRows).reply == NotFoundMessage(x, y)
    ensures affectedRows.None? ==> ClearDecision(Some(x), Some(y), affectedRows).reply == ERROR_MESSAGE
    ensures ClearDecision(Some(x), Some(y), affectedRows).reply == ClearedMessage(x, y)
      <==> affectedRows.Some? && affectedRows.value > 0
  {
    var cleared := ClearedMessage(x, y);
    assert cleared[0] == 'C';
    assert NotFoundMessage(x, y)[0] == 'N';
    assert ERROR_MESSAGE[0] == 'A';
  }

  /** No character of a rendered coordinate is a comma. */
  lemma NoCommaInPrefix(n: int)
    ensures forall i :: 0 <= i < |AddNumberPrefix(n)| ==> AddNumberPrefix(n)[i] != ','
  {
    if n > 0 {
      PositiveShape(n);
    } else {
      NonPositiveShape(n);
      if n < 0 {
        assert AllDigits(AddNumberPrefix(n)[1..]);
      }
    }
  }

  /** Two strings joined at a character neither of their first parts holds split back the same way. */
  lemma SplitAtFirst(a: string, b: string, c: string, d: string, sep: char)
    requires forall i :: 0 <= i < |a| ==> a[i] != sep
    requires forall i :: 0 <= i < |c| ==> c[i] != sep
    requires a + [sep] + b == c + [sep] + d
    ensures a == c && b == d
  {
    var s := a + [sep] + b;
    assert forall i :: 0 <= i < |a| ==> s[i] == a[i];
    assert forall i :: 0 <= i < |c| ==> s[i] == c[i];
    assert s[|a|] == sep && s[|c|] == sep;
    assert |a| == |c|;
    assert a == s[..|a|] == c;
    assert b == s[|a| + 1..] == d;
  }

  /** The middle part of a three-part string. */
  lemma Middle(pre: string, mid: string, post: string)
    ensures (pre + mid + post)[|pre|..|pre| + |mid|] == mid
  {
  }

  /** `addNumberPrefix` loses nothing: different coordinates print differently. */
  lemma PrefixInjective(m: int, n: int)
    requires AddNumberPrefix(m) == AddNumberPrefix(n)
    ensures m == n
  {
    assert Some(m) == ParseInteger(DropPlus(AddNumberPrefix(m)));
  }

  /** The point after its opening `(X: `: the x rendering, a comma, and the rest. */
  lemma PointShape(x: int, y: int)
    ensures Point(x, y)[4..] == AddNumberPrefix(x) + [','] + (" Y: " + AddNumberPrefix(y) + ")")
  {
    var p, q := AddNumberPrefix(x), AddNumberPrefix(y);
    Regroup("(X: ", p, [','], " Y: ", q, ")");
    assert ", Y: " == [','] + " Y: ";
  }

  lemma Regroup(a: string, p: string, b1: string, b2: string, q: string, c: string)
    ensures (a + p + (b1 + b2) + q + c)[|a|..] == p + b1 + (b2 + q + c)
  {
    assert a + p + (b1 + b2) + q + c == a + (p + b1 + (b2 + q + c));
  }

  /** The printed point names the point: equal renderings come from equal coordinates. */
  lemma PointIdentifiesCoordinates(x1: int, y1: int, x2: int, y2: int)
    requires Point(x1, y1) == Point(x2, y2)
    ensures x1 == x2 && y1 == y2
  {
    var p1, q1 := AddNumberPrefix(x1), AddNumberPrefix(y1);
    var p2, q2 := AddNumberPrefix(x2), AddNumberPrefix(y2);
    var tail1, tail2 := " Y: " + q1 + ")", " Y: " + q2 + ")";
    PointShape(x1, y1);
    PointShape(x2, y2);
    NoCommaInPrefix(x1);
    NoCommaInPrefix(x2);
    SplitAtFirst(p1, tail1, p2, tail2, ',');
    PrefixInjective(x1, x2);
    Middle(" Y: ", q1, ")");
    Middle(" Y: ", q2, ")");
    PrefixInjective(y1, y2);
  }

  /** Both replies quote the point of the request, so each identifies the pearl the user named. */
  lemma RepliesIdentifyPoint(x1: int, y1: int, x2: int, y2: int)
    ensures NotFoundMessage(x1, y1) == NotFoundMessage(x2, y2) ==> x1 == x2 && y1 == y2
    ensures ClearedMessage(x1, y1) == ClearedMessage(x2, y2) ==> x1 == x2 && y1 == y2
  {
    var n := |"No pearl found at "|;
    var c := |"Cleared pearl at "|;
    if NotFoundMessage(x1, y1) == NotFoundMessage(x2, y2) {
      var m1, m2 := NotFoundMessage(x1, y1), NotFoundMessage(x2, y2);
      assert Point(x1, y1) == m1[n..|m1| - 1];
      assert Point(x2, y2) == m2[n..|m2| - 1];
      PointIdentifiesCoordinates(x1, y1, x2, y2);
    }
    if ClearedMessage(x1, y1) == ClearedMessage(x2, y2) {
      var m1, m2 := ClearedMessage(x1, y1), ClearedMessage(x2, y2);
      assert Point(x1, y1) == m1[c..|m1| - 1];
      assert Point(x2, y2) == m2[c..|m2| - 1];
      PointIdentifiesCoordinates(x1, y1, x2, y2);
    }
  }

  lemma ClearedExample()
    ensures ClearDecision(Some(5), Some(-3), Some(1)).reply == "Cleared pearl at (X: +5, Y: -3)."
  {
    PrefixExamples();
    assert NatToString(3) == "3";
    assert AddNumberPrefix(-3) == "-3";
  }

  lemma NotFoundExample()
    ensures ClearDecision(Some(0), Some(7), Some(0)).reply == "No pearl found at (X: 0, Y: +7)."
  {
    PrefixExamples();
    assert NatToString(7) == "7";
    assert AddNumberPrefix(7) == "+7";
  }

  lemma MissingExample()
    ensures ClearDecision(None, Some(7), Some(1)) == ClearOutcome(None, "Both X and Y coordinates are required.")
  {
  }
}
