/**
 * The add-pearl command: the sector a new pearl is filed under, the in-place
 * append, and the decision over the stored list, yesterday's list and the
 * user's answer to the confirmation prompt.
 */
module AddPearl {
  import opened Wrappers
  import opened Models
  import opened NumberFormatter

  /** The quadrant of a point; a zero coordinate counts as non-negative. */
  function SectorOf(x: int, y: int): (s: PearlSector)
    ensures (s == BottomRight || s == TopRight) <==> x >= 0
    ensures (s == BottomRight || s == BottomLeft) <==> y >= 0
  {
    if x >= 0 then (if y >= 0 then BottomRight else TopRight)
    else (if y >= 0 then BottomLeft else TopLeft)
  }

  /** Each sector is exactly one sign pattern, with zero on the non-negative side. */
  lemma SectorByQuadrant(x: int, y: int)
    ensures SectorOf(x, y) == BottomRight <==> x >= 0 && y >= 0
    ensures SectorOf(x, y) == TopRight <==> x >= 0 && y < 0
    ensures SectorOf(x, y) == BottomLeft <==> x < 0 && y >= 0
    ensures SectorOf(x, y) == TopLeft <==> x < 0 && y < 0
  {
  }

  /** Every record's stored sector is the one its coordinates give. */
  predicate SectorsConsistent(pearls: seq<Pearl>) {
    forall i :: 0 <= i < |pearls| ==> pearls[i].sector == SectorOf(pearls[i].x, pearls[i].y)
  }

  /** No two records share a position. */
  predicate UniquePositions(pearls: seq<Pearl>) {
    forall i, j :: 0 <= i < j < |pearls| ==> pearls[i].x != pearls[j].x || pearls[i].y != pearls[j].y
  }

  /** Some record of the list sits at (x, y), whatever its colour. */
  predicate PearlAt(pearls: seq<Pearl>, x: int, y: int) {
    exists i :: 0 <= i < |pearls| && pearls[i].x == x && pearls[i].y == y
  }

  /** Some record of the list sits at (x, y) and has exactly this colour. */
  predicate SamePearl(pearls: seq<Pearl>, x: int, y: int, color: string) {
    exists i :: 0 <= i < |pearls| && pearls[i].x == x && pearls[i].y == y && pearls[i].color == color
  }

  /** The record the command stores for a new pearl. */
  function NewPearl(x: int, y: int, color: string): (p: Pearl)
    ensures p.x == x && p.y == y && p.color == color
    ensures SectorsConsistent([p])
  {
    Pearl(x, y, color, SectorOf(x, y))
  }

  /** The pearl list loaded from the file, appended to in place. */
  class PearlList {
    var pearls: seq<Pearl>

    constructor (initial: seq<Pearl>)
      ensures pearls == initial
    {
      pearls := initial;
    }

    /** Appends the record for (x, y) in `color`, with its derived sector, at the end. */
    method AddPearl(x: int, y: int, color: string)
      modifies this
      ensures pearls == old(pearls) + [NewPearl(x, y, color)]
    {
      var sector := if x >= 0 then (if y >= 0 then BottomRight else TopRight)
        else (if y >= 0 then BottomLeft else TopLeft);
      pearls := pearls + [Pearl(x, y, color, sector)];
    }
  }

  /** Appending a new record keeps the stored sectors right. */
  lemma AppendKeepsSectors(pearls: seq<Pearl>, x: int, y: int, color: string)
    requires SectorsConsistent(pearls)
    ensures SectorsConsistent(pearls + [NewPearl(x, y, color)])
  {
  }

  /** Appending at a free position keeps positions unique. */
  lemma AppendKeepsUnique(pearls: seq<Pearl>, x: int, y: int, color: string)
    requires UniquePositions(pearls) && !PearlAt(pearls, x, y)
    ensures UniquePositions(pearls + [NewPearl(x, y, color)])
  {
    var r := pearls + [NewPearl(x, y, color)];
    forall i, j | 0 <= i < j < |r|
      ensures r[i].x != r[j].x || r[i].y != r[j].y
    {
      if j == |pearls| {
        assert r[i] == pearls[i];
      } else {
        assert r[i] == pearls[i] && r[j] == pearls[j];
      }
    }
  }

  /* ---------------------------------------------------------------- */

  /**
   * What a data file holds when the command looks: nothing, text that is not
   * JSON, JSON that is not an array (an object, a number, `null`), or a pearl
   * list.
   */
  datatype StoredFile = Absent | Corrupt | NotAList | Present(pearls: seq<Pearl>)

  /** The file gives the command a list to search: a missing file counts as the empty list. */
  predicate ReadsAsList(f: StoredFile) {
    f.Absent? || f.Present?
  }

  /** The user's answer to the confirmation prompt; `NoAnswer` is the 60-second timeout. */
  datatype Answer = Yes | No | NoAnswer

  /**
   * The visible effects of one run: the confirmation prompt, if shown; the
   * final reply, if any; and the list written back to the file, if any.
   */
  datatype AddOutcome = AddOutcome(prompt: Option<string>, reply: Option<string>, saved: Option<seq<Pearl>>)

  function At(x: int, y: int): string {
    "(" + AddNumberPrefix(x) + ", " + AddNumberPrefix(y) + ")"
  }

  function AddedMessage(x: int, y: int, color: string): string {
    "Added a " + color + " pearl at " + At(x, y) + "."
  }

  function DuplicateMessage(x: int, y: int): string {
    "A pearl already exists at " + At(x, y) + "."
  }

  function PromptMessage(x: int, y: int, color: string): string {
    "There is a " + color + " pearl recorded at " + At(x, y)
      + " in yesterday's data. Are you sure you wish to add to today?"
  }

  function CancelledMessage(x: int, y: int): string {
    "Add cancelled for " + At(x, y) + "."
  }

  const FAILED_MESSAGE := "An error occurred or no response received. Pearl not added."

  /** The replies that end the run before anything is added. */
  function Stop(reply: string): AddOutcome {
    AddOutcome(None, Some(reply), None)
  }

  /**
   * The whole command as a decision: missing options, an unreadable list and
   * a duplicate position stop it; then yesterday's list decides whether the
   * pearl is added at once, only after "Yes", or (when yesterday's list
   * exists but holds no such pearl) not at all. Searching a parsed value
   * that is not an array, today's or yesterday's, throws inside the guarded
   * block, as does parsing yesterday's file, and ends in the failure reply.
   */
  function AddDecision(x: Option<int>, y: Option<int>, color: Option<string>,
                       current: StoredFile, yesterday: StoredFile, answer: Answer): (r: AddOutcome)
    ensures r.saved.Some? ==> x.Some? && y.Some? && color.Some? && r.reply == Some(AddedMessage(x.value, y.value, color.value))
    ensures r.prompt.Some? ==>
      && x.Some? && y.Some? && color.Some? && yesterday.Present?
      && SamePearl(yesterday.pearls, x.value, y.value, color.value)
      && r.prompt == Some(PromptMessage(x.value, y.value, color.value))
    ensures r.reply.None? ==> r.saved.None? && r.prompt.None?
  {
    if x.None? then Stop("X coordinate is required.")
    else if y.None? then Stop("Y coordinate is required.")
    else if color.None? then Stop("Color is required.")
    else if current.Corrupt? then Stop("Error reading pearls data.")
    else if current.NotAList? then Stop(FAILED_MESSAGE)
    else
      var x, y, color := x.value, y.value, color.value;
      var pearls := if current.Present? then current.pearls else [];
      if PearlAt(pearls, x, y) then Stop(DuplicateMessage(x, y))
      else if yesterday.Absent? then
        AddOutcome(None, Some(AddedMessage(x, y, color)), Some(pearls + [NewPearl(x, y, color)]))
      else if !yesterday.Present? then Stop(FAILED_MESSAGE)
      else Confirmation(pearls, x, y, color, yesterday.pearls, answer)
  }

  /**
   * The branch for an existing file from yesterday: a pearl of that colour
   * at that place there triggers the prompt, and the answer decides.
   */
  function Confirmation(pearls: seq<Pearl>, x: int, y: int, color: string, prev: seq<Pearl>, answer: Answer): (r: AddOutcome)
    ensures r.prompt.Some? <==> SamePearl(prev, x, y, color)
    ensures r.saved.Some? <==> SamePearl(prev, x, y, color) && answer == Yes
    ensures r.saved.Some? ==> r.saved.value == pearls + [NewPearl(x, y, color)]
    ensures r.reply.None? <==> r.prompt.None?
  {
    if !SamePearl(prev, x, y, color) then AddOutcome(None, None, None)
    else
      var prompt := Some(PromptMessage(x, y, color));
      match answer
      case No => AddOutcome(prompt, Some(CancelledMessage(x, y)), None)
      case Yes => AddOutcome(prompt, Some(AddedMessage(x, y, color)), Some(pearls + [NewPearl(x, y, color)]))
      case NoAnswer => AddOutcome(prompt, Some(FAILED_MESSAGE), None)
  }

  /** The command run step by step, appending to the loaded list in place. */
  method Execute(x: Option<int>, y: Option<int>, color: Option<string>,
                 current: StoredFile, yesterday: StoredFile, answer: Answer) returns (outcome: AddOutcome)
    ensures outcome == AddDecision(x, y, color, current, yesterday, answer)
  {
    if x.None? { return Stop("X coordinate is required."); }
    if y.None? { return Stop("Y coordinate is required."); }
    if color.None? { return Stop("Color is required."); }
    if current.Corrupt? { return Stop("Error reading pearls data."); }
    if current.NotAList? { return Stop(FAILED_MESSAGE); }
    var x, y, color := x.value, y.value, color.value;
    var loaded := if current.Present? then current.pearls else [];
    var list := new PearlList(loaded);
    if PearlAt(list.pearls, x, y) {
      return Stop(DuplicateMessage(x, y));
    }
    if yesterday.Absent? {
      list.AddPearl(x, y, color);
      return AddOutcome(None, Some(AddedMessage(x, y, color)), Some(list.pearls));
    }
    if !yesterday.Present? {
      return Stop(FAILED_MESSAGE);
    }
    outcome := Confirm(list, x, y, color, yesterday.pearls, answer);
  }

  /** The confirmation branch, appending to the list only after "Yes". */
  method Confirm(list: PearlList, x: int, y: int, color: string, prev: seq<Pearl>, answer: Answer) returns (outcome: AddOutcome)
    modifies list
    ensures outcome == Confirmation(old(list.pearls), x, y, color, prev, answer)
    ensures list.pearls == if SamePearl(prev, x, y, color) && answer == Yes
      then old(list.pearls) + [NewPearl(x, y, color)] else old(list.pearls)
  {
    if !SamePearl(prev, x, y, color) {
      return AddOutcome(None, None, None);
    }
    var prompt := Some(PromptMessage(x, y, color));
    if answer == No {
      outcome := AddOutcome(prompt, Some(CancelledMessage(x, y)), None);
    } else if answer == Yes {
      list.AddPearl(x, y, color);
      outcome := AddOutcome(prompt, Some(AddedMessage(x, y, color)), Some(list.pearls));
    } else {
      outcome := AddOutcome(prompt, Some(FAILED_MESSAGE), None);
    }
  }

  /* ---------------------------------------------------------------- */

  /** The list the command starts from. */
  function Loaded(current: StoredFile): seq<Pearl> {
    if current.Present? then current.pearls else []
  }

  /** Whenever a list is written, it is the loaded list with exactly the new record appended. */
  lemma SavedIsOneAppend(x: Option<int>, y: Option<int>, color: Option<string>,
                         current: StoredFile, yesterday: StoredFile, answer: Answer)
    requires AddDecision(x, y, color, current, yesterday, answer).saved.Some?
    ensures x.Some? && y.Some? && color.Some? && ReadsAsList(current)
    ensures AddDecision(x, y, color, current, yesterday, answer).saved.value
      == Loaded(current) + [NewPearl(x.value, y.value, color.value)]
    ensures AddDecision(x, y, color, current, yesterday, answer).reply == Some(AddedMessage(x.value, y.value, color.value))
  {
  }

  /** An existing pearl at the position, in any colour, blocks the add. */
  lemma DuplicateBlocks(x: int, y: int, color: string, current: StoredFile, yesterday: StoredFile, answer: Answer)
    requires ReadsAsList(current) && PearlAt(Loaded(current), x, y)
    ensures AddDecision(Some(x), Some(y), Some(color), current, yesterday, answer) == Stop(DuplicateMessage(x, y))
  {
  }

  /** The stored list stays free of duplicate positions and its sectors stay right. */
  lemma AddKeepsInvariants(x: Option<int>, y: Option<int>, color: Option<string>,
                           current: StoredFile, yesterday: StoredFile, answer: Answer)
    requires UniquePositions(Loaded(current)) && SectorsConsistent(Loaded(current))
    requires AddDecision(x, y, color, current, yesterday, answer).saved.Some?
    ensures UniquePositions(AddDecision(x, y, color, current, yesterday, answer).saved.value)
    ensures SectorsConsistent(AddDecision(x, y, color, current, yesterday, answer).saved.value)
  {
    SavedIsOneAppend(x, y, color, current, yesterday, answer);
    AppendKeepsUnique(Loaded(current), x.value, y.value, color.value);
    AppendKeepsSectors(Loaded(current), x.value, y.value, color.value);
  }

  /** A pearl seen yesterday at the same place in the same colour is added only on "Yes". */
  lemma YesterdayNeedsConfirmation(x: int, y: int, color: string, current: StoredFile, prev: seq<Pearl>, answer: Answer)
    requires ReadsAsList(current) && !PearlAt(Loaded(current), x, y) && SamePearl(prev, x, y, color)
    ensures AddDecision(Some(x), Some(y), Some(color), current, Present(prev), answer).prompt
      == Some(PromptMessage(x, y, color))
    ensures AddDecision(Some(x), Some(y), Some(color), current, Present(prev), answer).saved.Some? <==> answer == Yes
    ensures answer == No ==>
      AddDecision(Some(x), Some(y), Some(color), current, Present(prev), answer).reply == Some(CancelledMessage(x, y))
    ensures answer == NoAnswer ==>
      AddDecision(Some(x), Some(y), Some(color), current, Present(prev), answer).reply == Some(FAILED_MESSAGE)
  {
  }

  /**
   * A pearl is saved without a prompt exactly when all options are given,
   * the list is readable, the position is free and there is no file from
   * yesterday.
   */
  lemma SavedWithoutPrompt(x: Option<int>, y: Option<int>, color: Option<string>,
                           current: StoredFile, yesterday: StoredFile, answer: Answer)
    ensures (AddDecision(x, y, color, current, yesterday, answer).saved.Some?
             && AddDecision(x, y, color, current, yesterday, answer).prompt.None?)
        <==> (x.Some? && y.Some? && color.Some? && ReadsAsList(current)
              && !PearlAt(Loaded(current), x.value, y.value) && yesterday.Absent?)
  {
  }

  /**
   * When yesterday's file exists but holds no pearl of that colour at that
   * place, nothing is saved and nothing is replied: the confirmation branch
   * has no `else`.
   */
  lemma UnmatchedYesterdayDoesNothing(x: int, y: int, color: string, current: StoredFile, prev: seq<Pearl>, answer: Answer)
    requires ReadsAsList(current) && !PearlAt(Loaded(current), x, y) && !SamePearl(prev, x, y, color)
    ensures AddDecision(Some(x), Some(y), Some(color), current, Present(prev), answer) == AddOutcome(None, None, None)
  {
  }

  /**
   * A file that parses to something other than an array makes the search
   * throw, and the run ends with the failure reply, saving nothing: today's
   * list at once, yesterday's once the position is known to be free.
   */
  lemma NonListFails(x: int, y: int, color: string, current: StoredFile, yesterday: StoredFile, answer: Answer)
    requires current.NotAList? || (ReadsAsList(current) && !PearlAt(Loaded(current), x, y)
                                   && (yesterday.Corrupt? || yesterday.NotAList?))
    ensures AddDecision(Some(x), Some(y), Some(color), current, yesterday, answer) == Stop(FAILED_MESSAGE)
  {
  }

  /** The messages for the coordinates in the unit-test cases. */
  lemma MessageExample()
    ensures AddedMessage(5, -5, "red") == "Added a red pearl at (+5, -5)."
    ensures DuplicateMessage(0, 5) == "A pearl already exists at (0, +5)."
  {
    PrefixExamples();
  }
}
