/**
 * `Room`: a numbered room with a puzzle, `unlocked`/`completed` flags and the items needed to enter.
 * The class updates its fields (and its puzzle's `solved` flag) in place; `RoomView` is the value of all of
 * them, and the pure parts (`getStatusDescription`, the text of `getFullDescription`) are functions on it.
 */
module Rooms {
  import opened Wrappers
  import opened Lists
  import opened JavaText
  import opened Puzzles
  import opened Players

  const DOOR_DESCRIPTION: string := "A mysterious door awaits..."
  const LOCKED_STATUS: string := "This room is locked. Complete the previous room to unlock it."
  const MISSING_ITEMS_STATUS: string := "You need certain items to enter this room."
  const COMPLETED_STATUS: string := "This room has been completed!"
  const UNSOLVED_STATUS: string := "Solve the puzzle to proceed to the next room."
  const READY_STATUS: string := "This room is ready to be explored."

  datatype RoomView = RoomView(
    number: int, name: string, description: string, doorDescription: string,
    puzzle: Option<PuzzleView>, unlocked: bool, completed: bool, required: seq<string>)

  /** `canEnter`: the room is unlocked and the inventory holds every required item. */
  predicate Admits(unlocked: bool, required: seq<string>, inventory: seq<string>) {
    unlocked && forall x :: x in required ==> x in inventory
  }

  /** `isPuzzleSolved`. */
  predicate PuzzleSolved(v: RoomView) {
    v.puzzle.Some? && v.puzzle.value.solved
  }

  /** The room the constructor creates: only room 0 starts unlocked; nothing is required and there is no puzzle yet. */
  function NewRoom(number: int, name: string, description: string): (v: RoomView)
    ensures v.unlocked <==> number == 0
    ensures !v.completed && v.required == [] && v.puzzle == None && !PuzzleSolved(v)
    ensures v.number == number && v.name == name && v.description == description && v.doorDescription == DOOR_DESCRIPTION
  {
    RoomView(number, name, description, DOOR_DESCRIPTION, None, number == 0, false, [])
  }

  /** `complete()`: the room is completed and its puzzle, if any, solved; nothing else changes. */
  function Completed(v: RoomView): (r: RoomView)
    ensures r.completed && (PuzzleSolved(r) <==> v.puzzle.Some?)
    ensures r == v.(completed := true, puzzle := r.puzzle)
    ensures r.puzzle.Some? <==> v.puzzle.Some?
    ensures r.puzzle.Some? ==> r.puzzle.value == v.puzzle.value.(solved := true)
  {
    var p := if v.puzzle.Some? then Some(v.puzzle.value.(solved := true)) else None;
    v.(completed := true, puzzle := p)
  }

  /** Completing twice is completing once. */
  lemma CompletedIdempotent(v: RoomView)
    ensures Completed(Completed(v)) == Completed(v)
  {
  }

  /**
   * `getStatusDescription`. It asks `canEnter(null)`, which dereferences the null player as soon as an unlocked
   * room requires an item, so such rooms are excluded; for the others the missing-items message never appears.
   */
  function StatusDescription(v: RoomView): (s: string)
    requires !v.unlocked || v.required == []
    ensures s != MISSING_ITEMS_STATUS
    ensures s == LOCKED_STATUS <==> !v.unlocked
    ensures s == COMPLETED_STATUS <==> v.unlocked && v.completed
    ensures s == UNSOLVED_STATUS <==> v.unlocked && !v.completed && v.puzzle.Some? && !v.puzzle.value.solved
    ensures s == READY_STATUS <==> v.unlocked && !v.completed && (v.puzzle.None? || v.puzzle.value.solved)
  {
    if !v.unlocked then LOCKED_STATUS
    else if !Admits(v.unlocked, v.required, []) then MISSING_ITEMS_STATUS
    else if v.completed then COMPLETED_STATUS
    else if v.puzzle.Some? && !v.puzzle.value.solved then UNSOLVED_STATUS
    else READY_STATUS
  }

  /** The heading lines of `getFullDescription`. */
  function Header(v: RoomView): string {
    "=== " + v.name + " ===\n" + v.description + "\n\n"
  }

  /** The puzzle lines, shown only for a present, unsolved puzzle; the hint is never shown. */
  function PuzzleLines(v: RoomView): string {
    if v.puzzle.Some? && !v.puzzle.value.solved then
      Description(v.puzzle.value.kind) + "\n" + "Question: " + v.puzzle.value.question + "\n"
    else []
  }

  /** The required-items line, shown only when some item is required. */
  function ItemLines(v: RoomView): string {
    if v.required != [] then "\nRequired items: " + Join(", ", v.required) + "\n" else []
  }

  /** The text `getFullDescription` builds. */
  function FullDescription(v: RoomView): (r: string)
    ensures |r| >= |Header(v)| + 1 + |v.doorDescription|
  {
    Header(v) + ((PuzzleLines(v) + ItemLines(v)) + ("\n" + v.doorDescription))
  }

  /** The text opens with the header and closes with a line break and the door description. */
  lemma FullDescriptionFrame(v: RoomView)
    ensures var r := FullDescription(v);
      |r| >= |Header(v)| + |v.doorDescription| + 1
      && r[..|Header(v)|] == Header(v) && r[|r| - |v.doorDescription| - 1..] == "\n" + v.doorDescription
  {
    Ends(Header(v), PuzzleLines(v) + ItemLines(v), "\n" + v.doorDescription);
  }

  /** The first and the last part of a text made of three. */
  lemma Ends(a: string, b: string, c: string)
    ensures |a + (b + c)| == |a| + |b| + |c|
    ensures (a + (b + c))[..|a|] == a && (a + (b + c))[|a| + |b|..] == c
  {
    assert (a + (b + c))[..|a|] == a;
    assert (b + c)[|b|..] == c;
  }

  /** An unsolved puzzle's question line follows the header and the puzzle's description. */
  lemma FullDescriptionShowsQuestion(v: RoomView)
    requires v.puzzle.Some? && !v.puzzle.value.solved
    ensures var r, h, d := FullDescription(v), Header(v), Description(v.puzzle.value.kind);
      var q := "Question: " + v.puzzle.value.question + "\n";
      |h| + |d| + 1 + |q| <= |r| && r[|h|..|h| + |d| + 1] == d + "\n" && r[|h| + |d| + 1..|h| + |d| + 1 + |q|] == q
  {
    var h, d := Header(v), Description(v.puzzle.value.kind);
    var q := "Question: " + v.puzzle.value.question + "\n";
    var tail := ItemLines(v) + ("\n" + v.doorDescription);
    assert PuzzleLines(v) == d + "\n" + q;
    Associate4(h, d + "\n", q, tail);
    assert FullDescription(v) == h + (d + "\n") + q + tail;
  }

  /** Once the room is completed the puzzle lines disappear: the text is that of the room without a puzzle. */
  lemma CompletedHidesPuzzle(v: RoomView)
    ensures FullDescription(Completed(v)) == FullDescription(v.(puzzle := None, completed := true))
  {
  }

  /** A room for which `canEnter` can hold for some player: one whose lock is open. */
  lemma AdmitsTheRequiredItems(unlocked: bool, required: seq<string>, inventory: seq<string>)
    ensures Admits(unlocked, required, required + inventory) <==> unlocked
    ensures required == [] ==> (Admits(unlocked, required, inventory) <==> unlocked)
    ensures Admits(unlocked, required, inventory) ==> forall extra :: Admits(unlocked, required, inventory + extra)
  {
  }

  lemma Associate4(a: string, b: string, c: string, d: string)
    ensures a + b + c + d == a + (b + c + d)
  {
  }

  lemma Associate5(a: string, b: string, c: string, d: string, e: string)
    ensures a + b + c + d + e == a + (b + c + d + e)
  {
  }

  lemma Regroup5(a: string, b: string, c: string, d: string, e: string)
    ensures a + b + c + d + e == a + ((b + c) + (d + e))
  {
  }

  class Room {
    const roomNumber: int
    const name: string
    const description: string
    const doorDescription: string
    var puzzle: Puzzle?
    var unlocked: bool
    var completed: bool
    var requiredItems: seq<string>

    function View(): RoomView
      reads this, puzzle
    {
      RoomView(roomNumber, name, description, doorDescription,
        if puzzle == null then None else Some(puzzle.View()), unlocked, completed, requiredItems)
    }

    constructor (roomNumber: int, name: string, description: string)
      ensures View() == NewRoom(roomNumber, name, description)
    {
      this.roomNumber := roomNumber;
      this.name := name;
      this.description := description;
      unlocked := roomNumber == 0;
      completed := false;
      requiredItems := [];
      doorDescription := "A mysterious door awaits...";
      puzzle := null;
    }

    method SetPuzzle(p: Puzzle?)
      modifies this
      ensures puzzle == p && unlocked == old(unlocked) && completed == old(completed) && requiredItems == old(requiredItems)
    {
      puzzle := p;
    }

    method SetUnlocked(b: bool)
      modifies this
      ensures View() == old(View()).(unlocked := b) && puzzle == old(puzzle)
    {
      unlocked := b;
    }

    /** `addRequiredItem`: appends unless present, so the list stays duplicate-free and a repeat changes nothing. */
    method AddRequiredItem(item: string)
      modifies this
      ensures View() == old(View()).(required := AddIfAbsent(old(requiredItems), item)) && puzzle == old(puzzle)
    {
      if item !in requiredItems {
        requiredItems := requiredItems + [item];
      }
    }

    /** `canEnter`: false when locked; otherwise checks the required items one by one and stops at the first one the player lacks. */
    method CanEnter(player: Player?) returns (ok: bool)
      requires unlocked && requiredItems != [] ==> player != null
      ensures ok == Admits(unlocked, requiredItems, if player == null then [] else player.inventory)
    {
      if !unlocked {
        return false;
      }
      for i := 0 to |requiredItems|
        invariant forall k :: 0 <= k < i ==> requiredItems[k] in player.inventory
      {
        if !player.HasItem(requiredItems[i]) {
          return false;
        }
      }
      return true;
    }

    /** `complete()`: marks the room completed and solves its puzzle. */
    method Complete()
      modifies this, puzzle
      ensures puzzle == old(puzzle)
      ensures View() == Completed(old(View()))
    {
      completed := true;
      if puzzle != null {
        puzzle.Solve();
      }
    }

    /** `isPuzzleSolved`: the room's puzzle is present and solved. */
    predicate IsPuzzleSolved()
      reads this, puzzle
      ensures IsPuzzleSolved() <==> PuzzleSolved(View())
    {
      puzzle != null && puzzle.solved
    }

    /** `getFullDescription`: appends the sections to a builder in order. */
    method GetFullDescription() returns (text: string)
      ensures text == FullDescription(View())
    {
      ghost var v := View();
      text := "=== " + name + " ===\n";
      text := text + description + "\n\n";
      assert text == Header(v);
      if puzzle != null && !puzzle.solved {
        var d, q := Description(puzzle.kind), puzzle.question;
        text := text + d + "\n";
        text := text + "Question: " + q + "\n";
        Associate5(Header(v), d, "\n", "Question: " + q, "\n");
        assert v.puzzle == Some(puzzle.View());
        assert PuzzleLines(v) == d + "\n" + "Question: " + q + "\n";
      } else {
        assert PuzzleLines(v) == [];
      }
      assert text == Header(v) + PuzzleLines(v);
      ghost var hp := text;
      if requiredItems != [] {
        var items := Join(", ", requiredItems);
        text := text + "\nRequired items: ";
        text := text + items;
        text := text + "\n";
        Associate4(hp, "\nRequired items: ", items, "\n");
        assert ItemLines(v) == "\nRequired items: " + items + "\n";
      } else {
        assert ItemLines(v) == [];
      }
      assert text == hp + ItemLines(v);
      text := text + "\n" + doorDescription;
      Regroup5(Header(v), PuzzleLines(v), ItemLines(v), "\n", doorDescription);
    }
  }
}
