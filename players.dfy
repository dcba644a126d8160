/**
 * `Player`: lives, hints, an inventory without duplicates and a room counter. The class updates its fields
 * in place; every method is specified by a function on `PlayerView`, the value of all its fields.
 */
module Players {
  import opened Lists
  import opened JavaText

  const START_LIVES: int := 3
  const MAX_HINTS: int := 3

  datatype PlayerView = PlayerView(
    name: string, lives: int, hints: int, maxHints: int, inventory: seq<string>, currentRoom: Int32)

  /** What every player satisfies: lives in 0..3, hints in 0..maxHints with maxHints = 3, an inventory without duplicates. */
  ghost predicate ValidPlayer(p: PlayerView) {
    0 <= p.lives <= START_LIVES && p.maxHints == MAX_HINTS && 0 <= p.hints <= p.maxHints && Distinct(p.inventory)
  }

  /** `isAlive`: a player that keeps the invariant and is not alive has exactly zero lives. */
  predicate Alive(p: PlayerView)
    ensures ValidPlayer(p) ==> (!Alive(p) <==> p.lives == 0)
  {
    p.lives > 0
  }

  /** The state the constructor creates. */
  function NewPlayer(name: string): (p: PlayerView)
    ensures ValidPlayer(p) && Alive(p) && p.name == name
    ensures p.lives == START_LIVES && p.hints == p.maxHints == MAX_HINTS && p.inventory == [] && p.currentRoom == 0
  {
    PlayerView(name, START_LIVES, MAX_HINTS, MAX_HINTS, [], 0)
  }

  /** `loseLife`: one life less, floored at zero. */
  function LostLife(p: PlayerView): (r: PlayerView)
    ensures r.lives == if p.lives > 0 then p.lives - 1 else p.lives
    ensures r == p.(lives := r.lives)
    ensures ValidPlayer(p) ==> ValidPlayer(r) && r.lives >= 0
    ensures ValidPlayer(p) ==> (Alive(r) <==> p.lives > 1)
  {
    if p.lives > 0 then p.(lives := p.lives - 1) else p
  }

  /** `useHint`: with a hint left, spends it and answers true; otherwise changes nothing and answers false. */
  function HintTaken(p: PlayerView): (r: (PlayerView, bool))
    ensures r.1 <==> p.hints > 0
    ensures r.1 ==> r.0 == p.(hints := p.hints - 1)
    ensures !r.1 ==> r.0 == p
    ensures ValidPlayer(p) ==> ValidPlayer(r.0)
  {
    if p.hints > 0 then (p.(hints := p.hints - 1), true) else (p, false)
  }

  /** `addItem`: appends the item unless it is already held. */
  function WithItem(p: PlayerView, item: string): (r: PlayerView)
    ensures item in r.inventory
    ensures forall x :: x in r.inventory <==> x in p.inventory || x == item
    ensures item in p.inventory ==> r == p
    ensures r == p.(inventory := r.inventory)
    ensures ValidPlayer(p) ==> ValidPlayer(r)
  {
    p.(inventory := AddIfAbsent(p.inventory, item))
  }

  /** `removeItem`: cuts out the first occurrence of the item, if there is one. */
  function WithoutItem(p: PlayerView, item: string): (r: PlayerView)
    ensures r == p.(inventory := r.inventory)
    ensures forall x :: x != item ==> (x in r.inventory <==> x in p.inventory)
    ensures ValidPlayer(p) ==> ValidPlayer(r) && item !in r.inventory
  {
    p.(inventory := RemoveFirst(p.inventory, item))
  }

  /** `nextRoom`: the counter goes up by one (as a Java `int`). */
  function Advanced(p: PlayerView): (r: PlayerView)
    ensures r == p.(currentRoom := r.currentRoom)
    ensures p.currentRoom < MAX_INT ==> r.currentRoom == p.currentRoom + 1
    ensures ValidPlayer(p) ==> ValidPlayer(r)
  {
    p.(currentRoom := Wrap32(p.currentRoom + 1))
  }

  /** `reset`: the starting lives, hints, inventory and room, under the same name. */
  function Restarted(p: PlayerView): (r: PlayerView)
    ensures r == NewPlayer(p.name).(maxHints := p.maxHints, hints := p.maxHints)
    ensures ValidPlayer(p) ==> r == NewPlayer(p.name)
  {
    PlayerView(p.name, START_LIVES, p.maxHints, p.maxHints, [], 0)
  }

  /** Removing an item from a list without duplicates keeps the other items in their order. */
  lemma RemovingKeepsOrder(p: PlayerView, item: string)
    requires ValidPlayer(p) && item in p.inventory
    ensures var k := IndexOf(p.inventory, item);
      WithoutItem(p, item).inventory == p.inventory[..k] + p.inventory[k + 1..]
      && item !in p.inventory[..k] + p.inventory[k + 1..]
  {
    RemoveFirstCutsFirstOccurrence(p.inventory, item);
  }

  /** Removing an item that was just added to a player lacking it restores the player. */
  lemma AddThenRemove(p: PlayerView, item: string)
    requires item !in p.inventory
    ensures WithoutItem(WithItem(p, item), item) == p
  {
    RemoveAfterAdd(p.inventory, item);
  }

  /** Losing lives one at a time: at most three losses from the start end the player, and further losses change nothing. */
  lemma {:induction false} LivesFloorAtZero(p: PlayerView, n: nat)
    requires ValidPlayer(p)
    ensures ValidPlayer(Losses(p, n)) && Losses(p, n).lives == if n < p.lives then p.lives - n else 0
  {
    if n > 0 {
      LivesFloorAtZero(p, n - 1);
    }
  }

  /** `n` calls of `loseLife`. */
  function Losses(p: PlayerView, n: nat): PlayerView {
    if n == 0 then p else LostLife(Losses(p, n - 1))
  }

  class Player {
    const name: string
    const maxHints: int
    var lives: int
    var hints: int
    var inventory: seq<string>
    var currentRoom: Int32

    function View(): PlayerView
      reads this
    {
      PlayerView(name, lives, hints, maxHints, inventory, currentRoom)
    }

    ghost predicate Valid()
      reads this
    {
      ValidPlayer(View())
    }

    constructor (name: string)
      ensures View() == NewPlayer(name) && Valid()
    {
      this.name := name;
      lives := 3;
      maxHints := 3;
      hints := 3;
      inventory := [];
      currentRoom := 0;
    }

    method LoseLife()
      modifies this
      ensures View() == LostLife(old(View()))
    {
      if lives > 0 {
        lives := lives - 1;
      }
    }

    /** `isAlive`: exactly when `loseLife` would take a life. */
    predicate IsAlive()
      reads this
      ensures IsAlive() <==> LostLife(View()) != View()
    {
      Alive(View())
    }

    method UseHint() returns (used: bool)
      modifies this
      ensures (View(), used) == HintTaken(old(View()))
    {
      if hints > 0 {
        hints := hints - 1;
        return true;
      }
      return false;
    }

    /** `hasHints`: exactly when `useHint` would spend one. */
    predicate HasHints()
      reads this
      ensures HasHints() <==> HintTaken(View()).1
    {
      hints > 0
    }

    method AddItem(item: string)
      modifies this
      ensures View() == WithItem(old(View()), item)
    {
      if item !in inventory {
        inventory := inventory + [item];
      }
    }

    /** `hasItem`: exactly when `removeItem` would take something out. */
    predicate HasItem(item: string)
      reads this
      ensures HasItem(item) <==> WithoutItem(View(), item) != View()
    {
      item in inventory
    }

    method RemoveItem(item: string)
      modifies this
      ensures View() == WithoutItem(old(View()), item)
    {
      inventory := RemoveFirst(inventory, item);
    }

    method NextRoom()
      modifies this
      ensures View() == Advanced(old(View()))
    {
      currentRoom := Wrap32(currentRoom + 1);
    }

    method Reset()
      modifies this
      ensures View() == Restarted(old(View()))
    {
      lives := 3;
      hints := maxHints;
      inventory := [];
      currentRoom := 0;
    }
  }
}
