/**
 * `GameEngine` as a class: it owns five `Room` objects, each holding its own `Puzzle` object, and a `Player`
 * object once a game has started. `View()` is the value of everything the engine can reach and the ghost
 * field `state` holds that value; each public method is specified by the step function of module `Game` it
 * performs on `state`, so every property proved there about the functions holds of the objects.
 */
module Engine {
  import opened Wrappers
  import opened Lists
  import opened Ciphers
  import opened Puzzles
  import opened Players
  import opened Rooms
  import opened Game

  /** A room built as `initializeRooms` builds each one: the constructor, then `setPuzzle`. */
  method BuildRoom(number: int, name: string, description: string, p: Puzzle) returns (r: Room)
    ensures fresh(r) && r.puzzle == p
    ensures r.View() == NewRoom(number, name, description).(puzzle := Some(p.View()))
  {
    r := new Room(number, name, description);
    r.SetPuzzle(p);
  }

  /** Room 0, the Entrance, with the riddle. */
  method EntranceRoom() returns (r: Room, p: Puzzle)
    ensures fresh(r) && fresh(p) && r.puzzle == p
    ensures r.View() == NewRoom(0, ENTRANCE_NAME, ENTRANCE_TEXT).(puzzle := Some(RiddlePuzzle()))
  {
    p := new Puzzle(RIDDLE_QUESTION, RIDDLE_ANSWER, RIDDLE_HINT, Riddle);
    r := BuildRoom(0, ENTRANCE_NAME, ENTRANCE_TEXT, p);
  }

  /** Room 1, the Cipher Chamber, with the Caesar puzzle of shift 3; only this room requires "key". */
  method CipherRoom() returns (r: Room, p: Puzzle)
    ensures fresh(r) && fresh(p) && r.puzzle == p
    ensures r.View() == NewRoom(1, CIPHER_NAME, CIPHER_TEXT).(puzzle := Some(CaesarPuzzle()), required := AddIfAbsent([], KEY_ITEM))
  {
    var caesarText := CaesarEncrypt(CAESAR_PLAIN, 3);
    p := new Puzzle(caesarText, CAESAR_PLAIN, CAESAR_HINT, CaesarCipher(3));
    r := BuildRoom(1, CIPHER_NAME, CIPHER_TEXT, p);
    r.AddRequiredItem(KEY_ITEM);
  }

  /** Room 2, the Mathematical Maze, with a drawn arithmetic problem. */
  method MazeRoom(draws: MathDraws) returns (r: Room, p: Puzzle)
    requires ValidMathDraws(draws)
    ensures fresh(r) && fresh(p) && r.puzzle == p
    ensures r.View() == NewRoom(2, MAZE_NAME, MAZE_TEXT).(puzzle := Some(MathPuzzle(draws)))
  {
    var question, answer := GenerateMathPuzzle(draws);
    p := new Puzzle(question, answer, MATH_HINT, Math);
    r := BuildRoom(2, MAZE_NAME, MAZE_TEXT, p);
  }

  /** Room 3, the Word Vault, with "FREEDOM" scrambled by the draws. */
  method VaultRoom(draws: seq<int>) returns (r: Room, p: Puzzle)
    requires ValidDraws(draws, |SCRAMBLE_WORD|)
    ensures fresh(r) && fresh(p) && r.puzzle == p
    ensures r.View() == NewRoom(3, VAULT_NAME, VAULT_TEXT).(puzzle := Some(ScramblePuzzle(draws)))
  {
    var scrambled := ScrambleWord(SCRAMBLE_WORD, draws);
    p := new Puzzle(scrambled, SCRAMBLE_WORD, SCRAMBLE_HINT, WordScramble);
    r := BuildRoom(3, VAULT_NAME, VAULT_TEXT, p);
  }

  /** Room 4, the Final Chamber, with a substitution cipher under a drawn key. */
  method FinalRoom(draws: seq<int>) returns (r: Room, p: Puzzle)
    requires ValidDraws(draws, 26)
    ensures fresh(r) && fresh(p) && r.puzzle == p
    ensures r.View() == NewRoom(4, FINAL_NAME, FINAL_TEXT).(puzzle := Some(FinalPuzzle(draws)))
  {
    var subKey := GenerateSubstitutionKey(draws);
    var subText := SubstitutionEncrypt(FINAL_PLAIN, subKey);
    p := new Puzzle(subText, FINAL_PLAIN, FINAL_HINT, SubstitutionCipher(subKey));
    r := BuildRoom(4, FINAL_NAME, FINAL_TEXT, p);
  }

  /** Five distinct rooms, each holding its own, distinct puzzle. */
  ghost predicate Linked(rs: seq<Room>, ps: seq<Puzzle>)
    reads rs
  {
    |rs| == ROOM_COUNT && |ps| == ROOM_COUNT
    && (forall i :: 0 <= i < ROOM_COUNT ==> rs[i].puzzle == ps[i])
    && Distinct(rs) && Distinct(ps)
  }

  /** The values of linked rooms, in order. */
  ghost function ViewsOf(rs: seq<Room>, ps: seq<Puzzle>): (vs: seq<RoomView>)
    requires Linked(rs, ps)
    reads rs, ps
    ensures |vs| == ROOM_COUNT && forall i :: 0 <= i < ROOM_COUNT ==> vs[i] == rs[i].View()
  {
    seq(ROOM_COUNT, i requires 0 <= i < ROOM_COUNT && Linked(rs, ps) reads rs, ps => rs[i].View())
  }

  /** Five different rooms, each holding its own puzzle, the puzzles different too, are linked. */
  lemma LinkedFive(r0: Room, r1: Room, r2: Room, r3: Room, r4: Room, p0: Puzzle, p1: Puzzle, p2: Puzzle, p3: Puzzle, p4: Puzzle)
    requires r0.puzzle == p0 && r1.puzzle == p1 && r2.puzzle == p2 && r3.puzzle == p3 && r4.puzzle == p4
    requires r0 != r1 && r0 != r2 && r0 != r3 && r0 != r4 && r1 != r2 && r1 != r3 && r1 != r4 && r2 != r3 && r2 != r4 && r3 != r4
    requires p0 != p1 && p0 != p2 && p0 != p3 && p0 != p4 && p1 != p2 && p1 != p3 && p1 != p4 && p2 != p3 && p2 != p4 && p3 != p4
    ensures Linked([r0, r1, r2, r3, r4], [p0, p1, p2, p3, p4])
    ensures ViewsOf([r0, r1, r2, r3, r4], [p0, p1, p2, p3, p4]) == [r0.View(), r1.View(), r2.View(), r3.View(), r4.View()]
  {
    DistinctFive(r0, r1, r2, r3, r4);
    DistinctFive(p0, p1, p2, p3, p4);
  }

  /** `initializeRooms`: five new rooms, each holding its own new puzzle, as `InitialRooms` describes them. */
  method BuildRooms(d: Draws) returns (rs: seq<Room>, ps: seq<Puzzle>)
    requires ValidGameDraws(d)
    ensures Linked(rs, ps) && ViewsOf(rs, ps) == InitialRooms(d)
  {
    var r0, p0 := EntranceRoom();
    var r1, p1 := CipherRoom();
    var r2, p2 := MazeRoom(d.math);
    var r3, p3 := VaultRoom(d.scramble);
    var r4, p4 := FinalRoom(d.key);
    rs, ps := [r0, r1, r2, r3, r4], [p0, p1, p2, p3, p4];
    LinkedFive(r0, r1, r2, r3, r4, p0, p1, p2, p3, p4);
    InitialRoomsInOrder(d);
    assert InitialRooms(d) == [r0.View(), r1.View(), r2.View(), r3.View(), r4.View()];
  }

  /** `new Player(playerName)` followed by `addItem("key")`. */
  method NewPlayerWithKey(name: string) returns (p: Player)
    ensures fresh(p) && p.View() == WithItem(NewPlayer(name), KEY_ITEM)
  {
    p := new Player(name);
    p.AddItem(KEY_ITEM);
  }

  class GameEngine {
    var player: Player?
    /** The list of rooms is filled by the constructor and never changes afterwards. */
    const rooms: seq<Room>
    /** The puzzle each room holds, in room order. */
    ghost const puzzles: seq<Puzzle>
    var currentRoomIndex: int
    var gameRunning: bool
    var gameWon: bool
    /** Whether a timer task is scheduled (`puzzleTimer != null`). */
    var timerActive: bool
    var timeRemaining: int
    /** Whether a user interface is attached (`uiManager != null`). */
    var uiAttached: bool
    /** The calls made on the attached interface, in order. */
    var events: seq<Event>
    /** The value of the whole engine, as module `Game` describes it. */
    ghost var state: Game

    ghost predicate Shape()
      reads rooms
    {
      Linked(rooms, puzzles)
    }

    ghost function RoomViews(): (vs: seq<RoomView>)
      requires Shape()
      reads rooms, puzzles
      ensures |vs| == ROOM_COUNT && forall i :: 0 <= i < ROOM_COUNT ==> vs[i] == rooms[i].View()
    {
      ViewsOf(rooms, puzzles)
    }

    ghost function View(): Game
      requires Shape()
      reads this`player, this`currentRoomIndex, this`gameRunning, this`gameWon, this`timerActive, this`timeRemaining
      reads this`uiAttached, this`events, player, rooms, puzzles
    {
      Game(if player == null then None else Some(player.View()), RoomViews(), currentRoomIndex, gameRunning, gameWon,
        timerActive, timeRemaining, uiAttached, events)
    }

    /** The objects hold what `state` says. */
    ghost predicate Valid()
      reads this, player, rooms, puzzles
    {
      Shape() && View() == state
    }

    /** The constructor and `initializeRooms`, given the random draws. */
    constructor (d: Draws)
      requires ValidGameDraws(d)
      ensures Valid() && state == Initial(d)
    {
      var rs, ps := BuildRooms(d);
      ghost var vs := ViewsOf(rs, ps);
      rooms, puzzles := rs, ps;
      player := null;
      currentRoomIndex := 0;
      gameRunning := false;
      gameWon := false;
      timerActive := false;
      timeRemaining := TIME_LIMIT;
      uiAttached := false;
      events := [];
      state := Initial(d);
      new;
      assert ViewsOf(rs, ps) == vs;
    }

    /** `setUIManager`. */
    method SetUIManager(attached: bool)
      requires Valid()
      modifies this
      ensures Valid() && state == old(state).(uiAttached := attached)
    {
      uiAttached := attached;
      state := state.(uiAttached := attached);
    }

    /** `startNewGame`: a fresh player holding "key"; the rooms and the timer are left as they are. */
    method StartNewGame(playerName: string)
      requires Valid()
      modifies this
      ensures Valid() && state == NewGame(old(state), playerName)
    {
      ghost var g := state;
      var p := NewPlayerWithKey(playerName);
      Begin(p);
      state := NewGame(g, playerName);
    }

    /** The fields `startNewGame` sets once the player exists, and the interface calls it makes. */
    method Begin(p: Player)
      requires Shape()
      modifies this`player, this`currentRoomIndex, this`gameRunning, this`gameWon, this`timeRemaining, this`events
      ensures Shape() && View() == Notified(old(View()).(player := Some(p.View()), index := 0, running := true, won := false,
        timeRemaining := TIME_LIMIT), [ShowGameScreen, UpdateHud])
    {
      player, currentRoomIndex, gameRunning, gameWon, timeRemaining := p, 0, true, false, TIME_LIMIT;
      if uiAttached {
        events := events + [ShowGameScreen, UpdateHud];
      }
    }

    /** `getCurrentRoom`: the current room while the index is within the list, otherwise `null`. */
    method GetCurrentRoom() returns (r: Room?)
      requires Shape() && 0 <= currentRoomIndex
      ensures r != null <==> CurrentRoom(View()).Some?
      ensures r != null ==> r == rooms[currentRoomIndex] && r.View() == View().rooms[currentRoomIndex]
    {
      if currentRoomIndex < |rooms| {
        return rooms[currentRoomIndex];
      }
      return null;
    }

    /** Cancelling the scheduled task, the body of `stopTimer`, as the other operations use it half-way. */
    method CancelTask()
      requires Shape()
      modifies this`timerActive
      ensures Shape() && View() == TimerStopped(old(View()))
    {
      timerActive := false;
    }

    /** `stopTimer`: cancels the scheduled task, if any. */
    method StopTimer()
      requires Valid()
      modifies this
      ensures Valid() && state == TimerStopped(old(state))
    {
      ghost var g := state;
      CancelTask();
      state := TimerStopped(g);
    }

    /** `currentRoom.complete()` on the current room: that room and its puzzle change, no other room does. */
    method CompleteCurrentRoom()
      requires Shape() && 0 <= currentRoomIndex < ROOM_COUNT
      modifies rooms, puzzles
      ensures Shape() && RoomViews() == old(RoomViews())[currentRoomIndex := Completed(old(rooms[currentRoomIndex].View()))]
    {
      ghost var vs := RoomViews();
      var i := currentRoomIndex;
      rooms[i].Complete();
      forall j | 0 <= j < ROOM_COUNT && j != i ensures rooms[j].View() == vs[j] {
        assert rooms[j] != rooms[i] && puzzles[j] != puzzles[i];
      }
    }

    /** `nextRoom.setUnlocked(true)` on the room at `i`: no other room changes. */
    method UnlockRoom(i: int)
      requires Shape() && 0 <= i < ROOM_COUNT
      modifies rooms
      ensures Shape() && RoomViews() == old(RoomViews())[i := old(rooms[i].View()).(unlocked := true)]
    {
      ghost var vs := RoomViews();
      rooms[i].SetUnlocked(true);
      forall j | 0 <= j < ROOM_COUNT && j != i ensures rooms[j].View() == vs[j] {
        assert rooms[j] != rooms[i];
      }
    }

    /** The current room completed and the timer stopped, the first steps for an accepted answer. */
    method FinishRoom()
      requires Shape() && 0 <= currentRoomIndex < ROOM_COUNT
      modifies this, rooms, puzzles
      ensures Shape() && View() == Done(old(View()))
    {
      CompleteCurrentRoom();
      CancelTask();
    }

    /** An accepted answer in the last room. */
    method Win()
      requires Shape()
      modifies this`gameWon, this`gameRunning, this`events
      ensures Shape() && View() == Won(old(View()))
    {
      gameWon, gameRunning := true, false;
      if uiAttached {
        events := events + [Victory];
      }
    }

    /** An accepted answer before the last room: on to the next room, unlocked when it exists. */
    method MoveOn()
      requires Shape() && 0 <= currentRoomIndex
      modifies this`currentRoomIndex, this`events, rooms
      ensures Shape() && View() == MovedOn(old(View()))
    {
      ghost var g := View();
      currentRoomIndex := currentRoomIndex + 1;
      var nextRoom := GetCurrentRoom();
      if nextRoom != null {
        UnlockRoom(currentRoomIndex);
      }
      assert RoomViews() == MovedOn(g).rooms;
      Announce([UpdateHud, RoomTransition]);
    }

    /** The calls on the interface, made only when one is attached. */
    method Announce(es: seq<Event>)
      requires Shape()
      modifies this`events
      ensures Shape() && View() == Notified(old(View()), es)
    {
      if uiAttached {
        events := events + es;
      }
    }

    /** The branch of `submitAnswer` for an accepted answer. */
    method Advance()
      requires Shape() && 0 <= currentRoomIndex < ROOM_COUNT
      modifies this, rooms, puzzles
      ensures Shape() && View() == Accepted(old(View()))
    {
      FinishRoom();
      if currentRoomIndex == |rooms| - 1 {
        Win();
      } else {
        MoveOn();
      }
    }

    /** A life lost, by a wrong answer or when the clock runs out; `notice` is what the interface is shown. */
    method LoseLife(notice: Event)
      requires Shape() && player != null
      modifies this`events, this`gameRunning, player
      ensures Shape() && View() == Penalized(old(View()), notice)
    {
      ghost var g := View();
      player.LoseLife();
      assert RoomViews() == g.rooms;
      assert View() == g.(player := Some(LostLife(g.player.value)));
      Notify(notice);
    }

    /** The engine's half of losing a life: the interface is told, and the game ends with the last life. */
    method Notify(notice: Event)
      requires Shape() && player != null
      modifies this`events, this`gameRunning
      ensures Shape() && View() == (var hurt := Notified(old(View()), [UpdateHud, notice]);
        if Alive(player.View()) then hurt else Notified(hurt.(running := false), [GameOver]))
    {
      if uiAttached {
        events := events + [UpdateHud, notice];
      }
      if !player.IsAlive() {
        gameRunning := false;
        if uiAttached {
          events := events + [GameOver];
        }
      }
    }

    /** The two branches of `submitAnswer` once the answer is judged. */
    method Respond(correct: bool)
      requires Shape() && player != null && 0 <= currentRoomIndex < ROOM_COUNT
      modifies this, player, rooms, puzzles
      ensures Shape() && View() == Judge(old(View()), correct).0
    {
      if correct {
        Advance();
      } else {
        LoseLife(WrongAnswer);
      }
    }

    /**
     * `submitAnswer`. The player must exist: the source dereferences it on a wrong answer. It does not look at
     * whether the game is running.
     */
    method SubmitAnswer(answer: string) returns (ok: bool)
      requires Valid() && player != null && 0 <= currentRoomIndex
      modifies this, player, rooms, puzzles
      ensures Valid() && (state, ok) == Submit(old(state), answer)
    {
      ghost var g := state;
      var currentRoom := GetCurrentRoom();
      if currentRoom == null || currentRoom.puzzle == null {
        return false;
      }
      var correct := ValidateAnswer(currentRoom.puzzle.kind, currentRoom.puzzle.answer, Some(answer));
      assert correct == Accepts(g.rooms[g.index].puzzle.value, answer);
      Respond(correct);
      ok := correct;
      state := Judge(g, correct).0;
    }

    /** `useHint`. The player must exist: the source dereferences it first thing. */
    method UseHint() returns (text: string)
      requires Valid() && player != null && 0 <= currentRoomIndex
      modifies this`events, this`state, player
      ensures Valid() && (state, text) == Hint(old(state))
    {
      ghost var g := state;
      if !player.HasHints() {
        return NO_HINTS;
      }
      var used := player.UseHint();
      assert RoomViews() == g.rooms;
      text := NO_HINT_AVAILABLE;
      if used {
        var currentRoom := GetCurrentRoom();
        if currentRoom != null && currentRoom.puzzle != null {
          if uiAttached {
            events := events + [UpdateHud];
          }
          text := currentRoom.puzzle.hint;
        }
      }
      state := Hint(g).0;
    }

    /** `startTimer`: cancels any scheduled task, resets the clock and schedules exactly one task. */
    method StartTimer()
      requires Valid()
      modifies this
      ensures Valid() && state == TimerStarted(old(state))
    {
      ghost var g := state;
      timeRemaining, timerActive := TIME_LIMIT, true;
      state := TimerStarted(g);
    }

    /** The first step of a run of the scheduled task. */
    method CountDown()
      requires Shape()
      modifies this`timeRemaining, this`events
      ensures Shape() && View() == CountedDown(old(View()))
    {
      timeRemaining := timeRemaining - 1;
      if uiAttached {
        events := events + [UpdateTimer(timeRemaining)];
      }
    }

    /**
     * One run of the scheduled task, the body of `run()`; nothing happens when no task is scheduled. The task
     * dereferences the player when the clock runs out.
     */
    method Tick()
      requires Valid() && (timerActive && timeRemaining <= 1 ==> player != null)
      modifies this, player
      ensures Valid() && state == Ticked(old(state))
    {
      ghost var g := state;
      if !timerActive {
        return;
      }
      CountDown();
      if timeRemaining <= 0 {
        LoseLife(TimeUp);
        CancelTask();
      }
      state := Ticked(g);
    }

    /** `quitGame`. */
    method QuitGame()
      requires Valid()
      modifies this
      ensures Valid() && state == Quit(old(state))
    {
      ghost var g := state;
      gameRunning := false;
      CancelTask();
      if uiAttached {
        events := events + [MainMenu];
      }
      state := Quit(g);
    }
  }
}
