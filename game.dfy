/**
 * The progression state machine of `GameEngine`, as pure functions on a value `Game` holding every field the
 * engine reads or writes. The swing timer thread becomes the flag `timerActive` and the function `Tick`,
 * one run of the timer task; the calls into the user interface become `Event`s appended to `events`,
 * only while an interface is attached (the source's `uiManager != null` checks).
 */
module Game {
  import opened Wrappers
  import opened Lists
  import opened JavaText
  import opened Ciphers
  import opened Puzzles
  import opened Players
  import opened Rooms

  const ROOM_COUNT: int := 5
  const TIME_LIMIT: int := 60
  const NO_HINTS: string := "No hints remaining!"
  const NO_HINT_AVAILABLE: string := "No hint available for this puzzle."

  // The rooms `initializeRooms` builds.
  const ENTRANCE_NAME: string := "The Entrance"
  const ENTRANCE_TEXT: string :=
    "You find yourself in a dimly lit entrance hall. Ancient symbols cover the walls, and a single door stands before you."
  const RIDDLE_QUESTION: string :=
    "I speak without a mouth and hear without ears. I have no body, but come alive with wind. What am I?"
  const RIDDLE_ANSWER: string := "echo"
  const RIDDLE_HINT: string := "Think about what happens when you shout in a canyon..."
  const CIPHER_NAME: string := "The Cipher Chamber"
  const CIPHER_TEXT: string :=
    "The door creaks open to reveal a chamber filled with ancient scrolls. Cryptic messages line the walls."
  const CAESAR_PLAIN: string := "OPEN THE DOOR"
  /** The Cipher Chamber's question as the player reads it. */
  const CAESAR_QUESTION: string := "RSHQ WKH GRRU"
  const CAESAR_HINT: string := "Each letter is shifted by 3 positions in the alphabet"
  const KEY_ITEM: string := "key"
  const MAZE_NAME: string := "The Mathematical Maze"
  const MAZE_TEXT: string :=
    "You enter a room with numbers floating in the air. Mathematical equations glow on the walls."
  const MATH_HINT: string := "Remember your basic arithmetic operations"
  const VAULT_NAME: string := "The Word Vault"
  const VAULT_TEXT: string :=
    "Bookshelves line every wall, filled with scrambled words. A single word holds the key to freedom."
  const SCRAMBLE_WORD: string := "FREEDOM"
  const SCRAMBLE_HINT: string := "The word has 7 letters and means liberation"
  const FINAL_NAME: string := "The Final Chamber"
  const FINAL_TEXT: string :=
    "The final room. Ancient runes cover every surface. Decode the final message to escape!"
  const FINAL_PLAIN: string := "ESCAPE SUCCESS"
  const FINAL_HINT: string := "Each letter is replaced with another letter according to a pattern"

  /** The user-interface calls the engine makes. */
  datatype Event =
    | ShowGameScreen
    | UpdateHud
    | UpdateTimer(remaining: int)
    | RoomTransition
    | WrongAnswer
    | TimeUp
    | Victory
    | GameOver
    | MainMenu

  datatype Game = Game(
    player: Option<PlayerView>,
    rooms: seq<RoomView>,
    index: int,
    running: bool,
    won: bool,
    timerActive: bool,
    timeRemaining: int,
    uiAttached: bool,
    events: seq<Event>)

  /** The random draws `initializeRooms` makes: the math puzzle's, the scramble's and the key shuffle's. */
  datatype Draws = Draws(math: MathDraws, scramble: seq<int>, key: seq<int>)

  predicate ValidGameDraws(d: Draws) {
    ValidMathDraws(d.math) && ValidDraws(d.scramble, |SCRAMBLE_WORD|) && ValidDraws(d.key, 26)
  }

  /** The puzzles `initializeRooms` creates, one function per room. */
  function RiddlePuzzle(): PuzzleView {
    PuzzleView(RIDDLE_QUESTION, RIDDLE_ANSWER, RIDDLE_HINT, Riddle, false)
  }

  function CaesarPuzzle(): PuzzleView {
    PuzzleView(Caesar(CAESAR_PLAIN, 3), CAESAR_PLAIN, CAESAR_HINT, CaesarCipher(3), false)
  }

  /** `caesarEncrypt("OPEN THE DOOR", 3)` shows the player "RSHQ WKH GRRU". */
  lemma CaesarQuestionValue()
    ensures Caesar(CAESAR_PLAIN, 3) == CAESAR_QUESTION
  {
    CaesarWithoutWrap(CAESAR_PLAIN, 3);
  }

  function MathPuzzle(d: MathDraws): PuzzleView
    requires ValidMathDraws(d)
  {
    PuzzleView(MathQuestion(d), MathAnswer(d), MATH_HINT, Math, false)
  }

  function ScramblePuzzle(draws: seq<int>): PuzzleView
    requires ValidDraws(draws, |SCRAMBLE_WORD|)
  {
    PuzzleView(SwapFrom(SCRAMBLE_WORD, draws, 0), SCRAMBLE_WORD, SCRAMBLE_HINT, WordScramble, false)
  }

  function FinalPuzzle(draws: seq<int>): PuzzleView
    requires ValidDraws(draws, 26)
  {
    var key := SwapFrom(ALPHABET, draws, 0);
    PuzzleView(Substitution(FINAL_PLAIN, key), FINAL_PLAIN, FINAL_HINT, SubstitutionCipher(key), false)
  }

  /** Each letter of the (upper-case) plain text of the Final Chamber replaced through a key. */
  function FinalQuestion(key: string): string {
    seq(|FINAL_PLAIN|, i requires 0 <= i < |FINAL_PLAIN| => SubstChar(FINAL_PLAIN[i], key))
  }

  /** Under a key that permutes the alphabet, `substitutionEncrypt(FINAL_PLAIN, key)` replaces letter by letter. */
  lemma FinalQuestionValue(key: string)
    requires IsKey(key)
    ensures Substitution(FINAL_PLAIN, key) == FinalQuestion(key)
  {
    KeyUpper(key);
    ToUpperOfUpper(FINAL_PLAIN);
  }

  /** Room `k` as `initializeRooms` builds it before setting its puzzle; only the Cipher Chamber requires an item. */
  function RoomShell(k: int): RoomView {
    if k == 0 then NewRoom(0, ENTRANCE_NAME, ENTRANCE_TEXT)
    else if k == 1 then NewRoom(1, CIPHER_NAME, CIPHER_TEXT).(required := AddIfAbsent([], KEY_ITEM))
    else if k == 2 then NewRoom(2, MAZE_NAME, MAZE_TEXT)
    else if k == 3 then NewRoom(3, VAULT_NAME, VAULT_TEXT)
    else NewRoom(4, FINAL_NAME, FINAL_TEXT)
  }

  /** The shells of the five rooms, one by one. */
  lemma RoomShellsInOrder()
    ensures RoomShell(0) == NewRoom(0, ENTRANCE_NAME, ENTRANCE_TEXT)
    ensures RoomShell(1) == NewRoom(1, CIPHER_NAME, CIPHER_TEXT).(required := AddIfAbsent([], KEY_ITEM))
    ensures RoomShell(2) == NewRoom(2, MAZE_NAME, MAZE_TEXT)
    ensures RoomShell(3) == NewRoom(3, VAULT_NAME, VAULT_TEXT)
    ensures RoomShell(4) == NewRoom(4, FINAL_NAME, FINAL_TEXT)
  {
  }

  /** The five rooms, in order, holding the given puzzles. */
  function RoomsWith(ps: seq<PuzzleView>): (rs: seq<RoomView>)
    requires |ps| == ROOM_COUNT
    ensures |rs| == ROOM_COUNT && forall i :: 0 <= i < ROOM_COUNT ==> rs[i] == RoomShell(i).(puzzle := Some(ps[i]))
  {
    seq(ROOM_COUNT, i requires 0 <= i < ROOM_COUNT => RoomShell(i).(puzzle := Some(ps[i])))
  }

  /** The puzzle `initializeRooms` gives room `k`. */
  function InitialPuzzle(d: Draws, k: int): PuzzleView
    requires ValidGameDraws(d)
  {
    if k == 0 then RiddlePuzzle()
    else if k == 1 then CaesarPuzzle()
    else if k == 2 then MathPuzzle(d.math)
    else if k == 3 then ScramblePuzzle(d.scramble)
    else FinalPuzzle(d.key)
  }

  function InitialPuzzles(d: Draws): (ps: seq<PuzzleView>)
    requires ValidGameDraws(d)
    ensures |ps| == ROOM_COUNT
  {
    seq(ROOM_COUNT, k requires 0 <= k < ROOM_COUNT => InitialPuzzle(d, k))
  }

  function InitialRooms(d: Draws): seq<RoomView>
    requires ValidGameDraws(d)
  {
    RoomsWith(InitialPuzzles(d))
  }

  /** The rooms of `initializeRooms`, one by one. */
  lemma InitialRoomsInOrder(d: Draws)
    requires ValidGameDraws(d)
    ensures InitialRooms(d) == [
      NewRoom(0, ENTRANCE_NAME, ENTRANCE_TEXT).(puzzle := Some(RiddlePuzzle())),
      NewRoom(1, CIPHER_NAME, CIPHER_TEXT).(puzzle := Some(CaesarPuzzle()), required := AddIfAbsent([], KEY_ITEM)),
      NewRoom(2, MAZE_NAME, MAZE_TEXT).(puzzle := Some(MathPuzzle(d.math))),
      NewRoom(3, VAULT_NAME, VAULT_TEXT).(puzzle := Some(ScramblePuzzle(d.scramble))),
      NewRoom(4, FINAL_NAME, FINAL_TEXT).(puzzle := Some(FinalPuzzle(d.key)))]
  {
    InitialPuzzlesInOrder(d);
    RoomShellsInOrder();
  }

  /** The engine after its constructor: no player, not running, the full time on the clock, no timer. */
  function Initial(d: Draws): Game
    requires ValidGameDraws(d)
  {
    Game(None, InitialRooms(d), 0, false, false, false, TIME_LIMIT, false, [])
  }

  /** The fixed shape of the rooms: five, numbered 0..4, each with a puzzle, only room 1 requiring "key". */
  ghost predicate Layout(rs: seq<RoomView>) {
    |rs| == ROOM_COUNT
    && forall i :: 0 <= i < |rs| ==>
      rs[i].number == i && rs[i].puzzle.Some? && rs[i].required == if i == 1 then [KEY_ITEM] else []
  }

  /**
   * How far the player got: a completed room's puzzle is solved, a room is unlocked only when the one before
   * it is completed, every room before the current one is completed, the first and the current room are
   * unlocked, and a win means every room is completed.
   */
  ghost predicate Progress(rs: seq<RoomView>, index: int, won: bool) {
    0 <= index < |rs|
    && (forall i :: 0 <= i < |rs| && rs[i].completed ==> PuzzleSolved(rs[i]))
    && (forall i, j :: 0 <= j < |rs| && i == j + 1 < |rs| && rs[i].unlocked ==> rs[j].completed)
    && (forall i :: 0 <= i < index ==> rs[i].completed)
    && rs[0].unlocked && rs[index].unlocked
    && (won ==> forall i :: 0 <= i < |rs| ==> rs[i].completed)
  }

  /** The clock stays within 0..60 and is positive while the timer runs. */
  ghost predicate ClockOk(timerActive: bool, timeRemaining: int) {
    0 <= timeRemaining <= TIME_LIMIT && (timerActive ==> timeRemaining > 0)
  }

  ghost predicate PlayerOk(player: Option<PlayerView>) {
    player.Some? ==> ValidPlayer(player.value)
  }

  /** What the engine keeps true. */
  ghost predicate Inv(g: Game) {
    Layout(g.rooms) && Progress(g.rooms, g.index, g.won) && PlayerOk(g.player) && ClockOk(g.timerActive, g.timeRemaining)
  }

  /** The calls in `es` reach the interface only when one is attached. */
  function Notified(g: Game, es: seq<Event>): (r: Game)
    ensures r == g.(events := r.events)
    ensures r.events == if g.uiAttached then g.events + es else g.events
  {
    if g.uiAttached then g.(events := g.events + es) else g
  }

  /** `startNewGame`: a fresh player holding "key", back to room 0 with a full clock; rooms and timer stay as they are. */
  function NewGame(g: Game, name: string): (r: Game)
    ensures r.player == Some(WithItem(NewPlayer(name), KEY_ITEM))
    ensures r.player.value.inventory == [KEY_ITEM] && r.player.value.lives == START_LIVES && r.player.value.hints == MAX_HINTS
    ensures r.index == 0 && r.running && !r.won && r.timeRemaining == TIME_LIMIT
    ensures r.rooms == g.rooms && r.timerActive == g.timerActive && r.uiAttached == g.uiAttached
  {
    var started := g.(player := Some(WithItem(NewPlayer(name), KEY_ITEM)), index := 0, running := true, won := false,
      timeRemaining := TIME_LIMIT);
    Notified(started, [ShowGameScreen, UpdateHud])
  }

  /** `getCurrentRoom`: the current index while it is within the list; `None` stands for `null`. */
  function CurrentRoom(g: Game): (r: Option<int>)
    requires 0 <= g.index
    ensures r.Some? ==> r.value == g.index && r.value < |g.rooms|
    ensures r.None? <==> g.index >= |g.rooms|
  {
    if g.index < |g.rooms| then Some(g.index) else None
  }

  /** The first steps of a correct answer: the current room is completed, its puzzle solved, the timer stopped. */
  function Done(g: Game): (r: Game)
    requires 0 <= g.index < |g.rooms|
    ensures r == g.(rooms := r.rooms, timerActive := false)
    ensures |r.rooms| == |g.rooms| && r.rooms[g.index] == Completed(g.rooms[g.index])
    ensures forall i :: 0 <= i < |g.rooms| && i != g.index ==> r.rooms[i] == g.rooms[i]
  {
    g.(rooms := g.rooms[g.index := Completed(g.rooms[g.index])], timerActive := false)
  }

  /** A correct answer in the last room: the game is won and over. */
  function Won(g: Game): (r: Game)
    ensures r == g.(won := true, running := false, events := r.events)
  {
    Notified(g.(won := true, running := false), [Victory])
  }

  /** A correct answer before the last room: on to the next room, which is unlocked when there is one. */
  function MovedOn(g: Game): (r: Game)
    requires 0 <= g.index
    ensures r.index == g.index + 1 && |r.rooms| == |g.rooms|
    ensures forall i :: 0 <= i < |g.rooms| ==> r.rooms[i] == if i == g.index + 1 then g.rooms[i].(unlocked := true) else g.rooms[i]
    ensures r == g.(index := r.index, rooms := r.rooms, events := r.events)
  {
    var next := g.(index := g.index + 1);
    var entered :=
      if CurrentRoom(next).Some? then next.(rooms := next.rooms[next.index := next.rooms[next.index].(unlocked := true)])
      else next;
    Notified(entered, [UpdateHud, RoomTransition])
  }

  /** What `submitAnswer` does with a correct answer. */
  function Accepted(g: Game): (r: Game)
    requires 0 <= g.index < |g.rooms|
    ensures r.player == g.player && |r.rooms| == |g.rooms| && r.rooms[g.index] == Completed(g.rooms[g.index])
    ensures g.index <= r.index <= g.index + 1
  {
    if g.index == |g.rooms| - 1 then Won(Done(g)) else MovedOn(Done(g))
  }

  /**
   * A life lost, by a wrong answer or by the clock, with `notice` telling the interface which; the game ends
   * with the last life.
   */
  function Penalized(g: Game, notice: Event): (r: Game)
    requires g.player.Some?
    ensures r.player == Some(LostLife(g.player.value))
    ensures r == g.(player := r.player, running := r.running, events := r.events)
    ensures r.running == (g.running && Alive(LostLife(g.player.value)))
  {
    var p := LostLife(g.player.value);
    var hurt := Notified(g.(player := Some(p)), [UpdateHud, notice]);
    if !Alive(p) then Notified(hurt.(running := false), [GameOver]) else hurt
  }

  /** What `submitAnswer` does once the current room's puzzle has judged the answer `correct` or not. */
  function Judge(g: Game, correct: bool): (r: (Game, bool))
    requires g.player.Some? && 0 <= g.index < |g.rooms|
    ensures r.1 == correct && r.0.player.Some? && r.0.index >= g.index
  {
    if correct then (Accepted(g), true) else (Penalized(g, WrongAnswer), false)
  }

  /** Whether the puzzle accepts the typed answer. */
  predicate Accepts(pz: PuzzleView, answer: string) {
    ValidateAnswer(pz.kind, pz.answer, Some(answer))
  }

  /** A typed answer is accepted as the puzzle's kind decides: by `checkAnswer`, or for MATH by comparing parsed integers. */
  lemma AcceptsByKind(pz: PuzzleView, answer: string)
    ensures pz.kind != Math ==> (Accepts(pz, answer) <==> CheckAnswer(pz.answer, Some(answer)))
    ensures pz.kind == Math ==>
      (Accepts(pz, answer) <==> ParseInt(Trim(answer)).Some? && ParseInt(Trim(answer)) == ParseInt(pz.answer))
  {
    ValidateAnswerByKind(pz.kind, pz.answer, Some(answer));
  }

  /** `submitAnswer`: the new state and the returned flag. */
  function Submit(g: Game, answer: string): (r: (Game, bool))
    requires g.player.Some? && 0 <= g.index
    ensures r.0.player.Some? && 0 <= r.0.index
  {
    if CurrentRoom(g).None? || g.rooms[g.index].puzzle.None? then (g, false)
    else Judge(g, Accepts(g.rooms[g.index].puzzle.value, answer))
  }

  /** `useHint`: the new state and the returned text. */
  function Hint(g: Game): (r: (Game, string))
    requires g.player.Some? && 0 <= g.index
    ensures r.0.index == g.index && r.0.rooms == g.rooms && r.0.player.Some?
  {
    if !(g.player.value.hints > 0) then (g, NO_HINTS)
    else
      var taken := HintTaken(g.player.value);
      var spent := g.(player := Some(taken.0));
      if taken.1 && CurrentRoom(g).Some? && g.rooms[g.index].puzzle.Some? then
        (Notified(spent, [UpdateHud]), g.rooms[g.index].puzzle.value.hint)
      else (spent, NO_HINT_AVAILABLE)
  }

  /** `stopTimer`. */
  function TimerStopped(g: Game): (r: Game)
    ensures !r.timerActive && r == g.(timerActive := false)
  {
    g.(timerActive := false)
  }

  /** `startTimer`: cancels any running timer, then starts exactly one with the full time. */
  function TimerStarted(g: Game): (r: Game)
    ensures r.timerActive && r.timeRemaining == TIME_LIMIT
    ensures r == g.(timerActive := true, timeRemaining := TIME_LIMIT)
  {
    TimerStopped(g).(timeRemaining := TIME_LIMIT, timerActive := true)
  }

  /**
   * One run of the timer task, which only happens while a timer is scheduled: one second less; at zero a
   * life is lost, the game may end, and the timer cancels itself. The task reads `player` without a check,
   * so a player must exist when the clock runs out.
   */
  function Ticked(g: Game): (r: Game)
    requires g.timerActive && g.timeRemaining <= 1 ==> g.player.Some?
    ensures r.player.Some? <==> g.player.Some?
  {
    if !g.timerActive then g
    else
      var counted := CountedDown(g);
      if counted.timeRemaining <= 0 then TimerStopped(Penalized(counted, TimeUp)) else counted
  }

  /** The first step of a run of the timer task: one second less, shown on the interface. */
  function CountedDown(g: Game): (r: Game)
    ensures r == g.(timeRemaining := g.timeRemaining - 1, events := r.events)
  {
    var t := g.timeRemaining - 1;
    Notified(g.(timeRemaining := t), [UpdateTimer(t)])
  }

  /** `quitGame`. */
  function Quit(g: Game): (r: Game)
    ensures !r.running && !r.timerActive
    ensures r.rooms == g.rooms && r.player == g.player && r.index == g.index && r.won == g.won
  {
    Notified(TimerStopped(g.(running := false)), [MainMenu])
  }

  // ---------------------------------------------------------------- the invariant

  lemma RoomsWithLayout(ps: seq<PuzzleView>)
    requires |ps| == ROOM_COUNT
    ensures Layout(RoomsWith(ps))
  {
    assert AddIfAbsent([], KEY_ITEM) == [KEY_ITEM];
    var rs := RoomsWith(ps);
    assert forall i :: 0 <= i < |rs| ==> rs[i].number == i && rs[i].required == if i == 1 then [KEY_ITEM] else [];
  }

  lemma RoomsWithProgress(ps: seq<PuzzleView>)
    requires |ps| == ROOM_COUNT
    ensures Progress(RoomsWith(ps), 0, false)
  {
    var rs := RoomsWith(ps);
    assert forall i :: 0 <= i < |rs| ==> !rs[i].completed && (rs[i].unlocked <==> i == 0);
  }

  lemma InitialInv(d: Draws)
    requires ValidGameDraws(d)
    ensures Inv(Initial(d))
    ensures var g := Initial(d); !g.running && !g.won && g.player.None? && g.index == 0 && !g.timerActive
  {
    RoomsWithLayout(InitialPuzzles(d));
    RoomsWithProgress(InitialPuzzles(d));
  }

  lemma CompleteLayout(rs: seq<RoomView>, i: int)
    requires Layout(rs) && 0 <= i < |rs|
    ensures Layout(rs[i := Completed(rs[i])])
  {
  }

  lemma UnlockLayout(rs: seq<RoomView>, i: int)
    requires Layout(rs) && 0 <= i < |rs|
    ensures Layout(rs[i := rs[i].(unlocked := true)])
  {
  }

  /** Completing the current room keeps the progress facts. */
  lemma CompleteProgress(rs: seq<RoomView>, i: int, won: bool)
    requires Layout(rs) && Progress(rs, i, won)
    ensures Progress(rs[i := Completed(rs[i])], i, won)
  {
    var ts := rs[i := Completed(rs[i])];
    assert forall k :: 0 <= k < |rs| ==> ts[k].unlocked == rs[k].unlocked && (rs[k].completed ==> ts[k].completed);
    assert forall k :: 0 <= k < |rs| && ts[k].completed ==> PuzzleSolved(ts[k]);
  }

  /** Moving on from a completed room and unlocking the next keeps the progress facts. */
  lemma AdvanceProgress(rs: seq<RoomView>, i: int, won: bool)
    requires Progress(rs, i, won) && rs[i].completed && i + 1 < |rs|
    ensures Progress(rs[i + 1 := rs[i + 1].(unlocked := true)], i + 1, won)
  {
  }

  /** Completing the last room wins. */
  lemma WinProgress(rs: seq<RoomView>, i: int, won: bool)
    requires Progress(rs, i, won) && rs[i].completed && i == |rs| - 1
    ensures Progress(rs, i, true)
  {
  }

  lemma NewGameInv(g: Game, name: string)
    requires Inv(g)
    ensures Inv(NewGame(g, name))
  {
  }

  /** Completing the last room keeps the invariant and completes every room. */
  lemma JudgeWinInv(g: Game)
    requires Inv(g) && g.player.Some? && g.index == ROOM_COUNT - 1
    ensures Inv(Accepted(g))
  {
    var i := g.index;
    CompleteLayout(g.rooms, i);
    CompleteProgress(g.rooms, i, g.won);
    WinProgress(g.rooms[i := Completed(g.rooms[i])], i, g.won);
  }

  /** Completing the current room and moving on keeps the chain of unlocked rooms. */
  lemma JudgeAdvanceInv(g: Game)
    requires Inv(g) && g.player.Some? && g.index < ROOM_COUNT - 1
    ensures Inv(Accepted(g))
  {
    var i := g.index;
    var done := g.rooms[i := Completed(g.rooms[i])];
    CompleteLayout(g.rooms, i);
    CompleteProgress(g.rooms, i, g.won);
    UnlockLayout(done, i + 1);
    AdvanceProgress(done, i, g.won);
  }

  lemma JudgeInv(g: Game, correct: bool)
    requires Inv(g) && g.player.Some?
    ensures Inv(Judge(g, correct).0)
  {
    if correct {
      if g.index == ROOM_COUNT - 1 {
        JudgeWinInv(g);
      } else {
        JudgeAdvanceInv(g);
      }
    }
  }

  lemma SubmitInv(g: Game, answer: string)
    requires Inv(g) && g.player.Some?
    ensures Inv(Submit(g, answer).0)
  {
    JudgeInv(g, Accepts(g.rooms[g.index].puzzle.value, answer));
  }

  lemma HintInv(g: Game)
    requires Inv(g) && g.player.Some?
    ensures Inv(Hint(g).0)
  {
  }

  lemma TickInv(g: Game)
    requires Inv(g) && (g.timerActive && g.timeRemaining <= 1 ==> g.player.Some?)
    ensures Inv(Ticked(g))
  {
  }

  lemma TimerInv(g: Game)
    requires Inv(g)
    ensures Inv(TimerStarted(g)) && Inv(TimerStopped(g)) && Inv(Quit(g))
  {
  }

  // ---------------------------------------------------------------- runs of public operations

  datatype Command =
    | StartNewGame(name: string)
    | SubmitAnswer(answer: string)
    | UseHint
    | StartTimerCommand
    | StopTimerCommand
    | TimerTick
    | QuitGame
    | SetUiManager(attached: bool)

  /** Whether the operation can run without dereferencing the missing player. */
  predicate Enabled(g: Game, c: Command) {
    match c
    case SubmitAnswer(_) => g.player.Some? && 0 <= g.index
    case UseHint => g.player.Some? && 0 <= g.index
    case TimerTick => g.timerActive && g.timeRemaining <= 1 ==> g.player.Some?
    case _ => true
  }

  function Step(g: Game, c: Command): Game
    requires Enabled(g, c)
  {
    match c
    case StartNewGame(name) => NewGame(g, name)
    case SubmitAnswer(answer) => Submit(g, answer).0
    case UseHint => Hint(g).0
    case StartTimerCommand => TimerStarted(g)
    case StopTimerCommand => TimerStopped(g)
    case TimerTick => Ticked(g)
    case QuitGame => Quit(g)
    case SetUiManager(attached) => g.(uiAttached := attached)
  }

  /** The state after the commands in order, or `None` when one of them would dereference the missing player. */
  function Run(g: Game, cs: seq<Command>): Option<Game>
    decreases |cs|
  {
    if cs == [] then Some(g)
    else if Enabled(g, cs[0]) then Run(Step(g, cs[0]), cs[1..])
    else None
  }

  lemma StepInv(g: Game, c: Command)
    requires Inv(g) && Enabled(g, c)
    ensures Inv(Step(g, c))
  {
    match c
    case StartNewGame(name) => NewGameInv(g, name);
    case SubmitAnswer(answer) => SubmitInv(g, answer);
    case UseHint => HintInv(g);
    case StartTimerCommand => TimerInv(g);
    case StopTimerCommand => TimerInv(g);
    case TimerTick => TickInv(g);
    case QuitGame => TimerInv(g);
    case SetUiManager(_) =>
  }

  /** Every sequence of public operations from a state that satisfies the invariant ends in one that does. */
  lemma {:induction false} RunInv(g: Game, cs: seq<Command>)
    requires Inv(g) && Run(g, cs).Some?
    ensures Inv(Run(g, cs).value)
    decreases |cs|
  {
    if cs != [] {
      StepInv(g, cs[0]);
      RunInv(Step(g, cs[0]), cs[1..]);
    }
  }

  /** ... in particular every run from the constructed engine. */
  lemma ReachableInv(d: Draws, cs: seq<Command>)
    requires ValidGameDraws(d) && Run(Initial(d), cs).Some?
    ensures Inv(Run(Initial(d), cs).value)
  {
    InitialInv(d);
    RunInv(Initial(d), cs);
  }

  // ---------------------------------------------------------------- events

  function Count(es: seq<Event>, e: Event): nat {
    if es == [] then 0 else Count(es[..|es| - 1], e) + (if es[|es| - 1] == e then 1 else 0)
  }

  lemma {:induction false} CountAppend(a: seq<Event>, b: seq<Event>, e: Event)
    ensures Count(a + b, e) == Count(a, e) + Count(b, e)
    decreases |b|
  {
    if b != [] {
      assert (a + b)[..|a + b| - 1] == a + b[..|b| - 1];
      assert (a + b)[|a + b| - 1] == b[|b| - 1];
      CountAppend(a, b[..|b| - 1], e);
    } else {
      assert a + b == a;
    }
  }

  /** The counts in the short event lists the engine sends. */
  lemma NoticeCounts()
    ensures Count([Victory], Victory) == 1 && Count([GameOver], GameOver) == 1 && Count([GameOver], Victory) == 0
    ensures Count([UpdateHud, WrongAnswer], GameOver) == 0 && Count([UpdateHud, WrongAnswer], Victory) == 0
  {
    assert [Victory][..0] == [] && [GameOver][..0] == [];
    assert [UpdateHud, WrongAnswer][..1] == [UpdateHud] && [UpdateHud][..0] == [];
  }

  /** How many times an event is added by notifying `es`. */
  lemma NotifiedCount(g: Game, es: seq<Event>, e: Event)
    ensures Count(Notified(g, es).events, e) == Count(g.events, e) + if g.uiAttached then Count(es, e) else 0
  {
    if g.uiAttached {
      CountAppend(g.events, es, e);
    }
  }

  // ---------------------------------------------------------------- submitAnswer

  /** With no current room or no puzzle nothing happens and the answer is refused. */
  lemma SubmitWithoutPuzzle(g: Game, answer: string)
    requires g.player.Some? && 0 <= g.index && (g.index >= |g.rooms| || g.rooms[g.index].puzzle.None?)
    ensures Submit(g, answer) == (g, false)
  {
  }

  /**
   * A correct answer in a room before the last completes the room and solves its puzzle, stops the timer,
   * moves to the next room and unlocks it; lives, hints and the other rooms are untouched.
   */
  lemma SubmitCorrect(g: Game, answer: string)
    requires Inv(g) && g.player.Some? && g.index < ROOM_COUNT - 1
    requires Accepts(g.rooms[g.index].puzzle.value, answer)
    ensures var (r, ok) := Submit(g, answer);
      ok && r.index == g.index + 1 && !r.timerActive && r.running == g.running && r.won == g.won
      && r.rooms[g.index] == Completed(g.rooms[g.index]) && PuzzleSolved(r.rooms[g.index])
      && r.rooms[r.index] == g.rooms[r.index].(unlocked := true)
      && (forall i :: 0 <= i < ROOM_COUNT && i != g.index && i != r.index ==> r.rooms[i] == g.rooms[i])
      && r.player == g.player
  {
    assert Submit(g, answer) == Judge(g, true);
  }

  /** A correct answer in the last room wins: the game stops, the index stays, and victory is announced once. */
  lemma SubmitCorrectLast(g: Game, answer: string)
    requires Inv(g) && g.player.Some? && g.index == ROOM_COUNT - 1
    requires Accepts(g.rooms[g.index].puzzle.value, answer)
    ensures var (r, ok) := Submit(g, answer);
      ok && r.won && !r.running && !r.timerActive && r.index == g.index && r.player == g.player
      && r.rooms == g.rooms[g.index := Completed(g.rooms[g.index])]
      && Count(r.events, Victory) == Count(g.events, Victory) + (if g.uiAttached then 1 else 0)
  {
    assert Submit(g, answer) == Judge(g, true);
    var done := g.(rooms := g.rooms[g.index := Completed(g.rooms[g.index])], timerActive := false);
    NotifiedCount(done.(won := true, running := false), [Victory], Victory);
    NoticeCounts();
  }

  /** The events of a wrong answer. */
  lemma WrongAnswerEvents(g: Game)
    requires g.player.Some? && ValidPlayer(g.player.value) && 0 <= g.index < |g.rooms|
    ensures var r := Judge(g, false).0;
      Count(r.events, GameOver) == Count(g.events, GameOver) + (if g.uiAttached && r.player.value.lives == 0 then 1 else 0)
      && Count(r.events, Victory) == Count(g.events, Victory)
  {
    var p := LostLife(g.player.value);
    var hurt := Notified(g.(player := Some(p)), [UpdateHud, WrongAnswer]);
    NotifiedCount(g.(player := Some(p)), [UpdateHud, WrongAnswer], GameOver);
    NotifiedCount(g.(player := Some(p)), [UpdateHud, WrongAnswer], Victory);
    NotifiedCount(hurt.(running := false), [GameOver], GameOver);
    NotifiedCount(hurt.(running := false), [GameOver], Victory);
    NoticeCounts();
  }

  /**
   * A wrong answer costs exactly one life (none at zero) and changes no room, the index or the timer; the game
   * stops exactly when no life is left, and game over is announced once on each such call.
   */
  lemma SubmitWrong(g: Game, answer: string)
    requires Inv(g) && g.player.Some?
    requires !Accepts(g.rooms[g.index].puzzle.value, answer)
    ensures var (r, ok) := Submit(g, answer);
      !ok && r.player == Some(LostLife(g.player.value))
      && r.rooms == g.rooms && r.index == g.index && r.timerActive == g.timerActive && r.won == g.won
      && (r.running <==> g.running && r.player.value.lives > 0)
      && Count(r.events, GameOver) == Count(g.events, GameOver) + (if g.uiAttached && r.player.value.lives == 0 then 1 else 0)
      && Count(r.events, Victory) == Count(g.events, Victory)
  {
    assert Submit(g, answer) == Judge(g, false);
    WrongAnswerEvents(g);
  }

  // ---------------------------------------------------------------- useHint

  /** With no hint left, nothing changes and the refusal text is returned. */
  lemma HintNoneLeft(g: Game)
    requires g.player.Some? && 0 <= g.index && g.player.value.hints == 0
    ensures Hint(g) == (g, NO_HINTS)
  {
  }

  /** Otherwise exactly one hint is spent and the current puzzle's hint is returned; nothing else changes. */
  lemma HintSpent(g: Game)
    requires Inv(g) && g.player.Some? && g.player.value.hints > 0
    ensures var (r, text) := Hint(g);
      text == g.rooms[g.index].puzzle.value.hint
      && r.player == Some(g.player.value.(hints := g.player.value.hints - 1))
      && r.rooms == g.rooms && r.index == g.index && r.running == g.running && r.timerActive == g.timerActive
  {
  }

  /**
   * With a hint left but no current room or no puzzle in it, the hint is still spent and the fallback text
   * is returned; nothing else changes.
   */
  lemma HintWithoutPuzzle(g: Game)
    requires g.player.Some? && 0 <= g.index && g.player.value.hints > 0
    requires g.index >= |g.rooms| || g.rooms[g.index].puzzle.None?
    ensures Hint(g) == (g.(player := Some(HintTaken(g.player.value).0)), NO_HINT_AVAILABLE)
    ensures HintTaken(g.player.value).0 == g.player.value.(hints := g.player.value.hints - 1)
  {
  }

  // ---------------------------------------------------------------- the timer

  /** `n` runs of the timer task. */
  function Ticks(g: Game, n: nat): Game
    requires g.player.Some?
    decreases n
  {
    if n == 0 then g else Ticks(Ticked(g), n - 1)
  }

  lemma {:induction false} TicksAdd(g: Game, m: nat, n: nat)
    requires g.player.Some?
    ensures Ticks(g, m).player.Some? && Ticks(g, m + n) == Ticks(Ticks(g, m), n)
    decreases m
  {
    if m > 0 {
      TicksAdd(Ticked(g), m - 1, n);
    }
  }

  /** Before the clock runs out every run takes off one second and changes nothing but the clock and the events. */
  lemma {:induction false} TicksCountDown(g: Game, n: nat)
    requires g.player.Some? && g.timerActive && n < g.timeRemaining
    ensures var r := Ticks(g, n);
      r.timerActive && r.timeRemaining == g.timeRemaining - n
      && r == g.(timeRemaining := r.timeRemaining, events := r.events)
    decreases n
  {
    if n > 0 {
      TicksCountDown(Ticked(g), n - 1);
    }
  }

  /** A stopped timer never runs. */
  lemma {:induction false} TicksStopped(g: Game, n: nat)
    requires g.player.Some? && !g.timerActive
    ensures Ticks(g, n) == g
    decreases n
  {
    if n > 0 {
      TicksStopped(Ticked(g), n - 1);
    }
  }

  /**
   * When the clock reaches zero exactly one life is lost and the timer stops, so any number of further runs
   * changes nothing: however long the timer is left alone, it costs one life.
   */
  lemma TimerCostsOneLife(g: Game, extra: nat)
    requires Inv(g) && g.player.Some? && g.timerActive
    ensures var r := Ticks(g, g.timeRemaining + extra);
      !r.timerActive && r.timeRemaining == 0 && r.player == Some(LostLife(g.player.value))
      && r.rooms == g.rooms && r.index == g.index
      && (r.running <==> g.running && LostLife(g.player.value).lives > 0)
  {
    var t := g.timeRemaining;
    TicksAdd(g, t - 1, 1);
    TicksCountDown(g, t - 1);
    var before := Ticks(g, t - 1);
    var expired := Ticks(before, 1);
    assert expired == Ticked(before);
    TicksAdd(g, t, extra);
    TicksStopped(expired, extra);
  }

  // ---------------------------------------------------------------- playing through

  /** What makes a stored answer acceptable as typed: no blanks around it, and a number for the math puzzle. */
  predicate OwnAnswerOk(pz: PuzzleView) {
    IsTrimmed(pz.answer) && (pz.kind.Math? ==> ParseInt(pz.answer).Some?)
  }

  ghost predicate AnswersAccepted(rs: seq<RoomView>) {
    forall i :: 0 <= i < |rs| && rs[i].puzzle.Some? ==> OwnAnswerOk(rs[i].puzzle.value)
  }

  /** Each puzzle of `initializeRooms` has such an answer. */
  lemma RiddleAnswerOk()
    ensures OwnAnswerOk(RiddlePuzzle())
  {
  }

  lemma CaesarAnswerOk()
    ensures OwnAnswerOk(CaesarPuzzle())
  {
  }

  lemma MathAnswerOk(d: MathDraws)
    requires ValidMathDraws(d)
    ensures OwnAnswerOk(MathPuzzle(d))
  {
    MathAnswerParses(d);
    IntToStringTrimmed(MathProblem(d).v);
  }

  lemma ScrambleAnswerOk(draws: seq<int>)
    requires ValidDraws(draws, |SCRAMBLE_WORD|)
    ensures OwnAnswerOk(ScramblePuzzle(draws))
  {
  }

  lemma FinalAnswerOk(draws: seq<int>)
    requires ValidDraws(draws, 26)
    ensures OwnAnswerOk(FinalPuzzle(draws))
  {
  }

  /** The puzzles of `initializeRooms`, one by one. */
  lemma InitialPuzzlesInOrder(d: Draws)
    requires ValidGameDraws(d)
    ensures InitialPuzzles(d) == [RiddlePuzzle(), CaesarPuzzle(), MathPuzzle(d.math), ScramblePuzzle(d.scramble), FinalPuzzle(d.key)]
  {
    var ps := InitialPuzzles(d);
    assert ps[0] == RiddlePuzzle() && ps[1] == CaesarPuzzle() && ps[2] == MathPuzzle(d.math);
    assert ps[3] == ScramblePuzzle(d.scramble) && ps[4] == FinalPuzzle(d.key);
  }

  lemma FiveAnswersOk(p0: PuzzleView, p1: PuzzleView, p2: PuzzleView, p3: PuzzleView, p4: PuzzleView)
    requires OwnAnswerOk(p0) && OwnAnswerOk(p1) && OwnAnswerOk(p2) && OwnAnswerOk(p3) && OwnAnswerOk(p4)
    ensures forall k :: 0 <= k < 5 ==> OwnAnswerOk([p0, p1, p2, p3, p4][k])
  {
  }

  lemma RoomsWithAnswers(ps: seq<PuzzleView>)
    requires |ps| == ROOM_COUNT && forall k :: 0 <= k < ROOM_COUNT ==> OwnAnswerOk(ps[k])
    ensures AnswersAccepted(RoomsWith(ps))
  {
  }

  lemma InitialPuzzlesOk(d: Draws)
    requires ValidGameDraws(d)
    ensures forall k :: 0 <= k < ROOM_COUNT ==> OwnAnswerOk(InitialPuzzles(d)[k])
  {
    RiddleAnswerOk();
    CaesarAnswerOk();
    MathAnswerOk(d.math);
    ScrambleAnswerOk(d.scramble);
    FinalAnswerOk(d.key);
    FiveAnswersOk(RiddlePuzzle(), CaesarPuzzle(), MathPuzzle(d.math), ScramblePuzzle(d.scramble), FinalPuzzle(d.key));
    InitialPuzzlesInOrder(d);
  }

  /** Every room `initializeRooms` builds accepts its stored answer. */
  lemma InitialAnswersAccepted(d: Draws)
    requires ValidGameDraws(d)
    ensures AnswersAccepted(InitialRooms(d))
  {
    InitialPuzzlesOk(d);
    RoomsWithAnswers(InitialPuzzles(d));
  }

  /** The stored answers of the rooms, in order. */
  function StoredAnswers(rs: seq<RoomView>): (r: seq<string>)
    ensures |r| == |rs|
    ensures forall i :: 0 <= i < |rs| && rs[i].puzzle.Some? ==> r[i] == rs[i].puzzle.value.answer
  {
    if rs == [] then []
    else [if rs[0].puzzle.Some? then rs[0].puzzle.value.answer else []] + StoredAnswers(rs[1..])
  }

  /** `submitAnswer` called with each of the answers in turn. */
  function SubmitAll(g: Game, answers: seq<string>): Game
    requires g.player.Some? && 0 <= g.index
    decreases |answers|
  {
    if answers == [] then g else SubmitAll(Submit(g, answers[0]).0, answers[1..])
  }

  /** Submitting a first answer, then the rest. */
  lemma SubmitAllCons(g: Game, answer: string, more: seq<string>)
    requires g.player.Some? && 0 <= g.index
    ensures SubmitAll(g, [answer] + more) == SubmitAll(Submit(g, answer).0, more)
  {
    assert ([answer] + more)[1..] == more;
  }

  /** `answers[k]` is accepted by the puzzle of room `from + k`, for each room from `from` on. */
  ghost predicate AnswersFit(rs: seq<RoomView>, from: int, answers: seq<string>) {
    0 <= from && from + |answers| == |rs|
    && forall i :: from <= i < |rs| ==> rs[i].puzzle.Some? && Accepts(rs[i].puzzle.value, answers[i - from])
  }

  /** The last room's answer wins. */
  lemma WinByLastAnswer(g: Game, answers: seq<string>)
    requires g.player.Some? && 0 <= g.index == |g.rooms| - 1 && |answers| == 1
    requires g.rooms[g.index].puzzle.Some? && Accepts(g.rooms[g.index].puzzle.value, answers[0])
    ensures var r := SubmitAll(g, answers); r.won && !r.running
  {
    assert answers == [answers[0]] + [];
    SubmitAllCons(g, answers[0], []);
    assert Submit(g, answers[0]) == Judge(g, true);
  }

  /** An accepted answer before the last room moves on to the next one. */
  lemma AdvanceByAnswer(g: Game, answers: seq<string>)
    requires g.player.Some? && 0 <= g.index < |g.rooms| - 1 && answers != []
    requires g.rooms[g.index].puzzle.Some? && Accepts(g.rooms[g.index].puzzle.value, answers[0])
    ensures var r := Accepted(g);
      r.player.Some? && r.index == g.index + 1 && SubmitAll(g, answers) == SubmitAll(r, answers[1..])
  {
    assert answers == [answers[0]] + answers[1..];
    SubmitAllCons(g, answers[0], answers[1..]);
    assert Submit(g, answers[0]) == Judge(g, true);
  }

  /** Moving on keeps every later room's puzzle, so the remaining answers fit the remaining rooms. */
  lemma LaterAnswersFit(g: Game, answers: seq<string>)
    requires 0 <= g.index < |g.rooms| - 1 && AnswersFit(g.rooms, g.index, answers)
    ensures AnswersFit(Accepted(g).rooms, g.index + 1, answers[1..])
  {
    forall i | g.index + 1 <= i < |g.rooms|
      ensures Accepted(g).rooms[i].puzzle == g.rooms[i].puzzle
      ensures answers[1..][i - (g.index + 1)] == answers[i - g.index]
    {
      assert Done(g).rooms[i] == g.rooms[i];
    }
  }

  /** From any state satisfying the invariant, answers the remaining rooms accept, submitted in order, win. */
  lemma {:induction false} CorrectAnswersWinFrom(g: Game, answers: seq<string>)
    requires Inv(g) && g.player.Some? && AnswersFit(g.rooms, g.index, answers)
    ensures var r := SubmitAll(g, answers); r.won && !r.running
    decreases |answers|
  {
    assert Accepts(g.rooms[g.index].puzzle.value, answers[g.index - g.index]);
    if g.index == ROOM_COUNT - 1 {
      WinByLastAnswer(g, answers);
    } else {
      AdvanceByAnswer(g, answers);
      JudgeAdvanceInv(g);
      LaterAnswersFit(g, answers);
      CorrectAnswersWinFrom(Accepted(g), answers[1..]);
    }
  }

  /** From a fresh start in room 0, the stored answers in order win. */
  lemma StoredAnswersWin(g: Game)
    requires Inv(g) && g.player.Some? && g.index == 0 && AnswersAccepted(g.rooms)
    ensures var r := SubmitAll(g, StoredAnswers(g.rooms)); r.won && !r.running
  {
    var answers := StoredAnswers(g.rooms);
    forall i | 0 <= i < |g.rooms|
      ensures g.rooms[i].puzzle.Some? && Accepts(g.rooms[i].puzzle.value, answers[i - 0])
    {
      OwnAnswerValidates(g.rooms[i].puzzle.value.kind, g.rooms[i].puzzle.value.answer);
    }
    CorrectAnswersWinFrom(g, answers);
  }

  /** After `startNewGame` on any engine keeping the invariant whose rooms accept their stored answers, those answers win. */
  lemma NewGameWins(g: Game, name: string)
    requires Inv(g) && AnswersAccepted(g.rooms)
    ensures var s := NewGame(g, name);
      var r := SubmitAll(s, StoredAnswers(s.rooms)); r.won && !r.running
  {
    NewGameInv(g, name);
    StoredAnswersWin(NewGame(g, name));
  }

  /** The game can be won: after `startNewGame`, the five stored answers in order win whatever the draws. */
  lemma CorrectAnswersWin(d: Draws, name: string)
    requires ValidGameDraws(d)
    ensures var g := NewGame(Initial(d), name);
      var r := SubmitAll(g, StoredAnswers(g.rooms)); r.won && !r.running
  {
    InitialInv(d);
    InitialAnswersAccepted(d);
    NewGameWins(Initial(d), name);
  }
}
