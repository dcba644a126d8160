# Escape room: a verified model of the game core

The game is a five-room escape room. The player, who starts with three lives and three hints, must solve
one puzzle per room to reach the next room. The first room is a riddle, the second a Caesar cipher, the
third a generated arithmetic problem, the fourth a scrambled word and the fifth a substitution cipher.
A wrong answer, or a 60-second timer running out, costs a life. Solving the last puzzle wins.

This Dafny project models the game's logic in the same layers as the Java code:

| module (file) | models |
|---|---|
| `JavaText` (`java_text.dfy`) | the library behaviour the game relies on: 32-bit `int` wrap-around, Java's truncating `%`, `Character.isLetter` and `toUpperCase` on Latin-1, `String.toUpperCase` in the root locale, `trim`, `equalsIgnoreCase`, `Integer.parseInt`, `String.valueOf(int)`, `String.join` |
| `Lists` (`lists.dfy`) | the `java.util.List` operations the game uses: `indexOf`, add-unless-present, `remove(Object)` |
| `Ciphers` (`ciphers.dfy`) | `CipherUtils`: Caesar and substitution ciphers, the swap-loop key shuffle and word scramble, the arithmetic generator |
| `Puzzles` (`puzzles.dfy`) | `Puzzle` and its six subclasses |
| `Players` (`players.dfy`) | `Player` |
| `Rooms` (`rooms.dfy`) | `Room` |
| `Game` (`game.dfy`) | the state machine of `GameEngine`, as pure step functions on a value `Game`, with the invariant and the game-level properties |
| `Engine` (`engine.dfy`) | `GameEngine` itself, as a class over `Room`, `Puzzle` and `Player` objects |

The code that changes state keeps that form: `Puzzle`, `Room`, `Player` and `GameEngine` are classes
whose methods update their fields. Each class has a `View()` function giving the value of everything the
object reaches. Each method is specified by a function on that value: `ensures View() == F(old(View()))`.
Properties are then proved about the functions.

The loops that build strings, search or shuffle characters are methods with loop invariants:
`caesarEncrypt`, `substitutionEncrypt`/`Decrypt`, `canEnter`, and the in-place swap loop on an
`array<char>`. Each is proved equal to a function. The builder of `getFullDescription`, which has no
loop, is proved equal to `FullDescription`. The round trips and the permutation
properties are proved about those functions.

Inputs the source takes from outside become parameters:
- Every `java.util.Random` draw is an argument with its range as a precondition: a shift draw, a sequence
  of swap indices, or the five draws of the arithmetic generator (`MathDraws`). The one exception is the
  operation draw of the arithmetic generator, which is left free so that the `default` branch of its
  `switch` is modelled.
- The Swing user interface becomes a flag `uiAttached`, for `uiManager != null`, and a sequence of
  `Event`s the engine appends to. This makes statements such as "game over is announced once per losing
  answer" provable.
- The `java.util.Timer` thread becomes a flag `timerActive`, for `puzzleTimer != null`, and a method
  `Tick` that performs one run of the timer task.

## Model

| member | source | states |
|---|---|---|
| JavaText.Wrap32 | CipherUtils.java:23 | the result is congruent to the argument modulo 2^32, and equals it inside the `int` range (Java's wrap-around on `originalPosition + shift`) |
| JavaText.JavaRem | CipherUtils.java:23 | Java's `%`: the remainder lies strictly between -m and m and has the sign of the dividend |
| JavaText.IsLetter | CipherUtils.java:21 | definition of `Character.isLetter` on Latin-1; used by `Caesar` and `Substitution` |
| JavaText.UpperChar | CipherUtils.java:18 | definition of `Character.toUpperCase` on Latin-1; its properties are stated by `UpperCharIdempotent`, `UpperLetter` and `AsciiUpperLetter` |
| JavaText.LowerChar | Puzzle.java:33 | definition of `Character.toLowerCase` on Latin-1, the second comparison of `equalsIgnoreCase` |
| JavaText.ToUpper | CipherUtils.java:18 | `String.toUpperCase` leaves no lower-case letter in its result |
| JavaText.ToUpperOfUpper | CipherUtils.java:62 | upper-casing text that is already upper case changes nothing (the key of a key already upper case) |
| JavaText.ToUpperOfAscii | CipherUtils.java:18 | on ASCII text, upper-casing keeps the length and maps each character on its own |
| JavaText.ToUpperOfChar | CipherUtils.java:18 | every character except `ß` upper-cases to exactly one character |
| JavaText.ConcatOfSingletons | CipherUtils.java:17-32 | appending one-character strings, one per input character, rebuilds the text |
| JavaText.ConcatOfUpper | CipherUtils.java:17-32 | appending upper-case pieces gives upper-case text |
| JavaText.UpperLetter | CipherUtils.java:7 | the letters of `ALPHABET` are upper case |
| JavaText.AsciiUpperLetter | CipherUtils.java:21-22 | an ASCII character whose upper case is a letter upper-cases to one of A-Z |
| JavaText.TrimStart | Puzzle.java:33 | the leading run of characters up to U+0020 is removed, and only that |
| JavaText.TrimEnd | Puzzle.java:33 | the trailing run of characters up to U+0020 is removed, and only that |
| JavaText.Trim | Puzzle.java:33 | `trim` returns text that neither starts nor ends with such a character |
| JavaText.TrimCutsBlanks | Puzzle.java:33 | `trim` returns a slice of the input with only characters up to U+0020 cut off on each side |
| JavaText.TrimPadded | Puzzle.java:33 | trimming blanks added around trimmed text gives that text back |
| JavaText.TrimStartBlanks | Puzzle.java:33 | a blank prefix before a non-blank character is exactly what the leading trim removes |
| JavaText.TrimEndBlanks | Puzzle.java:33 | a blank suffix after a non-blank character is exactly what the trailing trim removes |
| JavaText.TrimOfTrimmed | Puzzle.java:33 | trimming trimmed text changes nothing |
| JavaText.TrimIdempotent | Puzzle.java:33 | trimming twice is trimming once |
| JavaText.EqualsIgnoreCase | Puzzle.java:33 | definition of `equalsIgnoreCase`: strings that match have the same length; its properties are stated by `EqualsIgnoreCaseReflexive` and `EqualsIgnoreCaseUpper` |
| JavaText.EqualsIgnoreCaseReflexive | Puzzle.java:33 | every string equals itself ignoring case |
| JavaText.UpperCharIdempotent | Puzzle.java:33 | upper-casing a character twice is upper-casing it once |
| JavaText.EqualsIgnoreCaseUpper | Puzzle.java:33 | a string and its character-wise upper case are equal ignoring case, and match exactly the same strings |
| JavaText.NatToString | CipherUtils.java:179 | the decimal digits of a natural number have no leading zero and denote that number |
| JavaText.IntToString | CipherUtils.java:179 | `String.valueOf(int)` never gives the empty string |
| JavaText.ParseInt | Puzzle.java:126-130 | definition of `Integer.parseInt`: text that parses is non-empty and ends with a digit; its properties are stated by `ParseIntOfToString`, `ParseIntRejectsOutOfRange` and `ParseIntEdgeCases` |
| JavaText.ParseIntOfToString | Puzzle.java:126-127 | `Integer.parseInt` reads back every `int`'s decimal text |
| JavaText.ParseIntRejectsOutOfRange | Puzzle.java:126-130 | the decimal text of a number outside the `int` range does not parse |
| JavaText.ParseIntEdgeCases | Puzzle.java:126-130 | a lone sign, the empty text, inner or outer blanks and trailing letters do not parse; a `+` sign, leading zeros and `-0` do |
| JavaText.Join | Room.java:109 | `String.join` of no items is empty and of one item is that item |
| Lists.IndexOf | CipherUtils.java:22 | `indexOf` is -1 exactly when the element is absent, and otherwise the position of its first occurrence |
| Lists.DistinctFive | GameEngine.java:34-97 | proof helper: five pairwise different values have no duplicates (used for the five room objects) |
| Lists.IndexOfDistinct | CipherUtils.java:92 | in a list without duplicates, `indexOf` of the element at position i is i |
| Lists.AddIfAbsent | Player.java:56-60 | add-unless-present yields the old elements plus the new one, keeps the list duplicate-free, and changes nothing when the element is present |
| Lists.RemoveFirst | Player.java:66-68 | `remove(Object)` with an absent element changes nothing; otherwise it shortens the list by one, keeps every other element, and on a duplicate-free list leaves no copy |
| Lists.RemoveFirstCutsFirstOccurrence | Player.java:66-68 | `remove(Object)` cuts out exactly the first occurrence; the order of the other elements is kept |
| Lists.RemoveAfterAdd | Player.java:56-68 | removing an element just added where it was absent restores the list |
| Lists.DistinctIffSingleCounts | CipherUtils.java:109-118 | a list has no duplicates exactly when each element occurs at most once in its multiset |
| Lists.PermutationKeepsDistinct | CipherUtils.java:109-118 | a rearrangement of a duplicate-free list is duplicate-free |
| Ciphers.AlphabetPosition | CipherUtils.java:22 | `ALPHABET.indexOf(c)` lies between -1 and 25 |
| Ciphers.Letter | CipherUtils.java:27 | `ALPHABET.charAt(p)` is a letter A-Z whose position is p |
| Ciphers.AlphabetLetters | CipherUtils.java:7 | `ALPHABET` has 26 characters, the letters in order |
| Ciphers.AlphabetDistinct | CipherUtils.java:7 | `ALPHABET` has no duplicates |
| Ciphers.AlphabetMember | CipherUtils.java:7 | every character of `ALPHABET` is one of A-Z |
| Ciphers.AlphabetIndex | CipherUtils.java:22 | `ALPHABET.indexOf` agrees with the letter's position, and is -1 for every other character |
| Ciphers.CaesarPosition | CipherUtils.java:22-27 | for any 32-bit shift, the corrected index lies in 0..25 and is the Euclidean residue modulo 26 of the wrapped sum; without overflow it is that of the plain sum |
| Ciphers.CaesarChar | CipherUtils.java:19-30 | definition of one step of the `caesarEncrypt` loop; its properties are stated by `CaesarPosition`, `CaesarCharNoWrap` and `CaesarCharRoundTrip` |
| Ciphers.Caesar | CipherUtils.java:16-33 | definition of the text `caesarEncrypt` returns, as long as the upper-cased input; its properties are stated by `CaesarEncrypt`, `CaesarPosition`, `CaesarWithoutWrap` and `CaesarRoundTrip` |
| Ciphers.CaesarEncrypt | CipherUtils.java:16-33 | the output has the length of the upper-cased input, copies every non-letter unchanged, and puts an A-Z letter at every letter |
| Ciphers.CaesarDecrypt | CipherUtils.java:41-43 | decryption is encryption with the negated shift, which wraps at `Integer.MIN_VALUE` |
| Ciphers.GenerateCaesarShift | CipherUtils.java:49-51 | for a draw in 0..24 the shift is in 1..25 |
| Ciphers.CaesarCharNoWrap | CipherUtils.java:22-27 | a letter that stays within A-Z is moved by exactly the shift |
| Ciphers.CaesarWithoutWrap | GameEngine.java:50 | upper-case text whose letters stay within A-Z moves each letter by the shift and keeps the spaces |
| Ciphers.CaesarCharRoundTrip | CipherUtils.java:16-43 | a letter A-Z encrypts to a letter A-Z and decrypts back |
| Ciphers.CaesarRoundTrip | CipherUtils.java:16-43 | decrypting the encryption of ASCII text gives the upper-cased text |
| Ciphers.OtherLetterDecryptsToZ | CipherUtils.java:21-27 | a letter outside A-Z, whose `indexOf` is -1, is still shifted, and decrypts to `Z` |
| Ciphers.CaesarAccentExample | CipherUtils.java:21-27 | `é` encrypts with shift 3 to `C`, which decrypts to `Z` |
| Ciphers.CaesarOverflowExample | CipherUtils.java:23 | with shift `Integer.MAX_VALUE`, `B` encrypts to `C` but `C` decrypts to `F` |
| Ciphers.SubstChar | CipherUtils.java:64-73 | definition of one step of the `substitutionEncrypt` loop; its properties are stated by `SubstCharRoundTrip` |
| Ciphers.Substitution | CipherUtils.java:59-77 | definition of the text `substitutionEncrypt` returns, as long as the upper-cased input; its properties are stated by `SubstitutionEncrypt` and `SubstitutionRoundTrip` |
| Ciphers.SubstitutionEncrypt | CipherUtils.java:59-77 | the output has the length of the upper-cased text, a letter past the end of a short key is copied unchanged, and a letter within the key is replaced by the key's letter |
| Ciphers.UnsubstChar | CipherUtils.java:90-99 | definition of one step of the `substitutionDecrypt` loop; its properties are stated by `SubstCharRoundTrip` |
| Ciphers.Unsubstitution | CipherUtils.java:85-103 | definition of the text `substitutionDecrypt` returns, as long as the upper-cased input; its properties are stated by `SubstitutionDecrypt` and `SubstitutionRoundTrip` |
| Ciphers.SubstitutionDecrypt | CipherUtils.java:85-103 | the output has the length of the upper-cased text, and a character absent from the upper-cased key is copied unchanged |
| Ciphers.PermutedAlphabetIsKey | CipherUtils.java:109-118 | a rearrangement of `ALPHABET` is a valid key: 26 distinct letters A-Z |
| Ciphers.KeyUpper | CipherUtils.java:62 | upper-casing a valid key does not change it |
| Ciphers.SubstCharRoundTrip | CipherUtils.java:59-103 | with a valid key, substituting an upper-case character and substituting back gives the character; a letter outside A-Z has no alphabet position and is not in the key, so both directions copy it |
| Ciphers.SubstitutionRoundTrip | CipherUtils.java:59-103 | with a valid key, decrypting the encryption of any text gives the upper-cased text |
| Ciphers.Swap | CipherUtils.java:113-115 | swapping exchanges the two positions |
| Ciphers.SwapFrom | CipherUtils.java:111-116 | the remaining swap steps keep the length |
| Ciphers.SwapFromPermutes | CipherUtils.java:111-116 | the swap steps keep the multiset of characters |
| Ciphers.SwapPermutes | CipherUtils.java:113-115 | one swap keeps the multiset of characters |
| Ciphers.SwapLoop | CipherUtils.java:127-132 | the in-place loop over the array computes the swap steps for the given draws |
| Ciphers.GenerateSubstitutionKey | CipherUtils.java:109-118 | the key is a permutation of `ALPHABET`, hence a valid key |
| Ciphers.ScrambleWord | CipherUtils.java:125-134 | the scramble has the word's length and is a permutation of it |
| Ciphers.IdentityDraws | CipherUtils.java:128 | drawing each position itself is a valid sequence of draws |
| Ciphers.ScrambleMayKeepWord | CipherUtils.java:125-134 | with those draws the scramble is the word itself |
| Ciphers.ProductWithin | CipherUtils.java:166 | proof helper: a product of operands in 1..n and 1..m lies in 1..n*m (used for the product's range) |
| Ciphers.OperatorText | CipherUtils.java:150-172 | definition of the operator text each case puts in the question |
| Ciphers.MathQuestion | CipherUtils.java:140-179 | definition of the question `generateMathPuzzle` returns; its properties are stated by `MathProblem` and `FallbackQuestion` |
| Ciphers.MathAnswer | CipherUtils.java:140-179 | definition of the answer text `generateMathPuzzle` returns; its properties are stated by `MathProblem` and `MathAnswerParses` |
| Ciphers.MathProblem | CipherUtils.java:140-177 | the answer is the displayed operation applied to the displayed operands: addition on 1..20, subtraction after the swap with a non-negative result, multiplication on re-drawn 1..10, exact division with divisor in 1..5 and quotient in 1..10; draw k selects operation k |
| Ciphers.MathAnswerParses | CipherUtils.java:179 | the answer text parses back to the computed value |
| Ciphers.FallbackQuestion | CipherUtils.java:174-176 | the unreachable default branch's question is the text of 1 + 1 |
| Ciphers.GenerateMathPuzzle | CipherUtils.java:140-180 | the switch-and-reassign computes the question text and the answer text of the problem |
| Puzzles.CheckAnswer | Puzzle.java:31-34 | `checkAnswer(null)` is false, and an accepted input trims to the stored answer's length; its meaning is stated by `CheckAnswerIgnoresPadding`, `CheckAnswerAcceptsAnswer` and `UntrimmedAnswerMatchesNothing` |
| Puzzles.MathAnswersAgree | Puzzle.java:124-132 | the math comparison holds exactly when the stored answer parses and the trimmed input parses to the same `int`; a parse failure is false |
| Puzzles.ValidateAnswer | Puzzle.java:57-170 | a `null` input is never accepted; `ValidateAnswerByKind` states each kind's test |
| Puzzles.ValidateAnswerByKind | Puzzle.java:57-170 | for the riddle, both ciphers, the scramble and the logic puzzle, `validateAnswer` is `checkAnswer`; for the math puzzle it holds exactly when the trimmed input and the answer parse to the same `int` |
| Puzzles.Description | Puzzle.java:62-175 | every description is a line ending in a colon; `CaesarDescriptionShowsShift` and `DescriptionDependsOnlyOnShift` state what it shows |
| Puzzles.CaesarDescriptionShowsShift | Puzzle.java:84-86 | the Caesar description is the fixed text with the shift's decimal digits in it |
| Puzzles.DescriptionDependsOnlyOnShift | Puzzle.java:84-86 | two Caesar descriptions are equal exactly when the shifts are; the substitution description does not show the key |
| Puzzles.BlankMatchesOnlyItself | Puzzle.java:33 | ignoring case, a character up to U+0020 matches only itself |
| Puzzles.UntrimmedAnswerMatchesNothing | Puzzle.java:31-34 | only the input is trimmed, so a stored answer with outer blanks is never matched |
| Puzzles.CheckAnswerIgnoresPadding | Puzzle.java:31-34 | blanks around the input do not change `checkAnswer` |
| Puzzles.UpperKeepsTrimmed | Puzzle.java:33 | upper-casing trimmed ASCII text keeps it trimmed |
| Puzzles.OwnAnswerValidates | Puzzle.java:31-34 | a puzzle accepts its own trimmed answer, provided a math answer is a number |
| Puzzles.CheckAnswerAcceptsAnswer | Puzzle.java:31-34 | `checkAnswer` accepts the stored answer, padded or upper-cased |
| Puzzles.IntToStringTrimmed | Puzzle.java:126-127 | the decimal text of an `int` has no outer blanks |
| Puzzles.MathAcceptsExactlyValue | Puzzle.java:124-132 | a math puzzle whose answer is v accepts exactly the inputs whose trimmed text parses to v |
| Puzzles.MathAcceptsPaddedValue | Puzzle.java:124-132 | it accepts v's own digits with blanks around them |
| Puzzles.MathComparesValues | Puzzle.java:124-132 | values are compared, not text: " 007 " is accepted for 7, while the text comparison rejects it |
| Puzzles.MathRejectsWords | Puzzle.java:124-132 | an input that does not start with a sign or digit is rejected, not an error |
| Puzzles.Puzzle.constructor | Puzzle.java:15-21 | a new puzzle stores its question, answer, hint and kind and is unsolved |
| Puzzles.Puzzle.Solve | Puzzle.java:37-39 | `solve()` sets `solved` and changes nothing else, so calling it again changes nothing |
| Players.Alive | Player.java:38-40 | a valid player that is not alive has exactly zero lives |
| Players.NewPlayer | Player.java:12-19 | a new player has 3 lives, 3 hints of 3, an empty inventory and room 0, and is alive and valid |
| Players.LostLife | Player.java:32-36 | `loseLife` takes exactly one life when there is one and none at zero; nothing else changes; a valid player stays valid and is alive afterwards exactly when it had two or more lives |
| Players.HintTaken | Player.java:43-49 | `useHint` succeeds exactly when a hint is left, and then takes exactly one; otherwise nothing changes |
| Players.WithItem | Player.java:56-60 | after `addItem` the item is held, the inventory holds exactly the old items and the new one, stays duplicate-free, and is unchanged if the item was held |
| Players.WithoutItem | Player.java:66-68 | `removeItem` leaves every other item's membership unchanged and, on a duplicate-free inventory, the item no longer held |
| Players.Advanced | Player.java:71-73 | `nextRoom` adds one to the room counter (wrapping at `Integer.MAX_VALUE`) and changes nothing else |
| Players.Restarted | Player.java:76-81 | `reset` restores lives, hints, inventory and room of a new player, keeping the name |
| Players.RemovingKeepsOrder | Player.java:66-68 | on a duplicate-free inventory, removal cuts out the item; the other items keep their order |
| Players.AddThenRemove | Player.java:56-68 | removing an item just added to a player lacking it restores the player |
| Players.LivesFloorAtZero | Player.java:32-36 | after n lost lives a valid player has `max(lives - n, 0)` lives |
| Players.Player.constructor | Player.java:12-19 | the constructed object is the new player |
| Players.Player.LoseLife | Player.java:32-36 | the object changes as `LostLife` says |
| Players.Player.IsAlive | Player.java:38-40 | `isAlive` holds exactly when `loseLife` would take a life |
| Players.Player.UseHint | Player.java:43-49 | the object and the result are as `HintTaken` says |
| Players.Player.HasHints | Player.java:51-53 | `hasHints` holds exactly when `useHint` would succeed |
| Players.Player.AddItem | Player.java:56-60 | the object changes as `WithItem` says |
| Players.Player.HasItem | Player.java:62-64 | `hasItem` holds exactly when `removeItem` would take something out |
| Players.Player.RemoveItem | Player.java:66-68 | the object changes as `WithoutItem` says |
| Players.Player.NextRoom | Player.java:71-73 | the object changes as `Advanced` says |
| Players.Player.Reset | Player.java:76-81 | the object changes as `Restarted` says |
| Rooms.NewRoom | Room.java:20-29 | a new room is unlocked exactly when its number is 0, is not completed, requires nothing, has no puzzle and has the default door text |
| Rooms.Completed | Room.java:68-73 | `complete()` sets `completed` and solves the puzzle when there is one; the lock, the items and everything else stay |
| Rooms.CompletedIdempotent | Room.java:68-73 | completing twice is completing once |
| Rooms.StatusDescription | Room.java:81-94 | each status text appears exactly in its case (locked; completed; puzzle unsolved; ready); the missing-items text never appears |
| Rooms.Header | Room.java:98-99 | definition of the title and description lines of `getFullDescription` |
| Rooms.PuzzleLines | Room.java:101-105 | definition of the puzzle lines, present only for a present unsolved puzzle; stated by `FullDescriptionShowsQuestion` and `CompletedHidesPuzzle` |
| Rooms.ItemLines | Room.java:107-111 | definition of the required-items line, present only when some item is required |
| Rooms.FullDescription | Room.java:96-116 | definition of the text `getFullDescription` builds, at least as long as its header, a line break and the door text; its properties are stated by `FullDescriptionFrame`, `FullDescriptionShowsQuestion` and `CompletedHidesPuzzle` |
| Rooms.Ends | Room.java:96-116 | proof helper: the first and last parts of a three-part concatenation can be cut back out |
| Rooms.Associate4 | Room.java:96-116 | proof helper: regrouping of a four-part concatenation |
| Rooms.Associate5 | Room.java:96-116 | proof helper: regrouping of a five-part concatenation |
| Rooms.Regroup5 | Room.java:96-116 | proof helper: regrouping of a five-part concatenation into the header and two pairs |
| Rooms.FullDescriptionFrame | Room.java:96-116 | the full description starts with the title and description lines and ends with a line break and the door text |
| Rooms.FullDescriptionShowsQuestion | Room.java:101-105 | for an unsolved puzzle, its description and question lines follow the header |
| Rooms.CompletedHidesPuzzle | Room.java:101-105 | once the room is completed the description is that of a completed room without a puzzle |
| Rooms.Admits | Room.java:56-65 | definition of the condition `canEnter` decides; its properties are stated by `AdmitsTheRequiredItems` and `Room.CanEnter` |
| Rooms.AdmitsTheRequiredItems | Room.java:56-65 | a room restricted by items admits the holder of those items exactly when it is unlocked, and extra items never lose entry |
| Rooms.Room.constructor | Room.java:20-29 | the constructed object is the new room |
| Rooms.Room.SetPuzzle | Room.java:43 | only the puzzle reference changes |
| Rooms.Room.SetUnlocked | Room.java:44 | only the lock changes |
| Rooms.Room.AddRequiredItem | Room.java:49-53 | the items change as add-unless-present says: duplicate-free, and a repeat changes nothing |
| Rooms.Room.CanEnter | Room.java:56-65 | the loop with early return answers exactly whether the room is unlocked and the player holds every required item |
| Rooms.Room.Complete | Room.java:68-73 | the object and its puzzle change as `Completed` says |
| Rooms.Room.IsPuzzleSolved | Room.java:76-78 | false without a puzzle, otherwise the puzzle's `solved` |
| Rooms.Room.GetFullDescription | Room.java:96-116 | the builder produces exactly `FullDescription` of the room: the puzzle lines only for a present unsolved puzzle, the items line only when items are required |
| Game.CaesarQuestionValue | GameEngine.java:50 | the second room's question is "RSHQ WKH GRRU" |
| Game.FinalQuestionValue | GameEngine.java:88-89 | the fifth room's question is the substitution of "ESCAPE SUCCESS" under the drawn key |
| Game.RoomShellsInOrder | GameEngine.java:34-97 | the rooms are built with numbers 0..4, their names and texts, and only room 1 requires "key" |
| Game.RoomsWith | GameEngine.java:34-97 | the five rooms carry the five puzzles in order |
| Game.InitialPuzzles | GameEngine.java:34-97 | there is one puzzle per room |
| Game.InitialRoomsInOrder | GameEngine.java:34-97 | `initializeRooms` builds the five rooms with their puzzles, in order |
| Game.Notified | GameEngine.java:110-113 | an interface call is recorded only when an interface is attached; nothing else changes |
| Game.NewGame | GameEngine.java:100-114 | `startNewGame` installs a new player holding exactly "key", index 0, running, not won, 60 seconds; rooms, puzzles and timer stay untouched |
| Game.CurrentRoom | GameEngine.java:117-122 | `getCurrentRoom` is the current index while it is in range, and `null` exactly when it is not |
| Game.Done | GameEngine.java:133-134 | a correct answer completes the current room, stops the timer, and leaves the other rooms untouched |
| Game.Won | GameEngine.java:136-142 | the last room's answer sets won and stops the game |
| Game.MovedOn | GameEngine.java:143-154 | otherwise the index goes up by one and the next room, and only that room, is unlocked |
| Game.Penalized | GameEngine.java:157-170 | a lost life; the game keeps running only if it was running and a life is left |
| Game.Accepted | GameEngine.java:131-155 | definition of what a correct answer does: the player is kept, the current room is completed, and the index stays or moves up by one; its properties are stated by `SubmitCorrect`, `SubmitCorrectLast`, `JudgeWinInv` and `JudgeAdvanceInv` |
| Game.Judge | GameEngine.java:131-171 | definition of the judged answer: the returned flag is the verdict, a player is kept and the index never goes back; its properties are stated by `SubmitCorrect`, `SubmitWrong` and `JudgeInv` |
| Game.Accepts | GameEngine.java:131 | definition of a puzzle accepting a typed answer; its meaning is stated by `AcceptsByKind` |
| Game.AcceptsByKind | Puzzle.java:57-170 | a typed answer is accepted exactly when `checkAnswer` accepts it, or for the math puzzle exactly when its trimmed text parses to the stored answer's value |
| Game.Submit | GameEngine.java:125-172 | `submitAnswer` keeps a player and a non-negative index |
| Game.TimerStopped | GameEngine.java:228-233 | `stopTimer` clears the timer and nothing else |
| Game.TimerStarted | GameEngine.java:194-199 | `startTimer` leaves exactly one active timer with 60 seconds and changes nothing else |
| Game.Ticked | GameEngine.java:201-222 | a run of the timer task keeps the player present or absent |
| Game.CountedDown | GameEngine.java:202-205 | each run takes one second off the clock |
| Game.Quit | GameEngine.java:236-242 | `quitGame` stops the game and the timer and touches no room, the player, the index or the win |
| Game.RoomsWithLayout | GameEngine.java:34-97 | the built rooms have the fixed layout |
| Game.RoomsWithProgress | GameEngine.java:34-97 | in the built rooms only room 0 is unlocked and nothing is completed |
| Game.InitialInv | GameEngine.java:20-27 | the constructed engine satisfies the invariant, is not running, has no player, room 0, no timer |
| Game.CompleteLayout | Room.java:68-73 | completing a room keeps the layout |
| Game.UnlockLayout | Room.java:44 | unlocking a room keeps the layout |
| Game.CompleteProgress | GameEngine.java:133 | completing the current room keeps the progress invariant |
| Game.AdvanceProgress | GameEngine.java:145-149 | unlocking the next room after completing the current one keeps "unlocked implies the previous room completed" |
| Game.WinProgress | GameEngine.java:136-139 | completing the last room makes every room completed |
| Game.NewGameInv | GameEngine.java:100-114 | `startNewGame` keeps the invariant, although it resets no room |
| Game.JudgeWinInv | GameEngine.java:136-142 | winning keeps the invariant |
| Game.JudgeAdvanceInv | GameEngine.java:143-154 | moving on keeps the invariant |
| Game.JudgeInv | GameEngine.java:131-171 | judging an answer keeps the invariant |
| Game.SubmitInv | GameEngine.java:125-172 | `submitAnswer` keeps the invariant |
| Game.HintInv | GameEngine.java:176-191 | `useHint` keeps the invariant |
| Game.TickInv | GameEngine.java:201-222 | a timer run keeps the invariant |
| Game.TimerInv | GameEngine.java:194-242 | `startTimer`, `stopTimer` and `quitGame` keep the invariant |
| Game.StepInv | GameEngine.java:100-242 | every public operation keeps the invariant |
| Game.RunInv | GameEngine.java:100-242 | every sequence of public operations keeps the invariant |
| Game.ReachableInv | GameEngine.java:20-27 | every state reachable from the constructed engine satisfies the invariant |
| Game.CountAppend | GameEngine.java:110-113 | counting events over two recorded stretches adds up |
| Game.NoticeCounts | GameEngine.java:141 | proof helper: the fixed notice lists contain victory and game over as often as the engine sends them |
| Game.NotifiedCount | GameEngine.java:110-113 | notifying adds an event's count only when an interface is attached |
| Game.SubmitWithoutPuzzle | GameEngine.java:126-129 | with no current room or no puzzle the answer is refused and nothing changes |
| Game.SubmitCorrect | GameEngine.java:131-155 | a correct answer before the last room returns true, completes and solves the room, stops the timer, moves to the next room and unlocks it, and changes neither the player nor the other rooms |
| Game.SubmitCorrectLast | GameEngine.java:136-142 | a correct answer in the last room returns true, wins, stops game and timer, keeps the index, and announces victory once |
| Game.WrongAnswerEvents | GameEngine.java:156-171 | a wrong answer announces game over once exactly when the last life goes, and never victory |
| Game.SubmitWrong | GameEngine.java:156-171 | a wrong answer returns false, costs exactly one life (none at zero), changes no room, index or timer, and ends the game exactly when no life is left |
| Game.HintNoneLeft | GameEngine.java:177-179 | with no hint left the refusal text is returned and nothing changes |
| Game.Hint | GameEngine.java:176-191 | definition of `useHint`: the index and the rooms are kept and a player remains; its properties are stated by `HintNoneLeft`, `HintSpent`, `HintWithoutPuzzle` and `HintInv` |
| Game.HintSpent | GameEngine.java:181-188 | otherwise one hint is spent, the current puzzle's hint is returned, and nothing else changes |
| Game.HintWithoutPuzzle | GameEngine.java:181-190 | with a hint left but no current room or no puzzle, the hint is still spent, "No hint available for this puzzle." is returned, and nothing else changes |
| Game.TicksAdd | GameEngine.java:199-224 | m runs followed by n runs are m + n runs |
| Game.TicksCountDown | GameEngine.java:202-205 | before the clock runs out each run takes off one second and changes only the clock and the events |
| Game.TicksStopped | GameEngine.java:228-233 | a stopped timer never runs |
| Game.TimerCostsOneLife | GameEngine.java:207-221 | when the clock runs out exactly one life is lost and the timer stops, so however many further runs follow, the timer costs one life |
| Game.RiddleAnswerOk | GameEngine.java:39-43 | the riddle's stored answer is typed as is |
| Game.CaesarAnswerOk | GameEngine.java:51-56 | the Caesar puzzle's stored answer is typed as is |
| Game.MathAnswerOk | GameEngine.java:64-69 | the math puzzle's stored answer is a number |
| Game.ScrambleAnswerOk | GameEngine.java:76-81 | the scramble's stored answer is typed as is |
| Game.FinalAnswerOk | GameEngine.java:88-95 | the substitution puzzle's stored answer is typed as is |
| Game.InitialPuzzlesInOrder | GameEngine.java:34-97 | the puzzles built, in order |
| Game.FiveAnswersOk | GameEngine.java:34-97 | each of five puzzles with usable answers has one |
| Game.RoomsWithAnswers | GameEngine.java:34-97 | rooms built on such puzzles accept their stored answers |
| Game.InitialPuzzlesOk | GameEngine.java:34-97 | every built puzzle has a usable stored answer |
| Game.InitialAnswersAccepted | GameEngine.java:34-97 | every built room accepts its stored answer |
| Game.StoredAnswers | GameEngine.java:34-97 | the stored answers, one per room |
| Game.SubmitAllCons | GameEngine.java:125-172 | submitting a first answer and then the rest |
| Game.WinByLastAnswer | GameEngine.java:136-142 | the last room's accepted answer wins |
| Game.AdvanceByAnswer | GameEngine.java:143-155 | an accepted answer before the last room moves on |
| Game.LaterAnswersFit | GameEngine.java:143-155 | moving on keeps the later rooms' puzzles |
| Game.CorrectAnswersWinFrom | GameEngine.java:125-172 | from any state satisfying the invariant, answers the remaining rooms accept win when submitted in order |
| Game.StoredAnswersWin | GameEngine.java:125-172 | from room 0 the stored answers in order win |
| Game.NewGameWins | GameEngine.java:100-114 | after `startNewGame`, the stored answers in order win |
| Game.CorrectAnswersWin | GameEngine.java:20-172 | the game can be won: after construction and `startNewGame`, the five stored answers win whatever the random draws |
| Engine.BuildRoom | GameEngine.java:36-44 | a room built and given its puzzle is the new room holding that puzzle |
| Engine.EntranceRoom | GameEngine.java:36-44 | the first room and its riddle |
| Engine.CipherRoom | GameEngine.java:47-58 | the second room, its Caesar puzzle and the "key" requirement |
| Engine.MazeRoom | GameEngine.java:61-70 | the third room and its generated math puzzle |
| Engine.VaultRoom | GameEngine.java:73-82 | the fourth room and its scramble |
| Engine.FinalRoom | GameEngine.java:85-96 | the fifth room and its substitution puzzle under the drawn key |
| Engine.ViewsOf | GameEngine.java:34-97 | the values of the five room objects |
| Engine.LinkedFive | GameEngine.java:34-97 | five distinct rooms holding five distinct puzzles are linked |
| Engine.BuildRooms | GameEngine.java:34-97 | the objects `initializeRooms` creates hold exactly the initial rooms |
| Engine.NewPlayerWithKey | GameEngine.java:101-108 | a new player object holding "key" |
| Engine.GameEngine.RoomViews | GameEngine.java:34-97 | the values of the engine's rooms, in order |
| Engine.GameEngine.constructor | GameEngine.java:20-27 | the constructed engine is the initial state |
| Engine.GameEngine.SetUIManager | GameEngine.java:29-31 | only the interface attachment changes |
| Engine.GameEngine.StartNewGame | GameEngine.java:100-114 | the engine changes as `NewGame` says |
| Engine.GameEngine.Begin | GameEngine.java:101-113 | the fields `startNewGame` sets |
| Engine.GameEngine.GetCurrentRoom | GameEngine.java:117-122 | the current room object, or `null` exactly when the index is past the rooms |
| Engine.GameEngine.CancelTask | GameEngine.java:229-232 | the timer is cleared |
| Engine.GameEngine.StopTimer | GameEngine.java:228-233 | the engine changes as `TimerStopped` says |
| Engine.GameEngine.CompleteCurrentRoom | GameEngine.java:133 | only the current room and its puzzle change, as `Completed` says |
| Engine.GameEngine.UnlockRoom | GameEngine.java:146-149 | only that room's lock changes |
| Engine.GameEngine.FinishRoom | GameEngine.java:133-134 | the engine changes as `Done` says |
| Engine.GameEngine.Win | GameEngine.java:136-142 | the engine changes as `Won` says |
| Engine.GameEngine.MoveOn | GameEngine.java:143-154 | the engine changes as `MovedOn` says |
| Engine.GameEngine.Announce | GameEngine.java:150-153 | only the recorded interface calls change |
| Engine.GameEngine.Advance | GameEngine.java:131-155 | the engine changes as `Accepted` says |
| Engine.GameEngine.LoseLife | GameEngine.java:157-170 | the engine changes as `Penalized` says |
| Engine.GameEngine.Notify | GameEngine.java:159-170 | the notices and the end of the game after a lost life |
| Engine.GameEngine.Respond | GameEngine.java:131-171 | the engine changes as `Judge` says |
| Engine.GameEngine.SubmitAnswer | GameEngine.java:125-172 | the engine and the result are as `Submit` says |
| Engine.GameEngine.UseHint | GameEngine.java:176-191 | the engine and the returned text are as `Hint` says |
| Engine.GameEngine.StartTimer | GameEngine.java:194-225 | the engine changes as `TimerStarted` says |
| Engine.GameEngine.CountDown | GameEngine.java:202-205 | the engine changes as `CountedDown` says |
| Engine.GameEngine.Tick | GameEngine.java:201-222 | one run of the timer task changes the engine as `Ticked` says |
| Engine.GameEngine.QuitGame | GameEngine.java:236-242 | the engine changes as `Quit` says |

## Left out

- The Swing interface (`UIManager.java`, `Main.java`), colours, background images and the door-description setter: presentation only. The interface calls are recorded as abstract `Event`s, not as the texts shown.
- `java.util.Timer` threading and the one-second schedule: the timer is the flag `timerActive`, and one run of its task is `Tick`. Runs that interleave with other calls on another thread are not modelled.
- `java.util.Random`: its draws are parameters with their ranges as preconditions, except the operation draw of `generateMathPuzzle`, which is left free so that the `default` branch of its `switch` is modelled.
- `timeLimit` is the constant 60; the engine never changes it.
- Getters and `setCurrentRoom`: no behaviour. Aliasing through getters that return the internal lists is not modelled.
- `Character.isLetter` and `toUpperCase` are exact on Latin-1 and on the upper-case images of `ÿ` and `µ`. Every other character above U+00FF is treated as a non-letter without case, and `Integer.parseInt` accepts only ASCII digits.
- Ciphers.CaesarRoundTrip: the shift is limited to `Integer.MIN_VALUE + 26 .. Integer.MAX_VALUE - 25`, because near the ends of the `int` range `p + shift` wraps at 32 bits. `CaesarOverflowExample` shows the round trip failing at `Integer.MAX_VALUE`.
- `toUpperCase()` is modelled in a default locale without special casing rules (root-locale behaviour). Under a Turkish or Azeri locale, ASCII `i` becomes `İ` (U+0130), a letter outside A-Z, and `CaesarRoundTrip` does not hold for such text.
- Ciphers.CaesarRoundTrip: the text must be ASCII. A letter outside A-Z has `indexOf` -1 and decrypts to `Z`, as `OtherLetterDecryptsToZ` and `CaesarAccentExample` show.
- Ciphers.MathProblem: the multiplication and division symbols are the two-character strings in the source file, which is mis-encoded, as written; the other texts are exact.
- Puzzles.ValidateAnswer, Puzzles.ValidateAnswerByKind: the math puzzle requires a non-null input, because `validateAnswer(null)` throws `NullPointerException`, not the caught `NumberFormatException`.
- Rooms.StatusDescription: requires a room that is locked or requires nothing. `canEnter(null)` dereferences the null player as soon as an unlocked room requires an item.
- Players.Player.NextRoom: the engine never calls it, so `currentRoom` in the player does not follow the engine's index.
- `submitAnswer` and `useHint` require a player, because the source dereferences it without a check. The timer run requires one when the clock runs out. `submitAnswer` does not check `gameRunning`, and neither does the model.
- Engine.BuildRooms: states the objects' values and their links, not that the objects are fresh.
- Engine.GameEngine.Valid: only ties the objects to the ghost value `state`. The invariant (`Game.Inv`) is proved on the step functions of module `Game`, not carried by the class.
