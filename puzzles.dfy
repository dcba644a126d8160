/**
 * `Puzzle` and its six subclasses. The subclass and its extra field (the Caesar shift, the substitution key)
 * are a `PuzzleKind`; answer checking and descriptions are pure functions of the kind and the stored answer;
 * only the `solved` flag changes, so a puzzle object is a class with constant data and one mutable field.
 */
module Puzzles {
  import opened Wrappers
  import opened JavaText

  datatype PuzzleKind =
    | Riddle
    | CaesarCipher(shift: Int32)
    | SubstitutionCipher(key: string)
    | Math
    | WordScramble
    | Logic

  /** `checkAnswer`: a `null` answer fails; otherwise the trimmed user input must equal the stored answer ignoring case. */
  predicate CheckAnswer(answer: string, user: Option<string>)
    ensures CheckAnswer(answer, user) ==> user.Some? && |Trim(user.value)| == |answer|
  {
    match user
    case None => false
    case Some(u) => EqualsIgnoreCase(answer, Trim(u))
  }

  /** The MATH `validateAnswer`: both the trimmed input and the stored answer parse as `int`s, and the values agree. */
  predicate MathAnswersAgree(answer: string, u: string)
    ensures MathAnswersAgree(answer, u) <==> ParseInt(answer).Some? && ParseInt(Trim(u)) == ParseInt(answer)
  {
    match (ParseInt(Trim(u)), ParseInt(answer))
    case (Some(userNum), Some(correctNum)) => userNum == correctNum
    case _ => false
  }

  /**
   * Each subclass's `validateAnswer`. Five kinds delegate to `checkAnswer`; MATH compares parsed integers and
   * calls `trim()` on the input without a `null` check, so it needs an answer to be present.
   */
  function ValidateAnswer(kind: PuzzleKind, answer: string, user: Option<string>): (ok: bool)
    requires kind == Math ==> user.Some?
    ensures ok ==> user.Some?
  {
    match kind
    case Riddle => CheckAnswer(answer, user)
    case CaesarCipher(_) => CheckAnswer(answer, user)
    case SubstitutionCipher(_) => CheckAnswer(answer, user)
    case Math => MathAnswersAgree(answer, user.value)
    case WordScramble => CheckAnswer(answer, user)
    case Logic => CheckAnswer(answer, user)
  }

  /** Every kind but MATH compares text as `checkAnswer` does; MATH accepts exactly when both sides parse to the same `int`. */
  lemma ValidateAnswerByKind(kind: PuzzleKind, answer: string, user: Option<string>)
    requires kind == Math ==> user.Some?
    ensures kind != Math ==> (ValidateAnswer(kind, answer, user) <==> CheckAnswer(answer, user))
    ensures kind == Math ==> (ValidateAnswer(kind, answer, user) <==> ParseInt(Trim(user.value)).Some? && ParseInt(Trim(user.value)) == ParseInt(answer))
  {
  }

  const CAESAR_PREFIX: string := "Decrypt this Caesar cipher (shift by "

  /** Each subclass's `getDescription`. */
  function Description(kind: PuzzleKind): (d: string)
    ensures |d| > 1 && d[|d| - 1] == ':'
  {
    match kind
    case Riddle => "Solve this riddle to proceed:"
    case CaesarCipher(shift) => CAESAR_PREFIX + IntToString(shift) + "):"
    case SubstitutionCipher(_) => "Decrypt this substitution cipher:"
    case Math => "Solve this math problem:"
    case WordScramble => "Unscramble this word:"
    case Logic => "Solve this logic puzzle:"
  }

  /** The Caesar description embeds the stored shift: it can be read back from between the fixed prefix and "):". */
  lemma CaesarDescriptionShowsShift(shift: Int32)
    ensures var d := Description(CaesarCipher(shift));
      |d| >= |CAESAR_PREFIX| + 3 && d[..|CAESAR_PREFIX|] == CAESAR_PREFIX && d[|d| - 2..] == "):"
      && ParseInt(d[|CAESAR_PREFIX|..|d| - 2]) == Some(shift)
  {
    var d := Description(CaesarCipher(shift));
    var n := IntToString(shift);
    assert d[|CAESAR_PREFIX|..|d| - 2] == n;
    ParseIntOfToString(shift);
  }

  /** Different shifts give different Caesar descriptions; every other kind's description ignores its data. */
  lemma DescriptionDependsOnlyOnShift(a: PuzzleKind, b: PuzzleKind)
    ensures a.CaesarCipher? && b.CaesarCipher? ==> (Description(a) == Description(b) <==> a.shift == b.shift)
    ensures a.SubstitutionCipher? && b.SubstitutionCipher? ==> Description(a) == Description(b)
  {
    if a.CaesarCipher? && b.CaesarCipher? && Description(a) == Description(b) {
      CaesarDescriptionShowsShift(a.shift);
      CaesarDescriptionShowsShift(b.shift);
    }
  }

  /** A character that case-insensitively matches a blank is that blank. */
  lemma BlankMatchesOnlyItself(a: char, b: char)
    requires IsBlank(a) && CharsMatchIgnoringCase(a, b)
    ensures b == a
  {
  }

  /** Only the user input is trimmed: a stored answer with a leading or trailing blank accepts nothing. */
  lemma UntrimmedAnswerMatchesNothing(answer: string, user: Option<string>)
    requires !IsTrimmed(answer)
    ensures !CheckAnswer(answer, user)
  {
    if user.Some? && CheckAnswer(answer, user) {
      var t := Trim(user.value);
      if IsBlank(answer[0]) {
        BlankMatchesOnlyItself(answer[0], t[0]);
      } else {
        BlankMatchesOnlyItself(answer[|answer| - 1], t[|t| - 1]);
      }
    }
  }

  /** Blanks around the input do not change the verdict of `checkAnswer`. */
  lemma CheckAnswerIgnoresPadding(answer: string, pre: string, u: string, post: string)
    requires AllBlank(pre) && AllBlank(post) && IsTrimmed(u)
    ensures CheckAnswer(answer, Some(pre + u + post)) <==> CheckAnswer(answer, Some(u))
  {
    TrimPadded(pre, u, post);
    TrimOfTrimmed(u);
  }

  /** Upper-casing ASCII text keeps blanks and non-blanks apart. */
  lemma UpperKeepsTrimmed(s: string)
    requires IsAscii(s) && IsTrimmed(s)
    ensures IsTrimmed(ToUpper(s))
  {
    ToUpperOfAscii(s);
  }

  /** A stored answer without blanks around it, and a number for MATH, is accepted when typed as it is. */
  lemma OwnAnswerValidates(kind: PuzzleKind, answer: string)
    requires IsTrimmed(answer) && (kind == Math ==> ParseInt(answer).Some?)
    ensures ValidateAnswer(kind, answer, Some(answer))
  {
    TrimOfTrimmed(answer);
    EqualsIgnoreCaseReflexive(answer);
  }

  /** A trimmed ASCII answer is accepted when typed as is, in upper case, and with blanks around it. */
  lemma CheckAnswerAcceptsAnswer(answer: string, pre: string, post: string)
    requires IsAscii(answer) && IsTrimmed(answer) && AllBlank(pre) && AllBlank(post)
    ensures CheckAnswer(answer, Some(pre + answer + post))
    ensures CheckAnswer(answer, Some(pre + ToUpper(answer) + post))
  {
    TrimPadded(pre, answer, post);
    ToUpperOfAscii(answer);
    UpperKeepsTrimmed(answer);
    TrimPadded(pre, ToUpper(answer), post);
    EqualsIgnoreCaseUpper(answer, ToUpper(answer));
    EqualsIgnoreCaseReflexive(answer);
  }

  /** The decimal form of an `int` is trimmed. */
  lemma IntToStringTrimmed(v: int)
    ensures IsTrimmed(IntToString(v))
  {
    var s := IntToString(v);
    if v < 0 {
      var m: int := v;
      assert s == "-" + NatToString(-m);
      assert s[|s| - 1] == NatToString(-m)[|NatToString(-m)| - 1];
    }
  }

  /** A MATH puzzle whose stored answer is `String.valueOf(v)` accepts exactly the inputs whose trimmed form parses to `v`. */
  lemma MathAcceptsExactlyValue(v: Int32, u: string)
    ensures ValidateAnswer(Math, IntToString(v), Some(u)) <==> ParseInt(Trim(u)) == Some(v)
  {
    ParseIntOfToString(v);
  }

  /** ... in particular the answer itself with blanks around it. */
  lemma MathAcceptsPaddedValue(v: Int32, pre: string, post: string)
    requires AllBlank(pre) && AllBlank(post)
    ensures ValidateAnswer(Math, IntToString(v), Some(pre + IntToString(v) + post))
  {
    IntToStringTrimmed(v);
    TrimPadded(pre, IntToString(v), post);
    ParseIntOfToString(v);
  }

  /** MATH compares numbers, not text: " 007 " answers "7", which a text match would reject. */
  lemma MathComparesValues()
    ensures ValidateAnswer(Math, "7", Some(" 007 "))
    ensures !CheckAnswer("7", Some(" 007 "))
  {
    assert " 007 " == " " + "007" + " ";
    TrimPadded(" ", "007", " ");
    ParseIntEdgeCases();
    assert IntToString(7) == "7";
    ParseIntOfToString(7);
  }

  /** A MATH input that is not a number is rejected, not an error. */
  lemma MathRejectsWords(answer: string, u: string)
    requires Trim(u) != [] && Trim(u)[0] != '-' && Trim(u)[0] != '+' && !IsDigit(Trim(u)[0])
    ensures !ValidateAnswer(Math, answer, Some(u))
  {
    assert !AllDigits(Trim(u));
  }

  /** The fields of a puzzle object. */
  datatype PuzzleView = PuzzleView(question: string, answer: string, hint: string, kind: PuzzleKind, solved: bool)

  /** A puzzle: its question, answer, hint and kind never change; `solved` starts false. */
  class Puzzle {
    const question: string
    const answer: string
    const hint: string
    const kind: PuzzleKind
    var solved: bool

    function View(): PuzzleView
      reads this
    {
      PuzzleView(question, answer, hint, kind, solved)
    }

    constructor (question: string, answer: string, hint: string, kind: PuzzleKind)
      ensures View() == PuzzleView(question, answer, hint, kind, false)
    {
      this.question := question;
      this.answer := answer;
      this.hint := hint;
      this.kind := kind;
      solved := false;
    }

    /** `solve()`: sets the flag and nothing else, so calling it again changes nothing. */
    method Solve()
      modifies this
      ensures View() == old(View()).(solved := true)
    {
      solved := true;
    }
  }
}
