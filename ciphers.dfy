/**
 * `CipherUtils`: the Caesar and substitution ciphers, the key shuffle and word scramble, and the arithmetic
 * puzzle generator. Every draw from `java.util.Random` is an explicit parameter with its range as a precondition,
 * except the operation draw of `generateMathPuzzle`, left free so that its `default` branch is modelled.
 */
module Ciphers {
  import opened Wrappers
  import opened Lists
  import opened JavaText

  const ALPHABET: string := "ABCDEFGHIJKLMNOPQRSTUVWXYZ"

  /** `ALPHABET.indexOf(c)`, computed: the offset from 'A' for A..Z, and -1 for every other character. */
  function AlphabetPosition(c: char): (p: int)
    ensures -1 <= p < 26
  {
    if 'A' <= c <= 'Z' then c as int - 'A' as int else -1
  }

  /** `ALPHABET.charAt(p)`, computed. */
  function Letter(p: int): (c: char)
    requires 0 <= p < 26
    ensures 'A' <= c <= 'Z' && AlphabetPosition(c) == p
  {
    ('A' as int + p) as char
  }

  /** Position i of the alphabet holds the i-th letter after 'A'. */
  lemma AlphabetLetters()
    ensures |ALPHABET| == 26
    ensures forall i :: 0 <= i < 26 ==> ALPHABET[i] == Letter(i)
  {
  }

  lemma AlphabetDistinct()
    ensures Distinct(ALPHABET)
  {
    AlphabetLetters();
  }

  /** The alphabet holds only A..Z. */
  lemma AlphabetMember(c: char)
    requires c in ALPHABET
    ensures 'A' <= c <= 'Z'
  {
    var j :| 0 <= j < 26 && ALPHABET[j] == c;
  }

  /** `ALPHABET.indexOf(c)` is `AlphabetPosition(c)`. */
  lemma AlphabetIndex(c: char)
    ensures IndexOf(ALPHABET, c) == AlphabetPosition(c)
  {
    AlphabetLetters();
    if 'A' <= c <= 'Z' {
      AlphabetDistinct();
      assert ALPHABET[c as int - 'A' as int] == c;
      IndexOfDistinct(ALPHABET, c as int - 'A' as int);
    } else {
      assert c !in ALPHABET;
    }
  }

  // ---------------------------------------------------------------- Caesar

  /**
   * The new alphabet position computed by `caesarEncrypt`: `(p + shift) % 26` with Java's 32-bit addition and
   * truncating `%`, then one `+ 26` when negative. It is the Euclidean remainder of the wrapped sum, which is
   * the remainder of the exact sum whenever the addition does not overflow.
   */
  function CaesarPosition(p: int, shift: Int32): (r: int)
    requires -1 <= p < 26
    ensures 0 <= r < 26
    ensures r == Wrap32(p + shift) % 26
    ensures MIN_INT <= p + shift <= MAX_INT ==> r == (p + shift) % 26
  {
    var n := JavaRem(Wrap32(p + shift), 26);
    if n < 0 then n + 26 else n
  }

  /** One character of the Caesar cipher; `c` comes from upper-cased text. */
  function CaesarChar(c: char, shift: Int32): char {
    if IsLetter(c) then Letter(CaesarPosition(AlphabetPosition(c), shift)) else c
  }

  /** What `caesarEncrypt(text, shift)` returns. */
  function Caesar(text: string, shift: Int32): (r: string)
    ensures |r| == |ToUpper(text)|
  {
    var u := ToUpper(text);
    seq(|u|, i requires 0 <= i < |u| => CaesarChar(u[i], shift))
  }

  /** `caesarEncrypt`: upper-cases the text, shifts every letter, and copies every other character. */
  method CaesarEncrypt(text: string, shift: Int32) returns (r: string)
    ensures r == Caesar(text, shift)
    ensures |r| == |ToUpper(text)|
    ensures forall i :: 0 <= i < |r| ==>
      if IsLetter(ToUpper(text)[i]) then 'A' <= r[i] <= 'Z' else r[i] == ToUpper(text)[i]
  {
    var u := ToUpper(text);
    r := [];
    for i := 0 to |u|
      invariant |r| == i
      invariant forall k :: 0 <= k < i ==> r[k] == CaesarChar(u[k], shift)
    {
      var c := u[i];
      if IsLetter(c) {
        var originalPosition := AlphabetPosition(c);
        var newPosition := JavaRem(Wrap32(originalPosition + shift), 26);
        if newPosition < 0 {
          newPosition := newPosition + 26;
        }
        r := r + [Letter(newPosition)];
      } else {
        r := r + [c];
      }
    }
  }

  /** `caesarDecrypt`: encryption with the negated shift (negation also wraps at 32 bits). */
  method CaesarDecrypt(text: string, shift: Int32) returns (r: string)
    ensures r == Caesar(text, Wrap32(-(shift as int)))
  {
    r := CaesarEncrypt(text, Wrap32(-(shift as int)));
  }

  /** `generateCaesarShift`: `nextInt(25) + 1`, given the draw. */
  function GenerateCaesarShift(draw: int): (shift: Int32)
    requires 0 <= draw < 25
    ensures 1 <= shift <= 25
  {
    draw + 1
  }

  /** A letter that a non-negative shift keeps within A..Z moves up by the shift. */
  lemma CaesarCharNoWrap(c: char, shift: Int32)
    requires 'A' <= c && 0 <= shift && c as int + shift <= 'Z' as int
    ensures CaesarChar(c, shift) == (c as int + shift) as char
  {
    assert CaesarPosition(AlphabetPosition(c), shift) == c as int - 'A' as int + shift;
  }

  /** Text of spaces and letters that a non-negative shift keeps within A..Z: every letter moves up by the shift. */
  lemma CaesarWithoutWrap(text: string, shift: Int32)
    requires 0 <= shift
    requires forall i :: 0 <= i < |text| ==> text[i] == ' ' || ('A' <= text[i] && text[i] as int + shift <= 'Z' as int)
    ensures Caesar(text, shift) == seq(|text|, i requires 0 <= i < |text| => if text[i] == ' ' then ' ' else (text[i] as int + shift) as char)
  {
    assert IsUpperText(text);
    ToUpperOfUpper(text);
    forall i | 0 <= i < |text| && text[i] != ' ' {
      CaesarCharNoWrap(text[i], shift);
    }
  }

  /** A letter A..Z comes back after shifting forth and back, as long as neither addition overflows. */
  lemma CaesarCharRoundTrip(c: char, shift: Int32)
    requires 'A' <= c <= 'Z'
    requires MIN_INT + 26 <= shift <= MAX_INT - 25
    ensures 'A' <= CaesarChar(c, shift) <= 'Z'
    ensures CaesarChar(CaesarChar(c, shift), Wrap32(-(shift as int))) == c
  {
    var p := AlphabetPosition(c);
    var q := CaesarPosition(p, shift);
    assert q == (p + shift) % 26;
    assert Wrap32(-(shift as int)) == -(shift as int);
    assert CaesarPosition(q, -(shift as int)) == (q - shift) % 26 == p;
  }

  /** `caesarDecrypt(caesarEncrypt(T, s), s)` is `T` upper-cased, for ASCII text and every shift whose additions stay within `int`. */
  lemma CaesarRoundTrip(text: string, shift: Int32)
    requires IsAscii(text)
    requires MIN_INT + 26 <= shift <= MAX_INT - 25
    ensures Caesar(Caesar(text, shift), Wrap32(-(shift as int))) == ToUpper(text)
  {
    var u := ToUpper(text);
    ToUpperOfAscii(text);
    var e := Caesar(text, shift);
    forall i | 0 <= i < |e|
      ensures IsUpperChar(e[i]) && CaesarChar(e[i], Wrap32(-(shift as int))) == u[i]
    {
      if IsLetter(u[i]) {
        AsciiUpperLetter(text[i]);
        CaesarCharRoundTrip(u[i], shift);
      }
    }
    ToUpperOfUpper(e);
  }

  /**
   * A letter outside A..Z (for instance an accented one) has `indexOf == -1` and is still shifted, from
   * position -1; shifting back then always yields 'Z', so the round trip fails for such text.
   */
  lemma OtherLetterDecryptsToZ(c: char, shift: Int32)
    requires IsLetter(c) && !('A' <= c <= 'Z')
    requires MIN_INT + 26 <= shift <= MAX_INT - 25
    ensures 'A' <= CaesarChar(c, shift) <= 'Z'
    ensures CaesarChar(CaesarChar(c, shift), Wrap32(-(shift as int))) == 'Z'
  {
    var q := CaesarPosition(-1, shift);
    assert q == (shift - 1) % 26;
    assert Wrap32(-(shift as int)) == -(shift as int);
    assert CaesarPosition(q, -(shift as int)) == (q - shift) % 26 == 25;
  }

  /** A concrete instance: 'é' upper-cases to 'É', encrypts to 'C' with shift 3, and decrypts to 'Z'. */
  lemma CaesarAccentExample()
    ensures Caesar("\U{00E9}", 3) == "C"
    ensures Caesar("C", Wrap32(-3)) == "Z"
  {
    ToUpperOfChar('\U{00E9}');
    ToUpperOfUpper("C");
    assert CaesarPosition(2, -3) == 25;
  }

  /**
   * For very large shifts the 32-bit addition wraps and the round trip fails: with shift `MAX_INT`,
   * "B" encrypts to "C", which decrypts to "F".
   */
  lemma CaesarOverflowExample()
    ensures Caesar("B", MAX_INT) == "C"
    ensures Caesar("C", Wrap32(-MAX_INT)) == "F"
  {
    ToUpperOfUpper("B");
    ToUpperOfUpper("C");
    assert CaesarPosition(1, MAX_INT) == 2;
    assert CaesarPosition(2, Wrap32(-MAX_INT)) == 5;
  }

  // ---------------------------------------------------------------- substitution

  /** One character of `substitutionEncrypt`, with the key already upper-cased. */
  function SubstChar(c: char, key: string): char {
    if IsLetter(c) then
      var p := AlphabetPosition(c);
      if 0 <= p < |key| then key[p] else c
    else c
  }

  /** One character of `substitutionDecrypt`, with the key already upper-cased. */
  function UnsubstChar(c: char, key: string): char {
    if IsLetter(c) then
      var p := IndexOf(key, c);
      if 0 <= p < 26 then Letter(p) else c
    else c
  }

  /** What `substitutionEncrypt(text, key)` returns. */
  function Substitution(text: string, key: string): (r: string)
    ensures |r| == |ToUpper(text)|
  {
    var u, k := ToUpper(text), ToUpper(key);
    seq(|u|, i requires 0 <= i < |u| => SubstChar(u[i], k))
  }

  /** What `substitutionDecrypt(text, key)` returns. */
  function Unsubstitution(text: string, key: string): (r: string)
    ensures |r| == |ToUpper(text)|
  {
    var u, k := ToUpper(text), ToUpper(key);
    seq(|u|, i requires 0 <= i < |u| => UnsubstChar(u[i], k))
  }

  /**
   * `substitutionEncrypt`: each upper-cased letter is replaced by the key's character at the letter's
   * alphabet position; a letter without such a position (outside A..Z, or past the end of a short key)
   * and every non-letter are copied.
   */
  method SubstitutionEncrypt(text: string, key: string) returns (r: string)
    ensures r == Substitution(text, key)
    ensures |r| == |ToUpper(text)|
    ensures forall i :: 0 <= i < |r| && !(0 <= AlphabetPosition(ToUpper(text)[i]) < |ToUpper(key)|) ==>
      r[i] == ToUpper(text)[i]
  {
    var u := ToUpper(text);
    var k := ToUpper(key);
    r := [];
    for i := 0 to |u|
      invariant |r| == i
      invariant forall j :: 0 <= j < i ==> r[j] == SubstChar(u[j], k)
    {
      var c := u[i];
      if IsLetter(c) {
        var position := AlphabetPosition(c);
        if position >= 0 && position < |k| {
          r := r + [k[position]];
        } else {
          r := r + [c];
        }
      } else {
        r := r + [c];
      }
    }
  }

  /** `substitutionDecrypt`: each upper-cased letter found in the key is replaced by the alphabet letter at its position in the key. */
  method SubstitutionDecrypt(text: string, key: string) returns (r: string)
    ensures r == Unsubstitution(text, key)
    ensures |r| == |ToUpper(text)|
    ensures forall i :: 0 <= i < |r| && IndexOf(ToUpper(key), ToUpper(text)[i]) < 0 ==> r[i] == ToUpper(text)[i]
  {
    var u := ToUpper(text);
    var k := ToUpper(key);
    r := [];
    for i := 0 to |u|
      invariant |r| == i
      invariant forall j :: 0 <= j < i ==> r[j] == UnsubstChar(u[j], k)
    {
      var c := u[i];
      if IsLetter(c) {
        var position := IndexOf(k, c);
        if position >= 0 && position < 26 {
          r := r + [Letter(position)];
        } else {
          r := r + [c];
        }
      } else {
        r := r + [c];
      }
    }
  }

  /** A substitution key: 26 distinct letters from A..Z, that is, an arrangement of the alphabet. */
  ghost predicate IsKey(key: string) {
    |key| == 26 && Distinct(key) && forall i :: 0 <= i < |key| ==> 'A' <= key[i] <= 'Z'
  }

  /** Every permutation of the alphabet is a key. */
  lemma PermutedAlphabetIsKey(key: string)
    requires multiset(key) == multiset(ALPHABET)
    ensures IsKey(key)
  {
    assert |key| == |multiset(key)| == |multiset(ALPHABET)| == 26;
    forall i | 0 <= i < 26 ensures 'A' <= key[i] <= 'Z' {
      assert key[i] in multiset(key);
      AlphabetMember(key[i]);
    }
    AlphabetDistinct();
    PermutationKeepsDistinct(key, ALPHABET);
  }

  /** A key is upper-case text, so the methods' `key.toUpperCase()` leaves it alone. */
  lemma KeyUpper(key: string)
    requires IsKey(key)
    ensures IsUpperText(key) && ToUpper(key) == key
  {
    forall i | 0 <= i < 26 ensures IsUpperChar(key[i]) {
      UpperLetter(key[i]);
    }
    ToUpperOfUpper(key);
  }

  /**
   * One upper-case character survives substitution and its inverse under a key that permutes the alphabet:
   * a letter A..Z goes to the key's letter and back; any other character, a letter outside A..Z included,
   * has no alphabet position and is not in the key, so both directions copy it.
   */
  lemma SubstCharRoundTrip(c: char, key: string)
    requires IsKey(key)
    requires IsUpperChar(c)
    ensures IsUpperChar(SubstChar(c, key))
    ensures UnsubstChar(SubstChar(c, key), key) == c
  {
    if IsLetter(c) && 'A' <= c <= 'Z' {
      var p := AlphabetPosition(c);
      var e := key[p];
      assert SubstChar(c, key) == e;
      UpperLetter(e);
      IndexOfDistinct(key, p);
      assert IsLetter(e);
      assert UnsubstChar(e, key) == Letter(p);
    } else {
      assert SubstChar(c, key) == c;
      assert c !in key;
    }
  }

  /** `substitutionDecrypt(substitutionEncrypt(T, K), K)` is `T` upper-cased, for every text and every key that permutes the alphabet. */
  lemma SubstitutionRoundTrip(text: string, key: string)
    requires IsKey(key)
    ensures Unsubstitution(Substitution(text, key), key) == ToUpper(text)
  {
    var u := ToUpper(text);
    KeyUpper(key);
    var e := Substitution(text, key);
    forall i | 0 <= i < |e|
      ensures IsUpperChar(e[i]) && UnsubstChar(e[i], key) == u[i]
    {
      SubstCharRoundTrip(u[i], key);
    }
    ToUpperOfUpper(e);
  }

  // ---------------------------------------------------------------- shuffles

  /** Draws of `random.nextInt(n)`, one per position of a length-n sequence. */
  predicate ValidDraws(draws: seq<int>, n: int) {
    |draws| == n && forall k :: 0 <= k < |draws| ==> 0 <= draws[k] < n
  }

  /** Exchanging two positions. */
  function Swap(s: string, i: int, j: int): (r: string)
    requires 0 <= i < |s| && 0 <= j < |s|
    ensures |r| == |s| && r[i] == s[j] && r[j] == s[i]
  {
    s[i := s[j]][j := s[i]]
  }

  /** The swap loop of `generateSubstitutionKey` and `scrambleWord`, from position `i` on: position k is exchanged with position `draws[k]`. */
  function SwapFrom(s: string, draws: seq<int>, i: nat): (r: string)
    requires ValidDraws(draws, |s|) && i <= |s|
    ensures |r| == |s|
    decreases |s| - i
  {
    if i == |s| then s else SwapFrom(Swap(s, i, draws[i]), draws, i + 1)
  }

  /** The swap loop only rearranges: its result is a permutation of its input. */
  lemma {:induction false} SwapFromPermutes(s: string, draws: seq<int>, i: nat)
    requires ValidDraws(draws, |s|) && i <= |s|
    ensures multiset(SwapFrom(s, draws, i)) == multiset(s)
    decreases |s| - i
  {
    if i < |s| {
      SwapPermutes(s, i, draws[i]);
      SwapFromPermutes(Swap(s, i, draws[i]), draws, i + 1);
    }
  }

  /** One exchange keeps the characters. */
  lemma SwapPermutes(s: string, i: int, j: int)
    requires 0 <= i < |s| && 0 <= j < |s|
    ensures multiset(Swap(s, i, j)) == multiset(s)
  {
    var t := s[i := s[j]];
    assert multiset(t) == multiset(s) - multiset{s[i]} + multiset{s[j]};
    assert multiset(t[j := s[i]]) == multiset(t) - multiset{t[j]} + multiset{s[i]};
  }

  /** The in-place loop: for i from 0, swap `a[i]` with `a[draws[i]]`. */
  method SwapLoop(a: array<char>, draws: seq<int>)
    requires ValidDraws(draws, a.Length)
    modifies a
    ensures a[..] == SwapFrom(old(a[..]), draws, 0)
  {
    for i := 0 to a.Length
      invariant SwapFrom(a[..], draws, i) == SwapFrom(old(a[..]), draws, 0)
    {
      var j := draws[i];
      ghost var before := a[..];
      var temp := a[i];
      a[i] := a[j];
      a[j] := temp;
      assert a[..] == Swap(before, i, j);
      assert SwapFrom(before, draws, i) == SwapFrom(Swap(before, i, j), draws, i + 1);
    }
  }

  /** `generateSubstitutionKey`: the alphabet shuffled by the swap loop, hence a permutation of it. */
  method GenerateSubstitutionKey(draws: seq<int>) returns (key: string)
    requires ValidDraws(draws, 26)
    ensures key == SwapFrom(ALPHABET, draws, 0)
    ensures multiset(key) == multiset(ALPHABET) && IsKey(key)
  {
    var a := new char[26](i requires 0 <= i < 26 => Letter(i));
    AlphabetLetters();
    assert a[..] == ALPHABET;
    SwapLoop(a, draws);
    key := a[..];
    SwapFromPermutes(ALPHABET, draws, 0);
    PermutedAlphabetIsKey(key);
  }

  /** `scrambleWord`: the word shuffled by the swap loop; a permutation of its characters of the same length. */
  method ScrambleWord(word: string, draws: seq<int>) returns (r: string)
    requires ValidDraws(draws, |word|)
    ensures r == SwapFrom(word, draws, 0)
    ensures |r| == |word| && multiset(r) == multiset(word)
  {
    var a := new char[|word|](i requires 0 <= i < |word| => word[i]);
    assert a[..] == word;
    SwapLoop(a, draws);
    r := a[..];
    SwapFromPermutes(word, draws, 0);
  }

  /** The draws that swap every position with itself. */
  function IdentityDraws(n: nat): (d: seq<int>)
    ensures ValidDraws(d, n)
  {
    seq(n, k requires 0 <= k < n => k)
  }

  /** The scramble is not guaranteed to differ from the word: the identity draws return it unchanged. */
  lemma {:induction false} ScrambleMayKeepWord(word: string, i: nat)
    requires i <= |word|
    ensures SwapFrom(word, IdentityDraws(|word|), i) == word
    decreases |word| - i
  {
    if i < |word| {
      assert Swap(word, i, i) == word;
      ScrambleMayKeepWord(word, i + 1);
    }
  }

  // ---------------------------------------------------------------- arithmetic puzzle

  datatype Operation = Add | Subtract | Multiply | Divide

  /** The operator text between the operands; the multiplication and division signs are kept exactly as the source file holds them. */
  function OperatorText(op: Operation): string {
    match op
    case Add => " + "
    case Subtract => " - "
    case Multiply => " \U{0E23}\U{0097} "
    case Divide => " \U{0E23}\U{0E17} "
  }

  /** The question text `a <op> b = ?`. */
  function Equation(x: int, op: Operation, y: int): string {
    IntToString(x) + OperatorText(op) + IntToString(y) + " = ?"
  }

  /** `v` is the value of `x op y`; division must be exact. */
  predicate Computes(op: Operation, x: int, y: int, v: int) {
    match op
    case Add => v == x + y
    case Subtract => v == x - y
    case Multiply => v == x * y
    case Divide => y != 0 && x == v * y
  }

  /**
   * The draws of `generateMathPuzzle`, in order: `nextInt(20)` twice, `nextInt(4)`, then the two draws that only
   * multiplication (`nextInt(10)` twice) and division (`nextInt(10)`, `nextInt(5)`) make.
   */
  datatype MathDraws = MathDraws(first: int, second: int, operation: int, third: int, fourth: int)

  predicate ValidMathDraws(d: MathDraws) {
    0 <= d.first < 20 && 0 <= d.second < 20 && 0 <= d.third < 10
    && 0 <= d.fourth < (if d.operation == 3 then 5 else 10)
  }

  /** The problem `generateMathPuzzle` poses: operation, displayed operands and the value of the expression. */
  datatype Problem = Problem(op: Operation, x: int, y: int, v: int)

  /** A product of factors between 1 and their bounds lies between 1 and the product of the bounds. */
  lemma ProductWithin(x: int, y: int, n: int, m: int)
    requires 1 <= x <= n && 1 <= y <= m
    ensures 1 <= x * y <= n * m
  {
    assert x * y <= n * y;
    assert n * y <= n * m;
  }

  /**
   * The problem chosen by the draws: the operands of `+` and `-` are `nextInt(20) + 1`, swapped for `-` so that
   * the larger comes first; `*` takes two operands `nextInt(10) + 1`; `/` builds its dividend as
   * answer·divisor with the answer `nextInt(10) + 1` and the divisor `nextInt(5) + 1`. An operation draw
   * outside 0..3 falls through to the fixed "1 + 1".
   */
  function MathProblem(d: MathDraws): (m: Problem)
    requires ValidMathDraws(d)
    ensures Computes(m.op, m.x, m.y, m.v)
    ensures m.op == Add ==> 1 <= m.x <= 20 && 1 <= m.y <= 20
    ensures m.op == Subtract ==> 1 <= m.y <= m.x <= 20 && m.v >= 0
    ensures m.op == Multiply ==> 1 <= m.x <= 10 && 1 <= m.y <= 10
    ensures m.op == Divide ==> 1 <= m.y <= 5 && 1 <= m.v <= 10 && m.x == m.v * m.y
    ensures 0 <= m.v <= 100
    ensures d.operation == 0 ==> m.op == Add
    ensures d.operation == 1 ==> m.op == Subtract
    ensures d.operation == 2 ==> m.op == Multiply
    ensures d.operation == 3 ==> m.op == Divide
  {
    var a, b := d.first + 1, d.second + 1;
    if d.operation == 0 then Problem(Add, a, b, a + b)
    else if d.operation == 1 then (if a < b then Problem(Subtract, b, a, b - a) else Problem(Subtract, a, b, a - b))
    else if d.operation == 2 then
      var x, y := d.third + 1, d.fourth + 1;
      ProductWithin(x, y, 10, 10);
      Problem(Multiply, x, y, x * y)
    else if d.operation == 3 then
      var v, y := d.third + 1, d.fourth + 1;
      ProductWithin(v, y, 10, 5);
      Problem(Divide, v * y, y, v)
    else Problem(Add, 1, 1, 2)
  }

  /** The question and the stored answer text for the problem the draws choose. */
  function MathQuestion(d: MathDraws): string
    requires ValidMathDraws(d)
  {
    var m := MathProblem(d);
    Equation(m.x, m.op, m.y)
  }

  function MathAnswer(d: MathDraws): string
    requires ValidMathDraws(d)
  {
    IntToString(MathProblem(d).v)
  }

  /** The stored answer always parses back to the value of the displayed expression. */
  lemma MathAnswerParses(d: MathDraws)
    requires ValidMathDraws(d)
    ensures ParseInt(MathAnswer(d)) == Some(MathProblem(d).v)
  {
    ParseIntOfToString(MathProblem(d).v);
  }

  /** The fixed text of the fall-through case is the question the problem "1 + 1" would get. */
  lemma FallbackQuestion()
    ensures IntToString(1) + " + " + IntToString(1) + " = ?" == "1 + 1 = ?"
  {
    assert IntToString(1) == "1";
  }

  /**
   * `generateMathPuzzle`: reassigns the operands and the result in a switch on the operation draw, and formats
   * the question and the answer.
   */
  method GenerateMathPuzzle(d: MathDraws) returns (question: string, answer: string)
    requires ValidMathDraws(d)
    ensures question == MathQuestion(d) && answer == MathAnswer(d)
  {
    ghost var m := MathProblem(d);
    var a := d.first + 1;
    var b := d.second + 1;
    var result: int;
    if d.operation == 0 {
      question := IntToString(a) + " + " + IntToString(b) + " = ?";
      result := a + b;
      assert m == Problem(Add, a, b, result);
    } else if d.operation == 1 {
      if a < b {
        var temp := a;
        a := b;
        b := temp;
      }
      question := IntToString(a) + " - " + IntToString(b) + " = ?";
      result := a - b;
      assert m == Problem(Subtract, a, b, result);
    } else if d.operation == 2 {
      a := d.third + 1;
      b := d.fourth + 1;
      question := IntToString(a) + " \U{0E23}\U{0097} " + IntToString(b) + " = ?";
      result := a * b;
      assert m == Problem(Multiply, a, b, result);
    } else if d.operation == 3 {
      result := d.third + 1;
      b := d.fourth + 1;
      a := result * b;
      question := IntToString(a) + " \U{0E23}\U{0E17} " + IntToString(b) + " = ?";
      assert m == Problem(Divide, a, b, result);
    } else {
      question := "1 + 1 = ?";
      result := 2;
      assert m == Problem(Add, 1, 1, 2);
      FallbackQuestion();
    }
    answer := IntToString(result);
  }
}
