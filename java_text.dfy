/**
 * The Java `int`, `char` and `String` primitives that the game's logic depends on, as pure functions:
 * 32-bit wrap-around, the truncating `%`, `Character.isLetter`, case mapping, `String.trim`,
 * `String.equalsIgnoreCase`, `Integer.parseInt`, `String.valueOf(int)` and `String.join`.
 *
 * Characters: letter classification and case mapping are exact for Latin-1 (U+0000..U+00FF) and for
 * the three characters outside it that Latin-1 letters map to or from (U+0178, U+039C, U+03BC);
 * every other character is treated as a caseless non-letter.
 */
module JavaText {
  import opened Wrappers
  import opened Lists

  const MIN_INT: int := -0x8000_0000
  const MAX_INT: int := 0x7FFF_FFFF

  /** Java's 32-bit `int`. */
  type Int32 = x: int | -0x8000_0000 <= x <= 0x7FFF_FFFF

  /** The `int` that a 32-bit operation whose exact result is `x` produces. */
  function Wrap32(x: int): (r: Int32)
    ensures (x - r) % 0x1_0000_0000 == 0
    ensures MIN_INT <= x <= MAX_INT ==> r == x
  {
    (x + 0x8000_0000) % 0x1_0000_0000 - 0x8000_0000
  }

  /** Java's `%`: the quotient is truncated toward zero, so the remainder has the sign of the dividend. */
  function JavaRem(x: int, m: int): (r: int)
    requires m > 0
    ensures -m < r < m
    ensures 0 <= x ==> 0 <= r
    ensures x <= 0 ==> r <= 0
  {
    if x >= 0 then x % m else -((-x) % m)
  }

  /** Every character is below U+0080. */
  predicate IsAscii(s: string) {
    forall i :: 0 <= i < |s| ==> s[i] < '\U{0080}'
  }

  /** `Character.isLetter`. */
  predicate IsLetter(c: char) {
    ('A' <= c <= 'Z') || ('a' <= c <= 'z')
    || c == '\U{00AA}' || c == '\U{00B5}' || c == '\U{00BA}'
    || ('\U{00C0}' <= c <= '\U{00D6}') || ('\U{00D8}' <= c <= '\U{00F6}') || ('\U{00F8}' <= c <= '\U{00FF}')
    || c == '\U{0178}' || c == '\U{039C}' || c == '\U{03BC}'
  }

  /** `Character.toUpperCase(char)`. */
  function UpperChar(c: char): char {
    if ('a' <= c <= 'z') || ('\U{00E0}' <= c <= '\U{00FE}' && c != '\U{00F7}') then (c as int - 32) as char
    else if c == '\U{00FF}' then '\U{0178}'
    else if c == '\U{00B5}' || c == '\U{03BC}' then '\U{039C}'
    else c
  }

  /** `Character.toLowerCase(char)`. */
  function LowerChar(c: char): char {
    if ('A' <= c <= 'Z') || ('\U{00C0}' <= c <= '\U{00DE}' && c != '\U{00D7}') then (c as int + 32) as char
    else if c == '\U{0178}' then '\U{00FF}'
    else if c == '\U{039C}' then '\U{03BC}'
    else c
  }

  /** `String.toUpperCase()` of a single character: the sharp s becomes "SS", every other character one character. */
  function UpperOf(c: char): string {
    if c == '\U{00DF}' then "SS" else [UpperChar(c)]
  }

  /** A character that `String.toUpperCase()` leaves as it is. */
  predicate IsUpperChar(c: char) {
    UpperOf(c) == [c]
  }

  /** A string that `String.toUpperCase()` leaves as it is. */
  predicate IsUpperText(s: string) {
    forall i :: 0 <= i < |s| ==> IsUpperChar(s[i])
  }

  /** The strings of a sequence written one after another. */
  function Concat(parts: seq<string>): (r: string)
  {
    if parts == [] then [] else parts[0] + Concat(parts[1..])
  }

  /** Concatenating one-character strings gives back those characters. */
  lemma {:induction false} ConcatOfSingletons(parts: seq<string>, s: string)
    requires |parts| == |s| && forall i :: 0 <= i < |s| ==> parts[i] == [s[i]]
    ensures Concat(parts) == s
  {
    if s != [] {
      ConcatOfSingletons(parts[1..], s[1..]);
      assert s == [s[0]] + s[1..];
    }
  }

  /** Concatenating upper-case strings gives upper-case text. */
  lemma {:induction false} ConcatOfUpper(parts: seq<string>)
    requires forall i :: 0 <= i < |parts| ==> IsUpperText(parts[i])
    ensures IsUpperText(Concat(parts))
  {
    if parts != [] {
      ConcatOfUpper(parts[1..]);
      var head, rest := parts[0], Concat(parts[1..]);
      assert forall i :: 0 <= i < |head + rest| ==> (head + rest)[i] == if i < |head| then head[i] else rest[i - |head|];
    }
  }

  /** `String.toUpperCase()`: each character upper-cased on its own, the sharp s to two characters. */
  function ToUpper(s: string): (r: string)
    ensures IsUpperText(r)
  {
    var parts := seq(|s|, i requires 0 <= i < |s| => UpperOf(s[i]));
    assert forall i :: 0 <= i < |parts| ==> IsUpperText(parts[i]);
    ConcatOfUpper(parts);
    Concat(parts)
  }

  /** Upper-casing leaves upper-case text alone, so it is idempotent. */
  lemma ToUpperOfUpper(s: string)
    requires IsUpperText(s)
    ensures ToUpper(s) == s
  {
    ConcatOfSingletons(seq(|s|, i requires 0 <= i < |s| => UpperOf(s[i])), s);
  }

  /** On ASCII text upper-casing works character by character and stays ASCII. */
  lemma ToUpperOfAscii(s: string)
    requires IsAscii(s)
    ensures |ToUpper(s)| == |s| && IsAscii(ToUpper(s))
    ensures forall i :: 0 <= i < |s| ==> ToUpper(s)[i] == UpperChar(s[i])
  {
    var u := seq(|s|, i requires 0 <= i < |s| => UpperChar(s[i]));
    ConcatOfSingletons(seq(|s|, i requires 0 <= i < |s| => UpperOf(s[i])), u);
  }

  /** A single character other than the sharp s upper-cases to one character. */
  lemma ToUpperOfChar(c: char)
    requires c != '\U{00DF}'
    ensures ToUpper([c]) == [UpperChar(c)]
  {
    ConcatOfSingletons(seq(1, i requires 0 <= i < 1 => UpperOf([c][i])), [UpperChar(c)]);
  }

  /** The letters A..Z are upper case. */
  lemma UpperLetter(c: char)
    requires 'A' <= c <= 'Z'
    ensures IsUpperChar(c)
  {
    assert UpperOf(c) == [c];
  }

  /** An upper-cased ASCII letter is one of A..Z. */
  lemma AsciiUpperLetter(c: char)
    requires c < '\U{0080}' && IsLetter(UpperChar(c))
    ensures 'A' <= UpperChar(c) <= 'Z'
  {
  }

  /** The characters `String.trim()` removes: code point at most U+0020. */
  predicate IsBlank(c: char) {
    c <= ' '
  }

  predicate AllBlank(s: string) {
    forall i :: 0 <= i < |s| ==> IsBlank(s[i])
  }

  /** Neither starts nor ends with a blank. */
  predicate IsTrimmed(s: string) {
    s == [] || (!IsBlank(s[0]) && !IsBlank(s[|s| - 1]))
  }

  /** The leading-blank half of `String.trim()`. */
  function TrimStart(s: string): (r: string)
    ensures |r| <= |s| && r == s[|s| - |r|..]
    ensures AllBlank(s[..|s| - |r|])
    ensures r == [] || !IsBlank(r[0])
  {
    if s != [] && IsBlank(s[0]) then
      var r := TrimStart(s[1..]);
      assert s[..|s| - |r|] == [s[0]] + s[1..][..|s[1..]| - |r|];
      r
    else s
  }

  /** The trailing-blank half of `String.trim()`. */
  function TrimEnd(s: string): (r: string)
    ensures |r| <= |s| && r == s[..|r|]
    ensures AllBlank(s[|r|..])
    ensures r == [] || !IsBlank(r[|r| - 1])
  {
    if s != [] && IsBlank(s[|s| - 1]) then
      var r := TrimEnd(s[..|s| - 1]);
      assert s[|r|..] == s[..|s| - 1][|r|..] + [s[|s| - 1]];
      r
    else s
  }

  /** `String.trim()`: the string without its leading and trailing blanks. */
  function Trim(s: string): (r: string)
    ensures IsTrimmed(r)
  {
    TrimEnd(TrimStart(s))
  }

  /** What `trim` removes is blanks only, from both ends. */
  lemma TrimCutsBlanks(s: string)
    ensures exists i, j :: 0 <= i <= j <= |s| && Trim(s) == s[i..j] && AllBlank(s[..i]) && AllBlank(s[j..])
  {
    var t := TrimStart(s);
    var r := TrimEnd(t);
    var i := |s| - |t|;
    assert r == s[i..i + |r|];
    assert s[i + |r|..] == t[|r|..];
  }

  /** Blanks around a trimmed string are exactly what `trim` removes. */
  lemma {:induction false} TrimPadded(pre: string, s: string, post: string)
    requires AllBlank(pre) && AllBlank(post) && IsTrimmed(s)
    ensures Trim(pre + s + post) == s
  {
    if s == [] {
      assert pre + s + post == (pre + post) + [];
      TrimStartBlanks(pre + post, []);
    } else {
      assert pre + s + post == pre + (s + post) && (s + post)[0] == s[0];
      TrimStartBlanks(pre, s + post);
      TrimEndBlanks(s, post);
    }
  }

  lemma {:induction false} TrimStartBlanks(pre: string, s: string)
    requires AllBlank(pre) && (s == [] || !IsBlank(s[0]))
    ensures TrimStart(pre + s) == s
  {
    if pre != [] {
      assert (pre + s)[1..] == pre[1..] + s;
      TrimStartBlanks(pre[1..], s);
    }
  }

  lemma {:induction false} TrimEndBlanks(s: string, post: string)
    requires AllBlank(post) && s != [] && !IsBlank(s[|s| - 1])
    ensures TrimEnd(s + post) == s
  {
    if post != [] {
      assert (s + post)[..|s + post| - 1] == s + post[..|post| - 1];
      TrimEndBlanks(s, post[..|post| - 1]);
    } else {
      assert s + post == s;
    }
  }

  /** A string without blanks at either end is its own trim. */
  lemma TrimOfTrimmed(s: string)
    requires IsTrimmed(s)
    ensures Trim(s) == s
  {
    TrimPadded([], s, []);
    assert [] + s + [] == s;
  }

  /** `trim` is idempotent. */
  lemma TrimIdempotent(s: string)
    ensures Trim(Trim(s)) == Trim(s)
  {
    TrimOfTrimmed(Trim(s));
  }

  /** The per-character test of `String.equalsIgnoreCase`: equal, or equal after upper-casing, or after lower-casing that. */
  predicate CharsMatchIgnoringCase(a: char, b: char) {
    a == b || UpperChar(a) == UpperChar(b) || LowerChar(UpperChar(a)) == LowerChar(UpperChar(b))
  }

  /** `String.equalsIgnoreCase`. */
  predicate EqualsIgnoreCase(a: string, b: string)
    ensures EqualsIgnoreCase(a, b) ==> |a| == |b|
  {
    |a| == |b| && forall i :: 0 <= i < |a| ==> CharsMatchIgnoringCase(a[i], b[i])
  }

  /** Every string equals itself ignoring case. */
  lemma EqualsIgnoreCaseReflexive(s: string)
    ensures EqualsIgnoreCase(s, s)
  {
    assert forall i :: 0 <= i < |s| ==> CharsMatchIgnoringCase(s[i], s[i]);
  }

  /** The upper-case mapping is idempotent on every character. */
  lemma UpperCharIdempotent(c: char)
    ensures UpperChar(UpperChar(c)) == UpperChar(c)
  {
  }

  /** Case-insensitive equality does not see upper-casing: a string matches its upper-cased form and everything that form matches. */
  lemma {:induction false} EqualsIgnoreCaseUpper(a: string, b: string)
    requires |a| == |b| && forall i :: 0 <= i < |a| ==> b[i] == UpperChar(a[i])
    ensures EqualsIgnoreCase(a, b) && EqualsIgnoreCase(b, a)
    ensures forall t :: EqualsIgnoreCase(b, t) <==> EqualsIgnoreCase(a, t)
  {
    forall i | 0 <= i < |a| ensures UpperChar(b[i]) == UpperChar(a[i]) {
      UpperCharIdempotent(a[i]);
    }
  }

  predicate IsDigit(c: char) {
    '0' <= c <= '9'
  }

  predicate AllDigits(s: string) {
    forall i :: 0 <= i < |s| ==> IsDigit(s[i])
  }

  /** The number a string of decimal digits denotes. */
  function DigitsValue(s: string): nat
    requires AllDigits(s)
  {
    if s == [] then 0 else DigitsValue(s[..|s| - 1]) * 10 + (s[|s| - 1] as int - '0' as int)
  }

  /**
   * `Integer.parseInt(s)`: an optional `-` or `+`, then one or more decimal digits, denoting a value in
   * the `int` range; anything else raises `NumberFormatException`, here `None`.
   */
  function ParseInt(s: string): (r: Option<Int32>)
    ensures r.Some? ==> s != [] && IsDigit(s[|s| - 1])
  {
    if s == [] then None
    else
      var digits := if s[0] == '-' || s[0] == '+' then s[1..] else s;
      if digits == [] || !AllDigits(digits) then None
      else
        var v: int := if s[0] == '-' then -(DigitsValue(digits) as int) else DigitsValue(digits);
        if MIN_INT <= v <= MAX_INT then Some(v) else None
  }

  function DigitChar(d: int): char
    requires 0 <= d < 10
  {
    ('0' as int + d) as char
  }

  /** The decimal digits of `n`, without leading zeros. */
  function NatToString(n: nat): (r: string)
    ensures r != [] && AllDigits(r) && DigitsValue(r) == n
    ensures |r| > 1 ==> r[0] != '0'
  {
    if n < 10 then [DigitChar(n)]
    else
      var r := NatToString(n / 10) + [DigitChar(n % 10)];
      assert r[..|r| - 1] == NatToString(n / 10);
      r
  }

  /** `String.valueOf(int)`: a minus sign for negative values, then the digits. */
  function IntToString(n: int): (r: string)
    ensures r != []
  {
    if n < 0 then "-" + NatToString(-n) else NatToString(n)
  }

  /** `parseInt` reads back every `int` that `String.valueOf` writes. */
  lemma ParseIntOfToString(n: Int32)
    ensures ParseInt(IntToString(n)) == Some(n)
  {
    if n < 0 {
      var m: int := n;
      var d := NatToString(-m);
      assert ("-" + d)[0] == '-' && ("-" + d)[1..] == d;
    } else {
      var d := NatToString(n);
      assert IsDigit(d[0]);
    }
  }

  /** `parseInt` rejects the decimal form of every value outside the `int` range. */
  lemma ParseIntRejectsOutOfRange(n: int)
    requires n < MIN_INT || MAX_INT < n
    ensures ParseInt(IntToString(n)) == None
  {
    if n < 0 {
      var d := NatToString(-n);
      assert ("-" + d)[0] == '-' && ("-" + d)[1..] == d;
    } else {
      var d := NatToString(n);
      assert IsDigit(d[0]);
    }
  }

  /** `parseInt` edge cases: signs alone, empty input and embedded blanks fail; leading zeros and an explicit `+` are accepted. */
  lemma ParseIntEdgeCases()
    ensures ParseInt("") == None && ParseInt("-") == None && ParseInt("+") == None
    ensures ParseInt("1 2") == None && ParseInt(" 7") == None && ParseInt("7a") == None
    ensures ParseInt("+7") == Some(7) && ParseInt("007") == Some(7) && ParseInt("-0") == Some(0)
  {
    assert !AllDigits("1 2") by { assert !IsDigit("1 2"[1]); }
    assert !AllDigits(" 7") by { assert !IsDigit(" 7"[0]); }
    assert !AllDigits("7a") by { assert !IsDigit("7a"[1]); }
    assert "+7"[1..] == "7";
    assert "-"[1..] == [] && "+"[1..] == [];
    assert "-0"[1..] == "0";
    assert "007"[..2] == "00" && "00"[..1] == "0" && "0"[..0] == [];
    assert DigitsValue("007") == 7;
  }

  /** `String.join(sep, items)`. */
  function Join(sep: string, items: seq<string>): (r: string)
    ensures items == [] ==> r == []
    ensures |items| == 1 ==> r == items[0]
  {
    if items == [] then []
    else if |items| == 1 then items[0]
    else items[0] + sep + Join(sep, items[1..])
  }
}
