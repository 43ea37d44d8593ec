/** Decimal text, as the C++ stream operators write and read it. Text is a sequence of bytes. */
module Decimals {
  import opened Words

  type Text = seq<byte>

  const NEWLINE: byte := 10
  const SPACE: byte := 32
  const PLUS: byte := 43
  const MINUS: byte := 45
  const ZERO: byte := 48

  predicate IsSpace(b: byte) {
    b == SPACE || 9 <= b <= 13
  }

  predicate IsDigit(b: byte) {
    ZERO <= b < ZERO + 10
  }

  // ---------------------------------------------------------------------------------------
  // Writing
  // ---------------------------------------------------------------------------------------

  function Digits(n: nat): Text {
    if n < 10 then [ZERO + n] else Digits(n / 10) + [ZERO + n % 10]
  }

  /** What `out << x` writes. */
  function Decimal(x: int): Text {
    if x < 0 then [MINUS] + Digits(-x) else Digits(x)
  }

  // ---------------------------------------------------------------------------------------
  // Reading
  // ---------------------------------------------------------------------------------------

  /** An input stream: the unread text, and whether no error or end of file has been met. */
  datatype Stream = Stream(rest: Text, good: bool)

  function SkipSpaces(t: Text): (r: Text)
    ensures |r| <= |t| && (r != [] ==> !IsSpace(r[0]))
  {
    if t != [] && IsSpace(t[0]) then SkipSpaces(t[1..]) else t
  }

  predicate NoSpaces(word: Text) {
    forall k | 0 <= k < |word| :: !IsSpace(word[k])
  }

  /** The length of the longest prefix without spaces. */
  function TokenLength(t: Text): (n: nat)
    ensures n <= |t| && (t != [] && !IsSpace(t[0]) ==> n > 0)
  {
    if t == [] || IsSpace(t[0]) then 0 else 1 + TokenLength(t[1..])
  }

  /** The words of a text, whatever spaces and newlines stand between them. */
  function WordsOf(t: Text): seq<Text>
    decreases |t|
  {
    var rest := SkipSpaces(t);
    if rest == [] then []
    else
      var n := TokenLength(rest);
      [rest[..n]] + WordsOf(rest[n..])
  }

  /** The length of the longest prefix of digits. */
  function DigitCount(t: Text): (n: nat)
    ensures n <= |t|
    ensures forall k | 0 <= k < n :: IsDigit(t[k])
  {
    if t != [] && IsDigit(t[0]) then 1 + DigitCount(t[1..]) else 0
  }

  function ValueOf(digits: Text): nat
    requires forall k | 0 <= k < |digits| :: IsDigit(digits[k])
  {
    if digits == [] then 0
    else
      var last := digits[|digits| - 1];
      assert IsDigit(last);
      10 * ValueOf(digits[..|digits| - 1]) + (last - ZERO)
  }

  datatype Extracted = Extracted(value: int, input: Stream)

  /** `in >> x` for an integer of range lo..hi: leading space is skipped, a sign is allowed, a value out
      of range is clamped and fails, text without digits reads as 0 and fails, and a stream that is not
      good leaves the variable alone. An unsigned integer takes a negative number modulo its range, and
      fails with its maximum if the magnitude does not fit. */
  function Extract(input: Stream, lo: int, hi: int, initial: int): (r: Extracted)
    requires lo <= 0 <= hi
    ensures lo <= initial <= hi ==> lo <= r.value <= hi
  {
    var text := SkipSpaces(input.rest);
    if !input.good then Extracted(initial, input)
    else if text == [] then Extracted(initial, Stream([], false))
    else
      var signed := text[0] == MINUS || text[0] == PLUS;
      var body := if signed then text[1..] else text;
      var count := DigitCount(body);
      var after := body[count..];
      if count == 0 then Extracted(0, Stream(after, false))
      else
        var magnitude := ValueOf(body[..count]);
        var value: int := if text[0] != MINUS then magnitude
                     else if lo == 0 && magnitude <= hi then (hi + 1 - magnitude) % (hi + 1)
                     else 0 - magnitude;
        if value < lo then Extracted(if lo == 0 then hi else lo, Stream(after, false))
        else if value > hi then Extracted(hi, Stream(after, false))
        else Extracted(value, Stream(after, after != []))
  }

  /** std::getline: the text up to the next newline, which is taken off the stream. */
  datatype Line = Line(text: Text, input: Stream)

  function IndexOfNewline(t: Text): (n: nat)
    ensures n <= |t|
  {
    if t == [] || t[0] == NEWLINE then 0 else 1 + IndexOfNewline(t[1..])
  }

  function GetLine(input: Stream, initial: Text): Line {
    if !input.good then Line(initial, input)
    else
      var n := IndexOfNewline(input.rest);
      if n == |input.rest| then Line(input.rest, Stream([], false))
      else Line(input.rest[..n], Stream(input.rest[n + 1..], true))
  }

  // ---------------------------------------------------------------------------------------
  // What is written reads back
  // ---------------------------------------------------------------------------------------

  lemma {:induction false} DigitsShape(n: nat)
    ensures Digits(n) != [] && forall k | 0 <= k < |Digits(n)| :: IsDigit(Digits(n)[k])
    ensures ValueOf(Digits(n)) == n
  {
    if n >= 10 {
      DigitsShape(n / 10);
      assert Digits(n)[..|Digits(n)| - 1] == Digits(n / 10);
    } else {
      assert Digits(n)[..0] == [];
    }
  }

  lemma {:induction false} DigitsLeading(n: nat)
    ensures Digits(n) != [] && (Digits(n)[0] == ZERO <==> n == 0)
  {
    if n >= 10 {
      DigitsLeading(n / 10);
    }
  }

  /** The shortest decimal form: digits, after a minus sign for a negative number and no sign for any
      other, that stand for the number and do not start with a zero unless they are just that. */
  lemma DecimalForm(x: int)
    ensures var t := Decimal(x);
            var digits := if x < 0 then t[1..] else t;
            && t != [] && (t[0] == MINUS <==> x < 0)
            && digits != [] && (forall k | 0 <= k < |digits| :: IsDigit(digits[k]))
            && ValueOf(digits) == (if x < 0 then -x else x)
            && (digits[0] == ZERO <==> x == 0) && (x == 0 ==> t == [ZERO])
  {
    hide Digits, ValueOf;
    var n: nat := if x < 0 then -x else x;
    DigitsShape(n);
    DigitsLeading(n);
    assert x < 0 ==> Decimal(x)[1..] == Digits(n);
    DigitsOfZero();
  }

  lemma DigitsOfZero()
    ensures Digits(0) == [ZERO]
  {
  }

  lemma {:induction false} DigitCountIs(digits: Text, rest: Text)
    requires forall k | 0 <= k < |digits| :: IsDigit(digits[k])
    requires rest == [] || !IsDigit(rest[0])
    ensures DigitCount(digits + rest) == |digits|
  {
    if digits == [] {
      assert digits + rest == rest;
    } else {
      assert (digits + rest)[1..] == digits[1..] + rest;
      DigitCountIs(digits[1..], rest);
    }
  }

  predicate Spaces(t: Text) {
    forall k | 0 <= k < |t| :: IsSpace(t[k])
  }

  lemma {:induction false} SkipSpacesIs(spaces: Text, t: Text)
    requires Spaces(spaces) && t != [] && !IsSpace(t[0])
    ensures SkipSpaces(spaces + t) == t
  {
    if spaces == [] {
      assert spaces + t == t;
    } else {
      assert (spaces + t)[1..] == spaces[1..] + t;
      SkipSpacesIs(spaces[1..], t);
    }
  }

  /** How a written number is taken apart when it is read. */
  lemma NumberText(spaces: Text, x: int, rest: Text)
    requires Spaces(spaces) && (rest == [] || !IsDigit(rest[0]))
    ensures var text := SkipSpaces(spaces + Decimal(x) + rest);
            && text != [] && (text[0] == MINUS <==> x < 0) && text[0] != PLUS
            && var body := if x < 0 then text[1..] else text;
               var count := DigitCount(body);
               count > 0 && ValueOf(body[..count]) == Abs(x) && body[count..] == rest
  {
    hide Digits, DigitCount, SkipSpaces, ValueOf;
    var magnitude := Abs(x);
    var digits := Digits(magnitude);
    DigitsShape(magnitude);
    var text := Decimal(x) + rest;
    assert spaces + Decimal(x) + rest == spaces + text;
    SkipSpacesIs(spaces, text);
    DigitCountIs(digits, rest);
    var body := if x < 0 then text[1..] else text;
    assert body == digits + rest;
    assert body[..|digits|] == digits && body[|digits|..] == rest;
  }

  /** Any whole number, after any spaces and before anything that is not a digit: in range it is read; out
      of range it is clamped and the stream fails; and an unsigned variable takes a negative number of
      small magnitude modulo its range. */
  lemma ExtractAnyNumber(spaces: Text, x: int, rest: Text, lo: int, hi: int, initial: int)
    requires lo <= 0 <= hi && Spaces(spaces) && (rest == [] || !IsDigit(rest[0]))
    ensures Extract(Stream(spaces + Decimal(x) + rest, true), lo, hi, initial) ==
              if lo <= x <= hi then Extracted(x, Stream(rest, rest != []))
              else if lo == 0 && x < 0 && -x <= hi then Extracted(hi + 1 + x, Stream(rest, rest != []))
              else if x < lo && lo < 0 then Extracted(lo, Stream(rest, false))
              else Extracted(hi, Stream(rest, false))
  {
    hide Decimal, DigitCount, SkipSpaces, ValueOf, Spaces;
    NumberText(spaces, x, rest);
    if lo == 0 && x < 0 && -x <= hi {
      SmallModulo(hi + 1 + x, hi + 1);
    }
  }

  lemma SmallModulo(x: nat, n: nat)
    requires x < n
    ensures x % n == x
  {
  }

  /** A number written in range, after any spaces and before anything that is not a digit, reads back. */
  lemma ExtractDecimal(spaces: Text, x: int, rest: Text, lo: int, hi: int, initial: int)
    requires lo <= 0 <= hi && lo <= x <= hi
    requires Spaces(spaces) && rest != [] && !IsDigit(rest[0])
    ensures Extract(Stream(spaces + Decimal(x) + rest, true), lo, hi, initial)
         == Extracted(x, Stream(rest, true))
  {
    hide Extract, Decimal;
    ExtractAnyNumber(spaces, x, rest, lo, hi, initial);
  }

  /** Text that is no number reads as 0 and stops the stream; a stopped stream leaves variables alone. */
  lemma ExtractNoNumber(spaces: Text, text: Text, lo: int, hi: int, initial: int)
    requires lo <= 0 <= hi && Spaces(spaces)
    requires text != [] && !IsSpace(text[0]) && !IsDigit(text[0]) && text[0] != PLUS && text[0] != MINUS
    ensures Extract(Stream(spaces + text, true), lo, hi, initial) == Extracted(0, Stream(text, false))
    ensures Extract(Stream(text, false), lo, hi, initial) == Extracted(initial, Stream(text, false))
  {
    SkipSpacesIs(spaces, text);
    assert text[0..] == text;
  }

  // ---------------------------------------------------------------------------------------
  // Words
  // ---------------------------------------------------------------------------------------

  lemma {:induction false} TokenLengthIs(word: Text, rest: Text)
    requires NoSpaces(word)
    requires rest == [] || IsSpace(rest[0])
    ensures TokenLength(word + rest) == |word|
  {
    if word == [] {
      assert word + rest == rest;
    } else {
      assert (word + rest)[1..] == word[1..] + rest;
      TokenLengthIs(word[1..], rest);
    }
  }

  lemma FirstWord(word: Text, rest: Text)
    requires word != [] && NoSpaces(word) && (rest == [] || IsSpace(rest[0]))
    ensures WordsOf(word + rest) == [word] + WordsOf(rest)
  {
    TokenLengthIs(word, rest);
    assert SkipSpaces(word + rest) == word + rest;
    assert (word + rest)[..|word|] == word && (word + rest)[|word|..] == rest;
  }

  lemma LeadingSpace(space: byte, t: Text)
    requires IsSpace(space)
    ensures WordsOf([space] + t) == WordsOf(t)
  {
    assert ([space] + t)[1..] == t;
  }

  /** A number and a space are one word. */
  lemma NumberWord(x: int, space: byte, rest: Text)
    requires IsSpace(space)
    ensures WordsOf(Decimal(x) + [space] + rest) == [Decimal(x)] + WordsOf(rest)
  {
    hide WordsOf, Decimal;
    DecimalForm(x);
    assert Decimal(x) + [space] + rest == Decimal(x) + ([space] + rest);
    forall k | 0 <= k < |Decimal(x)|
      ensures !IsSpace(Decimal(x)[k])
    {
      var digits := if x < 0 then Decimal(x)[1..] else Decimal(x);
      if k > 0 || x >= 0 {
        assert Decimal(x)[k] == digits[if x < 0 then k - 1 else k];
      }
    }
    FirstWord(Decimal(x), [space] + rest);
    LeadingSpace(space, rest);
  }

  function InDecimal(xs: seq<int>): (words: seq<Text>)
    ensures |words| == |xs| && forall k | 0 <= k < |xs| :: words[k] == Decimal(xs[k])
  {
    seq(|xs|, k requires 0 <= k < |xs| => Decimal(xs[k]))
  }

  lemma {:induction false} IndexOfNewlineIs(line: Text, rest: Text)
    requires NEWLINE !in line
    ensures IndexOfNewline(line + [NEWLINE] + rest) == |line|
  {
    if line != [] {
      assert (line + [NEWLINE] + rest)[1..] == line[1..] + [NEWLINE] + rest;
      IndexOfNewlineIs(line[1..], rest);
    }
  }

  lemma {:induction false} NoNewlineBefore(t: Text)
    ensures NEWLINE !in t[..IndexOfNewline(t)]
  {
    if t != [] && t[0] != NEWLINE {
      NoNewlineBefore(t[1..]);
      assert t[..IndexOfNewline(t)] == [t[0]] + t[1..][..IndexOfNewline(t[1..])];
    }
  }

  /** A line is read back if and only if it holds no newline. */
  lemma GetLineIs(line: Text, rest: Text, initial: Text)
    ensures var r := GetLine(Stream(line + [NEWLINE] + rest, true), initial);
            && (r.text == line <==> NEWLINE !in line)
            && (NEWLINE !in line ==> r.input == Stream(rest, true))
  {
    var t := line + [NEWLINE] + rest;
    NoNewlineBefore(t);
    if NEWLINE !in line {
      IndexOfNewlineIs(line, rest);
      assert t[..|line|] == line && t[|line| + 1..] == rest;
    } else {
      assert t[..|t|] == t;
    }
  }
}
