/**
 * The pieces of Python's string handling the two bots rely on: the two sets
 * of whitespace characters in play, trimming by either, ASCII decimal digits
 * and `int(text)` in base 10.
 */
module PyText {
  import opened Wrappers

  /**
   * Python's `str.isspace` for one character (the characters with bidirectional
   * type WS, B or S, or category Zs); `str.strip` and the regular-expression
   * class `\s` both use it.
   */
  predicate IsSpace(c: char) {
    c == ' ' || '\t' <= c <= '\r' || '\U{1c}' <= c <= '\U{1f}' || c == '\U{85}' || c == '\U{a0}'
    || c == '\U{1680}' || '\U{2000}' <= c <= '\U{200a}' || c == '\U{2028}' || c == '\U{2029}'
    || c == '\U{202f}' || c == '\U{205f}' || c == '\U{3000}'
  }

  /**
   * The whitespace `int()` skips around a number. A text with a non-ASCII
   * character has its `str.isspace` characters above U+007F turned into
   * blanks first; ASCII characters are kept as they are and only tab to
   * carriage return and the blank count. So the four information separators
   * U+001C to U+001F, which `str.isspace` accepts, are not whitespace here.
   */
  predicate IsIntSpace(c: char) {
    IsSpace(c) && !('\U{1c}' <= c <= '\U{1f}')
  }

  /** Which characters a trimming treats as whitespace: `str.strip`'s or `int()`'s. */
  datatype Whitespace = StrWhitespace | IntWhitespace

  /** Whether `c` is whitespace in the set `space`. */
  predicate Blank(space: Whitespace, c: char) {
    match space
    case StrWhitespace => IsSpace(c)
    case IntWhitespace => IsIntSpace(c)
  }

  /** Every character of `s` is whitespace, by `space`. */
  predicate AllSpace(space: Whitespace, s: string) {
    forall i | 0 <= i < |s| :: Blank(space, s[i])
  }

  /** Neither end of `s` is whitespace, by `space`. */
  predicate Trimmed(space: Whitespace, s: string) {
    s == [] || (!Blank(space, s[0]) && !Blank(space, s[|s| - 1]))
  }

  /** The number of whitespace characters `s` starts with. */
  function LeadingSpace(space: Whitespace, s: string): (k: nat)
    ensures k <= |s|
    ensures forall i | 0 <= i < k :: Blank(space, s[i])
    ensures k < |s| ==> !Blank(space, s[k])
  {
    if s != [] && Blank(space, s[0]) then 1 + LeadingSpace(space, s[1..]) else 0
  }

  /** The number of whitespace characters `s` ends with. */
  function TrailingSpace(space: Whitespace, s: string): (k: nat)
    ensures k <= |s|
    ensures forall i | |s| - k <= i < |s| :: Blank(space, s[i])
    ensures k < |s| ==> !Blank(space, s[|s| - k - 1])
  {
    if s != [] && Blank(space, s[|s| - 1]) then 1 + TrailingSpace(space, s[..|s| - 1]) else 0
  }

  /** `s.lstrip()`: the suffix left after dropping the leading whitespace. */
  function TrimStart(space: Whitespace, s: string): (r: string)
    ensures |r| <= |s| && r == s[|s| - |r|..]
    ensures AllSpace(space, s[..|s| - |r|])
    ensures r == [] || !Blank(space, r[0])
  {
    s[LeadingSpace(space, s)..]
  }

  /** `s.rstrip()`: the prefix left after dropping the trailing whitespace. */
  function TrimEnd(space: Whitespace, s: string): (r: string)
    ensures |r| <= |s| && r == s[..|r|]
    ensures AllSpace(space, s[|r|..])
    ensures r == [] || !Blank(space, r[|r| - 1])
  {
    s[..|s| - TrailingSpace(space, s)]
  }

  /** `s.strip()` by `StrWhitespace`; the trimming `int()` does around a number by `IntWhitespace`. */
  function Strip(space: Whitespace, s: string): (r: string)
    ensures Trimmed(space, r)
    ensures |r| <= |s|
  {
    var t := TrimStart(space, s);
    var r := TrimEnd(space, t);
    assert r != [] ==> r[0] == t[0];
    r
  }

  lemma {:induction false} TrimStartOfPadded(space: Whitespace, a: string, t: string)
    requires AllSpace(space, a) && (t == [] || !Blank(space, t[0]))
    ensures TrimStart(space, a + t) == t
    decreases |a|
  {
    if a != [] {
      assert (a + t)[1..] == a[1..] + t;
      TrimStartOfPadded(space, a[1..], t);
    } else {
      assert a + t == t;
    }
  }

  lemma {:induction false} TrimEndOfPadded(space: Whitespace, t: string, b: string)
    requires AllSpace(space, b) && (t == [] || !Blank(space, t[|t| - 1]))
    ensures TrimEnd(space, t + b) == t
    decreases |b|
  {
    if b != [] {
      assert (t + b)[..|t + b| - 1] == t + b[..|b| - 1];
      TrimEndOfPadded(space, t, b[..|b| - 1]);
    } else {
      assert t + b == t;
    }
  }

  /**
   * `strip` removes exactly the whitespace around a text whose ends are not
   * whitespace; with `Strip`'s own contract this pins `Strip` down completely.
   */
  lemma StripOfPadded(space: Whitespace, a: string, t: string, b: string)
    requires AllSpace(space, a) && AllSpace(space, b) && Trimmed(space, t)
    ensures Strip(space, a + t + b) == t
  {
    if t == [] {
      assert a + t + b == a + b;
      assert AllSpace(space, a + b) by {
        forall i | 0 <= i < |a + b| ensures Blank(space, (a + b)[i]) {
          if i >= |a| { assert (a + b)[i] == b[i - |a|]; }
        }
      }
      TrimStartOfPadded(space, a + b, []);
      assert a + b + [] == a + b;
    } else {
      assert a + t + b == a + (t + b);
      TrimStartOfPadded(space, a, t + b);
      TrimEndOfPadded(space, t, b);
    }
  }

  /** Stripping twice is stripping once. */
  lemma StripIdempotent(space: Whitespace, s: string)
    ensures Strip(space, Strip(space, s)) == Strip(space, s)
  {
    var r := Strip(space, s);
    assert [] + r + [] == r;
    StripOfPadded(space, [], r, []);
  }

  predicate IsDigit(c: char) {
    '0' <= c <= '9'
  }

  predicate AllDigits(s: string) {
    forall i | 0 <= i < |s| :: IsDigit(s[i])
  }

  function DigitValue(c: char): (v: nat)
    requires IsDigit(c)
    ensures v < 10
  {
    c as int - '0' as int
  }

  function DigitChar(v: nat): (c: char)
    requires v < 10
    ensures IsDigit(c) && DigitValue(c) == v
  {
    ('0' as int + v) as char
  }

  /** The value of a string of decimal digits, most significant first (no digits: 0). */
  function DigitsValue(s: string): nat
    requires AllDigits(s)
  {
    if s == [] then 0 else DigitsValue(s[..|s| - 1]) * 10 + DigitValue(s[|s| - 1])
  }

  /** `str(n)` for a natural number. */
  function NatDecimal(n: nat): (s: string)
    ensures s != [] && AllDigits(s)
  {
    if n < 10 then [DigitChar(n)] else NatDecimal(n / 10) + [DigitChar(n % 10)]
  }

  /** `str(n)` for an integer. */
  function Decimal(n: int): string {
    if n < 0 then "-" + NatDecimal(-n) else NatDecimal(n)
  }

  lemma {:induction false} NatDecimalValue(n: nat)
    ensures DigitsValue(NatDecimal(n)) == n
  {
    if n >= 10 {
      var s := NatDecimal(n);
      assert s[..|s| - 1] == NatDecimal(n / 10);
      NatDecimalValue(n / 10);
    }
  }

  /**
   * The value of the body of a base-10 integer literal as `int()` accepts it:
   * digits, with single underscores allowed between two digits, read from the
   * last digit back; `None` for text that is not such a body.
   */
  function IntBody(s: string): (v: Option<int>)
    ensures v.Some? ==> s != [] && IsDigit(s[0]) && IsDigit(s[|s| - 1]) && v.value >= 0
    decreases |s|
  {
    if s == [] || !IsDigit(s[|s| - 1]) then None
    else if |s| == 1 then Some(DigitValue(s[0]))
    else
      var rest := if s[|s| - 2] == '_' then s[..|s| - 2] else s[..|s| - 1];
      match IntBody(rest)
      case None => None
      case Some(v) => Some(v * 10 + DigitValue(s[|s| - 1]))
  }

  /** An optionally signed integer body, the part of `int()`'s input between the whitespace. */
  function IntLiteral(t: string): (v: Option<int>)
    ensures v.Some? ==> t != [] && IsDigit(t[|t| - 1])
    ensures v.Some? ==> t[0] == '+' || t[0] == '-' || IsDigit(t[0])
  {
    if |t| > 0 && (t[0] == '+' || t[0] == '-') then
      match IntBody(t[1..])
      case None => None
      case Some(v) =>
        assert t[1..][|t| - 2] == t[|t| - 1];
        Some(if t[0] == '-' then -v else v)
    else
      IntBody(t)
  }

  /**
   * `int(text)`: surrounding whitespace (as `int()` counts it) is ignored,
   * then an optional sign and an integer body; anything else raises
   * `ValueError`, here `None`.
   */
  function PyInt(text: string): (v: Option<int>)
    ensures v.Some? ==> var t := Strip(IntWhitespace, text); t != [] && IsDigit(t[|t| - 1])
  {
    IntLiteral(Strip(IntWhitespace, text))
  }

  lemma DigitsAreTrimmed(s: string)
    requires AllDigits(s)
    ensures Trimmed(IntWhitespace, s)
  {
  }

  /** A run of plain digits is an integer body worth its decimal value. */
  lemma {:induction false} IntBodyOfDigits(s: string)
    requires s != [] && AllDigits(s)
    ensures IntBody(s) == Some(DigitsValue(s) as int)
    decreases |s|
  {
    if |s| > 1 {
      var rest := s[..|s| - 1];
      assert IsDigit(s[|s| - 2]);
      assert AllDigits(rest);
      IntBodyOfDigits(rest);
    }
  }

  lemma IntLiteralOfDigits(digits: string)
    requires digits != [] && AllDigits(digits)
    ensures IntLiteral(digits) == Some(DigitsValue(digits) as int)
    ensures IntLiteral("-" + digits) == Some(-(DigitsValue(digits) as int))
  {
    IntBodyOfDigits(digits);
    assert IsDigit(digits[0]);
    var neg := "-" + digits;
    assert neg[1..] == digits;
  }

  lemma IntLiteralOfDecimal(n: int)
    ensures Trimmed(IntWhitespace, Decimal(n)) && IntLiteral(Decimal(n)) == Some(n)
  {
    var m: nat := if n < 0 then -n else n;
    var digits := NatDecimal(m);
    NatDecimalValue(m);
    IntLiteralOfDigits(digits);
    DigitsAreTrimmed(digits);
    if n < 0 {
      var s := "-" + digits;
      assert s[|s| - 1] == digits[|digits| - 1];
    }
  }

  /** `int(str(n)) == n`, also with whitespace around the number, as a chat message may carry it. */
  lemma PyIntOfDecimal(n: int, a: string, b: string)
    requires AllSpace(IntWhitespace, a) && AllSpace(IntWhitespace, b)
    ensures PyInt(a + Decimal(n) + b) == Some(n)
  {
    IntLiteralOfDecimal(n);
    StripOfPadded(IntWhitespace, a, Decimal(n), b);
  }

  /** The last character of a stripped text is a character of the text. */
  lemma StripEndsInside(space: Whitespace, s: string)
    ensures Strip(space, s) != [] ==> Strip(space, s)[|Strip(space, s)| - 1] in s
  {
    var t := TrimStart(space, s);
    var r := Strip(space, s);
    if r != [] {
      assert r[|r| - 1] == t[|r| - 1] == s[|s| - |t| + |r| - 1];
    }
  }

  /** Text with no decimal digit in it never converts. */
  lemma PyIntNeedsADigit(text: string)
    requires forall i | 0 <= i < |text| :: !IsDigit(text[i])
    ensures PyInt(text) == None
  {
    StripEndsInside(IntWhitespace, text);
  }

  /** A text that starts with a non-whitespace character keeps it first when stripped. */
  lemma StripKeepsFirst(space: Whitespace, s: string)
    requires s != [] && !Blank(space, s[0])
    ensures Strip(space, s) != [] && Strip(space, s)[0] == s[0]
  {
    assert TrimStart(space, s) == s;
  }

  /** A text that ends in a non-whitespace character keeps it last when stripped. */
  lemma StripKeepsLast(space: Whitespace, s: string)
    requires s != [] && !Blank(space, s[|s| - 1])
    ensures Strip(space, s) != [] && Strip(space, s)[|Strip(space, s)| - 1] == s[|s| - 1]
  {
    var t := TrimStart(space, s);
    assert t != [];
    assert TrimEnd(space, t) == t;
  }

  /** `int()` raises on a text that, once stripped as `int()` strips, starts with anything but a sign or a digit. */
  lemma PyIntNeedsSignOrDigitFirst(text: string)
    requires text != [] && !Blank(IntWhitespace, text[0]) && text[0] != '+' && text[0] != '-' && !IsDigit(text[0])
    ensures PyInt(text) == None
  {
    StripKeepsFirst(IntWhitespace, text);
  }

  /** `int()` raises on a text that, once stripped as `int()` strips, does not end in a digit. */
  lemma PyIntNeedsDigitLast(text: string)
    requires text != [] && !Blank(IntWhitespace, text[|text| - 1]) && !IsDigit(text[|text| - 1])
    ensures PyInt(text) == None
  {
    StripKeepsLast(IntWhitespace, text);
  }

  /**
   * An information separator (U+001C to U+001F) after or before a number
   * makes `int()` raise, although `str.strip` removes one in front of a text.
   */
  lemma PyIntRejectsSeparators(a: string, c: char, b: string)
    requires '\U{1c}' <= c <= '\U{1f}'
    ensures PyInt(a + [c]) == None && PyInt([c] + b) == None
    ensures Strip(StrWhitespace, [c] + b) == Strip(StrWhitespace, b)
  {
    var s, u := a + [c], [c] + b;
    assert s[|s| - 1] == c && u[0] == c;
    PyIntNeedsDigitLast(s);
    PyIntNeedsSignOrDigitFirst(u);
    assert u[1..] == b;
    assert TrimStart(StrWhitespace, u) == TrimStart(StrWhitespace, b);
  }
}
