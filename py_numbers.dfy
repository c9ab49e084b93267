/**
 * Python's `int(text, 10)` / `int(text, 16)` on the strings the tools read
 * from manifests and the command line, and `parse_hex_or_int` built on them.
 */
module PyNumbers {
  import opened Common

  /**
   * Python's whitespace (`str.isspace`), which `str.strip`, `str.split` and
   * `int()` skip: the ASCII tab, line feed, vertical tab, form feed, carriage
   * return and space, the information separators U+001C..U+001F, and the
   * Unicode spaces and line and paragraph separators.
   */
  predicate IsSpace(c: char)
  {
    ('\t' <= c <= '\r') || ('\U{001C}' <= c <= ' ') || c == '\U{0085}' || c == '\U{00A0}' ||
    c == '\U{1680}' || ('\U{2000}' <= c <= '\U{200A}') || c == '\U{2028}' || c == '\U{2029}' ||
    c == '\U{202F}' || c == '\U{205F}' || c == '\U{3000}'
  }

  function StripLeft(s: string): string
  {
    if |s| > 0 && IsSpace(s[0]) then StripLeft(s[1..]) else s
  }

  function StripRight(s: string): string
  {
    if |s| > 0 && IsSpace(s[|s| - 1]) then StripRight(s[..|s| - 1]) else s
  }

  /** `lstrip()` keeps a suffix that starts with something other than whitespace. */
  lemma {:induction false} StripLeftSuffix(s: string)
    ensures |StripLeft(s)| <= |s| && StripLeft(s) == s[|s| - |StripLeft(s)|..]
    ensures StripLeft(s) == [] || !IsSpace(StripLeft(s)[0])
  {
    if |s| > 0 && IsSpace(s[0]) {
      StripLeftSuffix(s[1..]);
    }
  }

  /** `rstrip()` keeps a prefix that ends with something other than whitespace. */
  lemma {:induction false} StripRightPrefix(s: string)
    ensures |StripRight(s)| <= |s| && StripRight(s) == s[..|StripRight(s)|]
    ensures StripRight(s) == [] || !IsSpace(StripRight(s)[|StripRight(s)| - 1])
  {
    if |s| > 0 && IsSpace(s[|s| - 1]) {
      StripRightPrefix(s[..|s| - 1]);
    }
  }

  /** Only whitespace is taken off the front. */
  lemma {:induction false} StripLeftTakesSpace(s: string)
    ensures forall k :: 0 <= k < |s| - |StripLeft(s)| ==> IsSpace(s[k])
  {
    if |s| > 0 && IsSpace(s[0]) {
      StripLeftTakesSpace(s[1..]);
      StripLeftSuffix(s[1..]);
      forall k | 1 <= k < |s| - |StripLeft(s)| ensures IsSpace(s[k]) {
        assert s[k] == s[1..][k - 1];
      }
    }
  }

  /** Only whitespace is taken off the back. */
  lemma {:induction false} StripRightTakesSpace(s: string)
    ensures forall k :: |StripRight(s)| <= k < |s| ==> IsSpace(s[k])
  {
    if |s| > 0 && IsSpace(s[|s| - 1]) {
      StripRightTakesSpace(s[..|s| - 1]);
      StripRightPrefix(s[..|s| - 1]);
      forall k | |StripRight(s)| <= k < |s| - 1 ensures IsSpace(s[k]) {
        assert s[k] == s[..|s| - 1][k];
      }
    }
  }

  /** `str.strip()`: no whitespace is left at either end. */
  function Strip(s: string): (r: string)
    ensures r == [] || (!IsSpace(r[0]) && !IsSpace(r[|r| - 1]))
  {
    var l := StripLeft(s);
    var r := StripRight(l);
    StripLeftSuffix(s);
    StripRightPrefix(l);
    assert r != [] ==> r[0] == l[0];
    r
  }

  /** The value of a digit character in bases up to 16, either case. */
  function DigitValue(c: char): (r: Option<nat>)
    ensures r.Some? ==> r.value < 16
  {
    if '0' <= c <= '9' then Some(c as int - '0' as int)
    else if 'a' <= c <= 'f' then Some(10 + c as int - 'a' as int)
    else if 'A' <= c <= 'F' then Some(10 + c as int - 'A' as int)
    else None
  }

  predicate IsDigit(c: char, base: nat)
  {
    DigitValue(c).Some? && DigitValue(c).value < base
  }

  predicate AllDigits(s: string, base: nat)
  {
    forall k :: 0 <= k < |s| ==> IsDigit(s[k], base)
  }

  /** The value of a digit string, most significant digit first. */
  function DigitsValue(s: string, base: nat): nat
    requires AllDigits(s, base)
  {
    if s == [] then 0
    else DigitsValue(s[..|s| - 1], base) * base + DigitValue(s[|s| - 1]).value
  }

  predicate HasHexPrefix(t: string)
  {
    |t| >= 2 && t[0] == '0' && (t[1] == 'x' || t[1] == 'X')
  }

  /** The text after an optional leading sign. */
  function Unsigned(t: string): string
  {
    if |t| > 0 && (t[0] == '-' || t[0] == '+') then t[1..] else t
  }

  /** The digits after an optional `0x`/`0X` prefix, which only base 16 accepts. */
  function Magnitude(u: string, base: nat): string
  {
    if base == 16 && HasHexPrefix(u) then u[2..] else u
  }

  /**
   * `int(text, base)` for base 10 or 16: surrounding whitespace, an optional
   * sign, for base 16 an optional `0x`/`0X` prefix, then at least one digit.
   */
  function PyInt(text: string, base: nat): Result<int>
    requires base == 10 || base == 16
  {
    match IntLiteral(Strip(text), base)
    case Some(n) => Ok(n)
    case None => Err(InvalidLiteral(text))
  }

  /** The value of already stripped text: an optional sign, the optional hex prefix, then at least one digit. */
  function IntLiteral(t: string, base: nat): Option<int>
    requires base == 10 || base == 16
  {
    var v := Magnitude(Unsigned(t), base);
    if |v| > 0 && AllDigits(v, base) then
      Some(if |t| > 0 && t[0] == '-' then -(DigitsValue(v, base) as int) else DigitsValue(v, base))
    else
      None
  }

  /**
   * `parse_hex_or_int` / `parseHexInt` on a string: stripped, then read as
   * hexadecimal when it starts with `0x` in either case, as decimal otherwise.
   */
  function ParseHexOrInt(text: string): Result<int>
  {
    var t := Strip(text);
    PyInt(t, if HasHexPrefix(t) then 16 else 10)
  }

  /** `str.lower()` for the letters of `LowerChar`; every other character is kept. */
  function Lower(s: string): (r: string)
    ensures |r| == |s|
    ensures forall k :: 0 <= k < |s| ==> r[k] == LowerChar(s[k])
  {
    seq(|s|, k requires 0 <= k < |s| => LowerChar(s[k]))
  }

  /**
   * The lower-case form of a capital letter of ASCII, Latin-1 (U+00C0..U+00DE
   * but the multiplication sign), basic Greek (U+0391..U+03A9) or basic
   * Cyrillic (U+0400..U+042F).
   */
  function LowerChar(c: char): char
  {
    if 'A' <= c <= 'Z' || ('\U{00C0}' <= c <= '\U{00DE}' && c != '\U{00D7}') then (c as int + 0x20) as char
    else if '\U{0391}' <= c <= '\U{03A9}' && c != '\U{03A2}' then (c as int + 0x20) as char
    else if '\U{0410}' <= c <= '\U{042F}' then (c as int + 0x20) as char
    else if '\U{0400}' <= c <= '\U{040F}' then (c as int + 0x50) as char
    else c
  }

  /** The graphics tool's variant: lower-cases the stripped text before testing the prefix. */
  function ParseHexOrIntLowered(text: string): Result<int>
  {
    var t := Lower(Strip(text));
    PyInt(t, if |t| >= 2 && t[0] == '0' && t[1] == 'x' then 16 else 10)
  }

  // ---------------------------------------------------------------- formatting

  function DigitChar(d: nat): (c: char)
    requires d < 16
    ensures DigitValue(c) == Some(d)
  {
    if d < 10 then ('0' as int + d) as char else ('a' as int + d - 10) as char
  }

  /** The digits of `n` in `base`, most significant first, without leading zeros. */
  function Digits(n: nat, base: nat): (s: string)
    requires base == 10 || base == 16
    ensures |s| > 0 && AllDigits(s, base)
    decreases n
  {
    if n < base then [DigitChar(n)] else Digits(n / base, base) + [DigitChar(n % base)]
  }

  lemma {:induction false} DigitsRoundTrip(n: nat, base: nat)
    requires base == 10 || base == 16
    ensures DigitsValue(Digits(n, base), base) == n
    decreases n
  {
    var s := Digits(n, base);
    if n >= base {
      DigitsRoundTrip(n / base, base);
      assert s[..|s| - 1] == Digits(n / base, base);
    }
  }

  lemma StripNoSpace(t: string)
    requires |t| > 0 && !IsSpace(t[0]) && !IsSpace(t[|t| - 1])
    ensures Strip(t) == t
  {
  }

  /** Reading back what `hex()`-style formatting wrote: `0x` followed by the digits of `n` parses to `n`. */
  lemma {:induction false} ParseHexOrIntReadsHex(n: nat)
    ensures ParseHexOrInt("0x" + Digits(n, 16)) == Ok(n)
  {
    var t := "0x" + Digits(n, 16);
    StripNoSpace(t);
    assert t[2..] == Digits(n, 16);
    DigitsRoundTrip(n, 16);
  }

  /** A plain decimal literal parses to its value. */
  lemma {:induction false} ParseHexOrIntReadsDecimal(n: nat)
    ensures ParseHexOrInt(Digits(n, 10)) == Ok(n)
  {
    var d := Digits(n, 10);
    StripNoSpace(d);
    assert IsDigit(d[0], 10);
    assert !HasHexPrefix(d) by {
      if |d| >= 2 { assert IsDigit(d[1], 10); }
    }
    assert Magnitude(Unsigned(d), 10) == d;
    DigitsRoundTrip(n, 10);
  }

  /** A leading `-` negates a decimal literal. */
  lemma {:induction false} ParseHexOrIntReadsNegative(n: nat)
    ensures ParseHexOrInt("-" + Digits(n, 10)) == Ok(-(n as int))
  {
    var d := Digits(n, 10);
    var t := "-" + d;
    assert IsDigit(d[0], 10);
    StripNoSpace(t);
    assert !HasHexPrefix(t);
    assert ParseHexOrInt(t) == PyInt(t, 10);
    assert Magnitude(Unsigned(t), 10) == d;
    DigitsRoundTrip(n, 10);
    assert IntLiteral(t, 10) == Some(-(n as int));
  }

  // ------------------------------------------------- the lower-casing variant

  lemma {:induction false} LowerDigitsValue(s: string, base: nat)
    requires AllDigits(s, base)
    ensures AllDigits(Lower(s), base) && DigitsValue(Lower(s), base) == DigitsValue(s, base)
  {
    if s != [] {
      LowerDigitsValue(s[..|s| - 1], base);
      assert Lower(s)[..|s| - 1] == Lower(s[..|s| - 1]);
    }
  }

  lemma LowerDigitsBack(s: string, base: nat)
    requires AllDigits(Lower(s), base)
    ensures AllDigits(s, base)
  {
    forall k | 0 <= k < |s| ensures IsDigit(s[k], base) {
      assert IsDigit(Lower(s)[k], base);
    }
  }

  lemma LowerUnsigned(t: string)
    ensures Unsigned(Lower(t)) == Lower(Unsigned(t))
  {
  }

  lemma LowerMagnitude(u: string, base: nat)
    ensures HasHexPrefix(Lower(u)) == HasHexPrefix(u)
    ensures Magnitude(Lower(u), base) == Lower(Magnitude(u, base))
  {
  }

  lemma {:induction false} PyIntLower(t: string, base: nat)
    requires base == 10 || base == 16
    requires t == [] || (!IsSpace(t[0]) && !IsSpace(t[|t| - 1]))
    ensures PyInt(Lower(t), base).Ok? == PyInt(t, base).Ok?
    ensures PyInt(t, base).Ok? ==> PyInt(Lower(t), base) == PyInt(t, base)
  {
    var l := Lower(t);
    if |t| > 0 {
      StripNoSpace(t);
      StripNoSpace(l);
    }
    PyIntStripped(t, base);
    PyIntStripped(l, base);
    IntLiteralLower(t, base);
  }

  /** On text with nothing to strip, `int()` is the literal's value. */
  lemma PyIntStripped(t: string, base: nat)
    requires base == 10 || base == 16
    requires Strip(t) == t
    ensures PyInt(t, base).Ok? <==> IntLiteral(t, base).Some?
    ensures PyInt(t, base).Ok? ==> PyInt(t, base).value == IntLiteral(t, base).value
  {
  }

  /** Lower-casing does not change the value of a literal. */
  lemma IntLiteralLower(t: string, base: nat)
    requires base == 10 || base == 16
    ensures IntLiteral(Lower(t), base) == IntLiteral(t, base)
  {
    var l := Lower(t);
    LowerUnsigned(t);
    LowerMagnitude(Unsigned(t), base);
    var v := Magnitude(Unsigned(t), base);
    var vl := Magnitude(Unsigned(l), base);
    assert vl == Lower(v);
    assert (|l| > 0 && l[0] == '-') == (|t| > 0 && t[0] == '-');
    if AllDigits(v, base) {
      LowerDigitsValue(v, base);
    } else if AllDigits(vl, base) {
      LowerDigitsBack(v, base);
    }
  }

  /** The graphics tool lower-cases before parsing; it reads every string exactly as the other tools do. */
  lemma {:induction false} ParseHexOrIntLoweredAgrees(text: string)
    ensures ParseHexOrIntLowered(text).Ok? == ParseHexOrInt(text).Ok?
    ensures ParseHexOrInt(text).Ok? ==> ParseHexOrIntLowered(text) == ParseHexOrInt(text)
  {
    var t := Strip(text);
    var l := Lower(t);
    assert (|l| >= 2 && l[0] == '0' && l[1] == 'x') == HasHexPrefix(t) by {
      LowerMagnitude(t, 16);
    }
    PyIntLower(t, if HasHexPrefix(t) then 16 else 10);
  }
}
