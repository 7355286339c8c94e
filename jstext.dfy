/** The two JavaScript string primitives the core relies on: the global
    `parseInt` with no radix argument (section 19.2.5 of ECMA-262), and the
    conversion of a non-negative integer Number (one held exactly, below
    2^53) to the decimal string that string concatenation produces. */
module JsText {
  import opened Wrappers

  /** StrWhiteSpaceChar of ECMA-262: WhiteSpace (tab, vertical tab, form feed,
      space, no-break space, zero-width no-break space and the Zs category)
      and LineTerminator (line feed, carriage return, line and paragraph
      separators). */
  predicate IsStrWhiteSpace(c: char) {
    var n := c as int;
    n == 0x09 || n == 0x0A || n == 0x0B || n == 0x0C || n == 0x0D || n == 0x20 ||
    n == 0xA0 || n == 0x1680 || (0x2000 <= n <= 0x200A) || n == 0x2028 ||
    n == 0x2029 || n == 0x202F || n == 0x205F || n == 0x3000 || n == 0xFEFF
  }

  /** The value of `c` as a digit of radix 36 notation, or -1 if it is none. */
  function DigitValue(c: char): int {
    if '0' <= c <= '9' then c as int - '0' as int
    else if 'a' <= c <= 'z' then c as int - 'a' as int + 10
    else if 'A' <= c <= 'Z' then c as int - 'A' as int + 10
    else -1
  }

  predicate IsDigit(c: char, radix: nat) {
    0 <= DigitValue(c) < radix
  }

  predicate IsDecimal(s: string) {
    forall i :: 0 <= i < |s| ==> '0' <= s[i] <= '9'
  }

  /** `s` without its leading white space. */
  function TrimStart(s: string): string {
    if s != [] && IsStrWhiteSpace(s[0]) then TrimStart(s[1..]) else s
  }

  /** The longest prefix of `s` made only of digits of `radix`. */
  function DigitPrefix(s: string, radix: nat): (p: string)
    ensures forall i :: 0 <= i < |p| ==> IsDigit(p[i], radix)
  {
    if s != [] && IsDigit(s[0], radix) then [s[0]] + DigitPrefix(s[1..], radix) else []
  }

  /** The number a digit string denotes in `radix`, most significant digit first. */
  function DigitsValue(digits: string, radix: nat): nat
    requires forall i :: 0 <= i < |digits| ==> IsDigit(digits[i], radix)
  {
    if digits == [] then 0
    else
      assert IsDigit(digits[|digits| - 1], radix);
      DigitsValue(digits[..|digits| - 1], radix) * radix + DigitValue(digits[|digits| - 1])
  }

  /** `parseInt(s)`: skip leading white space, read an optional sign, switch to
      radix 16 after a "0x" or "0X" prefix, and read the longest run of digits
      that follows. `None` is NaN, the answer when that run is empty. */
  function ParseInt(s: string): Option<int> {
    var t := TrimStart(s);
    var negative := t != [] && t[0] == '-';
    var u := if t != [] && (t[0] == '-' || t[0] == '+') then t[1..] else t;
    var hex := |u| >= 2 && u[0] == '0' && (u[1] == 'x' || u[1] == 'X');
    var radix := if hex then 16 else 10;
    var z := DigitPrefix(if hex then u[2..] else u, radix);
    if z == [] then None
    else
      var magnitude: int := DigitsValue(z, radix);
      Some(if negative then -magnitude else magnitude)
  }

  function DigitChar(d: nat): (c: char)
    requires d < 10
    ensures '0' <= c <= '9' && DigitValue(c) == d
  {
    ('0' as int + d) as char
  }

  /** The decimal string of `n`. It is what `'' + n` produces for integers
      below 10^21 that a JavaScript Number holds exactly (up to 2^53); the
      source only ever converts 9. */
  function NumberToString(n: nat): (s: string)
    ensures s != [] && IsDecimal(s)
    ensures |s| == 1 <==> n < 10
  {
    if n < 10 then [DigitChar(n)] else NumberToString(n / 10) + [DigitChar(n % 10)]
  }

  lemma {:induction false} DigitPrefixOfDecimal(s: string)
    requires IsDecimal(s)
    ensures DigitPrefix(s, 10) == s
  {
    if s != [] {
      DigitPrefixOfDecimal(s[1..]);
    }
  }

  /** A non-empty string of decimal digits parses to the number it denotes:
      no white space, sign or hexadecimal prefix can be read into it. */
  lemma ParseIntOfDecimal(s: string)
    requires s != [] && IsDecimal(s)
    ensures ParseInt(s) == Some(DigitsValue(s, 10))
  {
    assert TrimStart(s) == s;
    DigitPrefixOfDecimal(s);
  }

  lemma {:induction false} NumberToStringValue(n: nat)
    ensures DigitsValue(NumberToString(n), 10) == n
  {
    if n >= 10 {
      NumberToStringValue(n / 10);
      var s := NumberToString(n);
      assert s[..|s| - 1] == NumberToString(n / 10);
    }
  }

  /** `parseInt` inverts the decimal rendering of `NumberToString`. */
  lemma ParseIntOfNumberToString(n: nat)
    ensures ParseInt(NumberToString(n)) == Some(n)
  {
    ParseIntOfDecimal(NumberToString(n));
    NumberToStringValue(n);
  }

  lemma {:induction false} DigitPrefixStops(d: string, rest: string)
    requires IsDecimal(d)
    requires rest != [] && !IsDigit(rest[0], 10)
    ensures DigitPrefix(d + rest, 10) == d
  {
    if d != [] {
      assert (d + rest)[1..] == d[1..] + rest;
      DigitPrefixStops(d[1..], rest);
    } else {
      assert d + rest == rest;
    }
  }

  /** Leading white space is skipped. */
  lemma ParseIntSkipsWhiteSpace(c: char, s: string)
    requires IsStrWhiteSpace(c)
    ensures ParseInt([c] + s) == ParseInt(s)
  {
    assert ([c] + s)[1..] == s;
    assert TrimStart([c] + s) == TrimStart(s);
  }

  /** Reading stops at the first character that is not a decimal digit,
      unless the digits are a lone "0" followed by an 'x' or 'X', which
      together form the hexadecimal prefix. */
  lemma ParseIntStopsAtNonDigit(d: string, rest: string)
    requires d != [] && IsDecimal(d)
    requires rest != [] && !IsDigit(rest[0], 10)
    requires !(d == "0" && (rest[0] == 'x' || rest[0] == 'X'))
    ensures ParseInt(d + rest) == Some(DigitsValue(d, 10))
  {
    var s := d + rest;
    assert s[0] == d[0];
    assert TrimStart(s) == s;
    assert !(s[0] == '0' && (s[1] == 'x' || s[1] == 'X')) by {
      if |d| >= 2 {
        assert s[1] == d[1];
      } else {
        assert d == [d[0]];
        assert s[1] == rest[0];
      }
    }
    DigitPrefixStops(d, rest);
  }

  /** An 'x' after digits other than a lone "0" is an ordinary stop. */
  lemma ParseIntTrailingXExample()
    ensures ParseInt("12x") == Some(12)
  {
    assert "12x" == "12" + "x";
    ParseIntStopsAtNonDigit("12", "x");
    ParseIntOfDecimal("12");
  }

  /** A leading sign applies to the digits that follow it. */
  lemma ParseIntSigned(sign: char, d: string)
    requires sign == '-' || sign == '+'
    requires d != [] && IsDecimal(d)
    ensures ParseInt([sign] + d) == Some(if sign == '-' then 0 - DigitsValue(d, 10) as int else DigitsValue(d, 10))
  {
    var s := [sign] + d;
    assert TrimStart(s) == s;
    assert s[1..] == d;
    DigitPrefixOfDecimal(d);
  }

  /** What the rules above give on short fields like those `time24H` reads. */
  lemma ParseIntLeadingZeroExample()
    ensures ParseInt("05") == Some(5)
  {
    ParseIntOfDecimal("05");
  }

  lemma ParseIntWhiteSpaceExample()
    ensures ParseInt(" 9") == Some(9)
  {
    ParseIntOfDecimal("9");
    ParseIntSkipsWhiteSpace(' ', "9");
  }

  lemma ParseIntTrailingExample()
    ensures ParseInt("3p") == Some(3)
  {
    assert "3p" == "3" + "p";
    ParseIntStopsAtNonDigit("3", "p");
  }

  lemma ParseIntSignExample()
    ensures ParseInt("-1") == Some(-1)
  {
    assert "-1" == ['-'] + "1";
    ParseIntSigned('-', "1");
  }

  lemma ParseIntNaNExample()
    ensures ParseInt("0x") == None
    ensures ParseInt("p") == None
    ensures ParseInt(":") == None
  {
  }
}
