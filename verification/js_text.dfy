/**
 * The JavaScript string and number primitives the employee-ID code is built
 * from: `Number.prototype.toString` on non-negative integers,
 * `String.prototype.padStart`, `Array.prototype.indexOf` and the global
 * `parseInt` with no radix argument.
 */
module JsText {
  import opened Wrappers

  predicate IsDecimalDigit(c: char) {
    '0' <= c <= '9'
  }

  /** The character of a decimal digit value. */
  function DigitChar(d: nat): (c: char)
    requires d < 10
    ensures IsDecimalDigit(c)
    ensures c as int - '0' as int == d
  {
    ('0' as int + d) as char
  }

  /**
   * `n.toString()` for an integer 0 <= n < 10^21: its decimal digits, most
   * significant first, without a leading zero.
   */
  function NatToDecimal(n: nat): (s: string)
    ensures 1 <= |s|
    ensures forall i :: 0 <= i < |s| ==> IsDecimalDigit(s[i])
    ensures s[0] == '0' <==> n == 0
    ensures |s| == 1 <==> n < 10
    ensures |s| <= 2 <==> n < 100
  {
    if n < 10 then [DigitChar(n)] else NatToDecimal(n / 10) + [DigitChar(n % 10)]
  }

  /**
   * `s.padStart(width, [fill])`: fill characters are added in front until the
   * string is `width` long; a string already that long is returned unchanged,
   * never truncated.
   */
  function PadStart(s: string, width: nat, fill: char): (r: string)
    ensures |r| == if |s| >= width then |s| else width
    ensures r[|r| - |s|..] == s
    ensures forall i :: 0 <= i < |r| - |s| ==> r[i] == fill
    ensures forall i :: |r| - |s| <= i < |r| ==> r[i] == s[i - (|r| - |s|)]
  {
    if |s| >= width then s else seq(width - |s|, _ => fill) + s
  }

  /**
   * `xs.indexOf(x)`: the position of the first element equal to `x`, or -1
   * when there is none.
   */
  function IndexOf<T(==)>(xs: seq<T>, x: T): (i: int)
    ensures -1 <= i < |xs|
    ensures i == -1 <==> x !in xs
    ensures 0 <= i ==> xs[i] == x && x !in xs[..i]
  {
    if |xs| == 0 then -1
    else if xs[0] == x then 0
    else
      var j := IndexOf(xs[1..], x);
      if j == -1 then -1 else j + 1
  }

  /** `xs.includes(x)`: whether some element equals `x`. */
  function Includes<T(==)>(xs: seq<T>, x: T): (b: bool)
    ensures b <==> x in xs
  {
    if |xs| == 0 then false
    else if xs[0] == x then true
    else
      assert xs == [xs[0]] + xs[1..];
      Includes(xs[1..], x)
  }

  /** In a list without repeated elements, `indexOf` finds every element at its own position. */
  lemma IndexOfDistinct<T>(xs: seq<T>, p: nat)
    requires p < |xs|
    requires forall i, j :: 0 <= i < j < |xs| ==> xs[i] != xs[j]
    ensures IndexOf(xs, xs[p]) == p
  {
  }

  /** The characters that ECMAScript's TrimString removes: WhiteSpace and LineTerminator. */
  predicate IsJsWhiteSpace(c: char) {
    || c == '\t' || c == '\U{000B}' || c == '\U{000C}' || c == ' '
    || c == '\U{00A0}' || c == '\U{1680}' || ('\U{2000}' <= c <= '\U{200A}')
    || c == '\U{202F}' || c == '\U{205F}' || c == '\U{3000}' || c == '\U{FEFF}'
    || c == '\n' || c == '\r' || c == '\U{2028}' || c == '\U{2029}'
  }

  /** The string with its leading white space removed. */
  function TrimStart(s: string): (r: string)
    ensures |r| <= |s| && r == s[|s| - |r|..]
    ensures r == [] || !IsJsWhiteSpace(r[0])
    ensures forall i :: 0 <= i < |s| - |r| ==> IsJsWhiteSpace(s[i])
  {
    if |s| > 0 && IsJsWhiteSpace(s[0]) then TrimStart(s[1..]) else s
  }

  /** A digit of radix 16 (letters of either case) when `hex`, of radix 10 otherwise. */
  predicate IsRadixDigit(c: char, hex: bool) {
    IsDecimalDigit(c) || (hex && ('a' <= c <= 'f' || 'A' <= c <= 'F'))
  }

  function DigitValue(c: char): (v: nat)
    ensures IsDecimalDigit(c) ==> v == c as int - '0' as int
  {
    if IsDecimalDigit(c) then c as int - '0' as int
    else if 'a' <= c <= 'f' then c as int - 'a' as int + 10
    else if 'A' <= c <= 'F' then c as int - 'A' as int + 10
    else 0
  }

  /** The longest prefix of `s` made of digits of the radix. */
  function LeadingDigits(s: string, hex: bool): (z: string)
    ensures |z| <= |s| && z == s[..|z|]
    ensures forall i :: 0 <= i < |z| ==> IsRadixDigit(z[i], hex)
    ensures |z| < |s| ==> !IsRadixDigit(s[|z|], hex)
  {
    if |s| > 0 && IsRadixDigit(s[0], hex) then [s[0]] + LeadingDigits(s[1..], hex) else []
  }

  /** The value of a digit string read most significant digit first, in radix 16 or 10. */
  function DigitsValue(z: string, hex: bool): nat {
    if |z| == 0 then 0
    else if hex then 16 * DigitsValue(z[..|z| - 1], hex) + DigitValue(z[|z| - 1])
    else 10 * DigitsValue(z[..|z| - 1], hex) + DigitValue(z[|z| - 1])
  }

  /**
   * `parseInt(s)` with the radix left out: skip leading white space, take an
   * optional sign, read hexadecimal after a `0x`/`0X` prefix and decimal
   * otherwise, and stop at the first character that is not a digit. None is
   * NaN (no digit at all). A negative zero is returned as 0, since `-0 === 0`.
   */
  function ParseInt(s: string): (r: Option<int>)
    ensures r.Some? ==> exists i :: 0 <= i < |s| && IsDecimalDigit(s[i])
  {
    ParseTrimmed(TrimStart(s))
  }

  /** `parseInt` after its leading white space is removed. */
  function ParseTrimmed(t: string): Option<int> {
    var negative := |t| > 0 && t[0] == '-';
    var u := if |t| > 0 && (t[0] == '+' || t[0] == '-') then t[1..] else t;
    var hex := |u| >= 2 && u[0] == '0' && (u[1] == 'x' || u[1] == 'X');
    var z := LeadingDigits(if hex then u[2..] else u, hex);
    var magnitude: int := DigitsValue(z, hex);
    if z == [] then None else if negative then Some(-magnitude) else Some(magnitude)
  }

  /** `toString` and decimal reading are inverse: the digits of n read back as n. */
  lemma {:induction false} DecimalRoundTrip(n: nat)
    ensures DigitsValue(NatToDecimal(n), false) == n
  {
    var s := NatToDecimal(n);
    if n >= 10 {
      var head := NatToDecimal(n / 10);
      assert s[..|s| - 1] == head;
      DecimalRoundTrip(n / 10);
    }
  }

  /** Distinct numbers have distinct decimal strings. */
  lemma DecimalInjective(m: nat, n: nat)
    requires NatToDecimal(m) == NatToDecimal(n)
    ensures m == n
  {
    DecimalRoundTrip(m);
    DecimalRoundTrip(n);
  }

  /** A string of decimal digits that starts with a digit parses as its decimal value. */
  lemma ParseIntOfDigits(s: string)
    requires |s| >= 1
    requires forall i :: 0 <= i < |s| ==> IsDecimalDigit(s[i])
    ensures ParseInt(s) == Some(DigitsValue(s, false))
  {
    assert !IsJsWhiteSpace(s[0]);
    var t := TrimStart(s);
    assert t == s;
    assert !(t[0] == '+' || t[0] == '-');
    assert !(|t| >= 2 && t[0] == '0' && (t[1] == 'x' || t[1] == 'X'));
    LeadingDigitsOfDigits(s, false);
  }

  /** A string made only of digits is its own longest digit prefix. */
  lemma {:induction false} LeadingDigitsOfDigits(s: string, hex: bool)
    requires forall i :: 0 <= i < |s| ==> IsRadixDigit(s[i], hex)
    ensures LeadingDigits(s, hex) == s
  {
    if |s| > 0 {
      LeadingDigitsOfDigits(s[1..], hex);
    }
  }

  /** `parseInt` reads back every decimal string that `toString` writes. */
  lemma ParseIntOfDecimal(n: nat)
    ensures ParseInt(NatToDecimal(n)) == Some(n)
  {
    ParseIntOfDigits(NatToDecimal(n));
    DecimalRoundTrip(n);
  }

  /** The value of a one-character decimal string. */
  lemma DigitsValueOfOne(c: char)
    requires IsDecimalDigit(c)
    ensures DigitsValue([c], false) == c as int - '0' as int
  {
    assert [c][..0] == [];
  }

  /** The value of a two-character decimal string. */
  lemma DigitsValueOfPair(s: string)
    requires |s| == 2 && IsDecimalDigit(s[0]) && IsDecimalDigit(s[1])
    ensures DigitsValue(s, false) == 10 * (s[0] as int - '0' as int) + (s[1] as int - '0' as int)
  {
    var a := s[..1];
    assert a[..0] == [];
    assert DigitsValue(a, false) == 10 * DigitsValue([], false) + DigitValue(s[0]);
    assert DigitsValue(s, false) == 10 * DigitsValue(a, false) + DigitValue(s[1]);
  }

  /** Two decimal digits parse as their two-digit value. */
  lemma ParseTwoDigits(s: string)
    requires |s| == 2 && IsDecimalDigit(s[0]) && IsDecimalDigit(s[1])
    ensures ParseInt(s).Some? && ParseInt(s).value == 10 * (s[0] as int - '0' as int) + (s[1] as int - '0' as int)
  {
    ParseIntOfDigits(s);
    DigitsValueOfPair(s);
  }

  /**
   * One digit, alone or followed by a non-digit, parses as its value, except
   * "0x" and "0X", which announce hexadecimal digits that are missing (NaN).
   */
  lemma ParseOneDigit(s: string)
    requires 1 <= |s| <= 2 && IsDecimalDigit(s[0])
    requires |s| == 1 || !IsDecimalDigit(s[1])
    ensures ParseInt(s) == if |s| == 2 && s[0] == '0' && (s[1] == 'x' || s[1] == 'X') then None
                           else Some(s[0] as int - '0' as int)
  {
    assert !IsJsWhiteSpace(s[0]);
    assert TrimStart(s) == s;
    var p := ParseInt(s);
    if |s| == 2 && s[0] == '0' && (s[1] == 'x' || s[1] == 'X') {
      assert LeadingDigits(s[2..], true) == [];
      assert p == None;
    } else {
      var z := LeadingDigits(s, false);
      assert z == [s[0]];
      DigitsValueOfOne(s[0]);
      var v := DigitsValue(z, false);
      assert p == Some(v);
    }
  }

  /** A white-space character in front does not change what `parseInt` reads. */
  lemma ParseSkipsWhiteSpace(s: string)
    requires |s| > 0 && IsJsWhiteSpace(s[0])
    ensures ParseInt(s) == ParseInt(s[1..])
  {
  }

  /** In a two-character string, white space in front leaves the second character alone to read. */
  lemma ParseSecondAfterWhiteSpace(s: string)
    requires |s| == 2 && IsJsWhiteSpace(s[0])
    ensures ParseInt(s) == ParseInt([s[1]])
  {
    LastOfTwo(s);
    ParseSkipsWhiteSpace(s);
  }

  /** Dropping the first of two characters leaves the second alone. */
  lemma LastOfTwo(s: string)
    requires |s| == 2
    ensures s[1..] == [s[1]]
  {
  }

  /** White space before a single digit is skipped: " 7" parses as 7. */
  lemma ParseSpaceDigit(s: string)
    requires |s| == 2 && IsJsWhiteSpace(s[0]) && IsDecimalDigit(s[1])
    ensures ParseInt(s).Some? && ParseInt(s).value == s[1] as int - '0' as int
  {
    var d := [s[1]];
    assert s[1..] == d;
    assert TrimStart(s) == TrimStart(d);
    ParseDigit(s[1]);
  }

  /** A single digit parses as its value. */
  lemma ParseDigit(c: char)
    requires IsDecimalDigit(c)
    ensures ParseInt([c]).Some? && ParseInt([c]).value == c as int - '0' as int
  {
    ParseIntOfDigits([c]);
    DigitsValueOfOne(c);
  }

  /** A leading minus sign gives NaN or a number that is not positive. */
  lemma ParseMinus(s: string)
    requires |s| >= 1 && s[0] == '-'
    ensures ParseInt(s).None? || ParseInt(s).value <= 0
  {
    assert !IsJsWhiteSpace(s[0]);
    assert TrimStart(s) == s;
  }

  /**
   * A sign before a string of decimal digits: `parseInt` drops a '+' and
   * negates after a '-', so "+07" reads as 7 and "-07" as -7.
   */
  lemma ParseSignedDigits(s: string)
    requires |s| >= 2 && (s[0] == '+' || s[0] == '-')
    requires forall i :: 1 <= i < |s| ==> IsDecimalDigit(s[i])
    ensures ParseInt(s).Some?
    ensures ParseInt(s).value == (if s[0] == '-' then -1 else 1) * DigitsValue(s[1..], false)
  {
    assert !IsJsWhiteSpace(s[0]);
    assert TrimStart(s) == s;
    var u := s[1..];
    assert !(|u| >= 2 && u[0] == '0' && (u[1] == 'x' || u[1] == 'X'));
    LeadingDigitsOfDigits(u, false);
  }

  /** A '+' before a digit is dropped: "+7a" reads as "7a" does. */
  lemma ParsePlus(s: string)
    requires |s| >= 2 && s[0] == '+' && IsDecimalDigit(s[1])
    ensures ParseInt(s) == ParseInt(s[1..])
  {
    var u := s[1..];
    TrimStartKeeps(s);
    TrimStartKeeps(u);
    TrimmedPlus(s);
  }

  /** Without white space in front there is nothing to trim. */
  lemma TrimStartKeeps(s: string)
    requires |s| > 0 && !IsJsWhiteSpace(s[0])
    ensures ParseInt(s) == ParseTrimmed(s)
  {
  }

  /** `ParsePlus` once white space is out of the way. */
  lemma TrimmedPlus(t: string)
    requires |t| >= 2 && t[0] == '+' && !(t[1] == '+' || t[1] == '-')
    ensures ParseTrimmed(t) == ParseTrimmed(t[1..])
  {
  }

  /** A string that starts with neither white space, a sign nor a digit is NaN. */
  lemma ParseNonNumeric(s: string)
    requires |s| == 0 || !(IsJsWhiteSpace(s[0]) || IsDecimalDigit(s[0]) || s[0] == '+' || s[0] == '-')
    ensures ParseInt(s).None?
  {
    if |s| > 0 {
      ParseTrimmedNonNumeric(TrimStart(s));
    }
  }

  /** Without white space in front, a first character that is no sign and no digit is NaN. */
  lemma ParseTrimmedNonNumeric(t: string)
    requires |t| > 0 && !(IsDecimalDigit(t[0]) || t[0] == '+' || t[0] == '-')
    ensures ParseTrimmed(t).None?
  {
    assert LeadingDigits(t, false) == [];
  }

  /** A number below 100 padded to width two with '0' is its two digits. */
  lemma TwoDigitPad(n: nat)
    requires n < 100
    ensures PadStart(NatToDecimal(n), 2, '0') == [DigitChar(n / 10), DigitChar(n % 10)]
  {
    if n >= 10 {
      assert NatToDecimal(n / 10) == [DigitChar(n / 10)];
    }
  }

  /** A number below 100 padded to width two with '0' reads back as itself. */
  lemma TwoDigitField(n: nat)
    requires n < 100
    ensures ParseInt(PadStart(NatToDecimal(n), 2, '0')) == Some(n)
  {
    TwoDigitPad(n);
    var a, b := DigitChar(n / 10), DigitChar(n % 10);
    ParseIntOfDigits([a, b]);
    TwoDigitValue(n);
  }

  /** The two digits of a number below 100 read back as that number. */
  lemma TwoDigitValue(n: nat)
    requires n < 100
    ensures DigitsValue([DigitChar(n / 10), DigitChar(n % 10)], false) == n
  {
    DigitsValueOfPair([DigitChar(n / 10), DigitChar(n % 10)]);
  }

  /** The three parts of a concatenation are recovered by slicing at their lengths. */
  lemma ConcatSlices(a: string, b: string, c: string)
    ensures (a + b + c)[..|a|] == a
    ensures (a + b + c)[|a|..|a| + |b|] == b
    ensures (a + b + c)[|a| + |b|..] == c
  {
  }
}
