/** Decimal numerals: `Number.prototype.toString` on integers and the global `parseInt`. */
module Numerals {
  import opened Wrappers

  predicate IsDigit(c: char) { '0' <= c <= '9' }

  predicate AllDigits(s: string) { forall i :: 0 <= i < |s| ==> IsDigit(s[i]) }

  function DigitValue(c: char): nat
    requires IsDigit(c)
  {
    c as int - '0' as int
  }

  function DigitChar(d: nat): (c: char)
    requires d < 10
    ensures IsDigit(c) && DigitValue(c) == d
  {
    ('0' as int + d) as char
  }

  /** The number a string of decimal digits denotes (most significant digit first). */
  function DecimalValue(s: string): nat
    requires AllDigits(s)
  {
    if s == [] then 0 else 10 * DecimalValue(s[..|s| - 1]) + DigitValue(s[|s| - 1])
  }

  /** `n.toString()` for a non-negative integer: shortest decimal numeral. */
  function NatToString(n: nat): (s: string)
    ensures |s| >= 1 && AllDigits(s)
    ensures s[0] == '0' ==> n == 0 && |s| == 1
    ensures n < 10 <==> |s| == 1
  {
    if n < 10 then [DigitChar(n)] else NatToString(n / 10) + [DigitChar(n % 10)]
  }

  /** `i.toString()` for any integer: a minus sign in front of negative numbers. */
  function IntToString(i: int): (s: string)
    ensures |s| >= 1
    ensures i >= 0 ==> s == NatToString(i)
    ensures i < 0 ==> s == "-" + NatToString(-i)
  {
    if i < 0 then "-" + NatToString(-i) else NatToString(i)
  }

  /** Reading back `n.toString()` gives `n`. */
  lemma {:induction false} DecimalValueOfNatToString(n: nat)
    ensures DecimalValue(NatToString(n)) == n
  {
    var s := NatToString(n);
    if n >= 10 {
      DecimalValueOfNatToString(n / 10);
      assert s[..|s| - 1] == NatToString(n / 10);
    }
  }

  /** A numeral without leading zeros is `NatToString` of its value. */
  lemma {:induction false} NatToStringOfDecimalValue(s: string)
    requires AllDigits(s) && |s| >= 1 && (s[0] == '0' ==> |s| == 1)
    ensures NatToString(DecimalValue(s)) == s
  {
    if |s| > 1 {
      var p := s[..|s| - 1];
      NatToStringOfDecimalValue(p);
      DecimalValuePositive(p);
      assert DecimalValue(s) / 10 == DecimalValue(p);
      assert DecimalValue(s) % 10 == DigitValue(s[|s| - 1]);
    }
  }

  lemma {:induction false} DecimalValuePositive(s: string)
    requires AllDigits(s) && |s| >= 1 && s[0] != '0'
    ensures DecimalValue(s) >= 1
  {
    if |s| > 1 {
      DecimalValuePositive(s[..|s| - 1]);
    }
  }

  /**
   * `n < 10 ? "0" + n.toString() : n.toString()`: the zero padding to two
   * digits that the clock formatters apply to each field.
   */
  function Pad2(n: nat): (s: string)
    ensures |s| >= 2 && AllDigits(s)
    ensures n < 100 <==> |s| == 2
  {
    if n < 10 then "0" + NatToString(n)
    else
      assert NatToString(n) == NatToString(n / 10) + [DigitChar(n % 10)];
      NatToString(n)
  }

  /** Reading back a padded field gives the number. */
  lemma DecimalValueOfPad2(n: nat)
    ensures DecimalValue(Pad2(n)) == n
  {
    DecimalValueOfNatToString(n);
    if n < 10 {
      var s := Pad2(n);
      assert s[..1] == "0";
    }
  }

  /** Every two-digit string is the padded rendering of its value. */
  lemma Pad2OfTwoDigits(s: string)
    requires |s| == 2 && AllDigits(s)
    ensures Pad2(DecimalValue(s)) == s
  {
    assert s[..1] == [s[0]];
    assert DecimalValue(s[..1]) == DigitValue(s[0]) by {
      assert [s[0]][..0] == [];
    }
    if s[0] == '0' {
      assert DecimalValue(s) == DigitValue(s[1]);
    } else {
      NatToStringOfDecimalValue(s);
      DecimalValuePositive(s[..1]);
    }
  }

  // ---------------------------------------------------------------- parseInt

  /** The characters the regular-expression `.` does not match (no `s` flag). */
  predicate IsLineTerminator(c: char) {
    c == '\n' || c == '\r' || c == '\U{2028}' || c == '\U{2029}'
  }

  /** The characters `String.prototype.trim` and `parseInt` skip: WhiteSpace and LineTerminator. */
  predicate IsJsWhiteSpace(c: char) {
    c == '\t' || c == '\n' || c == '\U{000B}' || c == '\U{000C}' || c == '\r' || c == ' '
    || c == '\U{00A0}' || c == '\U{1680}' || ('\U{2000}' <= c <= '\U{200A}')
    || c == '\U{2028}' || c == '\U{2029}' || c == '\U{202F}' || c == '\U{205F}'
    || c == '\U{3000}' || c == '\U{FEFF}'
  }

  function TrimStart(s: string): (r: string)
    ensures r == [] || !IsJsWhiteSpace(r[0])
    ensures |r| <= |s| && r == s[|s| - |r|..]
    ensures forall i :: 0 <= i < |s| - |r| ==> IsJsWhiteSpace(s[i])
  {
    if s != [] && IsJsWhiteSpace(s[0]) then
      var r := TrimStart(s[1..]);
      assert r == s[|s| - |r|..];
      r
    else
      assert s == s[0..];
      s
  }

  predicate IsHexDigit(c: char) { IsDigit(c) || 'a' <= c <= 'f' || 'A' <= c <= 'F' }

  function HexDigitValue(c: char): nat
    requires IsHexDigit(c)
  {
    if IsDigit(c) then DigitValue(c)
    else if 'a' <= c <= 'f' then c as int - 'a' as int + 10
    else c as int - 'A' as int + 10
  }

  /** The longest prefix of `s` whose characters all satisfy the radix's digit test. */
  function DigitPrefix(s: string, hex: bool): (r: string)
    ensures |r| <= |s| && r == s[..|r|]
    ensures forall i :: 0 <= i < |r| ==> (if hex then IsHexDigit(r[i]) else IsDigit(r[i]))
    ensures |r| < |s| ==> !(if hex then IsHexDigit(s[|r|]) else IsDigit(s[|r|]))
  {
    if s != [] && (if hex then IsHexDigit(s[0]) else IsDigit(s[0])) then
      [s[0]] + DigitPrefix(s[1..], hex)
    else []
  }

  function HexValue(s: string): nat
    requires forall i :: 0 <= i < |s| ==> IsHexDigit(s[i])
  {
    if s == [] then 0 else 16 * HexValue(s[..|s| - 1]) + HexDigitValue(s[|s| - 1])
  }

  /**
   * The global `parseInt(s)` with no radix: skip leading white space, read an
   * optional sign, switch to radix 16 after a `0x`/`0X`, and read the longest run
   * of digits; `None` stands for `NaN`, the result when that run is empty.
   */
  function ParseInt(s: string): (r: Option<int>)
    ensures s == [] ==> r == None
  {
    var t := TrimStart(s);
    var negative := |t| > 0 && t[0] == '-';
    var u := if |t| > 0 && (t[0] == '-' || t[0] == '+') then t[1..] else t;
    match ParseMagnitude(u)
    case None => None
    case Some(magnitude) => Some(Signed(negative, magnitude))
  }

  /** A magnitude with its sign. */
  function Signed(negative: bool, m: nat): int {
    if negative then -(m as int) else m
  }

  /** The unsigned part of `parseInt`: radix 16 after `0x`/`0X`, else radix 10. */
  function ParseMagnitude(u: string): (r: Option<nat>)
    ensures u == [] ==> r == None
  {
    if HasHexPrefix(u) then ReadHex(u[2..]) else ReadDecimal(u)
  }

  predicate HasHexPrefix(u: string) {
    |u| >= 2 && u[0] == '0' && (u[1] == 'x' || u[1] == 'X')
  }

  /** The value of the longest run of decimal digits at the start, if there is one. */
  function ReadDecimal(u: string): Option<nat> {
    var digits := DigitPrefix(u, false);
    if digits == [] then None else Some(DecimalValue(digits))
  }

  /** The value of the longest run of hexadecimal digits at the start, if there is one. */
  function ReadHex(u: string): Option<nat> {
    var digits := DigitPrefix(u, true);
    if digits == [] then None else Some(HexValue(digits))
  }

  /** `parseInt(String(i)) === i`: the decimal numeral of an integer parses back to it. */
  lemma ParseIntOfIntToString(i: int)
    ensures ParseInt(IntToString(i)) == Some(i)
  {
    var m: nat := if i < 0 then -i else i;
    NatToStringReadsBack(m);
    ParseIntOfSignedNumeral(i, m, NatToString(m), if i < 0 then "-" else "", IntToString(i));
  }

  /** `NatToString(m)` starts with a digit and reads back as `m`. */
  lemma NatToStringReadsBack(m: nat)
    ensures ParseMagnitude(NatToString(m)) == Some(m)
    ensures var n := NatToString(m); n != [] && !IsJsWhiteSpace(n[0]) && n[0] != '-' && n[0] != '+'
  {
    var n := NatToString(m);
    DecimalValueOfNatToString(m);
    MagnitudeDecimal(n, "");
    assert n + "" == n;
    assert IsDigit(n[0]);
  }

  lemma ParseIntOfSignedNumeral(i: int, m: nat, n: string, sign: string, text: string)
    requires m == (if i < 0 then -i else i) && sign == (if i < 0 then "-" else "")
    requires ParseMagnitude(n) == Some(m)
    requires text == "" + sign + n
    requires n != [] && !IsJsWhiteSpace(n[0]) && n[0] != '-' && n[0] != '+'
    ensures ParseInt(text) == Some(i)
  {
    ParseIntParts(text, "", sign, n);
  }

  predicate AllWhiteSpace(w: string) { forall i :: 0 <= i < |w| ==> IsJsWhiteSpace(w[i]) }

  /** Leading white space is skipped up to the first character that is not white space. */
  lemma {:induction false} TrimStartSkips(w: string, u: string)
    requires AllWhiteSpace(w) && (u == [] || !IsJsWhiteSpace(u[0]))
    ensures TrimStart(w + u) == u
  {
    if w != [] {
      assert (w + u)[1..] == w[1..] + u;
      TrimStartSkips(w[1..], u);
    } else {
      assert w + u == u;
    }
  }

  /** The decimal digit prefix of digits followed by a non-digit is those digits. */
  lemma {:induction false} DigitPrefixStops(n: string, t: string)
    requires AllDigits(n) && (t == [] || !IsDigit(t[0]))
    ensures DigitPrefix(n + t, false) == n
  {
    if n != [] {
      assert (n + t)[1..] == n[1..] + t;
      DigitPrefixStops(n[1..], t);
      assert [n[0]] + n[1..] == n;
    } else {
      assert n + t == t;
    }
  }

  /** Decimal digits followed by a non-digit, outside the hexadecimal case: their value. */
  lemma MagnitudeDecimal(n: string, t: string)
    requires |n| >= 1 && AllDigits(n) && (t == [] || !IsDigit(t[0]))
    requires !(n == "0" && t != [] && (t[0] == 'x' || t[0] == 'X'))
    ensures ParseMagnitude(n + t) == Some(DecimalValue(n))
  {
    var u := n + t;
    if |n| >= 2 {
      assert u[1] == n[1];
    }
    assert !HasHexPrefix(u);
    DigitPrefixStops(n, t);
    assert ReadDecimal(u) == Some(DecimalValue(n));
  }

  /** The sign and the magnitude: what `parseInt` reads after the white space. */
  lemma ParseIntParts(text: string, w: string, sign: string, u: string)
    requires text == w + sign + u
    requires AllWhiteSpace(w) && (sign == "" || sign == "-" || sign == "+")
    requires sign == "" ==> u == [] || (!IsJsWhiteSpace(u[0]) && u[0] != '-' && u[0] != '+')
    ensures ParseMagnitude(u).None? ==> ParseInt(text) == None
    ensures ParseMagnitude(u).Some? ==> ParseInt(text) == Some(Signed(sign == "-", ParseMagnitude(u).value))
  {
    var v := sign + u;
    assert text == w + v;
    assert v != [] ==> !IsJsWhiteSpace(v[0]);
    TrimStartSkips(w, v);
    var t := TrimStart(text);
    assert t == v;
    var rest := if |t| > 0 && (t[0] == '-' || t[0] == '+') then t[1..] else t;
    assert rest == u by {
      if sign != "" {
        assert v[1..] == u;
      }
    }
    assert (|t| > 0 && t[0] == '-') == (sign == "-");
  }

  /**
   * `parseInt` on a cell that is white space, an optional sign, a run of
   * decimal digits and a tail not starting with a digit: the value of the
   * digits, negated after a minus sign. Leading zeros and trailing text are
   * ignored (`" 3"`, `"03"` and `"3a"` all give 3); only `"0"` followed by
   * `x` or `X` switches to hexadecimal.
   */
  lemma ParseIntDecimal(w: string, sign: string, n: string, t: string)
    requires AllWhiteSpace(w) && (sign == "" || sign == "-" || sign == "+")
    requires |n| >= 1 && AllDigits(n) && (t == [] || !IsDigit(t[0]))
    requires !(n == "0" && t != [] && (t[0] == 'x' || t[0] == 'X'))
    ensures ParseInt(w + sign + n + t) == Some(Signed(sign == "-", DecimalValue(n)))
  {
    ParseIntDecimalAt(w + sign + n + t, w, sign, n, t);
  }

  lemma ParseIntDecimalAt(text: string, w: string, sign: string, n: string, t: string)
    requires text == w + sign + n + t
    requires AllWhiteSpace(w) && (sign == "" || sign == "-" || sign == "+")
    requires |n| >= 1 && AllDigits(n) && (t == [] || !IsDigit(t[0]))
    requires !(n == "0" && t != [] && (t[0] == 'x' || t[0] == 'X'))
    ensures ParseInt(text) == Some(Signed(sign == "-", DecimalValue(n)))
  {
    var u := n + t;
    assert ParseMagnitude(u) == Some(DecimalValue(n)) by { MagnitudeDecimal(n, t); }
    ConcatRegroup(w + sign, n, t);
    assert u != [] && IsDigit(u[0]) by { assert u[0] == n[0]; }
    ParseIntOfMagnitude(text, w, sign, u, DecimalValue(n));
  }

  lemma ConcatRegroup(a: string, b: string, c: string)
    ensures a + b + c == a + (b + c)
  {
  }

  /** A magnitude that reads as `v` after white space and a sign: `parseInt` gives `v` signed. */
  lemma ParseIntOfMagnitude(text: string, w: string, sign: string, u: string, v: nat)
    requires text == w + sign + u && ParseMagnitude(u) == Some(v)
    requires AllWhiteSpace(w) && (sign == "" || sign == "-" || sign == "+")
    requires u != [] && !IsJsWhiteSpace(u[0]) && u[0] != '-' && u[0] != '+'
    ensures ParseInt(text) == Some(Signed(sign == "-", v))
  {
    ParseIntParts(text, w, sign, u);
  }

  /**
   * Outside the hexadecimal case, `parseInt` is `NaN` exactly when no decimal
   * digit follows the leading white space and optional sign.
   */
  lemma ParseIntNaN(w: string, sign: string, u: string)
    requires AllWhiteSpace(w) && (sign == "" || sign == "-" || sign == "+")
    requires sign == "" ==> u == [] || (!IsJsWhiteSpace(u[0]) && u[0] != '-' && u[0] != '+')
    requires !(|u| >= 2 && u[0] == '0' && (u[1] == 'x' || u[1] == 'X'))
    ensures ParseInt(w + sign + u) == None <==> u == [] || !IsDigit(u[0])
  {
    ParseIntParts(w + sign + u, w, sign, u);
    if u != [] && IsDigit(u[0]) {
      var n := DigitPrefix(u, false);
      var t := u[|n|..];
      assert u == n + t;
      MagnitudeDecimal(n, t);
    }
  }
}
