/**
 The numeric coercion `parseFloat(cell) || 0` applied to every revenue cell.

 `ParseFloat` follows JavaScript's `parseFloat` (section 19.2.4 of
 ECMA-262): skip leading white space, then read the longest prefix that is a
 decimal literal — optional sign, digits, optional fraction, optional
 exponent — and ignore whatever follows. No such prefix gives `NaN`, here
 `None`. Values are exact reals: there is no rounding and no overflow.
 */
module JsNumber {
  import opened Options

  /** StrWhiteSpaceChar of ECMA-262: WhiteSpace (TAB, VT, FF, ZWNBSP and the
      space separators of category Zs) and LineTerminator (LF, CR, LS, PS). */
  predicate IsJsWhitespace(c: char) {
    || c == '\t' || c == '\U{000B}' || c == '\U{000C}' || c == '\U{FEFF}'
    || c == ' ' || c == '\U{00A0}' || c == '\U{1680}'
    || ('\U{2000}' <= c <= '\U{200A}') || c == '\U{202F}' || c == '\U{205F}' || c == '\U{3000}'
    || c == '\n' || c == '\r' || c == '\U{2028}' || c == '\U{2029}'
  }

  predicate IsDigit(c: char) {
    '0' <= c <= '9'
  }

  predicate AllDigits(s: string) {
    forall i :: 0 <= i < |s| ==> IsDigit(s[i])
  }

  function DigitValue(c: char): (d: nat)
    requires IsDigit(c)
    ensures d < 10
  {
    c as int - '0' as int
  }

  function DigitChar(d: nat): (c: char)
    requires d < 10
    ensures IsDigit(c) && DigitValue(c) == d
  {
    ('0' as int + d) as char
  }

  /** Length of the white-space run at the head of `s`. */
  function WhitespaceRun(s: string): (n: nat)
    ensures n <= |s|
    ensures forall i :: 0 <= i < n ==> IsJsWhitespace(s[i])
    ensures n < |s| ==> !IsJsWhitespace(s[n])
  {
    if s != [] && IsJsWhitespace(s[0]) then 1 + WhitespaceRun(s[1..]) else 0
  }

  /** Length of the digit run at the head of `s`. */
  function DigitRun(s: string): (n: nat)
    ensures n <= |s|
    ensures AllDigits(s[..n])
    ensures n < |s| ==> !IsDigit(s[n])
  {
    if s != [] && IsDigit(s[0]) then 1 + DigitRun(s[1..]) else 0
  }

  /** The value of a string of decimal digits, most significant first. */
  function DigitsValue(s: string): nat
    requires AllDigits(s)
  {
    if s == [] then 0 else 10 * DigitsValue(s[..|s| - 1]) + DigitValue(s[|s| - 1])
  }

  function Pow10(n: nat): (r: nat)
    ensures r > 0
  {
    if n == 0 then 1 else 10 * Pow10(n - 1)
  }

  /** 10 raised to a possibly negative exponent. */
  function Scale(e: int): (r: real)
    ensures r > 0.0
    ensures e == 0 ==> r == 1.0
  {
    if e >= 0 then Pow10(e) as real else 1.0 / Pow10(-e) as real
  }

  /** The exponent `(e|E) [+|-] digits` at the head of `s`, or 0 when `s`
      does not start with a complete one (the literal then ends before the `e`). */
  function ExponentPart(s: string): int {
    if s == [] || (s[0] != 'e' && s[0] != 'E') then 0
    else
      var t := s[1..];
      var u := if t != [] && (t[0] == '-' || t[0] == '+') then t[1..] else t;
      var n := DigitRun(u);
      if n == 0 then 0
      else if t[0] == '-' then -(DigitsValue(u[..n]) as int)
      else DigitsValue(u[..n])
  }

  /** A scanned unsigned decimal literal: the digits before the point, the
      digits after it, and the exponent. */
  datatype Literal = Literal(whole: string, fraction: string, exponent: int)

  predicate ValidLiteral(lit: Literal) {
    AllDigits(lit.whole) && AllDigits(lit.fraction) && (lit.whole != [] || lit.fraction != [])
  }

  /** The longest unsigned decimal literal at the head of `u`: digits, an
      optional fraction and an optional exponent, with at least one digit
      before or after the point. */
  function ScanUnsigned(u: string): (r: Option<Literal>)
    ensures r.Some? ==> ValidLiteral(r.value)
    ensures r.Some? ==> u != [] && (IsDigit(u[0]) || u[0] == '.')
  {
    var n1 := DigitRun(u);
    var rest := u[n1..];
    var hasPoint := rest != [] && rest[0] == '.';
    var frac := if hasPoint then rest[1..] else [];
    var n2 := DigitRun(frac);
    if n1 == 0 && n2 == 0 then None
    else
      var tail := if hasPoint then frac[n2..] else rest;
      Some(Literal(u[..n1], frac[..n2], ExponentPart(tail)))
  }

  /** The exact value of a literal. */
  function Value(lit: Literal): real
    requires ValidLiteral(lit)
  {
    var mantissa := DigitsValue(lit.whole) as real
                    + DigitsValue(lit.fraction) as real / Pow10(|lit.fraction|) as real;
    mantissa * Scale(lit.exponent)
  }

  /** `parseFloat(s)`, with `None` for NaN. A number is found only when the
      first non-blank character can begin a decimal literal. */
  function ParseFloat(s: string): (r: Option<real>)
    ensures r.Some? ==> WhitespaceRun(s) < |s| && CanStartNumber(s[WhitespaceRun(s)])
  {
    var t := s[WhitespaceRun(s)..];
    var negative := t != [] && t[0] == '-';
    var u := if t != [] && (t[0] == '-' || t[0] == '+') then t[1..] else t;
    match ScanUnsigned(u)
    case None => None
    case Some(lit) => Some(if negative then -Value(lit) else Value(lit))
  }

  /** `parseFloat(cell) || 0`: an absent cell (`undefined`) or text with no
      numeric prefix contributes 0 instead of NaN. */
  function Coerce(cell: Option<string>): (r: real)
    ensures cell.Some? && ParseFloat(cell.value).Some? ==> r == ParseFloat(cell.value).value
    ensures r == 0.0 || (cell.Some? && ParseFloat(cell.value) == Some(r))
  {
    match cell
    case None => 0.0
    case Some(text) => ParseFloat(text).GetOr(0.0)
  }

  /** The decimal numeral of `n`, without sign or leading zeros. */
  function DecimalString(n: nat): (s: string)
    ensures s != [] && AllDigits(s)
    ensures DigitsValue(s) == n
  {
    if n < 10 then [DigitChar(n)]
    else
      var s := DecimalString(n / 10) + [DigitChar(n % 10)];
      assert s[..|s| - 1] == DecimalString(n / 10);
      s
  }

  lemma {:induction false} DigitRunAfterDigits(a: string, b: string)
    requires AllDigits(a)
    ensures DigitRun(a + b) == |a| + DigitRun(b)
  {
    if a != [] {
      assert IsDigit((a + b)[0]);
      assert AllDigits(a[1..]);
      assert (a + b)[1..] == a[1..] + b;
      DigitRunAfterDigits(a[1..], b);
    } else {
      assert a + b == b;
    }
  }

  /** Could `c`, as the first non-blank character, begin a decimal literal?
      (JavaScript also accepts "Infinity", which is not modelled.) */
  predicate CanStartNumber(c: char) {
    IsDigit(c) || c == '+' || c == '-' || c == '.'
  }

  /** Could `c` continue a decimal literal that ends in digits? */
  predicate CanContinueNumber(c: char) {
    IsDigit(c) || c == '.' || c == 'e' || c == 'E'
  }

  lemma ScanDigitString(d: string, rest: string)
    requires d != [] && AllDigits(d)
    requires rest == [] || !CanContinueNumber(rest[0])
    ensures ScanUnsigned(d + rest) == Some(Literal(d, "", 0))
  {
    var u := d + rest;
    DigitRunAfterDigits(d, rest);
    assert u[..|d|] == d;
    assert u[|d|..] == rest;
  }

  lemma WholeValue(d: string)
    requires d != [] && AllDigits(d)
    ensures ValidLiteral(Literal(d, "", 0)) && Value(Literal(d, "", 0)) == DigitsValue(d) as real
  {
    assert DigitsValue("") == 0;
    assert Pow10(0) == 1;
  }

  /** Text that starts with a digit is read as an unsigned literal. */
  lemma ParseFromDigit(s: string)
    requires s != [] && IsDigit(s[0])
    ensures ParseFloat(s) == match ScanUnsigned(s) { case None => None case Some(lit) => Some(Value(lit)) }
  {
    assert !IsJsWhitespace(s[0]);
    assert WhitespaceRun(s) == 0;
    assert s[0..] == s;
  }

  /** A run of digits parses to its decimal value, and whatever follows it
      ("100 USD", "1,000") is ignored once it cannot extend the literal. */
  lemma ParseDigitString(d: string, rest: string)
    requires d != [] && AllDigits(d)
    requires rest == [] || !CanContinueNumber(rest[0])
    ensures ParseFloat(d + rest) == Some(DigitsValue(d) as real)
  {
    assert (d + rest)[0] == d[0];
    ParseFromDigit(d + rest);
    ScanDigitString(d, rest);
    WholeValue(d);
  }

  /** The numeral of a natural number parses back to that number. */
  lemma ParseDecimalString(n: nat, rest: string)
    requires rest == [] || !CanContinueNumber(rest[0])
    ensures ParseFloat(DecimalString(n) + rest) == Some(n as real)
  {
    ParseDigitString(DecimalString(n), rest);
  }

  /** A leading minus sign negates the parsed numeral. */
  lemma ParseNegativeDecimalString(n: nat, rest: string)
    requires rest == [] || !CanContinueNumber(rest[0])
    ensures ParseFloat("-" + (DecimalString(n) + rest)) == Some(-(n as real))
  {
    var s := "-" + (DecimalString(n) + rest);
    assert !IsJsWhitespace(s[0]);
    assert WhitespaceRun(s) == 0;
    assert s[0..] == s;
    assert s[1..] == DecimalString(n) + rest;
    ScanDigitString(DecimalString(n), rest);
    WholeValue(DecimalString(n));
  }

  /** Text whose first non-blank character cannot begin a decimal literal
      ("N/A", "$100", the empty cell) coerces to 0. JavaScript makes an
      exception of "Infinity", which is not modelled. */
  lemma CoerceNotANumber(text: string)
    requires WhitespaceRun(text) == |text| || !CanStartNumber(text[WhitespaceRun(text)])
    ensures ParseFloat(text) == None
    ensures Coerce(Some(text)) == 0.0
  {
    var t := text[WhitespaceRun(text)..];
    assert DigitRun(t) == 0;
    assert t[0..] == t;
  }

  lemma ScanNeedsDigit(u: string)
    ensures ScanUnsigned(u).Some? ==> exists i :: 0 <= i < |u| && IsDigit(u[i])
  {
    var n1 := DigitRun(u);
    var rest := u[n1..];
    var hasPoint := rest != [] && rest[0] == '.';
    var frac := if hasPoint then rest[1..] else [];
    var n2 := DigitRun(frac);
    if n1 > 0 {
      assert u[..n1][0] == u[0];
    } else if n2 > 0 {
      assert frac[..n2][0] == u[1];
    }
  }

  lemma Hundred()
    ensures AllDigits("100") && DigitsValue("100") == 100
  {
    assert "100"[..2] == "10";
    assert "10"[..1] == "1";
    assert "1"[..0] == "";
  }

  /** A number needs a digit: text without any digit, other than
      "Infinity", parses to NaN. */
  lemma ParseFloatNeedsDigit(s: string)
    ensures ParseFloat(s).Some? ==> exists i :: 0 <= i < |s| && IsDigit(s[i])
  {
    var w := WhitespaceRun(s);
    var t := s[w..];
    var u := if t != [] && (t[0] == '-' || t[0] == '+') then t[1..] else t;
    var k := if t != [] && (t[0] == '-' || t[0] == '+') then w + 1 else w;
    assert u == s[k..];
    ScanNeedsDigit(u);
    if ScanUnsigned(u).Some? {
      var i :| 0 <= i < |u| && IsDigit(u[i]);
      assert s[k + i] == u[i];
    }
  }

  /** An absent cell (`undefined`) coerces to 0, as the text "undefined"
      that `parseFloat` makes of it does. */
  lemma CoerceAbsent()
    ensures Coerce(None) == Coerce(Some("undefined")) == 0.0
  {
    var text := "undefined";
    assert text[0] == 'u' && !IsJsWhitespace(text[0]);
    assert WhitespaceRun(text) == 0;
    CoerceNotANumber(text);
  }
}
