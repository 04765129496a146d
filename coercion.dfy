/**
 * Numeric coercion: Python's `float(s)` on the finite decimal forms it accepts,
 * `is_number(s)`, and the retry with the last character dropped that turns
 * "12.5%" or "3.2B" into 12.5 or 3.2 (the unit is not applied).
 */
module Coercion {
  import opened Wrappers
  import opened Text

  predicate IsDigit(c: char) { '0' <= c <= '9' }

  predicate AllDigits(s: string) { forall i :: 0 <= i < |s| ==> IsDigit(s[i]) }

  /** Value of a string of decimal digits, most significant digit first. */
  function DigitsValue(s: string): nat
    requires AllDigits(s)
  {
    if s == [] then 0 else DigitsValue(s[..|s| - 1]) * 10 + (s[|s| - 1] as int - '0' as int)
  }

  function Pow10(n: nat): (r: real)
    ensures r >= 1.0
  {
    if n == 0 then 1.0 else 10.0 * Pow10(n - 1)
  }

  /** `x * 10**e`. */
  function Scale(x: real, e: int): real {
    if e >= 0 then x * Pow10(e) else x / Pow10(-e)
  }

  /** An optional leading `+` or `-`: whether it was `-`, and the rest. */
  function SplitSign(s: string): (bool, string) {
    if s != [] && (s[0] == '+' || s[0] == '-') then (s[0] == '-', s[1..]) else (false, s)
  }

  /** `digits [. [digits]]` or `. digits`: at least one digit, at most one point. */
  function ParseMantissa(m: string): Option<real> {
    var dot := Find(m, {'.'});
    if dot == |m| then
      if m != [] && AllDigits(m) then Some(DigitsValue(m) as real) else None
    else
      var whole, frac := m[..dot], m[dot + 1..];
      if AllDigits(whole) && AllDigits(frac) && |whole| + |frac| > 0 then Some(Decimal(whole, frac))
      else None
  }

  /** The value of `<whole>.<frac>`. */
  function Decimal(whole: string, frac: string): real
    requires AllDigits(whole) && AllDigits(frac)
  {
    DigitsValue(whole) as real + DigitsValue(frac) as real / Pow10(|frac|)
  }

  /** `[+|-] digits`. */
  function ParseExponent(x: string): Option<int> {
    var (negative, digits) := SplitSign(x);
    if digits != [] && AllDigits(digits) then
      var magnitude: int := DigitsValue(digits);
      Some(if negative then -magnitude else magnitude)
    else None
  }

  /** An unsigned mantissa followed by an optional exponent `e`/`E`, the whole string. */
  function ParseUnsigned(body: string): Option<real> {
    var e := Find(body, {'e', 'E'});
    var mantissa := ParseMantissa(body[..e]);
    var exponent := if e == |body| then Some(0) else ParseExponent(body[e + 1..]);
    if mantissa.Some? && exponent.Some? then Some(Scale(mantissa.value, exponent.value)) else None
  }

  /** The ASCII whitespace `float` strips: space, tab, line feed, vertical tab, form feed, carriage return. */
  predicate IsAsciiSpace(c: char) {
    c == ' ' || '\t' <= c <= '\r'
  }

  /**
   * The whitespace `float` skips around its text. A non-ASCII whitespace
   * character is first turned into a space; ASCII characters are kept as they
   * are, so the separators U+001C to U+001F, which `str.strip` drops, are not
   * skipped.
   */
  predicate IsFloatSpace(c: char) {
    IsAsciiSpace(c) || (c >= '\U{80}' && IsSpace(c))
  }

  /** The text `float` reads its number from: `s` without the whitespace it skips at either end. */
  function FloatText(s: string): string {
    if s != [] && IsFloatSpace(s[0]) then FloatText(s[1..])
    else if s != [] && IsFloatSpace(s[|s| - 1]) then FloatText(s[..|s| - 1])
    else s
  }

  /**
   * `float(s)`: surrounding whitespace is ignored, then an optional sign, a
   * mantissa and an optional exponent must make up the whole string.
   * The value is the exact decimal the text denotes.
   */
  function ParseFloat(s: string): Option<real> {
    var (negative, body) := SplitSign(FloatText(s));
    match ParseUnsigned(body)
    case None => None
    case Some(magnitude) => Some(if negative then -magnitude else magnitude)
  }

  /** `is_number(s)`: `float(s)` does not raise ValueError. */
  predicate IsNumber(s: string) {
    ParseFloat(s).Some?
  }

  /**
   * A number parser in the role of `float`: the number a text denotes, or
   * None where `float` raises ValueError. The vector derivation and the plot
   * collection are stated for any parser and used with `ParseFloat`.
   */
  type Parser = string -> Option<real>

  /** `s[0:len(s) - 1]`: the empty string stays empty. */
  function DropLast(s: string): (r: string)
    ensures |s| > 0 ==> |r| == |s| - 1 && s == r + [s[|s| - 1]]
    ensures |s| == 0 ==> r == []
  {
    if s == [] then [] else s[..|s| - 1]
  }

  /**
   * How the vector derivation resolves one raw value: the value itself when it
   * parses, otherwise the value without its last character; None when both fail.
   */
  function Resolve(parse: Parser, s: string): Option<real> {
    if parse(s).Some? then parse(s) else parse(DropLast(s))
  }

  /** A mantissa that parses is not empty and ends in a digit or a decimal point. */
  lemma {:induction false} MantissaEnding(m: string)
    ensures ParseMantissa(m).Some? ==> |m| > 0 && (IsDigit(m[|m| - 1]) || m[|m| - 1] == '.')
  {
    var dot := Find(m, {'.'});
    if dot == |m| {
      assert m[..dot] == m;
    }
  }

  /** An exponent that parses is not empty and ends in a digit. */
  lemma {:induction false} ExponentEnding(x: string)
    ensures ParseExponent(x).Some? ==> |x| > 0 && IsDigit(x[|x| - 1])
  {
    var (_, digits) := SplitSign(x);
    assert digits == x[|x| - |digits|..];
  }

  /** A string that parses ends, once stripped, in a digit or a decimal point. */
  lemma {:induction false} ParsedEnding(s: string)
    ensures IsNumber(s) ==> var t := FloatText(s); |t| > 0 && (IsDigit(t[|t| - 1]) || t[|t| - 1] == '.')
  {
    var t := FloatText(s);
    var body := SplitSign(t).1;
    SignSuffix(t);
    UnsignedEnding(body);
    if IsNumber(s) {
      assert ParseUnsigned(body).Some?;
      assert t[|t| - 1] == body[|body| - 1];
    }
  }

  /** What follows the sign is the end of the text. */
  lemma {:induction false} SignSuffix(t: string)
    ensures var body := SplitSign(t).1; |body| <= |t| && body == t[|t| - |body|..]
  {
  }

  /** An unsigned number that parses ends in a digit or a decimal point. */
  lemma {:induction false} UnsignedEnding(body: string)
    ensures ParseUnsigned(body).Some? ==> |body| > 0 && (IsDigit(body[|body| - 1]) || body[|body| - 1] == '.')
  {
    var e := Find(body, {'e', 'E'});
    if e == |body| {
      assert body[..e] == body;
      MantissaEnding(body);
    } else {
      ExponentEnding(body[e + 1..]);
    }
  }

  /** The text `float` reads from a string ending in a non-space character ends in that character. */
  lemma {:induction false} FloatTextKeepsLast(u: string)
    requires |u| > 0 && !IsSpace(u[|u| - 1])
    ensures var t := FloatText(u); |t| > 0 && t[|t| - 1] == u[|u| - 1]
  {
    if IsFloatSpace(u[0]) {
      FloatTextKeepsLast(u[1..]);
    }
  }

  /** A string with no whitespace at either end is read by `float` as it stands. */
  lemma {:induction false} FloatTextUnspaced(s: string)
    requires s == [] || (!IsSpace(s[0]) && !IsSpace(s[|s| - 1]))
    ensures FloatText(s) == s
  {
  }

  /** The empty string never resolves: both `float('')` attempts raise. */
  lemma ResolveEmpty()
    ensures Resolve(ParseFloat, "") == None
  {
    FloatTextUnspaced("");
    assert SplitSign("") == (false, "");
    assert Find("", {'e', 'E'}) == 0;
    assert ParseMantissa("") == None;
    assert ParseUnsigned("") == None;
    assert ParseFloat("") == None;
    assert DropLast("") == "";
  }

  /** A value ending in a unit or a percent sign never parses as it stands. */
  lemma {:induction false} UnitSuffixNotNumber(s: string, unit: char)
    requires !IsDigit(unit) && unit != '.' && !IsSpace(unit)
    ensures !IsNumber(s + [unit])
  {
    var u := s + [unit];
    FloatTextKeepsLast(u);
    ParsedEnding(u);
  }

  /** `str(n)` for a natural number. */
  function ShowNat(n: nat): (s: string)
    ensures s != [] && AllDigits(s) && DigitsValue(s) == n
  {
    var d := ['0' + (n % 10) as char];
    if n < 10 then d
    else
      var s := ShowNat(n / 10) + d;
      assert s[..|s| - 1] == ShowNat(n / 10);
      s
  }

  /** A plain string of digits and points, with no exponent, parses as its mantissa. */
  lemma {:induction false} PlainParse(s: string)
    requires |s| > 0 && IsDigit(s[0]) && (IsDigit(s[|s| - 1]) || s[|s| - 1] == '.')
    requires forall i :: 0 <= i < |s| ==> IsDigit(s[i]) || s[i] == '.'
    ensures ParseFloat(s) == ParseMantissa(s)
  {
    FloatTextUnspaced(s);
    assert SplitSign(s) == (false, s);
    var e := Find(s, {'e', 'E'});
    assert e == |s| && s[..e] == s;
    if ParseMantissa(s).Some? {
      assert Scale(ParseMantissa(s).value, 0) == ParseMantissa(s).value;
    }
  }

  /** A mantissa made of digits only is the number they denote. */
  lemma {:induction false} MantissaDigits(s: string)
    requires |s| > 0 && AllDigits(s)
    ensures ParseMantissa(s) == Some(DigitsValue(s) as real)
  {
    assert Find(s, {'.'}) == |s|;
  }

  /** Round trip: `float(str(n)) == n`. */
  lemma {:induction false} ParseShowNat(n: nat)
    ensures ParseFloat(ShowNat(n)) == Some(n as real)
  {
    var s := ShowNat(n);
    assert IsDigit(s[0]) && IsDigit(s[|s| - 1]);
    PlainParse(s);
    MantissaDigits(s);
  }

  /** Round trip with a unit: `"12%"`, `"7B"` resolve to the bare number, unscaled. */
  lemma {:induction false} ResolveWithUnit(n: nat, unit: char)
    requires !IsDigit(unit) && unit != '.' && !IsSpace(unit)
    ensures Resolve(ParseFloat, ShowNat(n) + [unit]) == Some(n as real)
  {
    UnitSuffixNotNumber(ShowNat(n), unit);
    assert DropLast(ShowNat(n) + [unit]) == ShowNat(n);
    ParseShowNat(n);
  }

  /** The mantissa `<whole>.<frac>` is the decimal its digits denote. */
  lemma {:induction false} MantissaDecimal(whole: string, frac: string)
    requires AllDigits(whole) && AllDigits(frac) && |whole| + |frac| > 0
    ensures ParseMantissa(whole + "." + frac) == Some(Decimal(whole, frac))
  {
    var s := whole + "." + frac;
    assert s[|whole|] == '.';
    assert Find(s, {'.'}) == |whole|;
    assert s[..|whole|] == whole && s[|whole| + 1..] == frac;
  }

  /** `float("<whole>.<frac>")` is the decimal the digits denote. */
  lemma {:induction false} ParseDecimal(whole: string, frac: string)
    requires |whole| > 0 && AllDigits(whole) && AllDigits(frac)
    ensures ParseFloat(whole + "." + frac) == Some(Decimal(whole, frac))
  {
    var s := whole + "." + frac;
    forall i | 0 <= i < |s| ensures IsDigit(s[i]) || s[i] == '.' {
      if i > |whole| { assert s[i] == frac[i - |whole| - 1]; }
    }
    assert s[0] == whole[0];
    PlainParse(s);
    MantissaDecimal(whole, frac);
  }

  /** `"<whole>.<frac>%"` or `"<whole>.<frac>B"` resolves to the bare decimal, unscaled. */
  lemma {:induction false} ResolveDecimalWithUnit(whole: string, frac: string, unit: char)
    requires |whole| > 0 && AllDigits(whole) && AllDigits(frac)
    requires !IsDigit(unit) && unit != '.' && !IsSpace(unit)
    ensures Resolve(ParseFloat, whole + "." + frac + [unit]) == Some(Decimal(whole, frac))
  {
    UnitSuffixNotNumber(whole + "." + frac, unit);
    assert DropLast(whole + "." + frac + [unit]) == whole + "." + frac;
    ParseDecimal(whole, frac);
  }

  /** A percentage from the snapshot table resolves to its bare figure. */
  lemma {:induction false} ResolvePercentExample(s: string)
    requires s == "12.5%"
    ensures Resolve(ParseFloat, s) == Some(12.5)
  {
    var whole, frac := "12", "5";
    assert s == whole + "." + frac + ['%'];
    assert DigitsValue(frac) == 5 by { assert frac[..0] == []; }
    assert DigitsValue(whole) == 12 by {
      var one := whole[..1];
      assert one == "1" && one[..0] == [];
      assert DigitsValue(one) == 1;
    }
    assert Pow10(|frac|) == 10.0;
    assert Decimal(whole, frac) == 12.0 + 5.0 / 10.0 == 12.5;
    ResolveDecimalWithUnit(whole, frac, '%');
  }

  /** A magnitude from the snapshot table resolves to its bare figure, not scaled by a billion. */
  lemma {:induction false} ResolveMagnitudeExample(s: string)
    requires s == "3.2B"
    ensures Resolve(ParseFloat, s) == Some(3.2)
  {
    var whole, frac := "3", "2";
    assert s == whole + "." + frac + ['B'];
    assert DigitsValue(whole) == 3 && DigitsValue(frac) == 2 by {
      assert whole[..0] == [] && frac[..0] == [];
    }
    assert Pow10(|frac|) == 10.0;
    assert Decimal(whole, frac) == 3.0 + 2.0 / 10.0 == 3.2;
    ResolveDecimalWithUnit(whole, frac, 'B');
  }

  /** A lone sign, as in the placeholder `-` for a missing figure, never parses. */
  lemma {:induction false} SignOnlyNotNumber(s: string)
    requires s == "-" || s == "+"
    ensures !IsNumber(s)
  {
    FloatTextUnspaced(s);
    assert SplitSign(s).1 == [];
    assert ParseMantissa([]) == None;
  }

  /** The placeholder for a missing figure never resolves. */
  lemma {:induction false} ResolvePlaceholderExample(s: string)
    requires s == "-"
    ensures Resolve(ParseFloat, s) == None
  {
    SignOnlyNotNumber(s);
    assert DropLast(s) == "";
    ResolveEmpty();
  }

  /**
   * An ASCII value with an information separator (U+001C) before its unit
   * resolves to nothing: `float` does not skip that character in ASCII text,
   * although `str.strip` would.
   */
  lemma {:induction false} SeparatorNotSkippedExample(s: string)
    requires s == "5\U{1C}%"
    ensures Resolve(ParseFloat, s) == None
  {
    var t := "5\U{1C}";
    assert s == t + ['%'];
    UnitSuffixNotNumber(t, '%');
    assert DropLast(s) == t;
    SeparatorNotNumber(t);
  }

  /** `float("5\x1c")` raises: the separator is neither skipped nor part of a number. */
  lemma {:induction false} SeparatorNotNumber(t: string)
    requires t == "5\U{1C}"
    ensures !IsNumber(t)
  {
    assert FloatText(t) == t;
    assert SplitSign(t) == (false, t);
    assert Find(t, {'e', 'E'}) == |t| && t[..|t|] == t;
    assert Find(t, {'.'}) == |t|;
    assert !AllDigits(t);
  }

  /**
   * The separator U+001C is kept in text with non-ASCII characters too: only
   * the trailing NO-BREAK SPACE of "5", U+001C, U+00A0 is skipped, so with a
   * unit after it the value still resolves to nothing.
   */
  lemma {:induction false} SeparatorMixedExample(s: string)
    requires s == "5\U{1C}\U{A0}%"
    ensures Resolve(ParseFloat, s) == None
  {
    var t, u := "5\U{1C}\U{A0}", "5\U{1C}";
    assert s == t + ['%'];
    UnitSuffixNotNumber(t, '%');
    assert DropLast(s) == t;
    assert t[..|t| - 1] == u;
    assert FloatText(t) == FloatText(u);
    SeparatorNotNumber(u);
  }
}
