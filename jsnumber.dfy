/**
 * Which texts JavaScript's `Number(text)` reads as a number, so that
 * `isNaN(text)` is false: the StringNumericLiteral grammar of section 7.1.4.1
 * of ECMA-262. Surrounding white space and line terminators are ignored;
 * what remains is empty (0), an optionally signed decimal literal (digits
 * with an optional fraction and exponent, or `Infinity`), or an unsigned
 * `0x`, `0o` or `0b` integer literal.
 */
module JsNumber {
  import opened Text

  /** White space and line terminators as ECMA-262 defines them (code points). */
  predicate IsWhiteSpace(c: char) {
    var n := c as int;
    || 9 <= n <= 13 || n == 32 || n == 0xA0 || n == 0x1680
    || 0x2000 <= n <= 0x200A || n == 0x2028 || n == 0x2029
    || n == 0x202F || n == 0x205F || n == 0x3000 || n == 0xFEFF
  }

  /** The text without its leading white space. */
  function TrimStart(s: string): (t: string)
    ensures |t| <= |s| && t == s[|s| - |t|..]
    ensures forall k :: 0 <= k < |s| - |t| ==> IsWhiteSpace(s[k])
    ensures t != [] ==> !IsWhiteSpace(t[0])
  {
    if s != [] && IsWhiteSpace(s[0]) then TrimStart(s[1..]) else s
  }

  /** The text without its trailing white space. */
  function TrimEnd(s: string): (t: string)
    ensures |t| <= |s| && t == s[..|t|]
    ensures forall k :: |t| <= k < |s| ==> IsWhiteSpace(s[k])
    ensures t != [] ==> !IsWhiteSpace(t[|t| - 1])
  {
    if s != [] && IsWhiteSpace(s[|s| - 1]) then TrimEnd(s[..|s| - 1]) else s
  }

  function Trim(s: string): string {
    TrimEnd(TrimStart(s))
  }

  /** Digits, optionally preceded by one sign: the exponent of a decimal literal. */
  predicate IsSignedInteger(s: string) {
    IsDecimal(s) || (|s| > 1 && s[0] in "+-" && IsDecimal(s[1..]))
  }

  /** Digits with an optional fraction, or a fraction alone: "12", "12.", "12.5", ".5". */
  predicate IsMantissa(s: string) {
    var dot := IndexOf(s, '.');
    if dot == |s| then IsDecimal(s)
    else AllDigits(s[..dot]) && AllDigits(s[dot + 1..]) && (dot > 0 || dot + 1 < |s|)
  }

  /** StrUnsignedDecimalLiteral: `Infinity`, or a mantissa with an optional `e`/`E` exponent. */
  predicate IsUnsignedDecimal(s: string) {
    var e := Min(IndexOf(s, 'e'), IndexOf(s, 'E'));
    s == "Infinity" || (IsMantissa(s[..e]) && (e == |s| || IsSignedInteger(s[e + 1..])))
  }

  function Min(a: nat, b: nat): nat {
    if a <= b then a else b
  }

  /** StrDecimalLiteral: an unsigned decimal literal, optionally signed. */
  predicate IsDecimalLiteral(s: string) {
    IsUnsignedDecimal(s) || (|s| > 0 && s[0] in "+-" && IsUnsignedDecimal(s[1..]))
  }

  predicate IsHexDigit(c: char) {
    IsDigit(c) || 'a' <= c <= 'f' || 'A' <= c <= 'F'
  }

  /** NonDecimalIntegerLiteral: `0x`, `0o` or `0b` (either case) and at least one digit of that base; no sign. */
  predicate IsNonDecimalInteger(s: string) {
    && |s| > 2 && s[0] == '0'
    && (|| (s[1] in "xX" && forall i :: 2 <= i < |s| ==> IsHexDigit(s[i]))
        || (s[1] in "oO" && forall i :: 2 <= i < |s| ==> '0' <= s[i] <= '7')
        || (s[1] in "bB" && forall i :: 2 <= i < |s| ==> s[i] in "01"))
  }

  /** Whether `Number(s)` is a number rather than NaN. */
  predicate IsNumeric(s: string) {
    var t := Trim(s);
    t == [] || IsDecimalLiteral(t) || IsNonDecimalInteger(t)
  }

  /**
   * `isNaN(s)` on a string. A blank text is a number (0); a number, once
   * trimmed, starts with a digit, a point, a sign or the `I` of `Infinity`.
   */
  predicate IsNaN(s: string): (nan: bool)
    ensures Trim(s) == [] ==> !nan
    ensures !nan && Trim(s) != [] ==> IsDigit(Trim(s)[0]) || Trim(s)[0] in ".+-I"
  {
    NumberStart(Trim(s));
    !IsNumeric(s)
  }

  /** Text with no white space at either end is its own trim. */
  lemma TrimPlain(s: string)
    requires s != [] && !IsWhiteSpace(s[0]) && !IsWhiteSpace(s[|s| - 1])
    ensures Trim(s) == s
  {
  }

  /** A non-empty digit string is an unsigned decimal literal. */
  lemma DecimalIsUnsignedDecimal(s: string)
    requires IsDecimal(s)
    ensures IsUnsignedDecimal(s)
  {
    IndexOfAbsent(s, 'e');
    IndexOfAbsent(s, 'E');
    IndexOfAbsent(s, '.');
    assert s[..|s|] == s;
  }

  /** `a.b` with digit runs `a` and `b`, not both empty, is an unsigned decimal literal. */
  lemma FractionIsUnsignedDecimal(a: string, b: string)
    requires AllDigits(a) && AllDigits(b) && (a != [] || b != [])
    ensures IsUnsignedDecimal(a + "." + b)
  {
    var s := a + "." + b;
    assert s == a + ['.'] + b;
    IndexOfAbsent(s, 'e');
    IndexOfAbsent(s, 'E');
    IndexOfJoined(a, '.', b);
    assert s[..|s|] == s && s[..|a|] == a && s[|a| + 1..] == b;
  }

  /** A digit string, the empty one included, is a number. */
  lemma DigitsAreNumbers(s: string)
    requires AllDigits(s)
    ensures !IsNaN(s)
  {
    if s != [] {
      TrimPlain(s);
      DecimalIsUnsignedDecimal(s);
    }
  }

  /** A sign followed by digits is a number: "-5", "+12". */
  lemma SignedDigitsAreNumbers(sign: char, digits: string)
    requires sign in "+-" && IsDecimal(digits)
    ensures !IsNaN([sign] + digits)
  {
    var s := [sign] + digits;
    TrimPlain(s);
    DecimalIsUnsignedDecimal(digits);
    assert s[1..] == digits;
  }

  /** Digits with a decimal point are a number: "1.5", ".5", "7.". */
  lemma FractionsAreNumbers(a: string, b: string)
    requires AllDigits(a) && AllDigits(b) && (a != [] || b != [])
    ensures !IsNaN(a + "." + b)
  {
    var s := a + "." + b;
    assert s[0] == if a != [] then a[0] else '.';
    assert s[|s| - 1] == if b != [] then b[|b| - 1] else '.';
    TrimPlain(s);
    FractionIsUnsignedDecimal(a, b);
  }

  /** Digits with an exponent are a number: "1e3", "2e-1". */
  lemma ExponentsAreNumbers(m: string, x: string)
    requires IsDecimal(m) && IsSignedInteger(x)
    ensures !IsNaN(m + "e" + x)
  {
    var s := m + "e" + x;
    assert s == m + ['e'] + x;
    assert s[|s| - 1] == x[|x| - 1];
    TrimPlain(s);
    IndexOfJoined(m, 'e', x);
    assert 'E' !in s by {
      assert forall k :: 0 <= k < |s| ==> s[k] == 'e' || IsDigit(s[k]) || s[k] in "+-";
    }
    IndexOfAbsent(s, 'E');
    IndexOfAbsent(m, '.');
    assert s[..|m|] == m && s[|m| + 1..] == x && m[..|m|] == m;
  }

  /** "0x" and hexadecimal digits are a number: "0x1A". */
  lemma HexIsNumber(d: string)
    requires d != [] && forall i :: 0 <= i < |d| ==> IsHexDigit(d[i])
    ensures !IsNaN("0x" + d)
  {
    var s := "0x" + d;
    assert s[|s| - 1] == d[|d| - 1];
    TrimPlain(s);
    assert forall i :: 2 <= i < |s| ==> s[i] == d[i - 2];
  }

  /** White space in front of a number leaves it a number: " 7". */
  lemma PaddedNumbers(w: char, s: string)
    requires IsWhiteSpace(w) && !IsNaN(s)
    ensures !IsNaN([w] + s)
  {
    assert ([w] + s)[1..] == s;
    assert TrimStart([w] + s) == TrimStart(s);
  }

  /** A mantissa starts with a digit or a point. */
  lemma MantissaStart(m: string)
    requires IsMantissa(m)
    ensures m != [] && (IsDigit(m[0]) || m[0] == '.')
  {
    var dot := IndexOf(m, '.');
    if dot < |m| && dot > 0 {
      assert m[..dot][0] == m[0];
    }
  }

  /** An unsigned decimal literal starts with a digit, a point or the `I` of `Infinity`. */
  lemma UnsignedDecimalStart(t: string)
    requires IsUnsignedDecimal(t)
    ensures t != [] && (IsDigit(t[0]) || t[0] == '.' || t[0] == 'I')
  {
    if t != "Infinity" {
      var e := Min(IndexOf(t, 'e'), IndexOf(t, 'E'));
      MantissaStart(t[..e]);
      assert t[..e][0] == t[0];
    }
  }

  /** A decimal or non-decimal literal starts with a digit, a point, a sign or `I`. */
  lemma NumberStart(t: string)
    ensures IsDecimalLiteral(t) || IsNonDecimalInteger(t) ==>
      t != [] && (IsDigit(t[0]) || t[0] in ".+-I")
  {
    if IsUnsignedDecimal(t) {
      UnsignedDecimalStart(t);
    }
  }

  /** Trimming the end keeps a first character that is not white space. */
  lemma TrimEndKeepsFirst(s: string)
    requires s != [] && !IsWhiteSpace(s[0])
    ensures TrimEnd(s) != [] && TrimEnd(s)[0] == s[0]
  {
  }

  /** No literal of the grammar starts with a letter other than `I`. */
  lemma LetterFirstIsNoLiteral(t: string)
    requires t != [] && ('a' <= t[0] <= 'z' || 'A' <= t[0] <= 'Z') && t[0] != 'I'
    ensures !IsDecimalLiteral(t) && !IsNonDecimalInteger(t)
  {
    if IsUnsignedDecimal(t) {
      UnsignedDecimalStart(t);
    }
  }

  /** A text that starts with a letter other than the `I` of `Infinity` is not a number: "abc". */
  lemma LetterFirstIsNaN(c: char, rest: string)
    requires ('a' <= c <= 'z' || 'A' <= c <= 'Z') && c != 'I'
    ensures IsNaN([c] + rest)
  {
    var s := [c] + rest;
    assert TrimStart(s) == s;
    TrimEndKeepsFirst(s);
    LetterFirstIsNoLiteral(Trim(s));
  }
}
