/** The PHP values the plugin's width and height attributes can take, PHP's
    empty() test, the loose comparison `$v != 0`, and the conversion of an
    integer to the text that string concatenation produces. */
module PhpValues {
  import opened PhpStrings

  /** null, an integer (the defaults and the gallery sizes) or a string (a shortcode attribute). */
  datatype PhpValue = Null | Int(i: int) | Str(s: PhpString)

  /** empty($v): null, 0, '' and '0' are empty; every other integer or string is not. */
  predicate Empty(v: PhpValue)
  {
    match v
    case Null => true
    case Int(i) => i == 0
    case Str(s) => s == [] || s == "0"
  }

  // ---------------------------------------------------------------------------
  // decimal text of integers

  function DigitChar(d: nat): (c: Byte)
    requires d < 10
    ensures '0' <= c <= '9' && c as int - '0' as int == d
  {
    (d + '0' as int) as char
  }

  predicate IsDigit(c: Byte)
  {
    '0' <= c <= '9'
  }

  predicate AllDigits(s: PhpString)
  {
    forall i :: 0 <= i < |s| ==> IsDigit(s[i])
  }

  /** The decimal digits of a natural number, most significant first. */
  function NatToDecimal(n: nat): (r: PhpString)
    ensures |r| >= 1 && AllDigits(r)
    ensures r[0] == '0' ==> n == 0
    decreases n
  {
    if n < 10 then [DigitChar(n)]
    else NatToDecimal(n / 10) + [DigitChar(n % 10)]
  }

  /** The number a string of decimal digits denotes. */
  function DecimalValue(s: PhpString): nat
    requires AllDigits(s)
    decreases |s|
  {
    if s == [] then 0
    else DecimalValue(s[..|s| - 1]) * 10 + (s[|s| - 1] as int - '0' as int)
  }

  /** Reading the digits back gives the number: the text of an integer is faithful. */
  lemma {:induction false} DecimalRoundTrip(n: nat)
    ensures DecimalValue(NatToDecimal(n)) == n
    decreases n
  {
    if n >= 10 {
      DecimalRoundTrip(n / 10);
      var r := NatToDecimal(n);
      assert r[..|r| - 1] == NatToDecimal(n / 10);
    }
  }

  /** Two integers with the same decimal text are the same integer. */
  lemma IntToDecimalInjective(a: int, b: int)
    ensures IntToDecimal(a) == IntToDecimal(b) ==> a == b
  {
    if IntToDecimal(a) == IntToDecimal(b) {
      if a < 0 && b < 0 {
        assert NatToDecimal(-a) == IntToDecimal(a)[1..];
        DecimalRoundTrip(-a);
        DecimalRoundTrip(-b);
      } else if a >= 0 && b >= 0 {
        DecimalRoundTrip(a);
        DecimalRoundTrip(b);
      }
    }
  }

  const MinusSign: PhpString := "-"

  /** The text PHP gives an integer: its digits, preceded by '-' when negative. */
  function IntToDecimal(i: int): PhpString
  {
    if i < 0 then MinusSign + NatToDecimal(-i) else NatToDecimal(i)
  }

  /** The text a value contributes to a string concatenation. */
  function ToText(v: PhpValue): PhpString
  {
    match v
    case Null => []
    case Int(i) => IntToDecimal(i)
    case Str(s) => s
  }

  // ---------------------------------------------------------------------------
  // the loose comparison $v == 0 (PHP 8 rules)

  /** Leading and trailing whitespace a PHP 8 numeric string may carry: space, \t, \n, \r, \v, \f. */
  const NumericWhitespace: set<Byte> := {' ', '\t', '\n', '\r', '\U{B}', '\U{C}'}

  /** Index of the first byte of `s` in `cs`, or |s| when there is none. */
  function FirstIndexIn(s: PhpString, cs: set<Byte>): (k: nat)
    ensures k <= |s|
    ensures forall i :: 0 <= i < k ==> s[i] !in cs
    ensures k < |s| ==> s[k] in cs
    decreases |s|
  {
    if |s| == 0 then 0
    else if s[0] in cs then 0
    else 1 + FirstIndexIn(s[1..], cs)
  }

  /** A mantissa whose digits are all zero: '0', '00', '0.', '.0', '0.00', ... */
  predicate ZeroMantissa(m: PhpString)
  {
    && '0' in m
    && multiset(m)['.'] <= 1
    && forall i :: 0 <= i < |m| ==> m[i] == '0' || m[i] == '.'
  }

  /** An exponent part: 'e' or 'E', an optional sign, then at least one digit. */
  predicate ExponentPart(x: PhpString)
  {
    && |x| >= 2
    && (x[0] == 'e' || x[0] == 'E')
    && var d := if x[1] == '+' || x[1] == '-' then x[2..] else x[1..];
       d != [] && AllDigits(d)
  }

  /** The bytes that open an exponent part. */
  const ExponentMarks: set<Byte> := {'e', 'E'}

  /** A numeric string stripped of surrounding whitespace and of one leading sign. */
  function NumericBody(s: PhpString): PhpString
  {
    var t := TrimChars(s, NumericWhitespace);
    if |t| > 0 && (t[0] == '+' || t[0] == '-') then t[1..] else t
  }

  /** A numeric string whose value is zero: optional surrounding whitespace, an
      optional sign, a mantissa of zero digits and an optional exponent. */
  predicate IsNumericZero(s: PhpString)
  {
    var u := NumericBody(s);
    var k := FirstIndexIn(u, ExponentMarks);
    ZeroMantissa(u[..k]) && (k == |u| || ExponentPart(u[k..]))
  }

  /** $v == 0 under PHP 8: null equals 0; a string equals 0 only when it is a
      numeric string of value zero (otherwise 0 is compared as the string '0'). */
  predicate LooseEqualsZero(v: PhpValue)
  {
    match v
    case Null => true
    case Int(i) => i == 0
    case Str(s) => IsNumericZero(s)
  }

  /** `!empty($v) && $v != 0`: the test create_dwv_html puts on a width or height. */
  predicate IsSetDimension(v: PhpValue)
  {
    !Empty(v) && !LooseEqualsZero(v)
  }

  /** An integer dimension is set exactly when it is non-zero: negative sizes pass. */
  lemma IntDimensionSetIffNonZero(i: int)
    ensures IsSetDimension(Int(i)) <==> i != 0
  {
  }

  /** A string of one or more '0' digits equals 0, so as a width or height it leaves the container unsized. */
  lemma ZerosLeaveUnset(s: PhpString)
    requires |s| >= 1 && forall i :: 0 <= i < |s| ==> s[i] == '0'
    ensures IsNumericZero(s) && !IsSetDimension(Str(s))
  {
    assert s[0] == '0' && s[|s| - 1] == '0';
    TrimCharsUnchanged(s, NumericWhitespace);
    assert NumericBody(s) == s;
    assert FirstIndexIn(s, ExponentMarks) == |s|;
    assert s[..|s|] == s;
    assert multiset(s)['.'] == 0;
  }

  /** Digits that do not start with '0' form a mantissa of non-zero value and no exponent. */
  lemma NonZeroDigitsMantissa(digits: PhpString)
    requires |digits| >= 1 && AllDigits(digits) && digits[0] != '0'
    ensures FirstIndexIn(digits, ExponentMarks) == |digits|
    ensures !ZeroMantissa(digits[..|digits|])
  {
    assert digits[..|digits|] == digits;
  }

  /** The numeric body of an integer's decimal text is the digits of its magnitude. */
  lemma DecimalNumericBody(i: int)
    ensures NumericBody(IntToDecimal(i)) == NatToDecimal(if i < 0 then -i else i)
  {
    if i < 0 {
      SignedNumericBody(NatToDecimal(-i));
    } else {
      UnsignedNumericBody(NatToDecimal(i));
    }
  }

  /** A run of digits is its own numeric body. */
  lemma UnsignedNumericBody(digits: PhpString)
    requires |digits| >= 1 && AllDigits(digits)
    ensures NumericBody(digits) == digits
  {
    assert IsDigit(digits[0]) && IsDigit(digits[|digits| - 1]);
    TrimCharsUnchanged(digits, NumericWhitespace);
  }

  /** A '-' before a run of digits is the sign that NumericBody drops. */
  lemma SignedNumericBody(digits: PhpString)
    requires |digits| >= 1 && AllDigits(digits)
    ensures NumericBody(MinusSign + digits) == digits
  {
    var s := MinusSign + digits;
    assert s[0] == '-' && s[|s| - 1] == digits[|digits| - 1];
    assert IsDigit(s[|s| - 1]);
    TrimCharsUnchanged(s, NumericWhitespace);
    assert s[1..] == digits;
  }

  /** A non-zero integer written as a decimal string sets a width or height,
      exactly as the integer itself would. */
  lemma NonZeroDecimalSetsDimension(i: int)
    requires i != 0
    ensures IsSetDimension(Str(IntToDecimal(i))) && IsSetDimension(Int(i))
  {
    NonZeroDecimalNotEmpty(i);
    NonZeroDecimalNotZero(i);
  }

  lemma NonZeroDecimalNotEmpty(i: int)
    requires i != 0
    ensures !Empty(Str(IntToDecimal(i)))
  {
    var s := IntToDecimal(i);
    assert s[0] != '0';
  }

  lemma NonZeroDecimalNotZero(i: int)
    requires i != 0
    ensures !IsNumericZero(IntToDecimal(i))
  {
    var digits := NatToDecimal(if i < 0 then -i else i);
    DecimalNumericBody(i);
    NonZeroDigitsMantissa(digits);
  }

  /** A string that starts with a letter ('abc', 'e5', 'px') is not numeric, so
      under PHP 8 it does not equal 0 and sets a width or height. */
  lemma LetterStringSetsDimension(s: PhpString)
    requires |s| >= 1 && (('a' <= s[0] <= 'z') || ('A' <= s[0] <= 'Z'))
    ensures IsSetDimension(Str(s))
  {
    assert s[0] !in NumericWhitespace;
    TrimCharsKeepsFirst(s, NumericWhitespace);
    var t := TrimChars(s, NumericWhitespace);
    assert NumericBody(s) == t;
    var k := FirstIndexIn(t, ExponentMarks);
    if k > 0 {
      assert t[..k][0] == s[0];
    }
  }
}
