/** PHP's urlencode (application/x-www-form-urlencoded escaping) and urldecode,
    defined byte by byte, with the round trip that makes the encoding injective. */
module UrlEncoding {
  import opened PhpStrings

  /** Upper-case hexadecimal digits, as urlencode writes them. */
  const HexDigits: PhpString := "0123456789ABCDEF"

  predicate IsAlnum(c: Byte)
  {
    ('a' <= c <= 'z') || ('A' <= c <= 'Z') || ('0' <= c <= '9')
  }

  /** The bytes urlencode leaves as they are: ASCII letters, digits, '-', '_' and '.'. */
  predicate Unreserved(c: Byte)
  {
    IsAlnum(c) || c == '-' || c == '_' || c == '.'
  }

  /** The bytes that can appear in urlencode's output. */
  predicate UrlSafe(c: Byte)
  {
    Unreserved(c) || c == '+' || c == '%'
  }

  function HexDigit(d: nat): (c: Byte)
    requires d < 16
    ensures UrlSafe(c)
  {
    HexDigits[d]
  }

  /** One byte of urlencode: kept, a space as '+', anything else as '%XX'. */
  function EncodeByte(c: Byte): (r: PhpString)
    ensures 1 <= |r| <= 3
    ensures forall i :: 0 <= i < |r| ==> UrlSafe(r[i])
  {
    if Unreserved(c) then [c]
    else if c == ' ' then "+"
    else ['%', HexDigit(c as int / 16), HexDigit(c as int % 16)]
  }

  /** urlencode($s). */
  function UrlEncode(s: PhpString): (r: PhpString)
    ensures |s| <= |r| <= 3 * |s|
    ensures forall i :: 0 <= i < |r| ==> UrlSafe(r[i])
    decreases |s|
  {
    if s == [] then []
    else
      var head := EncodeByte(s[0]);
      var tail := UrlEncode(s[1..]);
      assert forall i :: |head| <= i < |head| + |tail| ==> (head + tail)[i] == tail[i - |head|];
      head + tail
  }

  predicate IsHexDigit(c: Byte)
  {
    ('0' <= c <= '9') || ('A' <= c <= 'F') || ('a' <= c <= 'f')
  }

  function HexValue(c: Byte): (v: nat)
    requires IsHexDigit(c)
    ensures v < 16
  {
    if '0' <= c <= '9' then c as int - '0' as int
    else if 'A' <= c <= 'F' then c as int - 'A' as int + 10
    else c as int - 'a' as int + 10
  }

  /** urldecode($s): '+' is a space, '%' with two hex digits is that byte, and
      every other byte (a lone '%' included) stands for itself. */
  function UrlDecode(s: PhpString): PhpString
    decreases |s|
  {
    if s == [] then []
    else if s[0] == '+' then [' '] + UrlDecode(s[1..])
    else if s[0] == '%' && |s| >= 3 && IsHexDigit(s[1]) && IsHexDigit(s[2]) then
      [(HexValue(s[1]) * 16 + HexValue(s[2])) as char] + UrlDecode(s[3..])
    else [s[0]] + UrlDecode(s[1..])
  }

  /** Every hex digit urlencode writes reads back as its value. */
  lemma HexDigitValue(d: nat)
    requires d < 16
    ensures IsHexDigit(HexDigit(d)) && HexValue(HexDigit(d)) == d
  {
  }

  /** Decoding the escape of one byte followed by anything yields that byte first. */
  lemma DecodeEncodedByte(c: Byte, rest: PhpString)
    ensures UrlDecode(EncodeByte(c) + rest) == [c] + UrlDecode(rest)
  {
    var e := EncodeByte(c);
    var s := e + rest;
    if Unreserved(c) {
      assert s[0] == c && s[1..] == rest;
    } else if c == ' ' {
      assert s[0] == '+' && s[1..] == rest;
    } else {
      var hi, lo := c as int / 16, c as int % 16;
      HexDigitValue(hi);
      HexDigitValue(lo);
      assert s[0] == '%' && s[1] == HexDigit(hi) && s[2] == HexDigit(lo) && s[3..] == rest;
      assert hi * 16 + lo == c as int;
    }
  }

  /** urldecode undoes urlencode. */
  lemma {:induction false} UrlDecodeEncode(s: PhpString)
    ensures UrlDecode(UrlEncode(s)) == s
    decreases |s|
  {
    if s != [] {
      UrlDecodeEncode(s[1..]);
      DecodeEncodedByte(s[0], UrlEncode(s[1..]));
      assert [s[0]] + s[1..] == s;
    }
  }

  /** Distinct strings have distinct encodings. */
  lemma UrlEncodeInjective(a: PhpString, b: PhpString)
    requires UrlEncode(a) == UrlEncode(b)
    ensures a == b
  {
    UrlDecodeEncode(a);
    UrlDecodeEncode(b);
  }

  /** The encoding never holds the bytes that separate query parameters ('&', '=')
      or start a query ('?'). */
  lemma UrlEncodeHasNoDelimiters(s: PhpString)
    ensures '&' !in UrlEncode(s) && '=' !in UrlEncode(s) && '?' !in UrlEncode(s)
  {
  }
}
