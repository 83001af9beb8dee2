/** Byte strings and their text forms: the lowercase hex digest that
    `digest('hex')` produces, and `encodeURIComponent` (section 19.2.6.5 of
    ECMA-262), which percent-encodes the UTF-8 bytes (RFC 3629) of every
    character outside the unreserved set. */
module Uri {

  type Byte = x: int | 0 <= x < 256

  predicate IsLowerHexChar(c: char) {
    '0' <= c <= '9' || 'a' <= c <= 'f'
  }

  predicate IsHexChar(c: char) {
    '0' <= c <= '9' || 'a' <= c <= 'f' || 'A' <= c <= 'F'
  }

  predicate IsLowerHex(s: string) {
    forall i :: 0 <= i < |s| ==> IsLowerHexChar(s[i])
  }

  /** The value of one hex digit of either case. */
  function HexValue(c: char): (n: nat)
    requires IsHexChar(c)
    ensures n < 16
  {
    if '0' <= c <= '9' then c as int - '0' as int
    else if 'a' <= c <= 'f' then c as int - 'a' as int + 10
    else c as int - 'A' as int + 10
  }

  function LowerHexDigit(n: nat): (c: char)
    requires n < 16
    ensures IsLowerHexChar(c) && HexValue(c) == n
  {
    if n < 10 then ('0' as int + n) as char else ('a' as int + n - 10) as char
  }

  function UpperHexDigit(n: nat): (c: char)
    requires n < 16
    ensures IsHexChar(c) && HexValue(c) == n
    ensures '0' <= c <= '9' || 'A' <= c <= 'F'
  {
    if n < 10 then ('0' as int + n) as char else ('A' as int + n - 10) as char
  }

  /** `digest('hex')`: two lowercase hex digits per byte, high nibble first. */
  function HexEncode(bytes: seq<Byte>): (s: string)
    ensures |s| == 2 * |bytes| && IsLowerHex(s)
  {
    if bytes == [] then []
    else [LowerHexDigit(bytes[0] / 16), LowerHexDigit(bytes[0] % 16)] + HexEncode(bytes[1..])
  }

  /** Reads hex digit pairs back into bytes. */
  function HexDecode(s: string): (bytes: seq<Byte>)
    requires |s| % 2 == 0 && forall i :: 0 <= i < |s| ==> IsHexChar(s[i])
    ensures 2 * |bytes| == |s|
  {
    if s == [] then [] else [HexValue(s[0]) * 16 + HexValue(s[1])] + HexDecode(s[2..])
  }

  /** The hex form loses nothing: decoding it gives the bytes back. */
  lemma {:induction false} HexRoundTrip(bytes: seq<Byte>)
    ensures HexDecode(HexEncode(bytes)) == bytes
  {
    if bytes != [] {
      var s := HexEncode(bytes);
      assert s[2..] == HexEncode(bytes[1..]);
      HexRoundTrip(bytes[1..]);
    }
  }

  /** The characters `encodeURIComponent` leaves as they are: letters, digits
      and `- _ . ! ~ * ' ( )`. */
  predicate IsUnreserved(c: char) {
    'A' <= c <= 'Z' || 'a' <= c <= 'z' || '0' <= c <= '9'
    || c == '-' || c == '_' || c == '.' || c == '!' || c == '~' || c == '*'
    || c == '\'' || c == '(' || c == ')'
  }

  /** The UTF-8 encoding of one code point. */
  function Utf8(c: char): (bytes: seq<Byte>)
    ensures 1 <= |bytes| <= 4
    ensures c as int < 0x80 <==> bytes == [c as int]
  {
    var n := c as int;
    assert n < 0x110000;
    if n < 0x80 then [n]
    else if n < 0x800 then [0xC0 + n / 64, 0x80 + n % 64]
    else if n < 0x10000 then [0xE0 + n / 4096, 0x80 + (n / 64) % 64, 0x80 + n % 64]
    else [0xF0 + n / 262144, 0x80 + (n / 4096) % 64, 0x80 + (n / 64) % 64, 0x80 + n % 64]
  }

  function Utf8Encode(s: string): (bytes: seq<Byte>)
    ensures |bytes| >= |s|
  {
    if s == [] then [] else Utf8(s[0]) + Utf8Encode(s[1..])
  }

  /** `%XY` for every byte, with uppercase hex digits. */
  function PercentEncode(bytes: seq<Byte>): (s: string)
    ensures |s| == 3 * |bytes|
  {
    if bytes == [] then []
    else ['%', UpperHexDigit(bytes[0] / 16), UpperHexDigit(bytes[0] % 16)] + PercentEncode(bytes[1..])
  }

  function EncodeChar(c: char): (s: string)
    ensures |s| >= 1
  {
    if IsUnreserved(c) then [c] else PercentEncode(Utf8(c))
  }

  /** `encodeURIComponent(s)`. */
  function EncodeUriComponent(s: string): (r: string)
    ensures |r| >= |s|
  {
    if s == [] then [] else EncodeChar(s[0]) + EncodeUriComponent(s[1..])
  }

  /** The inverse direction, at the byte level: `%XY` becomes the byte XY and
      any other character the low byte of its code. */
  function Unescape(s: string): (bytes: seq<Byte>)
  {
    if s == [] then []
    else if |s| >= 3 && s[0] == '%' && IsHexChar(s[1]) && IsHexChar(s[2]) then
      [HexValue(s[1]) * 16 + HexValue(s[2])] + Unescape(s[3..])
    else [s[0] as int % 256] + Unescape(s[1..])
  }

  lemma {:induction false} UnescapePercent(bytes: seq<Byte>, rest: string)
    ensures Unescape(PercentEncode(bytes) + rest) == bytes + Unescape(rest)
  {
    if bytes != [] {
      var s := PercentEncode(bytes) + rest;
      var b := bytes[0];
      assert s[0] == '%' && s[1] == UpperHexDigit(b / 16) && s[2] == UpperHexDigit(b % 16);
      assert HexValue(s[1]) * 16 + HexValue(s[2]) == b;
      assert s[3..] == PercentEncode(bytes[1..]) + rest;
      assert Unescape(s) == [b] + Unescape(s[3..]);
      UnescapePercent(bytes[1..], rest);
      assert bytes == [b] + bytes[1..];
      assert [b] + (bytes[1..] + Unescape(rest)) == bytes + Unescape(rest);
    } else {
      assert PercentEncode(bytes) + rest == rest;
    }
  }

  lemma UnescapeEncodeChar(c: char, rest: string)
    ensures Unescape(EncodeChar(c) + rest) == Utf8(c) + Unescape(rest)
  {
    if IsUnreserved(c) {
      assert ([c] + rest)[1..] == rest;
    } else {
      UnescapePercent(Utf8(c), rest);
    }
  }

  /** Percent-decoding the encoded string gives back exactly the UTF-8
      bytes of the input: the encoding is lossless. */
  lemma {:induction false} EncodeUriComponentRoundTrip(s: string)
    ensures Unescape(EncodeUriComponent(s)) == Utf8Encode(s)
  {
    if s != [] {
      UnescapeEncodeChar(s[0], EncodeUriComponent(s[1..]));
      EncodeUriComponentRoundTrip(s[1..]);
    }
  }

  /** A string made only of unreserved characters is left unchanged. */
  lemma {:induction false} EncodeUnreservedIsIdentity(s: string)
    requires forall i :: 0 <= i < |s| ==> IsUnreserved(s[i])
    ensures EncodeUriComponent(s) == s
  {
    if s != [] {
      EncodeUnreservedIsIdentity(s[1..]);
    }
  }

  /** A lowercase hex string, such as every generated token, is unchanged by
      the encoding. */
  lemma HexIsUnchanged(s: string)
    requires IsLowerHex(s)
    ensures EncodeUriComponent(s) == s
  {
    EncodeUnreservedIsIdentity(s);
  }

  /** Every character outside the unreserved set is escaped: the encoded
      form of such a character starts with '%'. */
  lemma ReservedIsEscaped(c: char)
    requires !IsUnreserved(c)
    ensures EncodeUriComponent([c])[0] == '%'
  {
  }
}
