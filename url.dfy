/**
 * Percent-encoding of URLs (section 2.1 of RFC 3986) as Python's `urllib.parse.quote`
 * and `unquote` perform it: `quote` escapes every UTF-8 byte of a character outside the
 * always-safe set and '/', `unquote` turns `%XX` back into the character it encodes.
 */
module Url {

  predicate IsHexDigit(c: char) {
    '0' <= c <= '9' || 'a' <= c <= 'f' || 'A' <= c <= 'F'
  }

  function HexValue(c: char): (v: nat)
    requires IsHexDigit(c)
    ensures v < 16
  {
    if '0' <= c <= '9' then c as int - '0' as int
    else if 'a' <= c <= 'f' then c as int - 'a' as int + 10
    else c as int - 'A' as int + 10
  }

  /** The upper-case hexadecimal digit `quote` writes for `v`; reading it back gives `v`. */
  function HexDigit(v: nat): (c: char)
    requires v < 16
    ensures IsHexDigit(c) && HexValue(c) == v
  {
    if v < 10 then ('0' as int + v) as char else ('A' as int + v - 10) as char
  }

  /** The characters `quote(s)` leaves as they are: letters, digits, `_.-~` and its default safe character '/'. */
  predicate IsUnescaped(c: char) {
    'A' <= c <= 'Z' || 'a' <= c <= 'z' || '0' <= c <= '9' || c in "_.-~/"
  }

  predicate IsAscii(c: char) {
    c as int < 0x80
  }

  /** The UTF-8 encoding of one character, as byte values. */
  function Utf8(c: char): (bytes: seq<nat>)
    ensures 1 <= |bytes| <= 4
    ensures forall i :: 0 <= i < |bytes| ==> bytes[i] < 0x100
    ensures IsAscii(c) <==> bytes == [c as int]
  {
    var n := c as int;
    if n < 0x80 then [n]
    else if n < 0x800 then [0xC0 + n / 0x40, 0x80 + n % 0x40]
    else if n < 0x10000 then [0xE0 + n / 0x1000, 0x80 + n / 0x40 % 0x40, 0x80 + n % 0x40]
    else [0xF0 + n / 0x40000, 0x80 + n / 0x1000 % 0x40, 0x80 + n / 0x40 % 0x40, 0x80 + n % 0x40]
  }

  /** `%XX` for every byte, with upper-case digits. */
  function EscapeBytes(bytes: seq<nat>): (r: string)
    requires forall i :: 0 <= i < |bytes| ==> bytes[i] < 0x100
    ensures |r| == 3 * |bytes|
    ensures forall c <- r :: c == '%' || IsHexDigit(c)
  {
    if bytes == [] then ""
    else
      ['%', HexDigit(bytes[0] / 16), HexDigit(bytes[0] % 16)] + EscapeBytes(bytes[1..])
  }

  function QuoteChar(c: char): (r: string)
    ensures forall d <- r :: IsUnescaped(d) || d == '%' || IsHexDigit(d)
  {
    if IsUnescaped(c) then [c] else EscapeBytes(Utf8(c))
  }

  /** Python's `quote(s)` with its default safe character '/'. */
  function Quote(s: string): (r: string)
    ensures forall c <- r :: IsUnescaped(c) || c == '%' || IsHexDigit(c)
    ensures |s| <= |r|
  {
    if s == [] then "" else QuoteChar(s[0]) + Quote(s[1..])
  }

  /** The byte value written by the escape at the front of `s`, if `s` starts with `%XX`. */
  predicate StartsWithEscape(s: string) {
    3 <= |s| && s[0] == '%' && IsHexDigit(s[1]) && IsHexDigit(s[2])
  }

  function EscapedByte(s: string): (b: nat)
    requires StartsWithEscape(s)
    ensures b < 0x100
  {
    HexValue(s[1]) * 16 + HexValue(s[2])
  }

  /**
   * Python's `unquote(s)` for escapes of ASCII characters: `%XX` (either case of hex
   * digit) becomes the character with code XX, and a '%' not followed by two hex digits
   * stays as it is. Escapes of bytes 0x80 and above also stay as they are here; Python
   * would decode runs of them as UTF-8.
   */
  function Unquote(s: string): (r: string)
    ensures |r| <= |s|
  {
    if |s| == 0 then ""
    else if StartsWithEscape(s) && EscapedByte(s) < 0x80 then
      [EscapedByte(s) as char] + Unquote(s[3..])
    else
      [s[0]] + Unquote(s[1..])
  }

  /** A string without '%' is left as it is. */
  lemma {:induction false} UnquotePlain(s: string)
    requires '%' !in s
    ensures Unquote(s) == s
  {
    if |s| > 0 {
      UnquotePlain(s[1..]);
      assert s == [s[0]] + s[1..];
    }
  }

  /** Decoding the escape of an ASCII character gives that character back. */
  lemma UnquoteQuoteChar(c: char, t: string)
    requires IsAscii(c)
    ensures Unquote(QuoteChar(c) + t) == [c] + Unquote(t)
  {
    if IsUnescaped(c) {
      assert ([c] + t)[1..] == t;
    } else {
      var n := c as int;
      var e := QuoteChar(c);
      assert e == ['%', HexDigit(n / 16), HexDigit(n % 16)];
      assert StartsWithEscape(e + t) && EscapedByte(e + t) == n;
      assert (e + t)[3..] == t;
    }
  }

  /** Round trip: `unquote(quote(s)) == s` for every ASCII string. */
  lemma {:induction false} UnquoteQuote(s: string)
    requires forall c <- s :: IsAscii(c)
    ensures Unquote(Quote(s)) == s
  {
    if s != [] {
      UnquoteQuote(s[1..]);
      UnquoteQuoteChar(s[0], Quote(s[1..]));
    }
  }

  /** '/' is never escaped, so a string ending in a slash still ends in one once quoted. */
  lemma {:induction false} QuoteKeepsTrailingSlash(s: string)
    requires |s| > 0 && s[|s| - 1] == '/'
    ensures |Quote(s)| > 0 && Quote(s)[|Quote(s)| - 1] == '/'
  {
    if |s| > 1 {
      QuoteKeepsTrailingSlash(s[1..]);
    }
  }
}
