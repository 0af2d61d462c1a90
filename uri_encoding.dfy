/**
 * `encodeURIComponent` (ECMA-262, section 19.2.6.5, and its Encode abstract operation): every
 * character outside the uriUnreserved set is written as the UTF-8 bytes of its code point, each
 * byte as a `%XX` triplet with upper-case hexadecimal digits, as section 2.1 of RFC 3986 describes
 * percent-encoding. uriUnreserved is RFC 2396's unreserved set: the letters, the digits and
 * `- _ . ! ~ * ' ( )`, which is RFC 3986's unreserved set plus `! * ' ( )`.
 *
 * The partner of the encoder is a decoder (percent-decoding to bytes, then UTF-8 decoding to code
 * points) and the round-trip lemma between the two.
 */
module UriEncoding {
  import opened Optional

  type Byte = b: int | 0 <= b < 256

  predicate IsUriUnreserved(c: char) {
    ('A' <= c <= 'Z') || ('a' <= c <= 'z') || ('0' <= c <= '9')
    || c == '-' || c == '_' || c == '.' || c == '!' || c == '~' || c == '*' || c == '\'' || c == '(' || c == ')'
  }

  predicate IsUpperHex(c: char) {
    ('0' <= c <= '9') || ('A' <= c <= 'F')
  }

  /** An encoded string: unreserved characters and `%XX` triplets, nothing else. */
  predicate WellEncoded(s: string)
    decreases |s|
  {
    s == []
    || (IsUriUnreserved(s[0]) && WellEncoded(s[1..]))
    || (|s| >= 3 && s[0] == '%' && IsUpperHex(s[1]) && IsUpperHex(s[2]) && WellEncoded(s[3..]))
  }

  lemma {:induction false} WellEncodedAppend(a: string, b: string)
    requires WellEncoded(a) && WellEncoded(b)
    ensures WellEncoded(a + b)
    decreases |a|
  {
    if a == [] {
      assert a + b == b;
    } else if IsUriUnreserved(a[0]) && WellEncoded(a[1..]) {
      WellEncodedAppend(a[1..], b);
      assert (a + b)[1..] == a[1..] + b;
    } else {
      WellEncodedAppend(a[3..], b);
      assert (a + b)[3..] == a[3..] + b;
    }
  }

  /** An encoded string never contains `/` (nor any other reserved character). */
  lemma {:induction false} WellEncodedHasNoSlash(s: string)
    requires WellEncoded(s)
    ensures forall i :: 0 <= i < |s| ==> s[i] != '/'
    decreases |s|
  {
    if s != [] {
      if IsUriUnreserved(s[0]) && WellEncoded(s[1..]) {
        WellEncodedHasNoSlash(s[1..]);
        assert forall i :: 1 <= i < |s| ==> s[i] == s[1..][i - 1];
      } else {
        WellEncodedHasNoSlash(s[3..]);
        assert forall i :: 3 <= i < |s| ==> s[i] == s[3..][i - 3];
      }
    }
  }

  /** The UTF-8 encoding of one code point (RFC 3629, section 3). */
  function Utf8Char(c: char): (bs: seq<Byte>)
    ensures 1 <= |bs| <= 4
    ensures |bs| == 1 <==> c as int < 0x80
  {
    var n := c as int;
    if n < 0x80 then [n]
    else if n < 0x800 then [0xC0 + n / 64, 0x80 + n % 64]
    else if n < 0x10000 then [0xE0 + n / 4096, 0x80 + (n / 64) % 64, 0x80 + n % 64]
    else [0xF0 + n / 262144, 0x80 + (n / 4096) % 64, 0x80 + (n / 64) % 64, 0x80 + n % 64]
  }

  function Utf8(s: string): seq<Byte> {
    if s == [] then [] else Utf8Char(s[0]) + Utf8(s[1..])
  }

  const HexDigits: string := "0123456789ABCDEF"

  function PercentEscape(b: Byte): (e: string)
    ensures |e| == 3 && e[0] == '%' && IsUpperHex(e[1]) && IsUpperHex(e[2])
  {
    ['%', HexDigits[b / 16], HexDigits[b % 16]]
  }

  function PercentEscapes(bs: seq<Byte>): (e: string)
    ensures |e| == 3 * |bs| && WellEncoded(e)
  {
    if bs == [] then []
    else
      var head := PercentEscape(bs[0]);
      var tail := PercentEscapes(bs[1..]);
      assert (head + tail)[3..] == tail;
      head + tail
  }

  function EncodeChar(c: char): (e: string)
    ensures WellEncoded(e)
  {
    if IsUriUnreserved(c) then
      assert [c][1..] == [];
      [c]
    else PercentEscapes(Utf8Char(c))
  }

  /** `encodeURIComponent(s)`: total on strings of code points (a lone surrogate, which it rejects
      with a URIError, is not a code point). */
  function EncodeUriComponent(s: string): (r: string)
    ensures WellEncoded(r)
    ensures forall i :: 0 <= i < |r| ==> r[i] != '/'
  {
    if s == [] then []
    else
      var r := EncodeChar(s[0]) + EncodeUriComponent(s[1..]);
      WellEncodedAppend(EncodeChar(s[0]), EncodeUriComponent(s[1..]));
      WellEncodedHasNoSlash(r);
      r
  }

  /** The value of a hexadecimal digit, either case. */
  function HexValue(c: char): (v: Option<nat>)
    ensures v.Some? ==> v.value < 16
  {
    if '0' <= c <= '9' then Some(c as int - '0' as int)
    else if 'A' <= c <= 'F' then Some(c as int - 'A' as int + 10)
    else if 'a' <= c <= 'f' then Some(c as int - 'a' as int + 10)
    else None
  }

  lemma HexDigitValue(k: nat)
    requires k < 16
    ensures HexValue(HexDigits[k]) == Some(k)
  {
  }

  function PrependBytes(bs: seq<Byte>, rest: Option<seq<Byte>>): Option<seq<Byte>> {
    if rest.Some? then Some(bs + rest.value) else None
  }

  /** Percent-decoding to bytes: `%XX` is the byte XX, an ASCII character is its own byte; anything
      else (a stray `%`, a non-ASCII character) is rejected. */
  function PercentDecode(s: string): Option<seq<Byte>>
    decreases |s|
  {
    if s == [] then Some([])
    else if s[0] == '%' then
      if |s| >= 3 && HexValue(s[1]).Some? && HexValue(s[2]).Some? then
        PrependBytes([HexValue(s[1]).value * 16 + HexValue(s[2]).value], PercentDecode(s[3..]))
      else None
    else if s[0] as int < 0x80 then PrependBytes([s[0] as int], PercentDecode(s[1..]))
    else None
  }

  predicate IsContinuation(b: Byte) {
    0x80 <= b < 0xC0
  }

  predicate IsScalar(v: int) {
    (0 <= v < 0xD800) || (0xE000 <= v < 0x110000)
  }

  function PrependChar(v: int, rest: Option<string>): Option<string>
    requires IsScalar(v)
  {
    if rest.Some? then Some([v as char] + rest.value) else None
  }

  /** UTF-8 decoding (RFC 3629, section 3): rejects truncated sequences, overlong forms, surrogates
      and values past U+10FFFF. */
  function Utf8Decode(bs: seq<Byte>): Option<string>
    decreases |bs|
  {
    if bs == [] then Some([])
    else
      var b := bs[0] as int;
      if b < 0x80 then PrependChar(b, Utf8Decode(bs[1..]))
      else if 0xC0 <= b < 0xE0 && |bs| >= 2 && IsContinuation(bs[1]) then
        var v := (b - 0xC0) * 64 + (bs[1] as int - 0x80);
        if v >= 0x80 then PrependChar(v, Utf8Decode(bs[2..])) else None
      else if 0xE0 <= b < 0xF0 && |bs| >= 3 && IsContinuation(bs[1]) && IsContinuation(bs[2]) then
        var v := (b - 0xE0) * 4096 + (bs[1] as int - 0x80) * 64 + (bs[2] as int - 0x80);
        if v >= 0x800 && IsScalar(v) then PrependChar(v, Utf8Decode(bs[3..])) else None
      else if 0xF0 <= b < 0xF8 && |bs| >= 4 && IsContinuation(bs[1]) && IsContinuation(bs[2])
              && IsContinuation(bs[3]) then
        var v := (b - 0xF0) * 262144 + (bs[1] as int - 0x80) * 4096 + (bs[2] as int - 0x80) * 64 + (bs[3] as int - 0x80);
        if 0x10000 <= v < 0x110000 then PrependChar(v, Utf8Decode(bs[4..])) else None
      else None
  }

  /** Percent-decoding followed by UTF-8 decoding. */
  function DecodeComponent(s: string): Option<string> {
    match PercentDecode(s)
    case Some(bs) => Utf8Decode(bs)
    case None => None
  }

  lemma PercentEscapeDecodes(b: Byte, rest: string)
    ensures PercentDecode(PercentEscape(b) + rest) == PrependBytes([b], PercentDecode(rest))
  {
    var s := PercentEscape(b) + rest;
    HexDigitValue(b / 16);
    HexDigitValue(b % 16);
    assert s[0] == '%' && s[1] == HexDigits[b / 16] && s[2] == HexDigits[b % 16];
    assert s[3..] == rest;
  }

  lemma {:induction false} PercentEscapesDecode(bs: seq<Byte>, rest: string)
    ensures PercentDecode(PercentEscapes(bs) + rest) == PrependBytes(bs, PercentDecode(rest))
    decreases |bs|
  {
    if bs == [] {
      assert PercentEscapes(bs) + rest == rest;
      if PercentDecode(rest).Some? {
        assert bs + PercentDecode(rest).value == PercentDecode(rest).value;
      }
    } else {
      var tail := PercentEscapes(bs[1..]) + rest;
      EscapesSplit(bs, rest);
      PercentEscapeDecodes(bs[0], tail);
      PercentEscapesDecode(bs[1..], rest);
      PrependBytesCons(bs, PercentDecode(rest));
    }
  }

  lemma EscapesSplit(bs: seq<Byte>, rest: string)
    requires bs != []
    ensures PercentEscapes(bs) + rest == PercentEscape(bs[0]) + (PercentEscapes(bs[1..]) + rest)
  {
  }

  lemma PrependBytesCons(bs: seq<Byte>, r: Option<seq<Byte>>)
    requires bs != []
    ensures PrependBytes([bs[0]], PrependBytes(bs[1..], r)) == PrependBytes(bs, r)
  {
    if r.Some? {
      assert [bs[0]] + (bs[1..] + r.value) == bs + r.value;
    }
  }

  lemma {:induction false} EncodeCharDecodes(c: char, rest: string)
    ensures PercentDecode(EncodeChar(c) + rest) == PrependBytes(Utf8Char(c), PercentDecode(rest))
  {
    if IsUriUnreserved(c) {
      assert ([c] + rest)[1..] == rest;
    } else {
      PercentEscapesDecode(Utf8Char(c), rest);
    }
  }

  /** Percent-decoding an encoded string gives back the UTF-8 bytes of the original. */
  lemma {:induction false} PercentDecodeEncode(s: string)
    ensures PercentDecode(EncodeUriComponent(s)) == Some(Utf8(s))
  {
    if s != [] {
      EncodeCharDecodes(s[0], EncodeUriComponent(s[1..]));
      PercentDecodeEncode(s[1..]);
    }
  }

  lemma Utf8TwoBytes(n: int)
    requires 0x80 <= n < 0x800
    ensures 0xC0 <= 0xC0 + n / 64 < 0xE0
    ensures (n / 64) * 64 + n % 64 == n
  {
  }

  lemma Utf8ThreeBytes(n: int)
    requires 0x800 <= n < 0x10000
    ensures 0xE0 <= 0xE0 + n / 4096 < 0xF0
    ensures (n / 4096) * 4096 + ((n / 64) % 64) * 64 + n % 64 == n
  {
    var q := n / 64;
    assert n == q * 64 + n % 64;
    assert q == (q / 64) * 64 + q % 64;
    assert q / 64 == n / 4096;
  }

  lemma Utf8FourBytes(n: int)
    requires 0x10000 <= n < 0x110000
    ensures 0xF0 <= 0xF0 + n / 262144 < 0xF8
    ensures (n / 262144) * 262144 + ((n / 4096) % 64) * 4096 + ((n / 64) % 64) * 64 + n % 64 == n
  {
    var q := n / 64;
    var r := q / 64;
    assert n == q * 64 + n % 64;
    assert q == r * 64 + q % 64;
    assert r == (r / 64) * 64 + r % 64;
    assert r == n / 4096;
    assert r / 64 == n / 262144;
  }

  lemma {:induction false} Utf8CharDecodes(c: char, rest: seq<Byte>)
    ensures Utf8Decode(Utf8Char(c) + rest) == PrependChar(c as int, Utf8Decode(rest))
  {
    var n := c as int;
    var s := Utf8Char(c) + rest;
    if n < 0x80 {
      assert s[1..] == rest;
    } else if n < 0x800 {
      Utf8TwoBytes(n);
      assert s[2..] == rest;
    } else if n < 0x10000 {
      Utf8ThreeBytes(n);
      assert s[3..] == rest;
    } else {
      Utf8FourBytes(n);
      assert s[4..] == rest;
    }
  }

  lemma {:induction false} Utf8RoundTrip(s: string)
    ensures Utf8Decode(Utf8(s)) == Some(s)
  {
    if s != [] {
      Utf8CharDecodes(s[0], Utf8(s[1..]));
      Utf8RoundTrip(s[1..]);
      assert [s[0]] + s[1..] == s;
    }
  }

  /** Decoding undoes `encodeURIComponent`: the query a listing title is turned into names exactly
      that title. */
  lemma EncodeRoundTrip(s: string)
    ensures DecodeComponent(EncodeUriComponent(s)) == Some(s)
  {
    PercentDecodeEncode(s);
    Utf8RoundTrip(s);
  }
}
