/**
 * The JavaScript string primitives the content script relies on: the whitespace class shared by
 * `\s` and `String.prototype.trim`, `trim` itself, the ASCII case folding that a regular expression
 * with the `i` flag (and no `u` flag) applies to ASCII patterns, `\d`, substring search, and the
 * UTF-16 length that `.length` and `.slice` count in.
 *
 * A JavaScript string is modelled as a sequence of Unicode scalar values; a character outside the
 * Basic Multilingual Plane stands for the two UTF-16 code units (a surrogate pair) JavaScript uses.
 */
module JsText {

  /** ECMA-262 WhiteSpace and LineTerminator: the set matched by `\s` and removed by `trim`. */
  predicate IsJsSpace(c: char) {
    var n := c as int;
    n == 0x09 || n == 0x0A || n == 0x0B || n == 0x0C || n == 0x0D || n == 0x20
    || n == 0xA0 || n == 0x1680 || (0x2000 <= n <= 0x200A) || n == 0x2028 || n == 0x2029
    || n == 0x202F || n == 0x205F || n == 0x3000 || n == 0xFEFF
  }

  /** Every whitespace character is a plain space and none is followed by another. */
  predicate SingleSpaced(s: string) {
    forall i :: 0 <= i < |s| && IsJsSpace(s[i]) ==> s[i] == ' ' && (i + 1 < |s| ==> !IsJsSpace(s[i + 1]))
  }

  /** `\d`: the ASCII digits only. */
  predicate IsDigit(c: char) {
    '0' <= c <= '9'
  }

  predicate AllDigits(s: string) {
    forall i :: 0 <= i < |s| ==> IsDigit(s[i])
  }

  predicate NoSpaces(s: string) {
    forall i :: 0 <= i < |s| ==> !IsJsSpace(s[i])
  }

  /** The canonical form a case-insensitive, non-Unicode regular expression compares ASCII letters in. */
  function AsciiUpper(c: char): (u: char)
    ensures 'a' <= c <= 'z' ==> u as int == c as int - 32
    ensures !('a' <= c <= 'z') ==> u == c
  {
    if 'a' <= c <= 'z' then (c as int - 32) as char else c
  }

  /** Whole-string, case-insensitive equality as `/^phrase$/i` decides it for an ASCII phrase. */
  predicate EqualsIgnoreCase(s: string, phrase: string) {
    |s| == |phrase| && forall i :: 0 <= i < |s| ==> AsciiUpper(s[i]) == AsciiUpper(phrase[i])
  }

  /** `s.includes(sub)`, also the `*=` attribute selector. */
  predicate Contains(s: string, sub: string) {
    exists i :: 0 <= i <= |s| - |sub| && OccursAt(s, sub, i)
  }

  predicate OccursAt(s: string, sub: string, i: nat) {
    i + |sub| <= |s| && s[i..i + |sub|] == sub
  }

  /** `trimStart`: drop the leading run of whitespace. */
  function TrimStart(s: string): (r: string)
    ensures |r| <= |s| && r == s[|s| - |r|..]
    ensures r == [] || !IsJsSpace(r[0])
    ensures forall i :: 0 <= i < |s| - |r| ==> IsJsSpace(s[i])
  {
    if s != [] && IsJsSpace(s[0]) then TrimStart(s[1..]) else s
  }

  /** `trimEnd`: drop the trailing run of whitespace. */
  function TrimEnd(s: string): (r: string)
    ensures |r| <= |s| && r == s[..|r|]
    ensures r == [] || !IsJsSpace(r[|r| - 1])
    ensures forall i :: |r| <= i < |s| ==> IsJsSpace(s[i])
  {
    if s != [] && IsJsSpace(s[|s| - 1]) then TrimEnd(s[..|s| - 1]) else s
  }

  /** `r` is `s` with the whitespace before position `k` and after `k + |r|` removed. */
  predicate TrimmedAt(s: string, r: string, k: nat) {
    k + |r| <= |s| && r == s[k..k + |r|]
    && (forall i :: 0 <= i < k ==> IsJsSpace(s[i]))
    && (forall i :: k + |r| <= i < |s| ==> IsJsSpace(s[i]))
  }

  /** `trim`: a contiguous piece of `s` with no whitespace at either end, all of the rest whitespace. */
  function Trim(s: string): (r: string)
    ensures exists k :: TrimmedAt(s, r, k)
    ensures r == [] || (!IsJsSpace(r[0]) && !IsJsSpace(r[|r| - 1]))
  {
    var t := TrimStart(s);
    var r := TrimEnd(t);
    assert r == [] || r[0] == t[0];
    assert TrimmedAt(s, r, |s| - |t|);
    r
  }

  /** A string already free of surrounding whitespace is left as it is by `trim`. */
  lemma {:induction false} TrimKeepsTrimmed(s: string)
    requires s == [] || (!IsJsSpace(s[0]) && !IsJsSpace(s[|s| - 1]))
    ensures Trim(s) == s
  {
    var t := TrimStart(s);
    assert t == s;
    assert TrimEnd(t) == t;
  }

  lemma {:induction false} TrimStartPadding(pre: string, rest: string)
    requires forall i :: 0 <= i < |pre| ==> IsJsSpace(pre[i])
    requires rest == [] || !IsJsSpace(rest[0])
    ensures TrimStart(pre + rest) == rest
  {
    if pre == [] {
      assert pre + rest == rest;
    } else {
      assert (pre + rest)[1..] == pre[1..] + rest;
      TrimStartPadding(pre[1..], rest);
    }
  }

  lemma {:induction false} TrimEndPadding(body: string, post: string)
    requires forall i :: 0 <= i < |post| ==> IsJsSpace(post[i])
    requires body == [] || !IsJsSpace(body[|body| - 1])
    ensures TrimEnd(body + post) == body
  {
    if post == [] {
      assert body + post == body;
    } else {
      var s := body + post;
      assert s[..|s| - 1] == body + post[..|post| - 1];
      TrimEndPadding(body, post[..|post| - 1]);
    }
  }

  /** Whitespace around a phrase with none at its ends disappears under `trim`. */
  lemma {:induction false} TrimStripsPadding(pre: string, body: string, post: string)
    requires forall i :: 0 <= i < |pre| ==> IsJsSpace(pre[i])
    requires forall i :: 0 <= i < |post| ==> IsJsSpace(post[i])
    requires body != [] && !IsJsSpace(body[0]) && !IsJsSpace(body[|body| - 1])
    ensures Trim(pre + body + post) == body
  {
    assert pre + body + post == pre + (body + post);
    TrimStartPadding(pre, body + post);
    TrimEndPadding(body, post);
  }

  /** The number of UTF-16 code units one character occupies. */
  function UnitLen(c: char): (n: nat)
    ensures n == 1 || n == 2
    ensures n == 2 <==> c as int >= 0x10000
  {
    if c as int < 0x10000 then 1 else 2
  }

  /** `s.length` in JavaScript: the number of UTF-16 code units. */
  function JsLength(s: string): (n: nat)
    ensures |s| <= n <= 2 * |s|
  {
    if s == [] then 0 else UnitLen(s[0]) + JsLength(s[1..])
  }

  /** JsLength adds up over concatenation. */
  lemma {:induction false} JsLengthAppend(a: string, b: string)
    ensures JsLength(a + b) == JsLength(a) + JsLength(b)
  {
    if a == [] {
      assert a + b == b;
    } else {
      assert (a + b)[0] == a[0] && (a + b)[1..] == a[1..] + b;
      JsLengthAppend(a[1..], b);
    }
  }

  /** A string without astral characters has as many code units as characters. */
  lemma {:induction false} JsLengthBmp(s: string)
    requires forall i :: 0 <= i < |s| ==> s[i] as int < 0x10000
    ensures JsLength(s) == |s|
  {
    if s != [] {
      JsLengthBmp(s[1..]);
    }
  }
}
