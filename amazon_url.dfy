/**
 * generateAmazonUrl: a listing title is cleaned in five steps and appended, percent-encoded, to the
 * Amazon search address.
 *   1. `.replace(/\d+\s*pack/gi, '')`  removes pack sizes ("12 Pack", "6pack");
 *   2. `.replace(/\([^)]*\)/g, '')`    removes each parenthetical, up to its first `)`;
 *   3. `.replace(/\s+/g, ' ')`         turns every run of whitespace into one space;
 *   4. `.trim()`;
 *   5. `.slice(0, 100)`                keeps the first 100 UTF-16 code units.
 * A global replace scans left to right: where the pattern matches, the match is dropped and the scan
 * resumes after it; elsewhere one character is kept. Each step below is that scan, written as a
 * recursion on the remaining text.
 */
module AmazonUrl {
  import opened Optional
  import opened JsText
  import opened UriEncoding

  const SearchPrefix: string := "https://www.amazon.com/s?k="
  const MaxTitleUnits: nat := 100

  /** The length of the run of digits `s` starts with. */
  function DigitRun(s: string): (n: nat)
    ensures n <= |s|
    ensures forall k :: 0 <= k < n ==> IsDigit(s[k])
    ensures n == |s| || !IsDigit(s[n])
  {
    if s != [] && IsDigit(s[0]) then 1 + DigitRun(s[1..]) else 0
  }

  /** The length of the run of whitespace `s` starts with. */
  function SpaceRun(s: string): (n: nat)
    ensures n <= |s|
    ensures forall k :: 0 <= k < n ==> IsJsSpace(s[k])
    ensures n == |s| || !IsJsSpace(s[n])
  {
    if s != [] && IsJsSpace(s[0]) then 1 + SpaceRun(s[1..]) else 0
  }

  /** The length of the match of `/\d+\s*pack/i` at the start of `s`. Backtracking cannot help this
      pattern: a shorter digit run leaves a digit where `\s*pack` must start, and a shorter space run
      leaves a space where `p` must be, so only the maximal runs can lead to `pack`. */
  function PackMatch(s: string): (r: Option<nat>)
    ensures r.Some? ==> 4 < r.value <= |s|
  {
    var d := DigitRun(s);
    var w := d + SpaceRun(s[d..]);
    if d > 0 && w + 4 <= |s| && EqualsIgnoreCase(s[w..w + 4], "pack") then Some(w + 4) else None
  }

  /** `s` starts with digits, then whitespace up to position `w`, then `pack` in any case. */
  predicate PackShapeAt(s: string, w: nat) {
    && 0 < DigitRun(s) <= w
    && w + 4 <= |s|
    && (forall k :: DigitRun(s) <= k < w ==> IsJsSpace(s[k]))
    && EqualsIgnoreCase(s[w..w + 4], "pack")
  }

  /** The pattern matches at the start of `s`, ending at `w + 4`, exactly when `s` has that shape. */
  lemma PackMatchIsShape(s: string, w: nat)
    ensures PackMatch(s) == Some(w + 4) <==> PackShapeAt(s, w)
  {
    var d := DigitRun(s);
    if PackShapeAt(s, w) {
      assert s[w..w + 4][0] == s[w] && AsciiUpper("pack"[0]) == 'P';
      assert s[w] == 'p' || s[w] == 'P';
      assert forall k :: 0 <= k < w - d ==> s[d..][k] == s[d + k];
      SpaceRunIs(s[d..], w - d);
    }
  }

  /** Step 1: `.replace(/\d+\s*pack/gi, '')`. */
  function StripPacks(s: string): (r: string)
    ensures |r| <= |s|
    decreases |s|
  {
    if s == [] then []
    else match PackMatch(s)
      case Some(n) => StripPacks(s[n..])
      case None => [s[0]] + StripPacks(s[1..])
  }

  /** A title in which the pack pattern matches nowhere is left as it is. */
  lemma {:induction false} StripPacksWithoutPacks(s: string)
    requires forall i :: 0 <= i < |s| ==> PackMatch(s[i..]).None?
    ensures StripPacks(s) == s
    decreases |s|
  {
    if s != [] {
      assert PackMatch(s[0..]).None? && s[0..] == s;
      forall i | 0 <= i < |s| - 1
        ensures PackMatch(s[1..][i..]).None?
      {
        assert s[1..][i..] == s[i + 1..];
      }
      StripPacksWithoutPacks(s[1..]);
    }
  }

  /** A title without digits contains no pack size. */
  lemma NoDigitsNoPacks(s: string)
    requires forall i :: 0 <= i < |s| ==> !IsDigit(s[i])
    ensures forall i :: 0 <= i < |s| ==> PackMatch(s[i..]).None?
  {
    forall i | 0 <= i < |s|
      ensures PackMatch(s[i..]).None?
    {
      assert s[i..][0] == s[i];
    }
  }

  /** A pack size at the front of the title is removed whole, whatever its case and spacing. */
  lemma {:induction false} StripPacksRemoves(digits: string, spaces: string, word: string, rest: string)
    requires digits != [] && AllDigits(digits)
    requires forall k :: 0 <= k < |spaces| ==> IsJsSpace(spaces[k])
    requires EqualsIgnoreCase(word, "pack")
    ensures StripPacks(digits + spaces + word + rest) == StripPacks(rest)
  {
    var s := digits + spaces + word + rest;
    var d := |digits|;
    var w := d + |spaces|;
    assert forall k :: 0 <= k < d ==> s[k] == digits[k];
    assert forall k :: d <= k < w ==> s[k] == spaces[k - d];
    assert s[w..w + 4] == word;
    assert !IsDigit(s[d]) by {
      if |spaces| > 0 {
        assert s[d] == spaces[0];
      } else {
        assert s[d] == word[0];
      }
    }
    DigitRunIs(s, d);
    SpaceRunIs(s[d..], |spaces|);
    assert PackMatch(s) == Some(w + 4);
    assert s[w + 4..] == rest;
  }

  lemma {:induction false} DigitRunIs(s: string, n: nat)
    requires n <= |s| && (forall k :: 0 <= k < n ==> IsDigit(s[k])) && (n == |s| || !IsDigit(s[n]))
    ensures DigitRun(s) == n
  {
    if n > 0 {
      DigitRunIs(s[1..], n - 1);
    }
  }

  lemma {:induction false} SpaceRunIs(s: string, n: nat)
    requires n <= |s| && (forall k :: 0 <= k < n ==> IsJsSpace(s[k])) && (n == |s| || !IsJsSpace(s[n]))
    ensures SpaceRun(s) == n
  {
    if n > 0 {
      SpaceRunIs(s[1..], n - 1);
    }
  }

  /** The position of the first `c` in `s`, or `|s|` when there is none. */
  function IndexOf(s: string, c: char): (k: nat)
    ensures k <= |s|
    ensures forall m :: 0 <= m < k ==> s[m] != c
    ensures k < |s| ==> s[k] == c
  {
    if s == [] || s[0] == c then 0 else 1 + IndexOf(s[1..], c)
  }

  /** No `(` is followed, anywhere later, by a `)`: no parenthetical is left. */
  predicate NoClosedParen(s: string) {
    forall i, j :: 0 <= i < j < |s| && s[i] == '(' ==> s[j] != ')'
  }

  /** Step 2: `.replace(/\([^)]*\)/g, '')`. At a `(` the pattern matches exactly when a `)` follows,
      and then it runs to the first one, since `[^)]*` cannot pass it. */
  function StripParens(s: string): (r: string)
    ensures |r| <= |s|
    ensures NoClosedParen(r)
    ensures ')' !in s ==> ')' !in r
    decreases |s|
  {
    if s == [] then []
    else if s[0] == '(' && IndexOf(s, ')') < |s| then StripParens(s[IndexOf(s, ')') + 1..])
    else
      var rest := StripParens(s[1..]);
      assert ')' !in s[1..] ==> ')' !in rest;
      assert s[0] == '(' ==> ')' !in s[1..];
      assert forall j :: 1 <= j < |[s[0]] + rest| ==> ([s[0]] + rest)[j] == rest[j - 1];
      [s[0]] + rest
  }

  /** A title without `(` has no parenthetical to remove. */
  lemma {:induction false} StripParensWithoutParens(s: string)
    requires '(' !in s
    ensures StripParens(s) == s
    decreases |s|
  {
    if s != [] {
      assert '(' !in s[1..];
      StripParensWithoutParens(s[1..]);
    }
  }

  /** Step 3: `.replace(/\s+/g, ' ')`; a greedy `\s+` takes each whole run of whitespace. */
  function CollapseSpaces(s: string): (r: string)
    ensures |r| <= |s|
    ensures r == [] <==> s == []
    ensures s != [] ==> r[0] == (if IsJsSpace(s[0]) then ' ' else s[0])
    ensures SingleSpaced(r)
    ensures ')' !in s ==> ')' !in r
    ensures NoClosedParen(s) ==> NoClosedParen(r)
    decreases |s|
  {
    if s == [] then []
    else
      var n := if IsJsSpace(s[0]) then SpaceRun(s) else 1;
      var head := if IsJsSpace(s[0]) then ' ' else s[0];
      var rest := CollapseSpaces(s[n..]);
      assert IsJsSpace(s[0]) ==> n == |s| || !IsJsSpace(s[n]);
      assert rest != [] ==> rest[0] == if IsJsSpace(s[n]) then ' ' else s[n];
      assert ')' in s[n..] ==> ')' in s;
      SuffixNoClosedParen(s, n);
      ConsSingleSpaced(head, rest);
      ConsNoClosedParen(head, rest);
      [head] + rest
  }

  lemma SuffixNoClosedParen(s: string, n: nat)
    requires 0 < n <= |s|
    ensures NoClosedParen(s) ==> NoClosedParen(s[n..])
    ensures NoClosedParen(s) && s[0] == '(' ==> ')' !in s[n..]
  {
    assert forall j :: 0 <= j < |s| - n ==> s[n..][j] == s[n + j];
  }

  lemma ConsSingleSpaced(c: char, rest: string)
    requires SingleSpaced(rest)
    requires IsJsSpace(c) ==> c == ' ' && (rest == [] || !IsJsSpace(rest[0]))
    ensures SingleSpaced([c] + rest)
  {
    assert forall j :: 1 <= j < |[c] + rest| ==> ([c] + rest)[j] == rest[j - 1];
  }

  lemma ConsNoClosedParen(c: char, rest: string)
    ensures NoClosedParen(rest) && (c == '(' ==> ')' !in rest) ==> NoClosedParen([c] + rest)
  {
    assert forall j :: 1 <= j < |[c] + rest| ==> ([c] + rest)[j] == rest[j - 1];
  }

  /** Text without whitespace other than lone plain spaces is left as it is. */
  lemma {:induction false} CollapseSingleSpaced(s: string)
    requires SingleSpaced(s)
    ensures CollapseSpaces(s) == s
    decreases |s|
  {
    if s != [] {
      if IsJsSpace(s[0]) {
        SpaceRunIs(s, 1);
      }
      CollapseSingleSpaced(s[1..]);
    }
  }

  /** A piece of a string keeps the properties the cleaning steps establish. */
  lemma Substring(s: string, a: nat, b: nat)
    requires a <= b <= |s|
    ensures SingleSpaced(s) ==> SingleSpaced(s[a..b])
    ensures NoClosedParen(s) ==> NoClosedParen(s[a..b])
  {
    assert forall i :: 0 <= i < b - a ==> s[a..b][i] == s[a + i];
  }

  /** Trimming keeps the properties the cleaning steps establish. */
  lemma TrimKeepsClean(c: string)
    ensures SingleSpaced(c) ==> SingleSpaced(Trim(c))
    ensures NoClosedParen(c) ==> NoClosedParen(Trim(c))
  {
    var t := Trim(c);
    var k: nat :| TrimmedAt(c, t, k);
    assert t == c[k..k + |t|];
    Substring(c, k, k + |t|);
  }

  /** The longest prefix of `s` that fits in `n` UTF-16 code units without splitting a character. */
  function TakeUnits(s: string, n: nat): (r: string)
    ensures |r| <= |s| && r == s[..|r|]
    ensures JsLength(r) <= n
    ensures r == s || JsLength(r) + UnitLen(s[|r|]) > n
  {
    if s == [] || UnitLen(s[0]) > n then []
    else
      var rest := TakeUnits(s[1..], n - UnitLen(s[0]));
      assert ([s[0]] + rest)[1..] == rest;
      [s[0]] + rest
  }

  /** A string that fits is kept whole. */
  lemma {:induction false} TakeUnitsWhole(s: string, n: nat)
    requires JsLength(s) <= n
    ensures TakeUnits(s, n) == s
  {
    if s != [] {
      TakeUnitsWhole(s[1..], n - UnitLen(s[0]));
    }
  }

  /** What `.slice(0, n)` leaves: the characters wholly inside the first `n` code units, and whether
      the cut falls between the two halves of a surrogate pair (the high half is then kept alone). */
  datatype Sliced = Sliced(kept: string, splitsPair: bool)

  function SliceUnits(s: string, n: nat): (r: Sliced)
    ensures r.kept == TakeUnits(s, n)
    ensures r.splitsPair <==> r.kept != s && JsLength(r.kept) + 1 == n && UnitLen(s[|r.kept|]) == 2
  {
    if s == [] then Sliced([], false)
    else if UnitLen(s[0]) > n then Sliced([], n > 0)
    else
      var rest := SliceUnits(s[1..], n - UnitLen(s[0]));
      assert ([s[0]] + rest.kept)[1..] == rest.kept;
      Sliced([s[0]] + rest.kept, rest.splitsPair)
  }

  /** Steps 1 to 4: no parenthetical, single plain spaces, no whitespace at either end. */
  function Normalise(title: string): (t: string)
    ensures t == [] || (!IsJsSpace(t[0]) && !IsJsSpace(t[|t| - 1]))
    ensures SingleSpaced(t)
    ensures NoClosedParen(t)
  {
    var c := CollapseSpaces(StripParens(StripPacks(title)));
    TrimKeepsClean(c);
    Trim(c)
  }

  /** The cleaned title, cut to 100 code units without splitting a character: the longest prefix
      of the normalised title that fits. */
  function CleanTitle(title: string): (r: string)
    ensures JsLength(r) <= MaxTitleUnits
    ensures r == [] || !IsJsSpace(r[0])
    ensures SingleSpaced(r)
    ensures NoClosedParen(r)
    ensures var t := Normalise(title);
            |r| <= |t| && r == t[..|r|] && (|r| < |t| ==> JsLength(r) + UnitLen(t[|r|]) > MaxTitleUnits)
  {
    var t := Normalise(title);
    var r := TakeUnits(t, MaxTitleUnits);
    Substring(t, 0, |r|);
    r
  }

  /** A title that is already clean (no pack size, no `(`, single plain spaces, no whitespace at
      either end, at most 100 code units) is searched for as it is. */
  lemma TidyTitleUnchanged(title: string)
    requires forall i :: 0 <= i < |title| ==> PackMatch(title[i..]).None?
    requires '(' !in title
    requires SingleSpaced(title)
    requires title == [] || (!IsJsSpace(title[0]) && !IsJsSpace(title[|title| - 1]))
    requires JsLength(title) <= MaxTitleUnits
    ensures CleanTitle(title) == title
  {
    NormaliseTidy(title);
    TakeUnitsWhole(title, MaxTitleUnits);
  }

  /** Steps 1 to 4 leave a title with nothing for them to change as it is. */
  lemma NormaliseTidy(title: string)
    requires forall i :: 0 <= i < |title| ==> PackMatch(title[i..]).None?
    requires '(' !in title
    requires SingleSpaced(title)
    requires title == [] || (!IsJsSpace(title[0]) && !IsJsSpace(title[|title| - 1]))
    ensures Normalise(title) == title
  {
    StripPacksWithoutPacks(title);
    StripParensWithoutParens(title);
    CollapseSingleSpaced(title);
    TrimKeepsTrimmed(title);
  }

  /** generateAmazonUrl, with the truncation that keeps whole characters. */
  function GenerateAmazonUrl(title: string): (url: string)
    ensures |url| >= |SearchPrefix| && url[..|SearchPrefix|] == SearchPrefix
    ensures WellEncoded(url[|SearchPrefix|..])
    ensures DecodeComponent(url[|SearchPrefix|..]) == Some(CleanTitle(title))
  {
    var q := EncodeUriComponent(CleanTitle(title));
    EncodeRoundTrip(CleanTitle(title));
    assert (SearchPrefix + q)[|SearchPrefix|..] == q;
    SearchPrefix + q
  }

  /** The only `p` of the search address's fixed part is the one in `https`. */
  lemma PrefixLetterP(i: nat)
    requires i < |SearchPrefix| && SearchPrefix[i] == 'p'
    ensures i == 3
  {
  }

  /** Nothing without a `/` appended to the search address makes a `/p/` appear. */
  lemma {:induction false} PrefixKeepsMarkerOut(q: string)
    requires forall i :: 0 <= i < |q| ==> q[i] != '/'
    ensures !Contains(SearchPrefix + q, "/p/")
  {
    var u := SearchPrefix + q;
    var p := |SearchPrefix|;
    forall i | 0 <= i <= |u| - 3
      ensures !OccursAt(u, "/p/", i)
    {
      var w := u[i..i + 3];
      assert w[0] == u[i] && w[1] == u[i + 1] && w[2] == u[i + 2];
      if i + 2 >= p {
        assert u[i + 2] == q[i + 2 - p];
      } else if u[i + 1] == 'p' {
        assert u[i + 1] == SearchPrefix[i + 1];
        PrefixLetterP(i + 1);
        assert u[i] == SearchPrefix[2];
      }
    }
  }

  /** The annotation's address is never taken for a listing link: it contains no `/p/`. */
  lemma AmazonUrlIsNotProductLink(title: string)
    ensures !Contains(GenerateAmazonUrl(title), "/p/")
  {
    var q := EncodeUriComponent(CleanTitle(title));
    PrefixKeepsMarkerOut(q);
  }

  /** The exception `encodeURIComponent` throws on a lone surrogate. */
  datatype UriError = UriError

  /** generateAmazonUrl as written: `.slice(0, 100)` counts code units, so it can keep the high half
      of a surrogate pair, and `encodeURIComponent` then throws. */
  function GenerateAmazonUrlAsWritten(title: string): (r: Result<string, UriError>)
    ensures r.Success? <==> !SliceUnits(Normalise(title), MaxTitleUnits).splitsPair
    ensures r.Success? ==> r.value == GenerateAmazonUrl(title)
  {
    var cut := SliceUnits(Normalise(title), MaxTitleUnits);
    if cut.splitsPair then Failure(UriError)
    else Success(SearchPrefix + EncodeUriComponent(cut.kept))
  }

  lemma {:induction false} SliceAfterFit(a: string, c: char, n: nat)
    requires JsLength(a) + 1 == n && UnitLen(c) == 2
    ensures SliceUnits(a + [c], n).splitsPair
    decreases |a|
  {
    if a == [] {
      assert a + [c] == [c];
    } else {
      assert (a + [c])[0] == a[0] && (a + [c])[1..] == a[1..] + [c];
      assert JsLength(a) == UnitLen(a[0]) + JsLength(a[1..]);
      assert UnitLen(a[0]) < n;
      SliceAfterFit(a[1..], c, n - UnitLen(a[0]));
    }
  }

  /** A title of 99 characters of the Basic Multilingual Plane with nothing for the cleaning steps to
      remove, followed by one astral character: the cut at 100 code units falls inside the last
      character's surrogate pair. */
  lemma {:induction false} SplitAfterNinetyNine(a: string, c: char)
    requires |a| == 99
    requires forall i :: 0 <= i < |a| ==> !IsDigit(a[i]) && a[i] != '(' && !IsJsSpace(a[i]) && a[i] as int < 0x10000
    requires UnitLen(c) == 2 && !IsJsSpace(c)
    ensures GenerateAmazonUrlAsWritten(a + [c]).Failure?
    ensures CleanTitle(a + [c]) == a
  {
    var t := a + [c];
    assert forall i :: 0 <= i < |t| ==> !IsDigit(t[i]) && t[i] != '(' && !IsJsSpace(t[i]) by {
      assert forall i :: 0 <= i < |a| ==> t[i] == a[i];
    }
    NoDigitsNoPacks(t);
    NormaliseTidy(t);
    JsLengthBmp(a);
    SliceAfterFit(a, c, MaxTitleUnits);
    TakeBeforeAstral(a, c);
  }

  /** The cut at 100 code units keeps exactly the 99 characters before the astral one. */
  lemma TakeBeforeAstral(a: string, c: char)
    requires |a| == 99
    requires forall i :: 0 <= i < |a| ==> a[i] as int < 0x10000
    requires UnitLen(c) == 2
    ensures TakeUnits(a + [c], MaxTitleUnits) == a
  {
    var t := a + [c];
    JsLengthBmp(a);
    JsLengthAppend(a, [c]);
    assert JsLength([c]) == 2;
    var kept := TakeUnits(t, MaxTitleUnits);
    assert kept != t && |kept| <= 99;
    assert forall i :: 0 <= i < |kept| ==> kept[i] == a[i];
    JsLengthBmp(kept);
    assert |kept| == 99;
    assert kept == a;
  }

  /** Ninety-nine letters followed by an emoji: the as-written address throws where the corrected one
      drops the emoji. */
  lemma TruncationSplitsSurrogate()
    ensures GenerateAmazonUrlAsWritten(seq(99, _ => 'a') + "\U{1F600}").Failure?
    ensures CleanTitle(seq(99, _ => 'a') + "\U{1F600}") == seq(99, _ => 'a')
  {
    var a := seq(99, _ => 'a');
    assert "\U{1F600}" == ['\U{1F600}'];
    SplitAfterNinetyNine(a, '\U{1F600}');
  }
}
