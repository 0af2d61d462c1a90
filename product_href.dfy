/**
 * The two patterns the content script applies to a product link's href:
 *   `/\/p\/[^/]+\/(\d+)/`  gives the listing id (getProductId, and the ancestor walk of the map);
 *   `/\/p\/([^/]+)/`       gives the slug the last title strategy reads.
 * Neither pattern is anchored, so `match` returns the match that starts leftmost. Because `[^/]+`
 * cannot cross the `/` that must follow it and `\d+` is greedy, a match at a given start is unique:
 * the segment runs to the next `/`, the id to the end of the digit run.
 */
module ProductHref {
  import opened Optional
  import opened JsText

  /** The end of the run of non-`/` characters starting at `i`. */
  function SegmentEnd(s: string, i: nat): (e: nat)
    requires i <= |s|
    ensures i <= e <= |s|
    ensures forall k :: i <= k < e ==> s[k] != '/'
    ensures e == |s| || s[e] == '/'
    decreases |s| - i
  {
    if i == |s| || s[i] == '/' then i else SegmentEnd(s, i + 1)
  }

  /** The end of the run of ASCII digits starting at `i`. */
  function DigitsEnd(s: string, i: nat): (e: nat)
    requires i <= |s|
    ensures i <= e <= |s|
    ensures forall k :: i <= k < e ==> IsDigit(s[k])
    ensures e == |s| || !IsDigit(s[e])
    decreases |s| - i
  {
    if i == |s| || !IsDigit(s[i]) then i else DigitsEnd(s, i + 1)
  }

  /** What a match of the id pattern starting at `i` is made of: `/p/`, a non-empty segment without
      `/` ending at `j`, a `/`, and the id, a maximal non-empty digit run. */
  predicate IdPatternAt(s: string, i: nat, j: nat, id: string) {
    && i + 3 < j < |s|
    && s[i..i + 3] == "/p/"
    && (forall k :: i + 3 <= k < j ==> s[k] != '/')
    && s[j] == '/'
    && |id| > 0 && j + 1 + |id| <= |s| && id == s[j + 1..j + 1 + |id|] && AllDigits(id)
    && (j + 1 + |id| == |s| || !IsDigit(s[j + 1 + |id|]))
  }

  /** The id pattern tried at position `i` only. */
  function IdMatchAt(s: string, i: nat): (r: Option<string>)
    requires i <= |s|
    ensures r.Some? ==> |r.value| > 0 && AllDigits(r.value)
  {
    if i + 3 <= |s| && s[i..i + 3] == "/p/" then
      var j := SegmentEnd(s, i + 3);
      if i + 3 < j < |s| then
        var k := DigitsEnd(s, j + 1);
        if k > j + 1 then
          Some(s[j + 1..k])
        else None
      else None
    else None
  }

  /** What the pattern returns at `i` has the shape of a match there. */
  lemma IdMatchSound(s: string, i: nat)
    requires i <= |s| && IdMatchAt(s, i).Some?
    ensures exists j :: IdPatternAt(s, i, j, IdMatchAt(s, i).value)
  {
    var j := SegmentEnd(s, i + 3);
    var k := DigitsEnd(s, j + 1);
    assert IdPatternAt(s, i, j, s[j + 1..k]);
  }

  /** Whatever has the shape of a match at `i` is exactly what the pattern returns there. */
  lemma IdMatchComplete(s: string, i: nat, j: nat, id: string)
    requires IdPatternAt(s, i, j, id)
    ensures IdMatchAt(s, i) == Some(id)
  {
    var e := SegmentEnd(s, i + 3);
    assert e == j;
    var k := DigitsEnd(s, j + 1);
    var m := j + 1 + |id|;
    assert k == m;
  }

  /** Where `href.match(/\/p\/[^/]+\/(\d+)/)` finds its match: the leftmost position at or after
      `from` at which the pattern matches. */
  function FirstIdMatch(s: string, from: nat): (r: Option<nat>)
    requires from <= |s|
    ensures r.Some? ==> from <= r.value <= |s| && IdMatchAt(s, r.value).Some?
    decreases |s| - from
  {
    if IdMatchAt(s, from).Some? then Some(from)
    else if from == |s| then None
    else FirstIdMatch(s, from + 1)
  }

  /** The pattern matches at no position before the one `FirstIdMatch` returns. */
  lemma {:induction false} FirstIdMatchIsFirst(s: string, from: nat)
    requires from <= |s|
    ensures var r := FirstIdMatch(s, from);
            forall k :: from <= k <= |s| && (r.None? || k < r.value) ==> IdMatchAt(s, k).None?
    decreases |s| - from
  {
    if IdMatchAt(s, from).None? && from < |s| {
      FirstIdMatchIsFirst(s, from + 1);
    }
  }

  /** getProductId: the captured digits of the leftmost match, or `''`. */
  function GetProductId(href: string): (id: string)
    ensures id == "" || AllDigits(id)
  {
    match FirstIdMatch(href, 0)
    case Some(i) => IdMatchAt(href, i).value
    case None => ""
  }

  /** The id is empty exactly when the pattern matches nowhere in the href. */
  lemma GetProductIdEmpty(href: string)
    ensures GetProductId(href) == "" <==> forall i :: 0 <= i <= |href| ==> IdMatchAt(href, i).None?
  {
    FirstIdMatchIsFirst(href, 0);
  }

  /** A non-empty id is the capture of the leftmost match: the digit run after the first
      `/p/<segment>/` that is followed by digits. */
  lemma GetProductIdLeftmost(href: string)
    ensures var id := GetProductId(href);
            id != "" ==> exists i, j :: 0 <= i <= |href| && IdPatternAt(href, i, j, id)
                                      && forall k :: 0 <= k < i ==> IdMatchAt(href, k).None?
  {
    var m := FirstIdMatch(href, 0);
    FirstIdMatchIsFirst(href, 0);
    if m.Some? {
      var id := IdMatchAt(href, m.value).value;
      IdMatchSound(href, m.value);
      var j :| IdPatternAt(href, m.value, j, id);
    }
  }

  /** The site's listing URL shape `/p/<slug>/<id>` gives back its id. */
  lemma {:induction false} ListingHrefId(slug: string, id: string)
    requires |slug| > 0 && forall k :: 0 <= k < |slug| ==> slug[k] != '/'
    requires |id| > 0 && AllDigits(id)
    ensures GetProductId("/p/" + slug + "/" + id) == id
  {
    var s := "/p/" + slug + "/" + id;
    var j := 3 + |slug|;
    assert s[0..3] == "/p/";
    assert forall k :: 3 <= k < j ==> s[k] == slug[k - 3];
    assert s[j + 1..j + 1 + |id|] == id;
    assert IdPatternAt(s, 0, j, id);
    IdMatchComplete(s, 0, j, id);
    assert FirstIdMatch(s, 0) == Some(0);
  }

  /** The slug pattern `/\/p\/([^/]+)/` tried at position `i`. */
  function SlugMatchAt(s: string, i: nat): (r: Option<string>)
    requires i <= |s|
    ensures r.Some? ==> |r.value| > 0 && forall k :: 0 <= k < |r.value| ==> r.value[k] != '/'
  {
    if i + 3 <= |s| && s[i..i + 3] == "/p/" then
      var e := SegmentEnd(s, i + 3);
      if e > i + 3 then Some(s[i + 3..e]) else None
    else None
  }

  /** Where `href.match(/\/p\/([^/]+)/)` finds its match, searching from `from` onwards. */
  function FirstSlugMatch(s: string, from: nat): (r: Option<nat>)
    requires from <= |s|
    ensures r.Some? ==> from <= r.value <= |s| && SlugMatchAt(s, r.value).Some?
    decreases |s| - from
  {
    if SlugMatchAt(s, from).Some? then Some(from)
    else if from == |s| then None
    else FirstSlugMatch(s, from + 1)
  }

  /** The slug pattern matches at no position before the one `FirstSlugMatch` returns. */
  lemma {:induction false} FirstSlugMatchIsFirst(s: string, from: nat)
    requires from <= |s|
    ensures var r := FirstSlugMatch(s, from);
            forall k :: from <= k <= |s| && (r.None? || k < r.value) ==> SlugMatchAt(s, k).None?
    decreases |s| - from
  {
    if SlugMatchAt(s, from).None? && from < |s| {
      FirstSlugMatchIsFirst(s, from + 1);
    }
  }

  /** The slug of the leftmost `/p/<segment>` in an href, if any. */
  function HrefSlug(href: string): (r: Option<string>)
  {
    match FirstSlugMatch(href, 0)
    case Some(i) => SlugMatchAt(href, i)
    case None => None
  }

  /** The listing URL shape `/p/<slug>/<id>` gives back its slug. */
  lemma {:induction false} ListingHrefSlug(slug: string, rest: string)
    requires |slug| > 0 && forall k :: 0 <= k < |slug| ==> slug[k] != '/'
    ensures HrefSlug("/p/" + slug + "/" + rest) == Some(slug)
  {
    var s := "/p/" + slug + "/" + rest;
    var j := 3 + |slug|;
    assert s[0..3] == "/p/";
    assert forall k :: 3 <= k < j ==> s[k] == slug[k - 3];
    assert s[j] == '/';
    assert SegmentEnd(s, 3) == j by {
      SegmentEndIs(s, 3, j);
    }
    assert s[3..j] == slug;
    assert FirstSlugMatch(s, 0) == Some(0);
  }

  lemma {:induction false} SegmentEndIs(s: string, i: nat, e: nat)
    requires i <= e < |s| && s[e] == '/' && forall k :: i <= k < e ==> s[k] != '/'
    ensures SegmentEnd(s, i) == e
    decreases e - i
  {
    if i < e {
      SegmentEndIs(s, i + 1, e);
    }
  }

  /** Both patterns start with `/p/`, so an href they match contains `/p/`: every href that yields
      an id or a slug is one the `a[href*="/p/"]` selector would pick. */
  lemma MatchesContainMarker(s: string)
    requires GetProductId(s) != "" || HrefSlug(s).Some?
    ensures Contains(s, "/p/")
  {
    if GetProductId(s) != "" {
      var i := FirstIdMatch(s, 0).value;
      assert OccursAt(s, "/p/", i);
    } else {
      var i := FirstSlugMatch(s, 0).value;
      assert OccursAt(s, "/p/", i);
    }
  }
}
