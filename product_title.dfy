/**
 * getProductTitle: the title of a card (its title link) comes from the first of four sources that is
 * present, in this order:
 *   1. the first heading inside the card: its trimmed text;
 *   2. else the first element inside the card whose class contains `title`, `Title`, `name` or
 *      `Name`: its trimmed text;
 *   3. else the card's `aria-label`, or its `title` attribute when the label is absent or empty, if
 *      that is non-empty (untrimmed);
 *   4. else the `/p/<slug>` segment of the card's href with every `-` turned into a space;
 *   5. else the empty string.
 * The presence of an element decides, not its text: a heading whose text is blank gives the empty
 * title even when a later source would have given one.
 */
module ProductTitle {
  import opened Optional
  import opened JsText
  import opened Dom
  import opened ProductHref

  /** `.replace(/-/g, ' ')`. */
  function DashesToSpaces(s: string): (r: string)
    ensures |r| == |s|
    ensures forall i :: 0 <= i < |s| ==> r[i] == (if s[i] == '-' then ' ' else s[i])
  {
    if s == [] then [] else [if s[0] == '-' then ' ' else s[0]] + DashesToSpaces(s[1..])
  }

  /** The fourth source: the slug of the href, dashes read as spaces. */
  function TitleFromHref(href: string): (r: Option<string>)
    ensures r.Some? <==> HrefSlug(href).Some?
    ensures r.Some? ==> |r.value| > 0 && '-' !in r.value && '/' !in r.value
  {
    match HrefSlug(href)
    case Some(slug) => Some(DashesToSpaces(slug))
    case None => None
  }

  /** The third source: `getAttribute('aria-label') || getAttribute('title')`. */
  function LabelOf(n: Node): string {
    if AttrOrEmpty(n.ariaLabel) != "" then n.ariaLabel.value else AttrOrEmpty(n.titleAttr)
  }

  function GetProductTitle(d: Document, card: nat): string
    requires card < |d|
  {
    match QuerySelector(d, card, AnyHeading)
    case Some(h) => Trim(d[h].text)
    case None =>
      match QuerySelector(d, card, TitleOrNameClass)
      case Some(e) => Trim(d[e].text)
      case None =>
        if LabelOf(d[card]) != "" then LabelOf(d[card])
        else TitleFromHref(AttrOrEmpty(d[card].href)).GetOr("")
  }

  /** Which source supplied a card's title. */
  datatype Source = HeadingText(h: nat) | ClassText(e: nat) | Label | HrefSlugText | Nothing

  /** The source the chain settles on, stated by what the card holds rather than by the order of
      the tests. */
  function SourceOf(d: Document, card: nat): (src: Source)
    requires card < |d|
    ensures src.HeadingText? ==> Picks(d, card, AnyHeading, src.h)
                                 && forall j :: 0 <= j < src.h ==> !Picks(d, card, AnyHeading, j)
    ensures src.ClassText? ==> (forall j :: 0 <= j < |d| ==> !Picks(d, card, AnyHeading, j))
                               && Picks(d, card, TitleOrNameClass, src.e)
                               && forall j :: 0 <= j < src.e ==> !Picks(d, card, TitleOrNameClass, j)
    ensures src.Label? || src.HrefSlugText? || src.Nothing? ==>
              forall j :: 0 <= j < |d| ==> !Picks(d, card, AnyHeading, j) && !Picks(d, card, TitleOrNameClass, j)
    ensures src.Label? <==> !src.HeadingText? && !src.ClassText? && LabelOf(d[card]) != ""
    ensures src.HrefSlugText? ==> HrefSlug(AttrOrEmpty(d[card].href)).Some?
    ensures src.Nothing? ==> HrefSlug(AttrOrEmpty(d[card].href)).None?
  {
    QuerySelectorIsFirst(d, card, AnyHeading);
    QuerySelectorIsFirst(d, card, TitleOrNameClass);
    match QuerySelector(d, card, AnyHeading)
    case Some(h) => HeadingText(h)
    case None =>
      match QuerySelector(d, card, TitleOrNameClass)
      case Some(e) => ClassText(e)
      case None =>
        if LabelOf(d[card]) != "" then Label
        else if HrefSlug(AttrOrEmpty(d[card].href)).Some? then HrefSlugText
        else Nothing
  }

  /** The title is what its source holds: trimmed element text, the label as it is, the slug with
      spaces for dashes (so no `-` and no `/`), or nothing. */
  lemma TitleBySource(d: Document, card: nat)
    requires card < |d|
    ensures var t := GetProductTitle(d, card);
            match SourceOf(d, card)
            case HeadingText(h) => t == Trim(d[h].text) && (t == [] || (!IsJsSpace(t[0]) && !IsJsSpace(t[|t| - 1])))
            case ClassText(e) => t == Trim(d[e].text) && (t == [] || (!IsJsSpace(t[0]) && !IsJsSpace(t[|t| - 1])))
            case Label => t == LabelOf(d[card]) && t != []
            case HrefSlugText => t != [] && '-' !in t && '/' !in t
                                 && t == DashesToSpaces(HrefSlug(AttrOrEmpty(d[card].href)).value)
            case Nothing => t == []
  {
  }

  /** A heading decides the title even when its text is blank: the empty string then comes back,
      whatever label or href the card carries. */
  lemma BlankHeadingGivesEmptyTitle(d: Document, card: nat, h: nat)
    requires card < |d| && QuerySelector(d, card, AnyHeading) == Some(h)
    requires forall i :: 0 <= i < |d[h].text| ==> IsJsSpace(d[h].text[i])
    ensures GetProductTitle(d, card) == ""
  {
    var t := Trim(d[h].text);
    var k: nat :| TrimmedAt(d[h].text, t, k);
  }

  /** `title.replace(/\s+/g, '-')` for a title whose only whitespace is single plain spaces, as the
      listing URLs spell titles. */
  function SpacesToDashes(s: string): (r: string)
    requires SingleSpaced(s)
    ensures |r| == |s|
    ensures forall i :: 0 <= i < |s| ==> r[i] == (if s[i] == ' ' then '-' else s[i])
  {
    if s == [] then []
    else
      assert forall i :: 0 <= i < |s| - 1 ==> s[1..][i] == s[i + 1];
      [if s[0] == ' ' then '-' else s[0]] + SpacesToDashes(s[1..])
  }

  /** A card that holds nothing but its href gets back the title the href was spelled from. */
  lemma {:induction false} TitleFromListingHref(d: Document, card: nat, title: string, id: string)
    requires card < |d|
    requires QuerySelector(d, card, AnyHeading).None? && QuerySelector(d, card, TitleOrNameClass).None?
    requires LabelOf(d[card]) == ""
    requires |title| > 0 && '-' !in title && '/' !in title && SingleSpaced(title)
    requires d[card].href == Some("/p/" + SpacesToDashes(title) + "/" + id)
    ensures GetProductTitle(d, card) == title
  {
    var slug := SpacesToDashes(title);
    assert forall k :: 0 <= k < |slug| ==> slug[k] != '/' by {
      assert forall k :: 0 <= k < |slug| ==> title[k] != '/';
    }
    ListingHrefSlug(slug, id);
    var t := DashesToSpaces(slug);
    assert forall k :: 0 <= k < |title| ==> t[k] == title[k] by {
      assert forall k :: 0 <= k < |title| ==> title[k] != '-';
    }
  }
}
