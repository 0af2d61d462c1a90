/**
 * The variant of the engine the unit-test file carries. Its `buildConditionMap` classifies a span's
 * trimmed text both as a condition (the same four phrases) and as one of four site locations, and
 * keeps per listing id a record `{condition, location}` that later spans update field by field
 * without erasing. Its `shouldHideCard` adds a location rule to the four condition toggles. The
 * ancestor walk from a span to a listing id is the one of the production engine.
 */
module TestVariant {
  import opened Optional
  import opened JsText
  import opened Dom
  import opened Classifier
  import opened ConditionMap
  import opened ProductHref
  import Filters

  /** The location names the variant recognises, in the order it tries them. */
  const LocationKeywords: seq<string> := ["North Las Vegas", "Dean Martin", "Henderson", "Decatur"]

  /** The first of `keys` that equals `text` exactly; `""` when none does. */
  function FirstKeyword(keys: seq<string>, text: string): (loc: string)
    ensures loc == (if text in keys then text else "")
  {
    if keys == [] then ""
    else if text == keys[0] then keys[0]
    else FirstKeyword(keys[1..], text)
  }

  /** The location a span's trimmed text names: itself when it is one of the four names, compared
      exactly and with case, otherwise `""`. */
  function LocationOf(text: string): (loc: string)
    ensures loc != "" <==> text in LocationKeywords
    ensures loc != "" ==> loc == text
  {
    FirstKeyword(LocationKeywords, text)
  }

  /** The `for … of` loop over the keywords with its `break`. */
  method FindLocation(text: string) returns (location: string)
    ensures location == LocationOf(text)
  {
    location := "";
    var i := 0;
    while i < |LocationKeywords|
      invariant 0 <= i <= |LocationKeywords|
      invariant location == ""
      invariant text !in LocationKeywords[..i]
    {
      if text == LocationKeywords[i] {
        location := LocationKeywords[i];
        break;
      }
      assert LocationKeywords[..i + 1] == LocationKeywords[..i] + [LocationKeywords[i]];
      i := i + 1;
    }
    assert i == |LocationKeywords| ==> LocationKeywords[..i] == LocationKeywords;
  }

  /** The location test is exact: another capitalisation or surrounding text names no location. */
  lemma LocationIsCaseSensitive()
    ensures LocationOf("Henderson") == "Henderson"
    ensures LocationOf("henderson") == "" && LocationOf("HENDERSON") == ""
    ensures LocationOf("Henderson Warehouse") == ""
  {
  }

  /** The record the variant keeps per listing id. */
  datatype Entry = Entry(condition: Condition, location: string)

  /** `{ condition: '', location: '' }`, what a listing without a record reads as. */
  const NoEntry: Entry := Entry(NoCondition, "")

  /** `conditionMap.get(productId) || { condition: '', location: '' }`. */
  function Lookup(m: map<string, Entry>, id: string): Entry {
    if id in m then m[id] else NoEntry
  }

  /** `if (condition) existing.condition = condition; if (location) existing.location = location;` */
  function Merge(existing: Entry, condition: Condition, location: string): (e: Entry)
    ensures condition != NoCondition ==> e.condition == condition
    ensures location != "" ==> e.location == location
  {
    Entry(if condition != NoCondition then condition else existing.condition,
          if location != "" then location else existing.location)
  }

  /** A partial update never erases: a field the update leaves empty keeps its value, so a field
      once set stays non-empty. */
  lemma MergeNeverErases(existing: Entry, condition: Condition, location: string)
    ensures condition == NoCondition ==> Merge(existing, condition, location).condition == existing.condition
    ensures location == "" ==> Merge(existing, condition, location).location == existing.location
    ensures existing.condition != NoCondition ==> Merge(existing, condition, location).condition != NoCondition
    ensures existing.location != "" ==> Merge(existing, condition, location).location != ""
  {
  }

  /** What one span of the variant sees: the condition and the location its trimmed text names,
      and the id its walk resolves to. */
  datatype SpanInfo = SpanInfo(condition: Condition, location: string, id: string)

  /** The location a node's text names, if the node is a span. */
  function SpanLocation(n: Node): string {
    if n.kind == Span then LocationOf(Trim(n.text)) else ""
  }

  function SpanInfoOf(d: Document, j: nat): SpanInfo
    requires WellFormed(d) && j < |d|
  {
    SpanInfo(SpanCondition(d[j]), SpanLocation(d[j]), SpanProductId(d, j))
  }

  /** The span information of the first `n` nodes, in document order. */
  function SpanInfos(d: Document, n: nat): (es: seq<SpanInfo>)
    requires WellFormed(d) && n <= |d|
    ensures |es| == n
  {
    if n == 0 then [] else SpanInfos(d, n - 1) + [SpanInfoOf(d, n - 1)]
  }

  /** The span writes a record for `id`: it names a condition or a location and resolves to `id`. */
  predicate Writes(e: SpanInfo, id: string) {
    (e.condition != NoCondition || e.location != "") && id != "" && e.id == id
  }

  /** What one span does to the map: a span that names a condition or a location and is tied to an
      id merges its fields into that id's record; any other node leaves the map alone. */
  function AddInfo(m: map<string, Entry>, e: SpanInfo): (m': map<string, Entry>)
    ensures Writes(e, e.id) ==> m' == m[e.id := Merge(Lookup(m, e.id), e.condition, e.location)]
    ensures !Writes(e, e.id) ==> m' == m
  {
    if (e.condition != NoCondition || e.location != "") && e.id != "" then
      m[e.id := Merge(Lookup(m, e.id), e.condition, e.location)]
    else m
  }

  /** The map after the spans `es` have been applied in order. */
  function EntryMap(es: seq<SpanInfo>): map<string, Entry> {
    if es == [] then map[] else AddInfo(EntryMap(es[..|es| - 1]), es[|es| - 1])
  }

  /** The map the variant's buildConditionMap returns for a document. */
  function EntryMapOf(d: Document): map<string, Entry>
    requires WellFormed(d)
  {
    EntryMap(SpanInfos(d, |d|))
  }

  /** The `forEach` callback for one span: the walk runs only when the text names something. */
  method VisitSpan(d: Document, span: nat, m: map<string, Entry>) returns (m': map<string, Entry>)
    requires WellFormed(d) && span < |d| && d[span].kind == Span
    ensures m' == AddInfo(m, SpanInfoOf(d, span))
  {
    m' := m;
    var text := Trim(d[span].text);
    var condition := ConditionOf(text);
    var location := FindLocation(text);
    if condition != NoCondition || location != "" {
      var productId := ResolveProductId(d, span);
      if productId != "" {
        var existing := Lookup(m', productId);
        if condition != NoCondition {
          existing := existing.(condition := condition);
        }
        if location != "" {
          existing := existing.(location := location);
        }
        m' := m'[productId := existing];
      }
    }
  }

  /** The variant's buildConditionMap: the spans in document order. */
  method BuildEntryMap(d: Document) returns (m: map<string, Entry>)
    requires WellFormed(d)
    ensures m == EntryMapOf(d)
  {
    m := map[];
    var i := 0;
    while i < |d|
      invariant 0 <= i <= |d|
      invariant m == EntryMap(SpanInfos(d, i))
    {
      m := VisitNode(d, i, m);
      i := i + 1;
    }
  }

  /** The callback's effect on the map for node `i`, which only spans reach. */
  method VisitNode(d: Document, i: nat, m: map<string, Entry>) returns (m': map<string, Entry>)
    requires WellFormed(d) && i < |d| && m == EntryMap(SpanInfos(d, i))
    ensures m' == EntryMap(SpanInfos(d, i + 1))
  {
    EntryMapStep(d, i);
    m' := m;
    if d[i].kind == Span {
      m' := VisitSpan(d, i, m);
    }
  }

  /** One more node applies its span information; a node that is not a span changes nothing. */
  lemma EntryMapStep(d: Document, i: nat)
    requires WellFormed(d) && i < |d|
    ensures EntryMap(SpanInfos(d, i + 1)) == AddInfo(EntryMap(SpanInfos(d, i)), SpanInfoOf(d, i))
    ensures d[i].kind != Span ==> EntryMap(SpanInfos(d, i + 1)) == EntryMap(SpanInfos(d, i))
  {
    assert SpanInfos(d, i + 1)[..i] == SpanInfos(d, i);
  }

  /** The condition of the last span in `es` that names one for `id`, or none. */
  function LastCondition(es: seq<SpanInfo>, id: string): Condition {
    if es == [] then NoCondition
    else if es[|es| - 1].condition != NoCondition && id != "" && es[|es| - 1].id == id then es[|es| - 1].condition
    else LastCondition(es[..|es| - 1], id)
  }

  /** The location of the last span in `es` that names one for `id`, or `""`. */
  function LastLocation(es: seq<SpanInfo>, id: string): string {
    if es == [] then ""
    else if es[|es| - 1].location != "" && id != "" && es[|es| - 1].id == id then es[|es| - 1].location
    else LastLocation(es[..|es| - 1], id)
  }

  /** A listing has a record exactly when some span writes one for it. */
  lemma {:induction false} EntryWritten(es: seq<SpanInfo>, id: string)
    ensures id in EntryMap(es) <==> exists k :: 0 <= k < |es| && Writes(es[k], id)
  {
    if es != [] {
      var init := es[..|es| - 1];
      EntryWritten(init, id);
      if exists k :: 0 <= k < |init| && Writes(init[k], id) {
        var k :| 0 <= k < |init| && Writes(init[k], id);
        assert Writes(es[k], id);
      }
      if exists k :: 0 <= k < |es| && Writes(es[k], id) {
        var k :| 0 <= k < |es| && Writes(es[k], id);
        if k < |init| {
          assert Writes(init[k], id);
        }
      }
    }
  }

  /** Field by field, a listing's record holds the condition of the last span that named a
      condition for it and the location of the last span that named a location for it: a span that
      names only one of the two leaves the other as it was. A listing without a record reads as
      both empty. */
  lemma {:induction false} EntryFieldsAreLast(es: seq<SpanInfo>, id: string)
    ensures Lookup(EntryMap(es), id) == Entry(LastCondition(es, id), LastLocation(es, id))
  {
    if es != [] {
      EntryFieldsAreLast(es[..|es| - 1], id);
    }
  }

  /** Every record has at least one non-empty field, and its key is a non-empty id. */
  lemma {:induction false} EntriesNonEmpty(es: seq<SpanInfo>)
    ensures forall id :: id in EntryMap(es) ==>
              id != "" && (EntryMap(es)[id].condition != NoCondition || EntryMap(es)[id].location != "")
  {
    if es != [] {
      EntriesNonEmpty(es[..|es| - 1]);
    }
  }

  /** A listing no span names a condition for — a new item, whose card has no condition label —
      has no record or a record with an empty condition. */
  lemma NewItemHasNoCondition(d: Document, id: string)
    requires WellFormed(d)
    requires forall j :: 0 <= j < |d| && SpanProductId(d, j) == id ==> SpanCondition(d[j]) == NoCondition
    ensures id !in EntryMapOf(d) || EntryMapOf(d)[id].condition == NoCondition
  {
    var es := SpanInfos(d, |d|);
    forall j | 0 <= j < |d|
      ensures es[j].id == id ==> es[j].condition == NoCondition
    {
      SpanInfosAt(d, |d|, j);
    }
    NoConditionNamed(es, id);
    EntryFieldsAreLast(es, id);
  }

  lemma {:induction false} NoConditionNamed(es: seq<SpanInfo>, id: string)
    requires forall j :: 0 <= j < |es| && es[j].id == id ==> es[j].condition == NoCondition
    ensures LastCondition(es, id) == NoCondition
  {
    if es != [] {
      NoConditionNamed(es[..|es| - 1], id);
    }
  }

  lemma {:induction false} SpanInfosAt(d: Document, n: nat, j: nat)
    requires WellFormed(d) && j < n <= |d|
    ensures SpanInfos(d, n)[j] == SpanInfoOf(d, j)
    decreases n
  {
    if j < n - 1 {
      SpanInfosAt(d, n - 1, j);
    }
  }

  /** The span information without the location: what the production engine records per span. */
  function WithoutLocation(es: seq<SpanInfo>): (ps: seq<SpanEntry>)
    ensures |ps| == |es|
    ensures forall k :: 0 <= k < |es| ==> ps[k] == SpanEntry(es[k].condition, es[k].id)
  {
    if es == [] then [] else WithoutLocation(es[..|es| - 1]) + [SpanEntry(es[|es| - 1].condition, es[|es| - 1].id)]
  }

  /** On conditions the two variants agree: the condition field of a listing's record in the
      variant's map is the condition the production map holds for it. */
  lemma {:induction false} ConditionsAgree(es: seq<SpanInfo>, id: string)
    ensures Lookup(EntryMap(es), id).condition == ConditionFor(MapOf(WithoutLocation(es)), id)
  {
    if es != [] {
      var init, e := es[..|es| - 1], es[|es| - 1];
      var ps := WithoutLocation(es);
      ConditionsAgree(init, id);
      assert ps[..|es| - 1] == WithoutLocation(init);
      var before := EntryMap(init);
      var prod := MapOf(WithoutLocation(init));
      assert EntryMap(es) == AddInfo(before, e);
      assert MapOf(ps) == AddEntry(prod, SpanEntry(e.condition, e.id));
      if e.id == id && id != "" && e.condition != NoCondition {
        assert Lookup(AddInfo(before, e), id).condition == e.condition;
      } else if e.id == id && id != "" {
        assert Lookup(AddInfo(before, e), id).condition == Lookup(before, id).condition;
      }
    }
  }

  /** The same on a document: both builders see the same spans and walks. */
  lemma DocumentConditionsAgree(d: Document, id: string)
    requires WellFormed(d)
    ensures Lookup(EntryMapOf(d), id).condition == ConditionFor(ConditionMapOf(d), id)
  {
    var es := SpanInfos(d, |d|);
    forall k | 0 <= k < |d|
      ensures SpanEntries(d, |d|)[k] == WithoutLocation(es)[k]
    {
      SpanInfosAt(d, |d|, k);
      SpanEntriesAt(d, |d|, k);
    }
    assert SpanEntries(d, |d|) == WithoutLocation(es);
    ConditionsAgree(es, id);
  }

  /** The settings object the variant's filter reads; it has a location filter and no annotation
      switch. */
  datatype TestSettings = TestSettings(
    hideUsed: bool,
    hideMinorDamage: bool,
    hideUnknownMissing: bool,
    hideMissingParts: bool,
    locationFilter: string)

  /** The toggle that governs a condition. */
  function TestToggle(s: TestSettings, c: Condition): bool
    requires c != NoCondition
  {
    match c
    case Used => s.hideUsed
    case MinorDamage => s.hideMinorDamage
    case UnknownMissing => s.hideUnknownMissing
    case MissingParts => s.hideMissingParts
  }

  /** The location rule: a filter is set, the card has a location, and the two differ. */
  predicate LocationHides(s: TestSettings, location: string) {
    s.locationFilter != "" && location != "" && location != s.locationFilter
  }

  /** shouldHideCard: the four condition tests, then the location test, each setting the flag. */
  function ShouldHideCard(condition: Condition, location: string, s: TestSettings): (hidden: bool)
    ensures hidden <==> (condition != NoCondition && TestToggle(s, condition)) || LocationHides(s, location)
  {
    var byCondition :=
      (s.hideUsed && condition == Used) || (s.hideMinorDamage && condition == MinorDamage)
      || (s.hideUnknownMissing && condition == UnknownMissing) || (s.hideMissingParts && condition == MissingParts);
    byCondition || (s.locationFilter != "" && location != "" && location != s.locationFilter)
  }

  /** A card whose condition's toggle is on is hidden, whatever its location. */
  lemma CategoryRule(condition: Condition, location: string, s: TestSettings)
    requires condition != NoCondition && TestToggle(s, condition)
    ensures ShouldHideCard(condition, location, s)
  {
  }

  /** For a card the toggles leave shown, the location rule decides: it is hidden exactly when a
      filter is set, it has a location and that location is another one. A card without a location
      is never hidden by it. */
  lemma LocationRule(condition: Condition, location: string, s: TestSettings)
    requires condition == NoCondition || !TestToggle(s, condition)
    ensures ShouldHideCard(condition, location, s)
            <==> s.locationFilter != "" && location != "" && location != s.locationFilter
    ensures location == "" ==> !ShouldHideCard(condition, location, s)
  {
  }

  /** A new item is never hidden while no location filter is set, whatever the toggles. */
  lemma NewItemShown(location: string, s: TestSettings)
    requires s.locationFilter == ""
    ensures !ShouldHideCard(NoCondition, location, s)
  {
  }

  /** The production settings with the same four toggles and no location filter. */
  function WithoutLocationFilter(s: TestSettings, showAmazonLinks: bool): Filters.FilterSettings {
    Filters.FilterSettings(s.hideUsed, s.hideMinorDamage, s.hideUnknownMissing, s.hideMissingParts,
                           showAmazonLinks, "")
  }

  /** Without a location filter, or for a card without a location, the variant hides exactly what
      the production engine hides. */
  lemma VariantsAgree(condition: Condition, location: string, s: TestSettings, showAmazonLinks: bool)
    requires s.locationFilter == "" || location == ""
    ensures ShouldHideCard(condition, location, s)
            == Filters.ShouldHide(WithoutLocationFilter(s, showAmazonLinks), condition)
  {
  }

  /** A span inside a card whose first product link is the listing URL `/p/<slug>/<id>` resolves
      to `id` at the first step of the walk — the layout of the cards the tests build. */
  lemma CardSpanResolves(d: Document, span: nat, link: nat, slug: string, id: string)
    requires WellFormed(d) && span < |d| && d[span].parent.Some?
    requires QuerySelector(d, d[span].parent.value, ProductLink) == Some(link)
    requires d[link].href == Some("/p/" + slug + "/" + id)
    requires |slug| > 0 && forall k :: 0 <= k < |slug| ==> slug[k] != '/'
    requires |id| > 0 && AllDigits(id)
    ensures SpanProductId(d, span) == id
  {
    ListingHrefId(slug, id);
    assert LinkIdAt(d, d[span].parent.value) == id;
  }

  /** One card of the tests, by what its labels name: its id, the condition its condition label
      names if it has one, and the location its location label names. */
  datatype MockCard = MockCard(id: string, tag: Option<Condition>, location: string)

  /** What a label of text `text` in the card with id `id` contributes. */
  function LabelInfo(text: string, id: string): SpanInfo {
    SpanInfo(ConditionOf(Trim(text)), LocationOf(Trim(text)), id)
  }

  /** The spans of one card in document order: the location label, then the condition label when
      the card has one. Both resolve to the card's id (`CardSpanResolves`). */
  function CardSpans(c: MockCard): seq<SpanInfo> {
    [SpanInfo(NoCondition, c.location, c.id)] + (if c.tag.Some? then [SpanInfo(c.tag.value, "", c.id)] else [])
  }

  function AllSpans(cs: seq<MockCard>): seq<SpanInfo> {
    if cs == [] then [] else AllSpans(cs[..|cs| - 1]) + CardSpans(cs[|cs| - 1])
  }

  /** Whether the card with id `id` is hidden, by its record in `m`. */
  predicate HiddenIn(m: map<string, Entry>, s: TestSettings, id: string) {
    ShouldHideCard(Lookup(m, id).condition, Lookup(m, id).location, s)
  }

  /** The ids of the cards `cs` that stay visible under `s`, in page order. */
  function VisibleIds(cs: seq<MockCard>, m: map<string, Entry>, s: TestSettings): seq<string> {
    if cs == [] then []
    else
      VisibleIds(cs[..|cs| - 1], m, s) + (if HiddenIn(m, s, cs[|cs| - 1].id) then [] else [cs[|cs| - 1].id])
  }

  /** A condition label, by whatever capitalisation of its phrase it shows, contributes its
      condition and no location. */
  lemma ConditionText(c: Condition, text: string, id: string)
    requires c != NoCondition && EqualsIgnoreCase(text, Phrase(c))
    requires !IsJsSpace(text[0]) && !IsJsSpace(text[|text| - 1])
    ensures LabelInfo(text, id) == SpanInfo(c, "", id)
  {
    // No phrase is as long as any location name, so the text is not a location.
    assert |text| == |Phrase(c)| && |Phrase(c)| in {4, 12, 24, 13};
    assert forall k :: 0 <= k < |LocationKeywords| ==> |LocationKeywords[k]| in {15, 11, 9, 7};
    assert text !in LocationKeywords;
    TrimKeepsTrimmed(text);
    PhraseInAnyCase(c, text);
  }

  /** A location label contributes its location and no condition. */
  lemma LocationText(text: string, id: string)
    requires text in LocationKeywords
    ensures LabelInfo(text, id) == SpanInfo(NoCondition, text, id)
  {
    assert !IsJsSpace(text[0]) && !IsJsSpace(text[|text| - 1]);
    TrimKeepsTrimmed(text);
    OnlyWholePhrases(text);
  }

  /** The label texts of the scenario's cards and what they contribute. */
  lemma UsedLabel(id: string)
    ensures LabelInfo("Used", id) == SpanInfo(Used, "", id)
  {
    ConditionText(Used, "Used", id);
  }

  lemma MinorDamageLabel(id: string)
    ensures LabelInfo("Minor Damage", id) == SpanInfo(MinorDamage, "", id)
  {
    ConditionText(MinorDamage, "Minor Damage", id);
  }

  lemma UnknownMissingLabel(id: string)
    ensures LabelInfo("Unknown if Missing Parts", id) == SpanInfo(UnknownMissing, "", id)
  {
    ConditionText(UnknownMissing, "Unknown if Missing Parts", id);
  }

  lemma NorthLasVegasLabel(id: string)
    ensures LabelInfo("North Las Vegas", id) == SpanInfo(NoCondition, "North Las Vegas", id)
  {
    LocationText("North Las Vegas", id);
  }

  lemma AllSpansSnoc(cs: seq<MockCard>, c: MockCard)
    ensures AllSpans(cs + [c]) == AllSpans(cs) + CardSpans(c)
  {
    assert (cs + [c])[..|cs|] == cs;
  }

  lemma EntryMapSnoc(es: seq<SpanInfo>, e: SpanInfo)
    ensures EntryMap(es + [e]) == AddInfo(EntryMap(es), e)
  {
    assert (es + [e])[..|es|] == es;
  }

  lemma VisibleIdsSnoc(cs: seq<MockCard>, c: MockCard, m: map<string, Entry>, s: TestSettings)
    ensures VisibleIds(cs + [c], m, s) == VisibleIds(cs, m, s) + (if HiddenIn(m, s, c.id) then [] else [c.id])
  {
    assert (cs + [c])[..|cs|] == cs;
  }

  /** The five listings of the scenario test: used, new, minor damage, new, unknown if missing
      parts, all in North Las Vegas. */
  const ScenarioCards: seq<MockCard> := [
    MockCard("001", Some(Used), "North Las Vegas"),
    MockCard("002", None, "North Las Vegas"),
    MockCard("003", Some(MinorDamage), "North Las Vegas"),
    MockCard("004", None, "North Las Vegas"),
    MockCard("005", Some(UnknownMissing), "North Las Vegas")]

  const AllConditionsHidden: TestSettings := TestSettings(true, true, true, true, "")

  /** The spans of the scenario's page in document order, as its cards' labels classify. */
  const ScenarioSpans: seq<SpanInfo> := [
    SpanInfo(NoCondition, "North Las Vegas", "001"), SpanInfo(Used, "", "001"),
    SpanInfo(NoCondition, "North Las Vegas", "002"),
    SpanInfo(NoCondition, "North Las Vegas", "003"), SpanInfo(MinorDamage, "", "003"),
    SpanInfo(NoCondition, "North Las Vegas", "004"),
    SpanInfo(NoCondition, "North Las Vegas", "005"), SpanInfo(UnknownMissing, "", "005")]

  /** The map the variant builds for the scenario's page. */
  const ScenarioMap: map<string, Entry> := map[
    "001" := Entry(Used, "North Las Vegas"), "002" := Entry(NoCondition, "North Las Vegas"),
    "003" := Entry(MinorDamage, "North Las Vegas"), "004" := Entry(NoCondition, "North Las Vegas"),
    "005" := Entry(UnknownMissing, "North Las Vegas")]

  lemma ScenarioSpansAre()
    ensures AllSpans(ScenarioCards) == ScenarioSpans
  {
    var c1, c2, c3, c4, c5 := ScenarioCards[0], ScenarioCards[1], ScenarioCards[2], ScenarioCards[3], ScenarioCards[4];
    assert ScenarioCards == [c1, c2, c3, c4] + [c5];
    assert [c1, c2, c3, c4] == [c1, c2, c3] + [c4];
    assert [c1, c2, c3] == [c1, c2] + [c3];
    assert [c1, c2] == [c1] + [c2];
    assert [c1] == [] + [c1];
    AllSpansSnoc([], c1);
    AllSpansSnoc([c1], c2);
    AllSpansSnoc([c1, c2], c3);
    AllSpansSnoc([c1, c2, c3], c4);
    AllSpansSnoc([c1, c2, c3, c4], c5);
  }
  lemma ScenarioMapIs()
    ensures EntryMap(ScenarioSpans) == ScenarioMap
  {
    var e1, e2, e3, e4, e5, e6, e7, e8 := ScenarioSpans[0], ScenarioSpans[1], ScenarioSpans[2], ScenarioSpans[3], ScenarioSpans[4], ScenarioSpans[5], ScenarioSpans[6], ScenarioSpans[7];
    assert ScenarioSpans == [e1, e2, e3, e4, e5, e6, e7] + [e8];
    assert [e1, e2, e3, e4, e5, e6, e7] == [e1, e2, e3, e4, e5, e6] + [e7];
    assert [e1, e2, e3, e4, e5, e6] == [e1, e2, e3, e4, e5] + [e6];
    assert [e1, e2, e3, e4, e5] == [e1, e2, e3, e4] + [e5];
    assert [e1, e2, e3, e4] == [e1, e2, e3] + [e4];
    assert [e1, e2, e3] == [e1, e2] + [e3];
    assert [e1, e2] == [e1] + [e2];
    assert [e1] == [] + [e1];
    EntryMapSnoc([], e1);
    EntryMapSnoc([e1], e2);
    EntryMapSnoc([e1, e2], e3);
    EntryMapSnoc([e1, e2, e3], e4);
    EntryMapSnoc([e1, e2, e3, e4], e5);
    EntryMapSnoc([e1, e2, e3, e4, e5], e6);
    EntryMapSnoc([e1, e2, e3, e4, e5, e6], e7);
    EntryMapSnoc([e1, e2, e3, e4, e5, e6, e7], e8);
    ScenarioMapSteps(e1, e2, e3, e4, e5, e6, e7, e8);
  }
  lemma ScenarioMapSteps(e1: SpanInfo, e2: SpanInfo, e3: SpanInfo, e4: SpanInfo, e5: SpanInfo, e6: SpanInfo, e7: SpanInfo, e8: SpanInfo)
    requires [e1, e2, e3, e4, e5, e6, e7, e8] == ScenarioSpans
    ensures AddInfo(AddInfo(AddInfo(AddInfo(AddInfo(AddInfo(AddInfo(AddInfo(map[], e1), e2), e3), e4), e5), e6), e7), e8) == ScenarioMap
  {
    var nlv := "North Las Vegas";
    var m2 := AddInfo(AddInfo(map[], e1), e2);
    assert m2 == map["001" := Entry(Used, nlv)];
    var m3 := AddInfo(m2, e3);
    assert m3 == m2["002" := Entry(NoCondition, nlv)];
    var m5 := AddInfo(AddInfo(m3, e4), e5);
    assert m5 == m3["003" := Entry(MinorDamage, nlv)];
    var m6 := AddInfo(m5, e6);
    assert m6 == m5["004" := Entry(NoCondition, nlv)];
    assert AddInfo(AddInfo(m6, e7), e8) == m6["005" := Entry(UnknownMissing, nlv)];
  }
  lemma ScenarioDecisions()
    ensures HiddenIn(ScenarioMap, AllConditionsHidden, ScenarioCards[0].id)
    ensures !HiddenIn(ScenarioMap, AllConditionsHidden, ScenarioCards[1].id)
    ensures HiddenIn(ScenarioMap, AllConditionsHidden, ScenarioCards[2].id)
    ensures !HiddenIn(ScenarioMap, AllConditionsHidden, ScenarioCards[3].id)
    ensures HiddenIn(ScenarioMap, AllConditionsHidden, ScenarioCards[4].id)
  {
    assert Lookup(ScenarioMap, "001").condition == Used;
    assert Lookup(ScenarioMap, "002").condition == NoCondition;
    assert Lookup(ScenarioMap, "003").condition == MinorDamage;
    assert Lookup(ScenarioMap, "004").condition == NoCondition;
    assert Lookup(ScenarioMap, "005").condition == UnknownMissing;
  }

  lemma ScenarioVisible()
    ensures VisibleIds(ScenarioCards, ScenarioMap, AllConditionsHidden) == ["002", "004"]
  {
    var c1, c2, c3, c4, c5 := ScenarioCards[0], ScenarioCards[1], ScenarioCards[2], ScenarioCards[3], ScenarioCards[4];
    assert ScenarioCards == [c1, c2, c3, c4] + [c5];
    assert [c1, c2, c3, c4] == [c1, c2, c3] + [c4];
    assert [c1, c2, c3] == [c1, c2] + [c3];
    assert [c1, c2] == [c1] + [c2];
    assert [c1] == [] + [c1];
    var s := AllConditionsHidden;
    ScenarioDecisions();
    VisibleIdsSnoc([], c1, ScenarioMap, s);
    VisibleIdsSnoc([c1], c2, ScenarioMap, s);
    VisibleIdsSnoc([c1, c2], c3, ScenarioMap, s);
    VisibleIdsSnoc([c1, c2, c3], c4, ScenarioMap, s);
    VisibleIdsSnoc([c1, c2, c3, c4], c5, ScenarioMap, s);
  }

  /** With every condition toggle on and no location filter, only the two new items stay visible:
      the listings `002` and `004`. */
  lemma Scenario()
    ensures VisibleIds(ScenarioCards, EntryMap(AllSpans(ScenarioCards)), AllConditionsHidden) == ["002", "004"]
  {
    ScenarioSpansAre();
    ScenarioMapIs();
    ScenarioVisible();
  }
}
