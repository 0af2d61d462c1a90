# Nellis Auction Helper: the listing-filtering engine

Nellis Auction Helper is a browser extension for the Nellis Auction site. Its content script
filters the search-result page.

- **Condition labels.** It reads the condition labels on the page: `Used`, `Minor Damage`,
  `Unknown if Missing Parts` and `Missing Parts`. Each label is tied to a listing id by walking up
  the document to a product link.
- **Hiding.** It hides the card of every listing whose condition the user chose to hide.
- **Annotation.** It annotates every shown card with a link to an Amazon search for the listing's
  cleaned-up title.
- **Re-running.** It re-runs that pass whenever new listings appear, after a navigation, when the
  popup sends new settings, and a few times while the page first loads.

The unit-test file carries a second, diverged copy of the engine. That copy also recognises four
site locations and adds a location rule to the hide decision. It is modelled beside the
production engine as a variant of its own.

The model is split into modules:

| module | what it holds |
|---|---|
| `Optional` | Option and Result |
| `JsText` | the JavaScript string primitives: `\s` and `trim`, `/i` ASCII case folding, `\d`, `includes`, the UTF-16 `length` |
| `Classifier` | the condition regular-expression chain |
| `ProductHref` | the two href patterns, `/p/<segment>/<digits>` for the id and `/p/<segment>` for the slug, with leftmost-match semantics |
| `Dom` | the document, as a list of elements in document order with parent indices; `querySelector`, `closest` and the selectors the script uses |
| `ConditionMap` | buildConditionMap: the ten-level ancestor walk and the map it fills |
| `ProductTitle` | getProductTitle's fallback chain |
| `UriEncoding` | `encodeURIComponent` and its inverse |
| `AmazonUrl` | generateAmazonUrl's five cleaning steps and the search address |
| `Filters` | the settings, the hide decision, the settings merge and the saved-location redirect decision |
| `ContentScript` | findProductCards, addAmazonLink and applyFilters, first as functions over the document, then as the class `Page` whose methods change the page's state in place |
| `TestVariant` | the test file's buildConditionMap with locations and its shouldHideCard, and the test scenario |

### What `Page` holds

`Page` keeps these fields:

- the document;
- the current settings;
- the set of elements carrying the processed attribute;
- the set of elements carrying the hidden class;
- the annotation links, in insertion order.

The annotation links are kept apart from the document's elements, for two reasons. Their href never
contains `/p/`, and their class names neither a title nor a name. So none of them matches a
selector the script queries (`ContentScript.LinkMatchesNoSelector`).

### Behaviour of the code that is easy to miss

The model follows the code in each of these points:

- **Title.** The presence of a heading (or of a title/name-classed element) decides which source
  gives the title, not whether that source is empty. A blank heading gives the empty title even
  when the card has an `aria-label` (`ProductTitle.BlankHeadingGivesEmptyTitle`).
- **Title/name class.** The class test is case-sensitive: it tries exactly `title`, `Title`,
  `name` and `Name`.
- **Cards without an id.** Such a card is not skipped. It is looked up under the key `''`, so it is
  never hidden and may be annotated (`ContentScript.CardWithoutIdShown`).
- **The processed skip.** The processed attribute is written on the title link but tested for on
  the container, so the skip never fires and every pass revisits every card (`ContentScript.NoSkip`).
- **Location.** The production pass never consults the location filter
  (`ContentScript.PassIgnoresLocationFilter`). Only the test variant hides by location.
- **Truncation.** Titles are cut at 100 UTF-16 code units, not 100 characters (see Findings).

## Model

| member | source | states |
|---|---|---|
| JsText.Trim | src/content/content.ts:41 | `trim` leaves a contiguous piece of the text with no ECMAScript whitespace at either end, and everything removed around it is whitespace |
| JsText.TrimKeepsTrimmed | src/content/content.ts:41 | text with no whitespace at either end is left unchanged by `trim` |
| JsText.TrimStripsPadding | src/content/content.ts:41 | whitespace on both sides of a phrase disappears under `trim` |
| JsText.JsLength | src/content/content.ts:167 | `title.length` counts UTF-16 code units: at least one and at most two per character |
| JsText.JsLengthAppend | src/content/content.ts:167 | the code-unit length of a concatenation is the sum of the lengths |
| JsText.JsLengthBmp | src/content/content.ts:167 | without astral characters, the code-unit length is the character count |
| Classifier.ConditionOf | src/content/content.ts:45-49 | a tag is returned only when the whole text equals that tag's phrase, ignoring ASCII case; the result is empty exactly when the text equals none of the four phrases |
| Classifier.PhraseInAnyCase | src/content/content.ts:46-49 | every capitalisation of a phrase yields its own tag |
| Classifier.OnlyWholePhrases | src/content/content.ts:46-49 | text whose length differs from all four phrases (`New`, `Used car`) yields no tag |
| Classifier.PaddedPhrase | src/content/content.ts:41-49 | a phrase surrounded by whitespace yields its tag, because the text is trimmed first |
| ProductHref.IdMatchAt | src/content/content.ts:108 | a match of the id pattern at a position captures a non-empty run of digits |
| ProductHref.IdMatchSound | src/content/content.ts:108 | what the pattern returns at a position has the pattern's shape there: `/p/`, a `/`-free segment, `/`, a maximal digit run |
| ProductHref.IdMatchComplete | src/content/content.ts:108 | anything with that shape at a position is exactly what the pattern returns there |
| ProductHref.FirstIdMatchIsFirst | src/content/content.ts:108 | `match` settles on the leftmost position at which the pattern matches |
| ProductHref.GetProductId | src/content/content.ts:106-110 | getProductId returns `''` or a string of ASCII digits |
| ProductHref.GetProductIdEmpty | src/content/content.ts:106-110 | the id is `''` exactly when the pattern matches nowhere in the href |
| ProductHref.GetProductIdLeftmost | src/content/content.ts:106-110 | a non-empty id is the capture of the leftmost match |
| ProductHref.ListingHrefId | src/content/content.ts:106-110 | the listing URL shape `/p/<slug>/<id>` yields its id |
| ProductHref.FirstSlugMatchIsFirst | src/content/content.ts:136 | the slug pattern settles on its leftmost match |
| ProductHref.ListingHrefSlug | src/content/content.ts:135-139 | the listing URL shape yields its slug |
| ProductHref.MatchesContainMarker | src/content/content.ts:58-61 | an href from which either pattern extracts something contains `/p/`, so the `a[href*="/p/"]` selector picks its link |
| Dom.QuerySelector | src/content/content.ts:58 | `querySelector` returns a descendant that matches the selector |
| Dom.QuerySelectorIsFirst | src/content/content.ts:58 | the element returned is the first match in document order, and when nothing is returned no descendant matches |
| Dom.Closest | src/content/content.ts:199 | `closest` returns the element itself or an ancestor that matches, and returns nothing only when the element itself does not match |
| Dom.ClosestIsNearest | src/content/content.ts:199 | `closest` finds the nearest match: when it returns nothing no ancestor matches, and when it returns an ancestor, neither the element nor any element between the two matches |
| ConditionMap.LinkIdAt | src/content/content.ts:58-65 | the id one ancestor yields through its first product link is `''` or digits |
| ConditionMap.IdWithin | src/content/content.ts:53-68 | the id the walk settles on is `''` or digits |
| ConditionMap.IdWithinIsWalk | src/content/content.ts:53-68 | the walk is the walk over the table of what each element yields |
| ConditionMap.WalkEmpty | src/content/content.ts:57-68 | over any table, the walk comes back empty exactly when each of the first `levels` ancestors is missing or yields nothing |
| ConditionMap.WalkNearest | src/content/content.ts:57-68 | over any table, the nearest ancestor that yields something decides |
| ConditionMap.IdWithinEmpty | src/content/content.ts:53-68 | the walk from a span's parent finds no id exactly when none of the first ten ancestors exists with a product link whose href yields one |
| ConditionMap.IdWithinNearest | src/content/content.ts:57-68 | the walk returns the id of the nearest ancestor, within ten steps, whose first product link yields one |
| ConditionMap.SpanProductId | src/content/content.ts:53-68 | the id a span is tied to is `''` or digits |
| ConditionMap.ResolveProductId | src/content/content.ts:53-68 | the `for` loop with its `break` returns the id the walk defines |
| ConditionMap.VisitSpan | src/content/content.ts:40-73 | the `forEach` callback sets the entry of a tagged span with a non-empty id and leaves the map unchanged for any other span |
| ConditionMap.BuildConditionMap | src/content/content.ts:34-79 | buildConditionMap returns the map of all spans applied in document order |
| ConditionMap.SpanEntries | src/content/content.ts:38-40 | one entry per element; every entry's id is `''` or digits |
| ConditionMap.MapEntriesWellFormed | src/content/content.ts:70-72 | every key is a non-empty run of digits and every value is one of the four tags |
| ConditionMap.NoIdNoCondition | src/content/content.ts:231 | looking up the empty id finds no condition |
| ConditionMap.LastEntryFor | src/content/content.ts:40-72 | the last entry naming an id names it, and no later entry does |
| ConditionMap.LastEntryWins | src/content/content.ts:40-72 | an id has an entry exactly when some span names it, and the entry is the tag of the last such span: later spans overwrite |
| ConditionMap.LastSpanWins | src/content/content.ts:38-72 | on a document, the condition found for an id is that of the last span in document order whose text has a tag and whose walk resolves to the id |
| ConditionMap.UnnamedIdNoCondition | src/content/content.ts:231 | an id that no span is tied to finds no condition |
| ProductTitle.DashesToSpaces | src/content/content.ts:138 | `.replace(/-/g, ' ')` turns each `-` into a space and keeps every other character |
| ProductTitle.TitleFromHref | src/content/content.ts:135-139 | the fourth source exists exactly when the slug pattern matches; it is then non-empty and has no `-` and no `/` |
| ProductTitle.SourceOf | src/content/content.ts:115-142 | the source chosen is the first present in the order heading, title/name class, label, href slug; each earlier source is absent |
| ProductTitle.TitleBySource | src/content/content.ts:115-142 | the title is the trimmed text of the first heading or classed element, else the non-empty label, else the slug with spaces for dashes, else `''` |
| ProductTitle.BlankHeadingGivesEmptyTitle | src/content/content.ts:117-120 | a card whose first heading is blank gets the empty title, whatever else it holds |
| ProductTitle.SpacesToDashes | src/content/content.test.ts:18 | `.replace(/\s+/g, '-')` on text whose only whitespace is single plain spaces keeps the length and turns each space, and nothing else, into a dash |
| ProductTitle.TitleFromListingHref | src/content/content.ts:135-139 | a card holding only an href `/p/<singly spaced title with dashes>/<id>` gets back the title |
| UriEncoding.PercentEscape | src/content/content.ts:155 | one byte becomes `%` and two upper-case hexadecimal digits |
| UriEncoding.PercentEscapes | src/content/content.ts:155 | bytes become three characters each and the result is well encoded |
| UriEncoding.Utf8Char | src/content/content.ts:155 | a code point becomes one to four UTF-8 bytes, one byte exactly for ASCII |
| UriEncoding.EncodeChar | src/content/content.ts:155 | one character encodes to unreserved characters and `%XX` triplets |
| UriEncoding.EncodeUriComponent | src/content/content.ts:155 | `encodeURIComponent`'s output holds only unreserved characters and `%XX` triplets, and no `/` |
| UriEncoding.WellEncodedHasNoSlash | src/content/content.ts:155 | encoded text contains no `/` |
| UriEncoding.PercentDecodeEncode | src/content/content.ts:155 | percent-decoding the output gives back the UTF-8 bytes of the input |
| UriEncoding.Utf8RoundTrip | src/content/content.ts:155 | UTF-8 decoding undoes UTF-8 encoding |
| UriEncoding.EncodeRoundTrip | src/content/content.ts:155 | decoding undoes `encodeURIComponent`: the search query names exactly the cleaned title |
| AmazonUrl.DigitRun | src/content/content.ts:149 | the `\d+` of the pack pattern takes the maximal digit run |
| AmazonUrl.SpaceRun | src/content/content.ts:149 | the `\s*` of the pack pattern takes the maximal whitespace run |
| AmazonUrl.PackMatch | src/content/content.ts:149 | a match of `/\d+\s*pack/i` is longer than four characters |
| AmazonUrl.PackMatchIsShape | src/content/content.ts:149 | the pattern matches at the start exactly when the text is digits, whitespace, then `pack` in any case |
| AmazonUrl.StripPacks | src/content/content.ts:149 | removing pack sizes never lengthens the title |
| AmazonUrl.StripPacksRemoves | src/content/content.ts:149 | a leading pack size (`12 Pack`, `6pack`) is removed whole |
| AmazonUrl.StripPacksWithoutPacks | src/content/content.ts:149 | a title in which the pattern matches nowhere is unchanged |
| AmazonUrl.NoDigitsNoPacks | src/content/content.ts:149 | a title without digits contains no pack size |
| AmazonUrl.IndexOf | src/content/content.ts:150 | the first `)` is found, with none before it |
| AmazonUrl.StripParens | src/content/content.ts:150 | after parentheticals are removed, no `(` is followed anywhere by a `)` |
| AmazonUrl.StripParensWithoutParens | src/content/content.ts:150 | a title without `(` is unchanged |
| AmazonUrl.CollapseSpaces | src/content/content.ts:151 | every run of whitespace becomes one plain space: the result is singly spaced, is empty only for empty input, and keeps the previous steps' properties |
| AmazonUrl.CollapseSingleSpaced | src/content/content.ts:151 | singly spaced text is unchanged |
| AmazonUrl.TrimKeepsClean | src/content/content.ts:152 | `trim` keeps the text singly spaced and free of parentheticals |
| AmazonUrl.TakeUnits | src/content/content.ts:153 | the cut keeps the longest prefix that fits in the limit without splitting a character |
| AmazonUrl.TakeUnitsWhole | src/content/content.ts:153 | a title that fits is kept whole |
| AmazonUrl.SliceUnits | src/content/content.ts:153 | `.slice(0, n)` splits a surrogate pair exactly when the kept prefix is one unit short of `n` and the next character is astral |
| AmazonUrl.Normalise | src/content/content.ts:148-152 | after the pack sizes and parentheticals are removed and whitespace is collapsed and trimmed, the title has no whitespace at either end, only single plain spaces, and no parenthetical |
| AmazonUrl.CleanTitle | src/content/content.ts:148-153 | the cleaned title is the longest prefix of the normalised title (pack sizes and parentheticals removed, whitespace collapsed and trimmed) that fits in 100 code units; it has no leading whitespace, no two whitespace characters in a row, only plain spaces, and no parenthetical |
| AmazonUrl.TidyTitleUnchanged | src/content/content.ts:148-153 | an already clean title is searched for as it is |
| AmazonUrl.GenerateAmazonUrl | src/content/content.ts:147-157 | the address starts with `https://www.amazon.com/s?k=`, its query is well encoded, and the query decodes to the cleaned title |
| AmazonUrl.PrefixKeepsMarkerOut | src/content/content.ts:156 | nothing without `/` appended to the search address makes a `/p/` appear |
| AmazonUrl.AmazonUrlIsNotProductLink | src/content/content.ts:156 | the search address contains no `/p/`, so an annotation is never taken for a listing link |
| AmazonUrl.GenerateAmazonUrlAsWritten | src/content/content.ts:147-157 | as written, the function throws exactly when the 100-unit slice splits a surrogate pair, and otherwise returns the corrected address |
| AmazonUrl.SliceAfterFit | src/content/content.ts:153 | a prefix one unit short of the limit followed by an astral character makes the slice split the pair |
| AmazonUrl.SplitAfterNinetyNine | src/content/content.ts:148-155 | 99 plain characters followed by one astral character make the as-written function throw, while the corrected title keeps the 99 |
| AmazonUrl.TruncationSplitsSurrogate | src/content/content.ts:148-155 | `a` repeated 99 times followed by U+1F600 is a concrete input on which the as-written function throws |
| Filters.ShouldHide | src/content/content.ts:233-247 | a card is hidden exactly when its condition is one of the four tags and that tag's toggle is on; an empty condition is never hidden |
| Filters.HideDependsOnOwnToggle | src/content/content.ts:233-247 | only the condition's own toggle matters: the other toggles, the annotation switch and the location filter play no part |
| Filters.MergeSettings | src/content/content.ts:304 | each of the six fields the response carries replaces the current one, and each field it lacks is kept |
| Filters.MergeComplete | src/content/content.ts:304 | a response carrying every field replaces the settings |
| Filters.MergeEmpty | src/content/content.ts:304 | an empty response keeps the settings |
| Filters.MergeIdempotent | src/content/content.ts:304 | merging the same response twice changes nothing more |
| Filters.LocationRedirect | src/content/content.ts:277-292 | no redirect for an empty saved location; otherwise a redirect, with the saved value, exactly when the current value (absent read as `''`) differs |
| Filters.RedirectSettles | src/content/content.ts:284-289 | after the redirect sets the parameter, the check finds nothing to do, so the redirect cannot loop |
| ContentScript.LinkClassNamesNothing | src/content/content.ts:17 | the annotation class contains none of `title`, `Title`, `name`, `Name` |
| ContentScript.LinkMatchesNoSelector | src/content/content.ts:169-176 | an annotation link matches none of the selectors the script queries |
| ContentScript.CardOf | src/content/content.ts:89-96 | a container contributes a title link that lies inside it |
| ContentScript.CardsUpTo | src/content/content.ts:84-101 | the cards collected are title links |
| ContentScript.ProductCards | src/content/content.ts:84-101 | every card findProductCards returns is a title link |
| ContentScript.FindProductCards | src/content/content.ts:84-101 | the loop returns, in document order, the first title link of each unmarked container that has one |
| ContentScript.NoSkip | src/content/content.ts:89-90 | since the attribute is written on title links (line 259) and no container is a title link, the cards are the same whatever markers the page carries |
| ContentScript.ContainerGivesCard | src/content/content.ts:89-96 | every unmarked container holding a title link contributes it |
| ContentScript.GetCardContainer | src/content/content.ts:197-206 | the element hidden is the card itself or an enclosing card container |
| ContentScript.GetCardContainerIsNearest | src/content/content.ts:197-206 | the card falls back to itself only when no ancestor is a card container, and an enclosing container found is the nearest one |
| ContentScript.InsertionParent | src/content/content.ts:185-190 | the link goes into the first heading's parent or at the start of the card, inside the card either way |
| ContentScript.CandidateLink | src/content/content.ts:169-190 | the link addAmazonLink would insert belongs to the card and lies inside it |
| ContentScript.PlanOf | src/content/content.ts:228-250 | the per-card plan keeps the card, and its candidate link lies inside the card |
| ContentScript.CardVerdict | src/content/content.ts:229-247 | a card is hidden exactly when the condition found for its id is a tag whose toggle is on |
| ContentScript.CardWithoutIdShown | src/content/content.ts:229-231 | a card whose href yields no id is never hidden |
| ContentScript.RunCounts | src/content/content.ts:252-257 | each card adds one to either the shown count or the hidden count |
| ContentScript.RunHidden | src/content/content.ts:252-254 | the hidden class goes on exactly the containers of the cards hidden |
| ContentScript.RunProcessed | src/content/content.ts:259 | every card gets the processed attribute, whatever was decided |
| ContentScript.RunIgnoresMarkers | src/content/content.ts:228-264 | the hidden set, the links and the counts do not depend on the markers already present |
| ContentScript.RunLinksSound | src/content/content.ts:261-263 | links are only appended, none without the setting; each new one is the candidate link of a shown card with a title of at least five code units |
| ContentScript.RunOnePerCard | src/content/content.ts:163-165 | links stay inside their cards and no card gets two: a second call finds the first link and returns |
| ContentScript.RunLinksComplete | src/content/content.ts:261-263 | with the setting on, every shown card with a long enough title ends up holding a link |
| ContentScript.PassCounts | src/content/content.ts:225-257 | shown count plus hidden count is the number of cards |
| ContentScript.PassHidden | src/content/content.ts:215-254 | after a pass, the hidden class is on exactly the containers of the cards whose condition's toggle is on; earlier passes' classes are gone |
| ContentScript.PassProcessed | src/content/content.ts:259 | after a pass, every card carries the processed attribute, and earlier markers stay |
| ContentScript.PassLinksPlaced | src/content/content.ts:161-191 | after a pass, links exist only when the setting is on, each lies inside its card, and no card has two |
| ContentScript.PassLinksSound | src/content/content.ts:261-263 | each link is the candidate link of a shown card whose title has at least five code units |
| ContentScript.PassLinksComplete | src/content/content.ts:261-263 | with the setting on, every shown card whose title has at least five code units holds a link |
| ContentScript.PassIdempotent | src/content/content.ts:211-272 | a second pass over the same document and settings leaves the page exactly as the first did |
| ContentScript.PassIgnoresLocationFilter | src/content/content.ts:233-247 | the location filter plays no part in a pass |
| ContentScript.NoUnprocessedLinks | src/content/content.ts:337-338 | the observer's query finds nothing exactly when every product link carries the processed attribute |
| ContentScript.ObserverStaysArmed | src/content/content.ts:337-340 | a product link that is not a card's title link never gets the attribute, so every observer tick runs another pass |
| ContentScript.Page.constructor | src/content/content.ts:21-28 | the page starts with the default settings, no markers, no hidden classes and no links |
| ContentScript.Page.LoadSettings | src/content/content.ts:301-308 | init's settings load spreads the response, if any, over the current settings and changes nothing else |
| ContentScript.Page.AddAmazonLink | src/content/content.ts:162-191 | nothing is added when the card already holds a link or the title is shorter than five code units; otherwise the card's candidate link is appended |
| ContentScript.Page.PlanCard | src/content/content.ts:229-250 | the callback's id, title, condition lookup, hide decision and container are the card's plan |
| ContentScript.Page.MarkCard | src/content/content.ts:252-263 | hiding or counting, marking and annotating change the page as one step of the pass does |
| ContentScript.Page.VisitCard | src/content/content.ts:228-264 | the callback on the next card extends the run over the cards before it by that card's step |
| ContentScript.Page.VisitCards | src/content/content.ts:225-264 | the `forEach` over the cards leaves the page's marks and counts equal to the pass |
| ContentScript.Page.ApplyFilters | src/content/content.ts:211-272 | applyFilters removes links and hidden classes, then leaves the page as `Pass` over the current document and markers defines, and returns its counts |
| ContentScript.Page.OnApplyMessage | src/content/content.ts:380-388 | the popup's settings replace the current ones, then the page shows the pass under them |
| ContentScript.Page.ResetForNavigation | src/content/content.ts:356-361 | every processed attribute and every link goes; the hidden classes stay |
| ContentScript.Page.OnNavigation | src/content/content.ts:352-366 | after a navigation to any newly rendered content, the page shows a first pass (no markers) over that content |
| ContentScript.Page.CountUnprocessedLinks | src/content/content.ts:337 | the count is the number of product links without the attribute |
| ContentScript.Page.ObserverTick | src/content/content.ts:336-341 | a pass runs exactly when some product link lacks the attribute; otherwise the page is unchanged |
| ContentScript.Page.TryApply | src/content/content.ts:316-327 | at most `attempts + 1` passes; a first pass that marks something is the only one; stopping before the attempts run out means a marker is on the page; the page shows the last pass, which is `Pass` over the document of the last wait |
| ContentScript.Page.AfterWait | src/content/content.ts:318-325 | after the wait, a retry happens exactly when no element carries the attribute (none if a marker was already there), with one attempt fewer; the page keeps showing a `Pass` |
| TestVariant.FirstKeyword | src/content/content.test.ts:66-72 | the keyword loop returns the text when it is one of the keywords, else `''` |
| TestVariant.LocationOf | src/content/content.test.ts:65-72 | the location is non-empty exactly when the text equals one of the four names, and it is then that name |
| TestVariant.FindLocation | src/content/content.test.ts:65-72 | the `for … of` loop with its `break` returns that location |
| TestVariant.LocationIsCaseSensitive | src/content/content.test.ts:68 | the comparison is exact: another capitalisation or extra text names no location |
| TestVariant.Merge | src/content/content.test.ts:92-94 | a non-empty condition replaces the record's condition, and a non-empty location replaces its location |
| TestVariant.MergeNeverErases | src/content/content.test.ts:92-95 | an empty field of the update keeps the old value, so a field once set stays set |
| TestVariant.VisitSpan | src/content/content.test.ts:55-97 | the callback merges a span naming a condition or a location and tied to an id into that id's record, and leaves the map unchanged for any other span |
| TestVariant.VisitNode | src/content/content.test.ts:53-97 | one more element applies its span information |
| TestVariant.EntryMapStep | src/content/content.test.ts:53-55 | an element that is not a span leaves the map unchanged |
| TestVariant.BuildEntryMap | src/content/content.test.ts:50-101 | the variant's buildConditionMap returns the map of all spans applied in document order |
| TestVariant.EntryWritten | src/content/content.test.ts:74-96 | a listing has a record exactly when some span names a condition or location for it and resolves to it |
| TestVariant.EntryFieldsAreLast | src/content/content.test.ts:91-96 | field by field, the record holds the last condition and the last location named for the listing |
| TestVariant.EntriesNonEmpty | src/content/content.test.ts:74-96 | every key is non-empty and every record has a non-empty field |
| TestVariant.NewItemHasNoCondition | src/content/content.test.ts:152-161 | a listing no span names a condition for has no record or a record with an empty condition |
| TestVariant.WithoutLocation | src/content/content.test.ts:56-63 | dropping the location gives, span by span, what the production engine records |
| TestVariant.ConditionsAgree | src/content/content.test.ts:56-96 | the variant's condition field equals the production map's condition for every id |
| TestVariant.DocumentConditionsAgree | src/content/content.test.ts:50-101 | the same holds on every document |
| TestVariant.ShouldHideCard | src/content/content.test.ts:104-136 | hidden exactly when the condition's toggle is on, or a location filter is set and the card has a different, non-empty location |
| TestVariant.CategoryRule | src/content/content.test.ts:117-128 | a card whose condition's toggle is on is hidden whatever its location |
| TestVariant.LocationRule | src/content/content.test.ts:131-133 | otherwise the location rule decides: filter set, location non-empty, and different; an empty location is never hidden |
| TestVariant.NewItemShown | src/content/content.test.ts:229-231 | with no location filter, a card with an empty condition is shown whatever the toggles |
| TestVariant.VariantsAgree | src/content/content.test.ts:104-136 | with no location filter, or for a card with no location, the variant hides exactly what production hides |
| TestVariant.CardSpanResolves | src/content/content.test.ts:13-36 | a span whose parent's first product link is `/p/<slug>/<id>` resolves to the id, as the mock cards are laid out |
| TestVariant.ConditionText | src/content/content.test.ts:56-63 | a condition label, in any capitalisation, contributes its condition and no location |
| TestVariant.LocationText | src/content/content.test.ts:65-72 | a location label contributes its location and no condition |
| TestVariant.UsedLabel | src/content/content.test.ts:60 | `Used` contributes the used tag |
| TestVariant.MinorDamageLabel | src/content/content.test.ts:61 | `Minor Damage` contributes the minor-damage tag |
| TestVariant.UnknownMissingLabel | src/content/content.test.ts:62 | `Unknown if Missing Parts` contributes the unknown-missing tag |
| TestVariant.NorthLasVegasLabel | src/content/content.test.ts:66-72 | `North Las Vegas` contributes that location |
| TestVariant.ScenarioSpansAre | src/content/content.test.ts:276-286 | the scenario page's spans, in document order |
| TestVariant.ScenarioMapIs | src/content/content.test.ts:288 | the map the variant builds for the scenario page |
| TestVariant.ScenarioDecisions | src/content/content.test.ts:311-318 | `001`, `003` and `005` are hidden; `002` and `004` are not |
| TestVariant.ScenarioVisible | src/content/content.test.ts:320-322 | the visible listings are exactly `002` and `004` |
| TestVariant.Scenario | src/content/content.test.ts:274-322 | with every condition toggle on and no location filter, exactly the two new items `002` and `004` stay visible |

## Left out

- Console output, and the `window.nellisDebug` diagnostics (content.ts lines 392-438), are not modelled: they only log.
- Chrome messaging is not modelled. The settings response is an input of `Page.LoadSettings`, and the popup's message is an input of `Page.OnApplyMessage`. The `sendResponse` acknowledgement is left out.
- Timers and observers are not modelled: the 500 ms and 1000 ms delays, the debounce, and the `MutationObserver` and `popstate` registrations. The model keeps what runs and in what order:
  - the observer's check (`Page.ObserverTick`);
  - the navigation reset followed by a pass (`Page.OnNavigation`);
  - the retry (`Page.TryApply`).

  What the host renders during the retry waits is a sequence of growing documents given as input; a navigation's new content is any document.
- The detection of an address change (`location.href !== lastUrl`) is not modelled. `Page.OnNavigation` is the reaction to a change.
- `init`'s sequencing is left out: it loads the settings, checks for a redirect, and returns early after a redirect. The constant 5 given to `tryApply` is left out too; it is the caller's argument to `Page.TryApply`.
- URL parsing and the navigation are not modelled. `new URL`, `searchParams` and the assignment to `window.location.href` are replaced by an input: the current `Location Name` value, absent or a string.
- Some DOM mechanics are not modelled:
  - the annotation link's `target` and `rel` attributes;
  - its click handler and `window.open`;
  - its position among its siblings. Only the element it is inserted into is kept.
- `textContent` is not computed from descendants. Each element carries its text content as given.
- Selectors are not parsed. Each selector the script uses is a test on one element.
- The as-written exception is not followed beyond the function. `encodeURIComponent` throws on a split surrogate pair, and the exception would end the rest of the `forEach` in applyFilters. The model records the exception in `AmazonUrl.GenerateAmazonUrlAsWritten` (see Findings), and the pass uses the corrected truncation.
- Strings are sequences of Unicode code points, so a lone surrogate in page text cannot be represented.
- `createMockProductCard` (content.test.ts lines 7-47) is not built as a document. Instead:
  - the scenario lists each card's spans, the location label and then the condition label;
  - `TestVariant.CardSpanResolves` shows that a span in such a card resolves to the card's id.
- The test with several cards (content.test.ts lines 190-205) has no instance of its own. It is covered by `TestVariant.EntryFieldsAreLast`, `TestVariant.NewItemHasNoCondition` and the label lemmas.
- The popup, the background service worker, the webpack configuration, the icon and packaging scripts, and the Jest configuration are not part of this model. They are browser, extension and build glue.

## Findings

| source | as written | input that shows it | evidently intended | confidence | as-written member | corrected member |
|---|---|---|---|---|---|---|
| src/content/content.ts:153-155 | `.slice(0, 100)` counts UTF-16 code units, so when the 100th unit is the high half of a surrogate pair it keeps that half alone, and `encodeURIComponent` then throws `URIError` | a title of 99 `a` followed by U+1F600 (`AmazonUrl.TruncationSplitsSurrogate`) | truncate to at most 100 code units without splitting a character, and always produce a search address | not executed | AmazonUrl.GenerateAmazonUrlAsWritten | AmazonUrl.GenerateAmazonUrl |
