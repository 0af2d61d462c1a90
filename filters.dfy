/**
 * The user's filter settings, how a settings response from the extension's background is merged into
 * them, the hide decision, and the saved-location redirect decision.
 */
module Filters {
  import opened Optional
  import opened Classifier

  datatype FilterSettings = FilterSettings(
    hideUsed: bool,
    hideMinorDamage: bool,
    hideUnknownMissing: bool,
    hideMissingParts: bool,
    showAmazonLinks: bool,
    locationFilter: string)

  /** The settings the content script starts with. */
  const DefaultSettings: FilterSettings := FilterSettings(false, false, false, false, true, "")

  /** The toggle that governs a condition. */
  function Toggle(s: FilterSettings, c: Condition): bool
    requires c != NoCondition
  {
    match c
    case Used => s.hideUsed
    case MinorDamage => s.hideMinorDamage
    case UnknownMissing => s.hideUnknownMissing
    case MissingParts => s.hideMissingParts
  }

  /** The four `if`s that set `shouldHide`: a card is hidden exactly when its condition is one of
      the four tags and that tag's toggle is on. */
  function ShouldHide(s: FilterSettings, c: Condition): (hides: bool)
    ensures hides <==> c != NoCondition && Toggle(s, c)
  {
    (s.hideUsed && c == Used) || (s.hideMinorDamage && c == MinorDamage)
    || (s.hideUnknownMissing && c == UnknownMissing) || (s.hideMissingParts && c == MissingParts)
  }

  /** Only the condition's own toggle matters: the other toggles, the annotation switch and the
      location filter play no part. */
  lemma HideDependsOnOwnToggle(s: FilterSettings, t: FilterSettings, c: Condition)
    requires c != NoCondition && Toggle(s, c) == Toggle(t, c)
    ensures ShouldHide(s, c) == ShouldHide(t, c)
  {
  }

  /** The fields a settings response may carry; a missing field is `None`. */
  datatype SettingsResponse = SettingsResponse(
    hideUsed: Option<bool>,
    hideMinorDamage: Option<bool>,
    hideUnknownMissing: Option<bool>,
    hideMissingParts: Option<bool>,
    showAmazonLinks: Option<bool>,
    locationFilter: Option<string>)

  /** `{ ...current, ...response }`: every field the response carries replaces the current one. */
  function MergeSettings(current: FilterSettings, response: SettingsResponse): (s: FilterSettings)
    ensures response.hideUsed.Some? ==> s.hideUsed == response.hideUsed.value
    ensures response.hideUsed.None? ==> s.hideUsed == current.hideUsed
    ensures response.hideMinorDamage.Some? ==> s.hideMinorDamage == response.hideMinorDamage.value
    ensures response.hideMinorDamage.None? ==> s.hideMinorDamage == current.hideMinorDamage
    ensures response.hideUnknownMissing.Some? ==> s.hideUnknownMissing == response.hideUnknownMissing.value
    ensures response.hideUnknownMissing.None? ==> s.hideUnknownMissing == current.hideUnknownMissing
    ensures response.hideMissingParts.Some? ==> s.hideMissingParts == response.hideMissingParts.value
    ensures response.hideMissingParts.None? ==> s.hideMissingParts == current.hideMissingParts
    ensures response.showAmazonLinks.Some? ==> s.showAmazonLinks == response.showAmazonLinks.value
    ensures response.showAmazonLinks.None? ==> s.showAmazonLinks == current.showAmazonLinks
    ensures response.locationFilter.Some? ==> s.locationFilter == response.locationFilter.value
    ensures response.locationFilter.None? ==> s.locationFilter == current.locationFilter
  {
    FilterSettings(
      response.hideUsed.GetOr(current.hideUsed),
      response.hideMinorDamage.GetOr(current.hideMinorDamage),
      response.hideUnknownMissing.GetOr(current.hideUnknownMissing),
      response.hideMissingParts.GetOr(current.hideMissingParts),
      response.showAmazonLinks.GetOr(current.showAmazonLinks),
      response.locationFilter.GetOr(current.locationFilter))
  }

  /** The response that carries every field of `s`. */
  function Complete(s: FilterSettings): SettingsResponse {
    SettingsResponse(Some(s.hideUsed), Some(s.hideMinorDamage), Some(s.hideUnknownMissing),
                     Some(s.hideMissingParts), Some(s.showAmazonLinks), Some(s.locationFilter))
  }

  const EmptyResponse: SettingsResponse := SettingsResponse(None, None, None, None, None, None)

  /** A complete response replaces the settings. */
  lemma MergeComplete(current: FilterSettings, s: FilterSettings)
    ensures MergeSettings(current, Complete(s)) == s
  {
  }

  /** An empty response keeps them. */
  lemma MergeEmpty(current: FilterSettings)
    ensures MergeSettings(current, EmptyResponse) == current
  {
  }

  /** Merging the same response again changes nothing more. */
  lemma MergeIdempotent(current: FilterSettings, response: SettingsResponse)
    ensures MergeSettings(MergeSettings(current, response), response) == MergeSettings(current, response)
  {
  }

  /** Loading at start-up: an absent response (none came back, or the call threw) keeps the
      defaults in place. */
  function LoadedSettings(current: FilterSettings, response: Option<SettingsResponse>): (s: FilterSettings)
    ensures response.None? ==> s == current
    ensures response.Some? ==> s == MergeSettings(current, response.value)
  {
    match response
    case Some(r) => MergeSettings(current, r)
    case None => current
  }

  /** checkLocationRedirect: given the saved location and the page's current `Location Name` query
      value (absent = `None`), the value to redirect with, if a redirect is due. */
  function LocationRedirect(saved: string, current: Option<string>): (target: Option<string>)
    ensures target.Some? <==> saved != "" && current.GetOr("") != saved
    ensures target.Some? ==> target.value == saved
  {
    if saved == "" then None
    else if current.GetOr("") != saved then Some(saved)
    else None
  }

  /** After the redirect has set the query value, the check on the new page finds nothing to do: the
      redirect cannot loop. */
  lemma RedirectSettles(saved: string, current: Option<string>)
    ensures var target := LocationRedirect(saved, current);
            target.Some? ==> LocationRedirect(saved, Some(target.value)).None?
  {
  }
}
