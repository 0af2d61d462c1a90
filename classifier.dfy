/**
 * The label classifier: a span's trimmed text names a condition only when the whole text equals one
 * of four fixed phrases, ignoring the case of ASCII letters (`/^used$/i` and its three siblings).
 */
module Classifier {
  import opened JsText

  /** The condition tags; `NoCondition` is the empty string the source uses for "new" items. */
  datatype Condition = NoCondition | Used | MinorDamage | UnknownMissing | MissingParts

  /** The phrase each tag is recognised by, in lower case. */
  function Phrase(c: Condition): (p: string)
    requires c != NoCondition
    ensures |p| > 0
  {
    match c
    case Used => "used"
    case MinorDamage => "minor damage"
    case UnknownMissing => "unknown if missing parts"
    case MissingParts => "missing parts"
  }

  /** The `if / else if` chain of regular-expression tests on a span's trimmed text. */
  function ConditionOf(text: string): (c: Condition)
    ensures c != NoCondition ==> EqualsIgnoreCase(text, Phrase(c))
    ensures c == NoCondition <==> forall t: Condition :: t != NoCondition ==> !EqualsIgnoreCase(text, Phrase(t))
  {
    if EqualsIgnoreCase(text, "used") then Used
    else if EqualsIgnoreCase(text, "minor damage") then MinorDamage
    else if EqualsIgnoreCase(text, "unknown if missing parts") then UnknownMissing
    else if EqualsIgnoreCase(text, "missing parts") then MissingParts
    else NoCondition
  }

  /** Every spelling of a phrase, in any mix of upper and lower case, yields its own tag. */
  lemma PhraseInAnyCase(c: Condition, text: string)
    requires c != NoCondition && EqualsIgnoreCase(text, Phrase(c))
    ensures ConditionOf(text) == c
  {
  }

  /** Text of any other length — "New", "Used car", "Missing parts (2)" — carries no condition. */
  lemma OnlyWholePhrases(text: string)
    requires |text| != 4 && |text| != 12 && |text| != 13 && |text| != 24
    ensures ConditionOf(text) == NoCondition
  {
  }

  /** A span whose text is a phrase padded with whitespace is classified by the phrase, since the
      text is trimmed before the test. */
  lemma {:induction false} PaddedPhrase(c: Condition, pre: string, post: string)
    requires c != NoCondition
    requires forall i :: 0 <= i < |pre| ==> IsJsSpace(pre[i])
    requires forall i :: 0 <= i < |post| ==> IsJsSpace(post[i])
    ensures ConditionOf(Trim(pre + Phrase(c) + post)) == c
  {
    var p := Phrase(c);
    assert !IsJsSpace(p[0]) && !IsJsSpace(p[|p| - 1]);
    TrimStripsPadding(pre, p, post);
    PhraseInAnyCase(c, p);
  }
}
