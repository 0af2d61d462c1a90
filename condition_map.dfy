/**
 * buildConditionMap: every span whose trimmed text is a condition phrase is tied to a listing id by
 * walking up from the span's parent, at most ten ancestors, and taking at each the first descendant
 * link whose href contains `/p/`; the first such link whose href yields an id decides. The map sends
 * each id to the condition of the last span tied to it.
 */
module ConditionMap {
  import opened Optional
  import opened JsText
  import opened Dom
  import opened Classifier
  import opened ProductHref

  /** How many ancestors the walk from a span visits at most. */
  const MaxLevels: nat := 10

  /** What `ancestor.querySelector('a[href*="/p/"]')` and the id pattern give at one ancestor. */
  function LinkIdAt(d: Document, e: nat): (id: string)
    ensures id == "" || AllDigits(id)
  {
    match QuerySelector(d, e, ProductLink)
    case Some(l) => GetProductId(AttrOrEmpty(d[l].href))
    case None => ""
  }

  /** The id the walk settles on, starting at `from` with `levels` ancestors left to visit. */
  function IdWithin(d: Document, from: Option<nat>, levels: nat): (id: string)
    requires WellFormed(d) && (from.Some? ==> from.value < |d|)
    ensures id == "" || AllDigits(id)
    decreases levels
  {
    if levels == 0 || from.None? then ""
    else if LinkIdAt(d, from.value) != "" then LinkIdAt(d, from.value)
    else IdWithin(d, d[from.value].parent, levels - 1)
  }

  /** The id every node of the document yields when the walk reaches it. */
  function LinkIds(d: Document): (ids: seq<string>)
    ensures |ids| == |d|
    ensures forall e :: 0 <= e < |d| ==> ids[e] == LinkIdAt(d, e)
  {
    seq(|d|, e requires 0 <= e < |d| => LinkIdAt(d, e))
  }

  /** The walk over any table `ids` of what each node yields; `IdWithin` is the walk over
      `LinkIds(d)`. Stating the walk's properties over the table keeps them apart from how a node's
      link and id are found. */
  function Walk(d: Document, ids: seq<string>, from: Option<nat>, levels: nat): string
    requires WellFormed(d) && |ids| == |d| && (from.Some? ==> from.value < |d|)
    decreases levels
  {
    if levels == 0 || from.None? then ""
    else if ids[from.value] != "" then ids[from.value]
    else Walk(d, ids, d[from.value].parent, levels - 1)
  }

  lemma {:induction false} IdWithinIsWalk(d: Document, from: Option<nat>, levels: nat)
    requires WellFormed(d) && (from.Some? ==> from.value < |d|)
    ensures IdWithin(d, from, levels) == Walk(d, LinkIds(d), from, levels)
    decreases levels
  {
    if levels > 0 && from.Some? {
      IdWithinIsWalk(d, d[from.value].parent, levels - 1);
    }
  }

  /** The walk gets nothing at the ancestor `k` steps up: there is none, or it yields no id. */
  predicate Barren(d: Document, ids: seq<string>, from: Option<nat>, k: nat)
    requires WellFormed(d) && |ids| == |d| && (from.Some? ==> from.value < |d|)
  {
    AncestorAt(d, from, k).None? || ids[AncestorAt(d, from, k).value] == ""
  }

  /** One step up from `from` and `k` more is `k + 1` steps up from `from`. */
  lemma AncestorShift(d: Document, from: Option<nat>, k: nat)
    requires WellFormed(d) && from.Some? && from.value < |d|
    ensures AncestorAt(d, from, k + 1) == AncestorAt(d, d[from.value].parent, k)
  {
  }

  lemma {:induction false} WalkEmpty(d: Document, ids: seq<string>, from: Option<nat>, levels: nat)
    requires WellFormed(d) && |ids| == |d| && (from.Some? ==> from.value < |d|)
    ensures Walk(d, ids, from, levels) == "" <==> forall k :: 0 <= k < levels ==> Barren(d, ids, from, k)
    decreases levels
  {
    if levels > 0 && from.Some? && ids[from.value] == "" {
      var up := d[from.value].parent;
      WalkEmpty(d, ids, up, levels - 1);
      forall k | 0 <= k < levels - 1
        ensures Barren(d, ids, from, k + 1) == Barren(d, ids, up, k)
      {
        AncestorShift(d, from, k);
      }
      assert Barren(d, ids, from, 0);
      if forall k :: 0 <= k < levels - 1 ==> Barren(d, ids, up, k) {
        forall k | 0 <= k < levels
          ensures Barren(d, ids, from, k)
        {
          if k > 0 {
            assert Barren(d, ids, from, (k - 1) + 1) == Barren(d, ids, up, k - 1);
          }
        }
      }
    } else if levels > 0 && from.Some? {
      assert !Barren(d, ids, from, 0);
    }
  }

  lemma {:induction false} WalkNearest(d: Document, ids: seq<string>, from: Option<nat>, levels: nat, k: nat)
    requires WellFormed(d) && |ids| == |d| && (from.Some? ==> from.value < |d|)
    requires k < levels && !Barren(d, ids, from, k)
    requires forall k' :: 0 <= k' < k ==> Barren(d, ids, from, k')
    ensures Walk(d, ids, from, levels) == ids[AncestorAt(d, from, k).value]
    decreases levels
  {
    if k > 0 {
      assert Barren(d, ids, from, 0);
      var up := d[from.value].parent;
      forall k' | 0 <= k' < k - 1
        ensures Barren(d, ids, up, k')
      {
        AncestorShift(d, from, k');
        assert Barren(d, ids, from, k' + 1);
      }
      AncestorShift(d, from, k - 1);
      WalkNearest(d, ids, up, levels - 1, k - 1);
    }
  }

  /** The walk comes back empty exactly when none of the first `levels` ancestors yields an id:
      each either does not exist or has no product link whose href yields one. */
  lemma IdWithinEmpty(d: Document, from: Option<nat>, levels: nat)
    requires WellFormed(d) && (from.Some? ==> from.value < |d|)
    ensures IdWithin(d, from, levels) == "" <==> forall k :: 0 <= k < levels ==> Barren(d, LinkIds(d), from, k)
  {
    IdWithinIsWalk(d, from, levels);
    WalkEmpty(d, LinkIds(d), from, levels);
  }

  /** The nearest ancestor that yields an id decides: if the ancestor `k` steps up, within the first
      `levels`, yields one and every ancestor below it yields none, the walk returns its id. */
  lemma IdWithinNearest(d: Document, from: Option<nat>, levels: nat, k: nat)
    requires WellFormed(d) && (from.Some? ==> from.value < |d|)
    requires k < levels && !Barren(d, LinkIds(d), from, k)
    requires forall k' :: 0 <= k' < k ==> Barren(d, LinkIds(d), from, k')
    ensures IdWithin(d, from, levels) == LinkIdAt(d, AncestorAt(d, from, k).value)
  {
    IdWithinIsWalk(d, from, levels);
    WalkNearest(d, LinkIds(d), from, levels, k);
  }

  /** The id a span is tied to: the walk from its parent through at most ten ancestors. */
  function SpanProductId(d: Document, span: nat): (id: string)
    requires WellFormed(d) && span < |d|
    ensures id == "" || AllDigits(id)
  {
    IdWithin(d, d[span].parent, MaxLevels)
  }

  /** The walk of one span, as the `for` loop with its `break` performs it. */
  method ResolveProductId(d: Document, span: nat) returns (productId: string)
    requires WellFormed(d) && span < |d|
    ensures productId == SpanProductId(d, span)
  {
    var parent: Option<nat> := d[span].parent;
    productId := "";
    var i := 0;
    while i < MaxLevels && parent.Some?
      invariant 0 <= i <= MaxLevels
      invariant parent.Some? ==> parent.value < |d|
      invariant productId == ""
      invariant IdWithin(d, d[span].parent, MaxLevels) == IdWithin(d, parent, MaxLevels - i)
      decreases MaxLevels - i
    {
      var link := QuerySelector(d, parent.value, ProductLink);
      if link.Some? {
        var href := AttrOrEmpty(d[link.value].href);
        // the pattern matched exactly when the captured id is non-empty
        var id := GetProductId(href);
        if id != "" {
          productId := id;
          break;
        }
      }
      parent := d[parent.value].parent;
      i := i + 1;
    }
  }

  /** The condition a node's text names, if the node is a span. */
  function SpanCondition(n: Node): Condition {
    if n.kind == Span then ConditionOf(Trim(n.text)) else NoCondition
  }

  /** What a node contributes to the map: the condition its text names and the id its walk finds. */
  datatype SpanEntry = SpanEntry(condition: Condition, id: string)

  function SpanEntryOf(d: Document, j: nat): (e: SpanEntry)
    requires WellFormed(d) && j < |d|
    ensures e.id == "" || AllDigits(e.id)
  {
    SpanEntry(SpanCondition(d[j]), SpanProductId(d, j))
  }

  /** The entries of the first `n` nodes, in document order. */
  function SpanEntries(d: Document, n: nat): (es: seq<SpanEntry>)
    requires WellFormed(d) && n <= |d|
    ensures |es| == n
    ensures forall j :: 0 <= j < n ==> es[j].id == "" || AllDigits(es[j].id)
  {
    if n == 0 then [] else SpanEntries(d, n - 1) + [SpanEntryOf(d, n - 1)]
  }

  lemma {:induction false} SpanEntriesAt(d: Document, n: nat, j: nat)
    requires WellFormed(d) && j < n <= |d|
    ensures SpanEntries(d, n)[j] == SpanEntryOf(d, j)
    decreases n
  {
    if j < n - 1 {
      SpanEntriesAt(d, n - 1, j);
    }
  }

  /** What one span does to the map: a span that names a condition and is tied to an id sets that
      id's entry; any other node leaves the map alone. */
  function AddEntry(m: map<string, Condition>, e: SpanEntry): (m': map<string, Condition>)
    ensures e.condition != NoCondition && e.id != "" ==> m' == m[e.id := e.condition]
    ensures e.condition == NoCondition || e.id == "" ==> m' == m
  {
    if e.condition == NoCondition || e.id == "" then m else m[e.id := e.condition]
  }

  /** The map after the entries `es` have been applied in order. */
  function MapOf(es: seq<SpanEntry>): map<string, Condition> {
    if es == [] then map[] else AddEntry(MapOf(es[..|es| - 1]), es[|es| - 1])
  }

  /** The map buildConditionMap returns for a document. */
  function ConditionMapOf(d: Document): map<string, Condition>
    requires WellFormed(d)
  {
    MapOf(SpanEntries(d, |d|))
  }

  /** The `forEach` callback for one span. */
  method VisitSpan(d: Document, span: nat, m: map<string, Condition>) returns (m': map<string, Condition>)
    requires WellFormed(d) && span < |d| && d[span].kind == Span
    ensures m' == AddEntry(m, SpanEntryOf(d, span))
  {
    m' := m;
    var text := Trim(d[span].text);
    var condition := ConditionOf(text);
    if condition != NoCondition {
      var productId := ResolveProductId(d, span);
      if productId != "" {
        m' := m'[productId := condition];
      }
    }
  }

  /** buildConditionMap: the spans in document order. */
  method BuildConditionMap(d: Document) returns (m: map<string, Condition>)
    requires WellFormed(d)
    ensures m == ConditionMapOf(d)
  {
    m := map[];
    var i := 0;
    while i < |d|
      invariant 0 <= i <= |d|
      invariant m == MapOf(SpanEntries(d, i))
    {
      var es := SpanEntries(d, i + 1);
      assert es[..i] == SpanEntries(d, i);
      if d[i].kind == Span {
        m := VisitSpan(d, i, m);
      }
      i := i + 1;
    }
  }

  /** `conditionMap.get(productId) || ''`. */
  function ConditionFor(m: map<string, Condition>, id: string): Condition {
    if id in m then m[id] else NoCondition
  }

  /** Every key is a non-empty run of digits and every value one of the four tags. */
  lemma {:induction false} MapEntriesWellFormed(es: seq<SpanEntry>)
    requires forall j :: 0 <= j < |es| ==> es[j].id == "" || AllDigits(es[j].id)
    ensures forall id :: id in MapOf(es) ==> id != "" && AllDigits(id) && MapOf(es)[id] != NoCondition
  {
    if es != [] {
      MapEntriesWellFormed(es[..|es| - 1]);
    }
  }

  /** A card whose href yields no id looks up the empty key and finds no condition. */
  lemma NoIdNoCondition(d: Document)
    requires WellFormed(d)
    ensures ConditionFor(ConditionMapOf(d), "") == NoCondition
  {
    MapEntriesWellFormed(SpanEntries(d, |d|));
  }

  /** Entry `e` carries a condition for `id`. */
  predicate Names(e: SpanEntry, id: string) {
    e.condition != NoCondition && id != "" && e.id == id
  }

  /** The last of the entries `es` that carries a condition for `id`. */
  function LastEntryFor(es: seq<SpanEntry>, id: string): (r: Option<nat>)
    ensures r.Some? ==> r.value < |es| && Names(es[r.value], id)
    ensures r.Some? ==> forall k :: r.value < k < |es| ==> !Names(es[k], id)
    ensures r.None? ==> forall k :: 0 <= k < |es| ==> !Names(es[k], id)
  {
    if es == [] then None
    else if Names(es[|es| - 1], id) then Some(|es| - 1)
    else LastEntryFor(es[..|es| - 1], id)
  }

  /** An id has an entry exactly when some span carries a condition for it, and the entry holds
      the condition of the last such span: a later span for the same listing overwrites an
      earlier one. */
  lemma {:induction false} LastEntryWins(es: seq<SpanEntry>, id: string)
    ensures id in MapOf(es) <==> LastEntryFor(es, id).Some?
    ensures id in MapOf(es) ==> MapOf(es)[id] == es[LastEntryFor(es, id).value].condition
  {
    if es != [] {
      var init := es[..|es| - 1];
      LastEntryWins(init, id);
      if !Names(es[|es| - 1], id) && LastEntryFor(init, id).Some? {
        assert init[LastEntryFor(init, id).value] == es[LastEntryFor(init, id).value];
      }
    }
  }

  /** The same on the document: the entry for `id` is the condition of the last span, in document
      order, whose text names a condition and whose walk resolves to `id`. */
  lemma LastSpanWins(d: Document, id: string, j: nat)
    requires WellFormed(d) && j < |d|
    requires SpanCondition(d[j]) != NoCondition && id != "" && SpanProductId(d, j) == id
    requires forall k :: j < k < |d| ==> !Names(SpanEntryOf(d, k), id)
    ensures ConditionFor(ConditionMapOf(d), id) == SpanCondition(d[j])
  {
    var es := SpanEntries(d, |d|);
    SpanEntriesAt(d, |d|, j);
    forall k | j < k < |d|
      ensures !Names(es[k], id)
    {
      SpanEntriesAt(d, |d|, k);
    }
    LastEntryWins(es, id);
    var r := LastEntryFor(es, id);
    assert Names(es[j], id);
    assert r.Some? && r.value == j;
  }

  /** An id that no span is tied to has no entry: the card looking it up finds no condition. */
  lemma UnnamedIdNoCondition(d: Document, id: string)
    requires WellFormed(d)
    requires forall k :: 0 <= k < |d| ==> !Names(SpanEntryOf(d, k), id)
    ensures ConditionFor(ConditionMapOf(d), id) == NoCondition
  {
    var es := SpanEntries(d, |d|);
    forall k | 0 <= k < |d|
      ensures !Names(es[k], id)
    {
      SpanEntriesAt(d, |d|, k);
    }
    LastEntryWins(es, id);
  }
}
