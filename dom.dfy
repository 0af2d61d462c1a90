/**
 * The part of the page's document tree the engine reads. A document is the list of its elements in
 * document order; each element knows its parent (an earlier element) and carries exactly the
 * attributes and text the selectors in the content script look at. `querySelector`, `closest` and
 * the descendant relation are defined over that list, so no selector parsing is needed.
 */
module Dom {
  import opened Optional
  import opened JsText

  /** The element types the selectors distinguish: `span`, `a`, `h1`..`h6`, anything else. */
  datatype Kind = Span | Anchor | Heading | OtherElement

  /** The value of the site's `data-ax` attribute (an attribute holds one value). */
  datatype Ax = NoAx | ItemCardContainer | ItemCardTitleLink

  datatype Node = Node(
    parent: Option<nat>,
    kind: Kind,
    ax: Ax,
    text: string,              // textContent
    className: string,         // the class attribute, "" when absent
    href: Option<string>,
    ariaLabel: Option<string>,
    titleAttr: Option<string>)

  type Document = seq<Node>

  /** Every parent is an earlier element: the list is in document (pre-)order. */
  predicate WellFormed(d: Document) {
    forall i :: 0 <= i < |d| && d[i].parent.Some? ==> d[i].parent.value < i
  }

  /** `getAttribute(name) || ''`. */
  function AttrOrEmpty(a: Option<string>): string {
    a.GetOr("")
  }

  /** `a` is a proper ancestor of element `j`. */
  predicate IsAncestor(d: Document, a: nat, j: nat)
    decreases j
  {
    j < |d| && match d[j].parent
               case None => false
               case Some(p) => p == a || (p < j && IsAncestor(d, a, p))
  }

  lemma {:induction false} AncestorPrecedes(d: Document, a: nat, j: nat)
    requires WellFormed(d) && IsAncestor(d, a, j)
    ensures a < j
    decreases j
  {
    var p := d[j].parent.value;
    if p != a {
      AncestorPrecedes(d, a, p);
    }
  }

  lemma {:induction false} AncestorTransitive(d: Document, a: nat, b: nat, j: nat)
    requires WellFormed(d) && IsAncestor(d, a, b) && IsAncestor(d, b, j)
    ensures IsAncestor(d, a, j)
    decreases j
  {
    var p := d[j].parent.value;
    if p != b {
      AncestorTransitive(d, a, b, p);
    }
  }

  /** The selectors of the content script, each as a test on one element. */
  datatype Selector =
    | ProductLink        // a[href*="/p/"]
    | CardTitleLink      // a[data-ax="item-card-title-link"]
    | CardContainer      // [data-ax="item-card-container"]
    | AnyHeading         // h1, h2, h3, h4, h5, h6
    | TitleOrNameClass   // [class*="title"], [class*="Title"], [class*="name"], [class*="Name"]

  predicate Matches(n: Node, sel: Selector) {
    match sel
    case ProductLink => n.kind == Anchor && n.href.Some? && Contains(n.href.value, "/p/")
    case CardTitleLink => n.kind == Anchor && n.ax == ItemCardTitleLink
    case CardContainer => n.ax == ItemCardContainer
    case AnyHeading => n.kind == Heading
    case TitleOrNameClass =>
      Contains(n.className, "title") || Contains(n.className, "Title")
      || Contains(n.className, "name") || Contains(n.className, "Name")
  }

  /** Element `j` is a descendant of `e` that the selector picks. */
  predicate Picks(d: Document, e: nat, sel: Selector, j: nat) {
    j < |d| && IsAncestor(d, e, j) && Matches(d[j], sel)
  }

  /** The first pick of `sel` among the descendants of `e` at or after position `from`. */
  function FirstFrom(d: Document, e: nat, sel: Selector, from: nat): (r: Option<nat>)
    ensures r.Some? ==> from <= r.value && Picks(d, e, sel, r.value)
    decreases |d| - from
  {
    if from >= |d| then None
    else if Picks(d, e, sel, from) then Some(from)
    else FirstFrom(d, e, sel, from + 1)
  }

  /** Nothing the selector picks comes before the pick `FirstFrom` returns. */
  lemma {:induction false} FirstFromIsFirst(d: Document, e: nat, sel: Selector, from: nat)
    ensures var r := FirstFrom(d, e, sel, from);
            forall j :: from <= j < |d| && (r.None? || j < r.value) ==> !Picks(d, e, sel, j)
    decreases |d| - from
  {
    if from < |d| && !Picks(d, e, sel, from) {
      FirstFromIsFirst(d, e, sel, from + 1);
    }
  }

  /** `e.querySelector(sel)`: the first descendant of `e` in document order that matches. */
  function QuerySelector(d: Document, e: nat, sel: Selector): (r: Option<nat>)
    ensures r.Some? ==> Picks(d, e, sel, r.value)
  {
    FirstFrom(d, e, sel, 0)
  }

  /** The element `querySelector` returns is the first pick in document order, and when it returns
      nothing the selector picks no descendant at all. */
  lemma QuerySelectorIsFirst(d: Document, e: nat, sel: Selector)
    ensures var r := QuerySelector(d, e, sel);
            forall j :: 0 <= j < |d| && (r.None? || j < r.value) ==> !Picks(d, e, sel, j)
  {
    FirstFromIsFirst(d, e, sel, 0);
  }

  /** `e.closest(sel)`: `e` itself or its nearest ancestor that matches. */
  function Closest(d: Document, e: nat, sel: Selector): (r: Option<nat>)
    requires e < |d|
    ensures r.Some? ==> r.value < |d| && Matches(d[r.value], sel) && (r.value == e || IsAncestor(d, r.value, e))
    ensures r.None? && WellFormed(d) ==> !Matches(d[e], sel)
    decreases e
  {
    if Matches(d[e], sel) then Some(e)
    else match d[e].parent
      case None => None
      case Some(p) =>
        if p < e then
          Closest(d, p, sel)
        else None
  }

  /** `closest` finds the nearest match: when it finds nothing no ancestor matches, and when it
      finds an ancestor, neither `e` nor any element between the two matches. */
  lemma {:induction false} ClosestIsNearest(d: Document, e: nat, sel: Selector)
    requires WellFormed(d) && e < |d|
    ensures Closest(d, e, sel).None? ==>
              forall a :: 0 <= a < |d| && IsAncestor(d, a, e) ==> !Matches(d[a], sel)
    ensures var r := Closest(d, e, sel);
            r.Some? && r.value != e ==>
              !Matches(d[e], sel) &&
              forall a :: 0 <= a < |d| && IsAncestor(d, a, e) && IsAncestor(d, r.value, a) ==> !Matches(d[a], sel)
    decreases e
  {
    if !Matches(d[e], sel) && d[e].parent.Some? {
      var p := d[e].parent.value;
      ClosestIsNearest(d, p, sel);
      var r := Closest(d, p, sel);
      forall a | 0 <= a < |d| && IsAncestor(d, a, e) && (r.None? || IsAncestor(d, r.value, a))
        ensures !Matches(d[a], sel)
      {
        if r.Some? && r.value == p {
          if a == p {
            AncestorPrecedes(d, p, p);
          } else {
            AncestorPrecedes(d, a, p);
            AncestorPrecedes(d, p, a);
          }
        }
      }
    }
  }

  /** The element reached by walking `k` parent steps up from `start` (`None` once past the root). */
  function AncestorAt(d: Document, start: Option<nat>, k: nat): (r: Option<nat>)
    requires WellFormed(d) && (start.Some? ==> start.value < |d|)
    ensures r.Some? ==> r.value < |d|
    ensures k == 0 ==> r == start
    ensures start.None? ==> r.None?
    decreases k
  {
    if k == 0 || start.None? then start
    else AncestorAt(d, d[start.value].parent, k - 1)
  }
}
