/**
 * The reconciliation pass (applyFilters) and the state it works on.
 *
 * A pass first takes every annotation link off the page and the hidden class off every element, then
 * rebuilds the condition map, collects the product cards (the title link of every card container
 * not carrying the processed marker) and, card by card, decides whether to hide it, hides its
 * container or counts it as shown, marks the card processed, and annotates a shown card with an
 * Amazon search link when the setting asks for it.
 *
 * The page is a class: its document, the current settings, and the three things the script writes
 * into the page — the processed markers (the cards carrying the attribute), the elements carrying
 * the hidden class, and the annotation links, in insertion order. The annotation links are kept
 * apart from the document's elements: none of them matches any selector the script queries
 * (`LinkMatchesNoSelector`), so the queries read the same with or without them.
 */
module ContentScript {
  import opened Optional
  import opened JsText
  import opened Dom
  import opened Classifier
  import opened ProductHref
  import opened ProductTitle
  import opened AmazonUrl
  import opened Filters
  import opened ConditionMap

  const AmazonLinkClass: string := "nellis-helper-amazon-link"
  const TooltipPrefix: string := "Search Amazon for: "
  /** The shortest title (in UTF-16 code units) that gets an annotation link. */
  const MinTitleUnits: nat := 5

  /** An annotation link: the card it annotates, the element it was inserted into, and the title
      it searches for, from which its href and its tooltip are made. */
  datatype AmazonLink = AmazonLink(card: nat, parent: nat, title: string)

  function Href(l: AmazonLink): string {
    GenerateAmazonUrl(l.title)
  }

  /** `Search Amazon for: ${title}`. */
  function Tooltip(l: AmazonLink): string {
    TooltipPrefix + l.title
  }

  /** The annotation link as an element of the page. */
  function LinkNode(l: AmazonLink): Node {
    Node(Some(l.parent), Anchor, NoAx, "", AmazonLinkClass, Some(Href(l)), None, Some(Tooltip(l)))
  }

  lemma {:induction false} NoAdjacentPair(s: string, sub: string)
    requires |sub| >= 2
    requires forall i :: 0 <= i < |s| - 1 ==> !(s[i] == sub[0] && s[i + 1] == sub[1])
    ensures !Contains(s, sub)
  {
    forall i | 0 <= i <= |s| - |sub|
      ensures !OccursAt(s, sub, i)
    {
      if i + |sub| <= |s| {
        assert s[i..i + |sub|][0] == s[i] && s[i..i + |sub|][1] == s[i + 1];
      }
    }
  }

  /** The link's class names neither a title nor a name. */
  lemma LinkClassNamesNothing()
    ensures !Contains(AmazonLinkClass, "title") && !Contains(AmazonLinkClass, "Title")
    ensures !Contains(AmazonLinkClass, "name") && !Contains(AmazonLinkClass, "Name")
  {
    var c := AmazonLinkClass;
    assert forall i :: 0 <= i < |c| ==> c[i] != 't' && c[i] != 'T' && c[i] != 'N';
    assert forall i :: 0 <= i < |c| - 1 ==> !(c[i] == 'n' && c[i + 1] == 'a');
    NoAdjacentPair(c, "title");
    NoAdjacentPair(c, "Title");
    NoAdjacentPair(c, "name");
    NoAdjacentPair(c, "Name");
  }

  /** An Amazon link matches none of the selectors the script queries (its href never contains
      `/p/`, its class names neither a title nor a name), so inserting one changes no query. */
  lemma LinkMatchesNoSelector(l: AmazonLink)
    ensures forall sel: Selector :: !Matches(LinkNode(l), sel)
  {
    AmazonUrlIsNotProductLink(l.title);
    LinkShapeMatchesNoSelector(LinkNode(l));
  }

  /** An anchor of the link's class, with no `data-ax` and an href without `/p/`, matches nothing. */
  lemma LinkShapeMatchesNoSelector(n: Node)
    requires n.kind == Anchor && n.ax == NoAx && n.className == AmazonLinkClass
    requires n.href.Some? && !Contains(n.href.value, "/p/")
    ensures forall sel: Selector :: !Matches(n, sel)
  {
    LinkClassNamesNothing();
  }

  // ----- findProductCards -----

  /** The card a node contributes when it is a card container: its first title link. */
  function CardOf(d: Document, e: nat): (r: Option<nat>)
    requires e < |d|
    ensures r.Some? ==> r.value < |d| && Matches(d[r.value], CardTitleLink) && IsAncestor(d, e, r.value)
  {
    if Matches(d[e], CardContainer) then QuerySelector(d, e, CardTitleLink) else None
  }

  /** The cards collected from the first `n` nodes: each container without the processed marker
      that holds a title link contributes that link, in document order. */
  function CardsUpTo(d: Document, processed: set<nat>, n: nat): (cards: seq<nat>)
    requires n <= |d|
    ensures forall i :: 0 <= i < |cards| ==> cards[i] < |d| && Matches(d[cards[i]], CardTitleLink)
  {
    if n == 0 then []
    else
      var e := n - 1;
      CardsUpTo(d, processed, e) + (if e !in processed && CardOf(d, e).Some? then [CardOf(d, e).value] else [])
  }

  function ProductCards(d: Document, processed: set<nat>): (cards: seq<nat>)
    ensures forall i :: 0 <= i < |cards| ==> cards[i] < |d| && Matches(d[cards[i]], CardTitleLink)
  {
    CardsUpTo(d, processed, |d|)
  }

  /** findProductCards: the containers in document order. */
  method FindProductCards(d: Document, processed: set<nat>) returns (validCards: seq<nat>)
    ensures validCards == ProductCards(d, processed)
  {
    validCards := [];
    var e := 0;
    while e < |d|
      invariant 0 <= e <= |d|
      invariant validCards == CardsUpTo(d, processed, e)
    {
      if Matches(d[e], CardContainer) && e !in processed {
        var titleLink := QuerySelector(d, e, CardTitleLink);
        if titleLink.Some? {
          validCards := validCards + [titleLink.value];
        }
      }
      e := e + 1;
    }
  }

  /** Every element carrying the processed marker is a title link. */
  predicate TitleLinksOnly(d: Document, processed: set<nat>) {
    forall p :: p in processed ==> p < |d| && Matches(d[p], CardTitleLink)
  }

  /** The marker is written on the title link but looked for on the container, and no element is
      both, so the skip never fires: the cards are the same whatever markers the page carries. */
  lemma {:induction false} NoSkip(d: Document, processed: set<nat>, n: nat)
    requires n <= |d| && TitleLinksOnly(d, processed)
    ensures CardsUpTo(d, processed, n) == CardsUpTo(d, {}, n)
  {
    if n > 0 {
      NoSkip(d, processed, n - 1);
      var e := n - 1;
      if e in processed {
        assert Matches(d[e], CardTitleLink);
        assert !Matches(d[e], CardContainer);
      }
    }
  }

  /** Every container that holds a title link gives a card. */
  lemma {:induction false} ContainerGivesCard(d: Document, processed: set<nat>, n: nat, e: nat)
    requires e < n <= |d| && e !in processed && CardOf(d, e).Some?
    ensures CardOf(d, e).value in CardsUpTo(d, processed, n)
  {
    if e < n - 1 {
      ContainerGivesCard(d, processed, n - 1, e);
    }
  }

  // ----- the per-card decision -----

  /** getCardContainer: the card itself when it is a container, else its nearest enclosing card
      container, else (no container above it) the card itself. */
  function GetCardContainer(d: Document, card: nat): (c: nat)
    requires card < |d|
    ensures c < |d|
    ensures c == card || (IsAncestor(d, c, card) && Matches(d[c], CardContainer))
  {
    Closest(d, card, CardContainer).GetOr(card)
  }

  /** The container is the nearest one: the card falls back to itself only when no ancestor is a
      container, and no element between the card and its container is one. */
  lemma GetCardContainerIsNearest(d: Document, card: nat)
    requires WellFormed(d) && card < |d|
    ensures var c := GetCardContainer(d, card);
            c == card && !Matches(d[card], CardContainer) ==>
              forall a :: 0 <= a < |d| && IsAncestor(d, a, card) ==> !Matches(d[a], CardContainer)
    ensures var c := GetCardContainer(d, card);
            c != card ==>
              !Matches(d[card], CardContainer) &&
              forall a :: 0 <= a < |d| && IsAncestor(d, a, card) && IsAncestor(d, c, a) ==> !Matches(d[a], CardContainer)
  {
    ClosestIsNearest(d, card, CardContainer);
  }

  /** The id a card looks up: getProductId on the card's href. */
  function CardProductId(d: Document, card: nat): string
    requires card < |d|
  {
    GetProductId(AttrOrEmpty(d[card].href))
  }

  /** The element an annotation link is inserted into: after the card's first heading, so into
      the heading's parent, or else at the start of the card itself. */
  function InsertionParent(d: Document, card: nat): (p: nat)
    requires card < |d|
    ensures p == card || IsAncestor(d, card, p)
  {
    match QuerySelector(d, card, AnyHeading)
    case Some(h) => d[h].parent.value
    case None => card
  }

  /** The link addAmazonLink would insert for a card with this title. */
  function CandidateLink(d: Document, card: nat, title: string): (l: AmazonLink)
    requires card < |d|
    ensures l.card == card && (l.parent == card || IsAncestor(d, card, l.parent))
  {
    AmazonLink(card, InsertionParent(d, card), title)
  }

  /** What the pass works out for one card before it touches the page. */
  datatype CardPlan = CardPlan(card: nat, container: nat, hides: bool, title: string, link: AmazonLink)

  function PlanOf(d: Document, s: FilterSettings, m: map<string, Condition>, card: nat): (p: CardPlan)
    requires card < |d|
    ensures p.card == card && p.link == CandidateLink(d, card, p.title)
    ensures p.link.parent == card || IsAncestor(d, card, p.link.parent)
  {
    var title := GetProductTitle(d, card);
    CardPlan(card, GetCardContainer(d, card), ShouldHide(s, ConditionFor(m, CardProductId(d, card))),
             title, CandidateLink(d, card, title))
  }

  function Plans(d: Document, s: FilterSettings, m: map<string, Condition>, cards: seq<nat>): (ps: seq<CardPlan>)
    requires forall i :: 0 <= i < |cards| ==> cards[i] < |d|
    ensures |ps| == |cards|
  {
    if cards == [] then [] else Plans(d, s, m, cards[..|cards| - 1]) + [PlanOf(d, s, m, cards[|cards| - 1])]
  }

  lemma {:induction false} PlansAt(d: Document, s: FilterSettings, m: map<string, Condition>, cards: seq<nat>, i: nat)
    requires forall j :: 0 <= j < |cards| ==> cards[j] < |d|
    requires i < |cards|
    ensures Plans(d, s, m, cards)[i] == PlanOf(d, s, m, cards[i])
  {
    if i < |cards| - 1 {
      var front := cards[..|cards| - 1];
      PlansAt(d, s, m, front, i);
      assert front[i] == cards[i];
    }
  }

  /** A card's verdict: its condition from the map, and the toggles. */
  lemma CardVerdict(d: Document, s: FilterSettings, card: nat)
    requires WellFormed(d) && card < |d|
    ensures var c := ConditionFor(ConditionMapOf(d), CardProductId(d, card));
            PlanOf(d, s, ConditionMapOf(d), card).hides <==> c != NoCondition && Toggle(s, c)
  {
  }

  /** A card whose href yields no id finds no condition, so it is never hidden. */
  lemma CardWithoutIdShown(d: Document, s: FilterSettings, card: nat)
    requires WellFormed(d) && card < |d| && CardProductId(d, card) == ""
    ensures !PlanOf(d, s, ConditionMapOf(d), card).hides
  {
    NoIdNoCondition(d);
  }

  // ----- addAmazonLink -----

  /** Link `l` lies inside `card`: it was inserted into the card or into one of its descendants. */
  predicate Within(d: Document, l: AmazonLink, card: nat) {
    l.parent == card || IsAncestor(d, card, l.parent)
  }

  /** `card.querySelector('.nellis-helper-amazon-link')` finds something. */
  predicate HasLinkWithin(d: Document, links: seq<AmazonLink>, card: nat) {
    if links == [] then false
    else HasLinkWithin(d, links[..|links| - 1], card) || Within(d, links[|links| - 1], card)
  }

  /** addAmazonLink: nothing when the card already holds a link or the title is shorter than five
      code units (the empty title included); else the candidate link is added. */
  function AddLink(d: Document, links: seq<AmazonLink>, l: AmazonLink, title: string): seq<AmazonLink> {
    if HasLinkWithin(d, links, l.card) then links
    else if JsLength(title) < MinTitleUnits then links
    else links + [l]
  }

  // ----- the pass as a function -----

  /** The page marks a pass writes, with its two counters. */
  datatype Marks = Marks(hidden: set<nat>, processed: set<nat>, links: seq<AmazonLink>, shown: nat, hiddenCount: nat)

  /** The `cards.forEach` callback. */
  function Step(d: Document, showLinks: bool, k: Marks, p: CardPlan): Marks {
    var k1 := if p.hides then k.(hidden := k.hidden + {p.container}, hiddenCount := k.hiddenCount + 1)
              else k.(shown := k.shown + 1);
    var k2 := k1.(processed := k1.processed + {p.card});
    if showLinks && !p.hides then k2.(links := AddLink(d, k2.links, p.link, p.title)) else k2
  }

  function Run(d: Document, showLinks: bool, k: Marks, ps: seq<CardPlan>): Marks {
    if ps == [] then k else Step(d, showLinks, Run(d, showLinks, k, ps[..|ps| - 1]), ps[|ps| - 1])
  }

  /** The marks a pass leaves: it starts with no hidden class and no link, and with the markers the
      page already carries. */
  function Pass(d: Document, s: FilterSettings, processed: set<nat>): Marks
    requires WellFormed(d)
  {
    var cards := ProductCards(d, processed);
    Run(d, s.showAmazonLinks, Marks({}, processed, [], 0, 0), Plans(d, s, ConditionMapOf(d), cards))
  }

  // ----- what a run guarantees -----

  /** Every card is counted once, as shown or as hidden. */
  lemma {:induction false} RunCounts(d: Document, showLinks: bool, k: Marks, ps: seq<CardPlan>)
    ensures Run(d, showLinks, k, ps).shown + Run(d, showLinks, k, ps).hiddenCount
            == k.shown + k.hiddenCount + |ps|
  {
    if ps != [] {
      RunCounts(d, showLinks, k, ps[..|ps| - 1]);
    }
  }

  /** The hidden class ends up on exactly the containers of the cards the run hides. */
  lemma {:induction false} RunHidden(d: Document, showLinks: bool, k: Marks, ps: seq<CardPlan>)
    ensures Run(d, showLinks, k, ps).hidden
            == k.hidden + set i | 0 <= i < |ps| && ps[i].hides :: ps[i].container
  {
    if ps != [] {
      var init := ps[..|ps| - 1];
      RunHidden(d, showLinks, k, init);
      var a := set i | 0 <= i < |init| && init[i].hides :: init[i].container;
      var b := set i | 0 <= i < |ps| && ps[i].hides :: ps[i].container;
      var last := ps[|ps| - 1];
      assert b == a + (if last.hides then {last.container} else {}) by {
        forall x | x in b ensures x in a + (if last.hides then {last.container} else {}) {
          var i :| 0 <= i < |ps| && ps[i].hides && ps[i].container == x;
          if i < |init| {
            assert init[i] == ps[i];
          }
        }
        forall x | x in a ensures x in b {
          var i :| 0 <= i < |init| && init[i].hides && init[i].container == x;
          assert ps[i] == init[i];
        }
      }
    }
  }

  /** Every card gets the processed marker, whatever the decision. */
  lemma {:induction false} RunProcessed(d: Document, showLinks: bool, k: Marks, ps: seq<CardPlan>)
    ensures Run(d, showLinks, k, ps).processed == k.processed + set i | 0 <= i < |ps| :: ps[i].card
  {
    if ps != [] {
      var init := ps[..|ps| - 1];
      RunProcessed(d, showLinks, k, init);
      var a := set i | 0 <= i < |init| :: init[i].card;
      var b := set i | 0 <= i < |ps| :: ps[i].card;
      assert b == a + {ps[|ps| - 1].card} by {
        forall x | x in b ensures x in a + {ps[|ps| - 1].card} {
          var i :| 0 <= i < |ps| && ps[i].card == x;
          if i < |init| {
            assert init[i] == ps[i];
          }
        }
        forall x | x in a ensures x in b {
          var i :| 0 <= i < |init| && init[i].card == x;
          assert ps[i] == init[i];
        }
      }
    }
  }

  /** The hidden set, the links and the counters do not depend on the markers a run starts with. */
  lemma {:induction false} RunIgnoresMarkers(d: Document, showLinks: bool, k: Marks, q: set<nat>, ps: seq<CardPlan>)
    ensures var r := Run(d, showLinks, k, ps);
            var r' := Run(d, showLinks, k.(processed := q), ps);
            r' == r.(processed := r'.processed)
  {
    if ps != [] {
      RunIgnoresMarkers(d, showLinks, k, q, ps[..|ps| - 1]);
    }
  }

  /** Every link a run adds annotates one of its cards: a shown one, with a title of at least five
      code units, and it is that card's candidate link. */
  lemma {:induction false} RunLinksSound(d: Document, showLinks: bool, k: Marks, ps: seq<CardPlan>)
    ensures var r := Run(d, showLinks, k, ps);
            && |k.links| <= |r.links| && r.links[..|k.links|] == k.links
            && (!showLinks ==> r.links == k.links)
            && forall j :: |k.links| <= j < |r.links| ==>
                 exists i :: 0 <= i < |ps| && !ps[i].hides && JsLength(ps[i].title) >= MinTitleUnits
                                            && r.links[j] == ps[i].link
  {
    if ps != [] {
      var init := ps[..|ps| - 1];
      RunLinksSound(d, showLinks, k, init);
      var r0 := Run(d, showLinks, k, init);
      var r := Run(d, showLinks, k, ps);
      forall j | |k.links| <= j < |r.links|
        ensures exists i :: 0 <= i < |ps| && !ps[i].hides && JsLength(ps[i].title) >= MinTitleUnits
                                          && r.links[j] == ps[i].link
      {
        if j < |r0.links| {
          assert r.links[j] == r0.links[j];
          var i :| 0 <= i < |init| && !init[i].hides && JsLength(init[i].title) >= MinTitleUnits
                   && r0.links[j] == init[i].link;
          assert ps[i] == init[i];
        } else {
          assert r.links[j] == ps[|ps| - 1].link;
        }
      }
    }
  }

  /** Links lie inside the card they annotate. */
  predicate WellPlaced(d: Document, links: seq<AmazonLink>) {
    forall j :: 0 <= j < |links| ==> Within(d, links[j], links[j].card)
  }

  /** No card has two links. */
  predicate OnePerCard(links: seq<AmazonLink>) {
    forall i, j :: 0 <= i < j < |links| ==> links[i].card != links[j].card
  }

  lemma {:induction false} WithinFound(d: Document, links: seq<AmazonLink>, card: nat, j: nat)
    requires j < |links| && Within(d, links[j], card)
    ensures HasLinkWithin(d, links, card)
    decreases |links|
  {
    if j < |links| - 1 {
      WithinFound(d, links[..|links| - 1], card, j);
    }
  }

  /** Each card gets at most one link: the second call for a card finds the first link inside it
      and returns early. */
  lemma {:induction false} RunOnePerCard(d: Document, showLinks: bool, k: Marks, ps: seq<CardPlan>)
    requires WellPlaced(d, k.links) && OnePerCard(k.links)
    requires forall i :: 0 <= i < |ps| ==> Within(d, ps[i].link, ps[i].card) && ps[i].link.card == ps[i].card
    ensures WellPlaced(d, Run(d, showLinks, k, ps).links) && OnePerCard(Run(d, showLinks, k, ps).links)
  {
    if ps != [] {
      var init := ps[..|ps| - 1];
      assert forall i :: 0 <= i < |init| ==> init[i] == ps[i];
      RunOnePerCard(d, showLinks, k, init);
      var links := Run(d, showLinks, k, init).links;
      var p := ps[|ps| - 1];
      if showLinks && !p.hides && !HasLinkWithin(d, links, p.card) && JsLength(p.title) >= MinTitleUnits {
        forall i | 0 <= i < |links|
          ensures links[i].card != p.card
        {
          if links[i].card == p.card {
            WithinFound(d, links, p.card, i);
          }
        }
      }
    }
  }

  /** Every shown card with a long enough title holds a link once the run is over: its own, or a
      link inside it that an earlier card of the run added. */
  lemma {:induction false} RunLinksComplete(d: Document, showLinks: bool, k: Marks, ps: seq<CardPlan>, i: nat)
    requires i < |ps| && showLinks && !ps[i].hides && JsLength(ps[i].title) >= MinTitleUnits
    requires ps[i].link.card == ps[i].card && Within(d, ps[i].link, ps[i].card)
    ensures HasLinkWithin(d, Run(d, showLinks, k, ps).links, ps[i].card)
    decreases |ps|
  {
    var init := ps[..|ps| - 1];
    var links := Run(d, showLinks, k, init).links;
    var r := Run(d, showLinks, k, ps).links;
    if i < |ps| - 1 {
      assert init[i] == ps[i];
      RunLinksComplete(d, showLinks, k, init, i);
      LinksGrow(d, links, r, ps[i].card);
    } else if !HasLinkWithin(d, links, ps[i].card) {
      assert r == links + [ps[i].link];
      assert r[..|r| - 1] == links;
    }
  }

  lemma LinksGrow(d: Document, links: seq<AmazonLink>, more: seq<AmazonLink>, card: nat)
    requires HasLinkWithin(d, links, card)
    requires more == links || (|more| == |links| + 1 && more[..|links|] == links)
    ensures HasLinkWithin(d, more, card)
  {
    if more != links {
      assert more[..|more| - 1] == links;
    }
  }

  // ----- what a pass guarantees, on the document -----

  /** The card's decision: its condition, looked up by its id, has its toggle on. */
  predicate CardHidden(d: Document, s: FilterSettings, card: nat)
    requires WellFormed(d) && card < |d|
  {
    ShouldHide(s, ConditionFor(ConditionMapOf(d), CardProductId(d, card)))
  }

  lemma {:induction false} PlansFacts(d: Document, s: FilterSettings, m: map<string, Condition>, cards: seq<nat>)
    requires forall j :: 0 <= j < |cards| ==> cards[j] < |d|
    ensures var ps := Plans(d, s, m, cards);
            forall i :: 0 <= i < |cards| ==>
              ps[i].card == cards[i] && ps[i].link.card == cards[i] && Within(d, ps[i].link, cards[i])
  {
    forall i | 0 <= i < |cards|
      ensures var ps := Plans(d, s, m, cards);
              ps[i].card == cards[i] && ps[i].link.card == cards[i] && Within(d, ps[i].link, cards[i])
    {
      PlansAt(d, s, m, cards, i);
    }
  }

  /** shownCount + hiddenCount is the number of cards. */
  lemma PassCounts(d: Document, s: FilterSettings, processed: set<nat>)
    requires WellFormed(d)
    ensures Pass(d, s, processed).shown + Pass(d, s, processed).hiddenCount == |ProductCards(d, processed)|
  {
    var cards := ProductCards(d, processed);
    RunCounts(d, s.showAmazonLinks, Marks({}, processed, [], 0, 0), Plans(d, s, ConditionMapOf(d), cards));
  }

  /** After a pass the hidden class is on exactly the containers of the cards whose condition has
      its toggle on; the classes of earlier passes are gone. */
  lemma PassHidden(d: Document, s: FilterSettings, processed: set<nat>)
    requires WellFormed(d)
    ensures var cards := ProductCards(d, processed);
            Pass(d, s, processed).hidden
            == set i | 0 <= i < |cards| && CardHidden(d, s, cards[i]) :: GetCardContainer(d, cards[i])
  {
    var cards := ProductCards(d, processed);
    var ps := Plans(d, s, ConditionMapOf(d), cards);
    RunHidden(d, s.showAmazonLinks, Marks({}, processed, [], 0, 0), ps);
    forall i | 0 <= i < |cards|
      ensures ps[i].hides == CardHidden(d, s, cards[i]) && ps[i].container == GetCardContainer(d, cards[i])
    {
      PlansAt(d, s, ConditionMapOf(d), cards, i);
    }
  }

  /** After a pass every card carries the processed marker, whatever was decided for it, and the
      markers already there stay. */
  lemma PassProcessed(d: Document, s: FilterSettings, processed: set<nat>)
    requires WellFormed(d)
    ensures var cards := ProductCards(d, processed);
            Pass(d, s, processed).processed == processed + set i | 0 <= i < |cards| :: cards[i]
  {
    var cards := ProductCards(d, processed);
    var ps := Plans(d, s, ConditionMapOf(d), cards);
    RunProcessed(d, s.showAmazonLinks, Marks({}, processed, [], 0, 0), ps);
    PlansFacts(d, s, ConditionMapOf(d), cards);
  }

  /** The links after a pass exist only when the setting is on, each lies inside its card, and no
      card has two. */
  lemma PassLinksPlaced(d: Document, s: FilterSettings, processed: set<nat>)
    requires WellFormed(d)
    ensures var links := Pass(d, s, processed).links;
            (!s.showAmazonLinks ==> links == []) && WellPlaced(d, links) && OnePerCard(links)
  {
    var cards := ProductCards(d, processed);
    var ps := Plans(d, s, ConditionMapOf(d), cards);
    var k := Marks({}, processed, [], 0, 0);
    RunLinksSound(d, s.showAmazonLinks, k, ps);
    PlansFacts(d, s, ConditionMapOf(d), cards);
    RunOnePerCard(d, s.showAmazonLinks, k, ps);
  }

  /** Each link after a pass is the candidate link of a shown card whose title has at least five
      code units. */
  lemma PassLinksSound(d: Document, s: FilterSettings, processed: set<nat>, j: nat)
    requires WellFormed(d) && j < |Pass(d, s, processed).links|
    ensures var cards := ProductCards(d, processed);
            exists i :: 0 <= i < |cards| && !CardHidden(d, s, cards[i])
                        && JsLength(GetProductTitle(d, cards[i])) >= MinTitleUnits
                        && Pass(d, s, processed).links[j] == CandidateLink(d, cards[i], GetProductTitle(d, cards[i]))
  {
    var cards := ProductCards(d, processed);
    var m := ConditionMapOf(d);
    var ps := Plans(d, s, m, cards);
    var links := Pass(d, s, processed).links;
    RunLinksSound(d, s.showAmazonLinks, Marks({}, processed, [], 0, 0), ps);
    var i :| 0 <= i < |ps| && !ps[i].hides && JsLength(ps[i].title) >= MinTitleUnits && links[j] == ps[i].link;
    PlansAt(d, s, m, cards, i);
  }

  /** With the setting on, every shown card whose title has at least five code units holds a link
      once the pass is over. */
  lemma PassLinksComplete(d: Document, s: FilterSettings, processed: set<nat>, i: nat)
    requires WellFormed(d)
    requires var cards := ProductCards(d, processed);
             i < |cards| && s.showAmazonLinks && !CardHidden(d, s, cards[i])
             && JsLength(GetProductTitle(d, cards[i])) >= MinTitleUnits
    ensures HasLinkWithin(d, Pass(d, s, processed).links, ProductCards(d, processed)[i])
  {
    var cards := ProductCards(d, processed);
    var m := ConditionMapOf(d);
    var ps := Plans(d, s, m, cards);
    PlansAt(d, s, m, cards, i);
    RunLinksComplete(d, s.showAmazonLinks, Marks({}, processed, [], 0, 0), ps, i);
  }

  /** A second pass over the same document with the same settings leaves the page exactly as the
      first did: the pass first removes what it adds, and the markers it adds change no card
      list. */
  lemma PassIdempotent(d: Document, s: FilterSettings, processed: set<nat>)
    requires WellFormed(d) && TitleLinksOnly(d, processed)
    ensures Pass(d, s, Pass(d, s, processed).processed) == Pass(d, s, processed)
  {
    var r := Pass(d, s, processed);
    var cards := ProductCards(d, processed);
    PassProcessed(d, s, processed);
    assert TitleLinksOnly(d, r.processed);
    NoSkip(d, processed, |d|);
    NoSkip(d, r.processed, |d|);
    var ps := Plans(d, s, ConditionMapOf(d), cards);
    var k := Marks({}, processed, [], 0, 0);
    RunIgnoresMarkers(d, s.showAmazonLinks, k, r.processed, ps);
    RunProcessed(d, s.showAmazonLinks, k.(processed := r.processed), ps);
    RunProcessed(d, s.showAmazonLinks, k, ps);
  }

  /** The location filter plays no part in a pass. */
  lemma PassIgnoresLocationFilter(d: Document, s: FilterSettings, processed: set<nat>, location: string)
    requires WellFormed(d)
    ensures Pass(d, s.(locationFilter := location), processed) == Pass(d, s, processed)
  {
    var cards := ProductCards(d, processed);
    var m := ConditionMapOf(d);
    PlansIgnoreLocation(d, s, m, cards, location);
  }

  lemma {:induction false} PlansIgnoreLocation(d: Document, s: FilterSettings, m: map<string, Condition>,
                                               cards: seq<nat>, location: string)
    requires forall j :: 0 <= j < |cards| ==> cards[j] < |d|
    ensures Plans(d, s.(locationFilter := location), m, cards) == Plans(d, s, m, cards)
  {
    if cards != [] {
      PlansIgnoreLocation(d, s, m, cards[..|cards| - 1], location);
    }
  }

  // ----- the observer's check -----

  /** `a[href*="/p/"]:not([data-nellis-helper-processed])` among the first `n` nodes, counted. */
  function UnprocessedLinks(d: Document, processed: set<nat>, n: nat): nat
    requires n <= |d|
  {
    if n == 0 then 0
    else UnprocessedLinks(d, processed, n - 1) + (if Matches(d[n - 1], ProductLink) && n - 1 !in processed then 1 else 0)
  }

  /** The check finds nothing exactly when every product link carries the processed marker. */
  lemma {:induction false} NoUnprocessedLinks(d: Document, processed: set<nat>, n: nat)
    requires n <= |d|
    ensures UnprocessedLinks(d, processed, n) == 0
            <==> forall j :: 0 <= j < n && Matches(d[j], ProductLink) ==> j in processed
  {
    if n > 0 {
      NoUnprocessedLinks(d, processed, n - 1);
    }
  }

  /** Only title links ever get the marker, so a product link that is not a card's title link (an
      image link, say) keeps the check firing after every pass: each mutation, the pass's own
      included, schedules another pass. */
  lemma ObserverStaysArmed(d: Document, processed: set<nat>, j: nat)
    requires TitleLinksOnly(d, processed)
    requires j < |d| && Matches(d[j], ProductLink) && !Matches(d[j], CardTitleLink)
    ensures UnprocessedLinks(d, processed, |d|) > 0
  {
    NoUnprocessedLinks(d, processed, |d|);
  }

  /** The document `k` waits into the retry loop: the page as first seen, or the `k`-th snapshot
      the host has rendered since. */
  function Rendered(d: Document, snapshots: seq<Document>, k: nat): Document
    requires k <= |snapshots|
  {
    if k == 0 then d else snapshots[k - 1]
  }

  /** The snapshots after the first, seen from the first: the wait `k` of a retry is wait `k + 1`. */
  lemma RenderedShift(d: Document, snapshots: seq<Document>, k: nat)
    requires k < |snapshots|
    ensures Rendered(snapshots[0], snapshots[1..], k) == Rendered(d, snapshots, k + 1)
  {
  }

  /** What the host promises between waits: each snapshot is a well-formed document that extends
      the one before it, the first extending `d`. */
  predicate Grows(d: Document, snapshots: seq<Document>)
    decreases |snapshots|
  {
    snapshots == [] || (d <= snapshots[0] && WellFormed(snapshots[0]) && Grows(snapshots[0], snapshots[1..]))
  }

  /** The page as the content script sees and changes it: the document, the current settings, the
      elements carrying the processed marker, the elements carrying the hidden class, and the
      annotation links in insertion order. */
  class Page {
    var document: Document
    var settings: FilterSettings
    var processed: set<nat>
    var hidden: set<nat>
    var links: seq<AmazonLink>
    /** The document and the markers the latest pass started from, and what it left. */
    ghost var passStart: Document
    ghost var passMarked: set<nat>
    ghost var passResult: Marks

    ghost predicate Valid()
      reads this
    {
      WellFormed(document) && TitleLinksOnly(document, processed)
    }

    /** The page as the script first finds it, with the default settings. */
    constructor(d: Document)
      requires WellFormed(d)
      ensures Valid()
      ensures document == d && settings == DefaultSettings && processed == {} && hidden == {} && links == []
    {
      document := d;
      settings := DefaultSettings;
      processed := {};
      hidden := {};
      links := [];
    }

    /** init's settings load: the background's answer, when one came back, is spread over the
        current settings. */
    method LoadSettings(response: Option<SettingsResponse>)
      modifies this
      ensures settings == LoadedSettings(old(settings), response)
      ensures document == old(document) && processed == old(processed)
      ensures hidden == old(hidden) && links == old(links)
    {
      if response.Some? {
        settings := MergeSettings(settings, response.value);
      }
    }

    /** The host renders more of the listing: the document grows, nothing already there changes. */
    method HostRender(next: Document)
      requires Valid() && document <= next && WellFormed(next)
      modifies this
      ensures Valid()
      ensures document == next && settings == old(settings) && processed == old(processed)
      ensures hidden == old(hidden) && links == old(links)
      ensures passStart == old(passStart) && passMarked == old(passMarked) && passResult == old(passResult)
    {
      document := next;
      assert forall p :: p in processed ==> p < |old(document)| && next[p] == old(document)[p];
    }

    /** addAmazonLink. */
    method AddAmazonLink(card: nat, title: string)
      requires Valid() && card < |document|
      modifies this
      ensures document == old(document) && settings == old(settings)
      ensures processed == old(processed) && hidden == old(hidden)
      ensures links == AddLink(document, old(links), CandidateLink(document, card, title), title)
    {
      if HasLinkWithin(document, links, card) {
        return;
      }
      if title == "" || JsLength(title) < MinTitleUnits {
        return;
      }
      var heading := QuerySelector(document, card, AnyHeading);
      var parent := card;
      if heading.Some? {
        parent := document[heading.value].parent.value;
      }
      links := links + [AmazonLink(card, parent, title)];
    }

    /** The first half of the `cards.forEach` callback: what is decided for a card. */
    static method PlanCard(d: Document, s: FilterSettings, conditionMap: map<string, Condition>, card: nat)
      returns (plan: CardPlan)
      requires WellFormed(d) && card < |d|
      ensures plan == PlanOf(d, s, conditionMap, card)
    {
      var productId := GetProductId(AttrOrEmpty(d[card].href));
      var title := GetProductTitle(d, card);
      var condition := ConditionFor(conditionMap, productId);
      var shouldHide := ShouldHide(s, condition);
      var container := GetCardContainer(d, card);
      var heading := QuerySelector(d, card, AnyHeading);
      var parent := card;
      if heading.Some? {
        parent := d[heading.value].parent.value;
      }
      plan := CardPlan(card, container, shouldHide, title, AmazonLink(card, parent, title));
    }

    /** The second half: hide or count the card, mark it, annotate it. */
    method MarkCard(plan: CardPlan, shown0: nat, hidden0: nat) returns (shownCount: nat, hiddenCount: nat)
      requires Valid() && plan.card < |document| && Matches(document[plan.card], CardTitleLink)
      requires plan.link == CandidateLink(document, plan.card, plan.title)
      modifies this
      ensures Valid() && document == old(document) && settings == old(settings)
      ensures Marks(hidden, processed, links, shownCount, hiddenCount)
              == Step(document, settings.showAmazonLinks, Marks(old(hidden), old(processed), old(links), shown0, hidden0), plan)
    {
      shownCount, hiddenCount := shown0, hidden0;
      if plan.hides {
        hidden := hidden + {plan.container};
        hiddenCount := hiddenCount + 1;
      } else {
        shownCount := shownCount + 1;
      }
      processed := processed + {plan.card};
      if settings.showAmazonLinks && !plan.hides {
        AddAmazonLink(plan.card, plan.title);
      }
    }

    /** The `cards.forEach` callback on `cards[i]`: the run over the cards before it is extended
        by this card's step. */
    method VisitCard(conditionMap: map<string, Condition>, cards: seq<nat>, i: nat, ghost k0: Marks,
                     shown0: nat, hidden0: nat)
      returns (shownCount: nat, hiddenCount: nat)
      requires Valid() && i < |cards|
      requires forall j :: 0 <= j < |cards| ==> cards[j] < |document| && Matches(document[cards[j]], CardTitleLink)
      requires Marks(hidden, processed, links, shown0, hidden0)
               == Run(document, settings.showAmazonLinks, k0, Plans(document, settings, conditionMap, cards[..i]))
      modifies this
      ensures Valid() && document == old(document) && settings == old(settings)
      ensures Marks(hidden, processed, links, shownCount, hiddenCount)
              == Run(document, settings.showAmazonLinks, k0, Plans(document, settings, conditionMap, cards[..i + 1]))
    {
      var plan := PlanCard(document, settings, conditionMap, cards[i]);
      shownCount, hiddenCount := MarkCard(plan, shown0, hidden0);
      assert cards[..i + 1][..i] == cards[..i];
      ghost var ps := Plans(document, settings, conditionMap, cards[..i]);
      assert (ps + [plan])[..i] == ps;
    }

    /** The `cards.forEach` loop of applyFilters, over the cards found and the condition map built. */
    method VisitCards(conditionMap: map<string, Condition>, cards: seq<nat>)
      returns (shownCount: nat, hiddenCount: nat)
      requires Valid() && hidden == {} && links == []
      requires conditionMap == ConditionMapOf(document) && cards == ProductCards(document, processed)
      modifies this
      ensures Valid() && document == old(document) && settings == old(settings)
      ensures Marks(hidden, processed, links, shownCount, hiddenCount) == Pass(document, settings, old(processed))
    {
      ghost var k0 := Marks(hidden, processed, links, 0, 0);
      hiddenCount := 0;
      shownCount := 0;
      var i := 0;
      assert cards[..0] == [];
      while i < |cards|
        invariant 0 <= i <= |cards|
        invariant document == old(document) && settings == old(settings)
        invariant Valid()
        invariant Marks(hidden, processed, links, shownCount, hiddenCount)
                  == Run(document, settings.showAmazonLinks, k0, Plans(document, settings, conditionMap, cards[..i]))
      {
        shownCount, hiddenCount := VisitCard(conditionMap, cards, i, k0, shownCount, hiddenCount);
        i := i + 1;
      }
      assert cards[..i] == cards;
    }

    /** applyFilters: a fresh condition map, the unmarked cards, the forEach over them. The pass
        is recorded in the ghost fields: `passResult` is `Pass(passStart, settings, passMarked)`.
        That equation is written, here and in `TryApply` and `AfterWait`, as a quantifier over the
        one document equal to `passStart`, with `Pass` as its trigger, so that a caller unfolds the
        pass only where it names that document itself. */
    method ApplyFilters() returns (shownCount: nat, hiddenCount: nat)
      requires Valid()
      modifies this
      ensures Valid()
      ensures document == old(document) && settings == old(settings)
      ensures passStart == document && passMarked == old(processed)
      ensures WellFormed(passStart) && forall d {:trigger Pass(d, settings, passMarked)} :: d == passStart ==> passResult == Pass(d, settings, passMarked)
      ensures Shows(passResult) && shownCount == passResult.shown && hiddenCount == passResult.hiddenCount
    {
      ghost var marked := processed;
      links := [];
      hidden := {};
      var conditionMap := BuildConditionMap(document);
      var cards := FindProductCards(document, processed);
      shownCount, hiddenCount := VisitCards(conditionMap, cards);
      passStart := document;
      passMarked := marked;
      passResult := Marks(hidden, processed, links, shownCount, hiddenCount);
    }

    /** The popup's APPLY_FILTERS message: its settings replace the current ones, then a pass. */
    method OnApplyMessage(s: FilterSettings) returns (shownCount: nat, hiddenCount: nat)
      requires Valid()
      modifies this
      ensures Valid() && settings == s && document == old(document)
      ensures var r := Pass(document, s, old(processed));
              && hidden == r.hidden && processed == r.processed && links == r.links
              && shownCount == r.shown && hiddenCount == r.hiddenCount
    {
      settings := s;
      shownCount, hiddenCount := ApplyFilters();
    }

    /** The reset on an address change or a back/forward navigation: every processed marker and
        every annotation link goes; the hidden classes stay until the next pass. */
    method ResetForNavigation()
      requires Valid()
      modifies this
      ensures Valid()
      ensures processed == {} && links == []
      ensures document == old(document) && settings == old(settings) && hidden == old(hidden)
    {
      processed := {};
      links := [];
    }

    /** A navigation: the reset, the new route's content the host renders in the second that
        follows (any document: the listing is replaced, not extended), and the pass. The page ends
        as a first pass over the new content leaves it. */
    method OnNavigation(next: Document)
      requires Valid() && WellFormed(next)
      modifies this
      ensures Valid() && document == next && settings == old(settings)
      ensures Shows(Pass(next, settings, {}))
    {
      ResetForNavigation();
      document := next;
      var _, _ := ApplyFilters();
    }

    /** `querySelectorAll('a[href*="/p/"]:not([data-nellis-helper-processed])').length`. */
    method CountUnprocessedLinks() returns (count: nat)
      ensures count == UnprocessedLinks(document, processed, |document|)
    {
      count := 0;
      var j := 0;
      while j < |document|
        invariant 0 <= j <= |document|
        invariant count == UnprocessedLinks(document, processed, j)
      {
        if Matches(document[j], ProductLink) && j !in processed {
          count := count + 1;
        }
        j := j + 1;
      }
    }

    /** The debounced mutation callback: a pass when some product link lacks the marker. */
    method ObserverTick() returns (ran: bool)
      requires Valid()
      modifies this
      ensures Valid() && document == old(document) && settings == old(settings)
      ensures ran <==> UnprocessedLinks(old(document), old(processed), |old(document)|) > 0
      ensures ran ==> Shows(Pass(document, settings, old(processed)))
      ensures !ran ==> hidden == old(hidden) && processed == old(processed) && links == old(links)
    {
      var unprocessed := CountUnprocessedLinks();
      ran := unprocessed > 0;
      if ran {
        var _, _ := ApplyFilters();
      }
    }

    /** `tryApply(attempts)`: a pass, then the timed callback below. There are at most
        `attempts + 1` passes; a retry happens exactly when the wait after a pass finds no marker,
        so a first pass that marks something is the only one, and the retries stop early only once
        a marker is on the page. The page ends as the last pass left it, and that pass started from
        the document of the last wait before it. */
    method TryApply(attempts: nat, snapshots: seq<Document>) returns (passes: nat)
      requires Valid() && |snapshots| == attempts
      requires Grows(document, snapshots)
      modifies this
      ensures Valid() && settings == old(settings)
      ensures 1 <= passes <= attempts + 1
      ensures passes <= attempts ==> processed != {}
      ensures document == Rendered(old(document), snapshots, if passes <= attempts then passes else attempts)
      ensures Shows(passResult) && passStart == Rendered(old(document), snapshots, passes - 1)
      ensures passMarked == if passes == 1 then old(processed) else {}
      ensures WellFormed(passStart) && forall d {:trigger Pass(d, settings, passMarked)} :: d == passStart ==> passResult == Pass(d, settings, passMarked)
      ensures forall d {:trigger Pass(d, old(settings), old(processed))} ::
                d == old(document) ==> (Pass(d, old(settings), old(processed)).processed != {} ==> passes == 1)
      decreases attempts, 1
    {
      var _, _ := ApplyFilters();
      var retries := AfterWait(attempts, snapshots);
      passes := retries + 1;
    }

    /** The callback `tryApply` schedules when attempts are left: after the wait, during which the
        host may render the next snapshot, a retry with one attempt fewer if no element carries the
        processed marker. `retries` is the number of passes the retries made. */
    method AfterWait(attempts: nat, snapshots: seq<Document>) returns (retries: nat)
      requires Valid() && Shows(passResult) && |snapshots| == attempts
      requires WellFormed(passStart) && forall d {:trigger Pass(d, settings, passMarked)} :: d == passStart ==> passResult == Pass(d, settings, passMarked)
      requires Grows(document, snapshots)
      modifies this
      ensures Valid() && settings == old(settings) && Shows(passResult)
      ensures retries <= attempts
      ensures retries < attempts ==> processed != {}
      ensures old(processed) != {} ==> retries == 0
      ensures WellFormed(passStart) && forall d {:trigger Pass(d, settings, passMarked)} :: d == passStart ==> passResult == Pass(d, settings, passMarked)
      ensures document == Rendered(old(document), snapshots, if retries < attempts then retries + 1 else attempts)
      ensures retries == 0 ==> passStart == old(passStart) && passMarked == old(passMarked) && passResult == old(passResult)
      ensures retries > 0 ==> passStart == Rendered(old(document), snapshots, retries) && passMarked == {}
      decreases attempts, 0
    {
      retries := 0;
      if attempts == 0 {
        return;
      }
      HostRender(snapshots[0]);
      if processed != {} {
        return;
      }
      var passes := TryApply(attempts - 1, snapshots[1..]);
      retries := passes;
      RenderedShift(old(document), snapshots, passes - 1);
      RenderedShift(old(document), snapshots, if passes <= attempts - 1 then passes else attempts - 1);
    }

    /** The page carries what pass result `r` leaves: its hidden classes, markers and links. */
    ghost predicate Shows(r: Marks)
      reads this
    {
      hidden == r.hidden && processed == r.processed && links == r.links
    }
  }
}
