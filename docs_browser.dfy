/**
 * The single-page docs browser (`src/app/docs/page.js`): an `activeSection`
 * state switched by the left-hand navigation and by the Previous/Next
 * buttons, over its own copy of the page order and title table.
 */
module DocsBrowser {
  import opened Wrappers
  import opened Ordering
  import DocsNavigation

  /** The ten documentation components `renderPage` can show. */
  datatype DocsContent =
    | QuickStart | Features | Compatibility | License | ConfiguringWebShorts
    | WebShortsProvider | ShortcutListeners | WebShortsDialog | CustomStyling | UseShortcutsHooks

  /** A Previous or Next button: its caption and whether it is disabled. */
  datatype NavButton = NavButton(caption: string, disabled: bool)

  /** A press of the Previous or the Next button. */
  datatype Click = PreviousClick | NextClick

  /** The page's own `pageOrder`. */
  const LocalPageOrder: seq<string> := [
    "quick-start", "features", "compatibility", "license", "configuring-webshorts",
    "webshorts-provider", "shortcut-listener", "webshorts-dialog", "custom-styling",
    "use-shortcuts-hooks"
  ]

  /** The page's own `pageTitles`, as written: the listener page is keyed "shortcut-listeners". */
  const LocalPageTitles: map<string, string> := map[
    "quick-start" := "Quick Start",
    "features" := "Features",
    "compatibility" := "Compatibility",
    "license" := "License",
    "configuring-webshorts" := "Configuring WebShorts",
    "webshorts-provider" := "WebShorts Provider",
    "shortcut-listeners" := "Shortcut Listeners",
    "webshorts-dialog" := "WebShorts Dialog",
    "custom-styling" := "Custom Styling",
    "use-shortcuts-hooks" := "useShortcuts Hooks"
  ]

  /** The title table with the listener page keyed by its section name, as the order spells it. */
  const CorrectedPageTitles: map<string, string> := map[
    "quick-start" := "Quick Start",
    "features" := "Features",
    "compatibility" := "Compatibility",
    "license" := "License",
    "configuring-webshorts" := "Configuring WebShorts",
    "webshorts-provider" := "WebShorts Provider",
    "shortcut-listener" := "Shortcut Listeners",
    "webshorts-dialog" := "WebShorts Dialog",
    "custom-styling" := "Custom Styling",
    "use-shortcuts-hooks" := "useShortcuts Hooks"
  ]

  /** The page's order is the library's order, so it too lists ten distinct, non-empty section names. */
  lemma LocalOrderIsLibraryOrder()
    ensures LocalPageOrder == DocsNavigation.PageOrder
    ensures |LocalPageOrder| == 10 && Distinct(LocalPageOrder) && "" !in LocalPageOrder
  {
    DocsNavigation.PageOrderDistinct();
  }

  /** The section name under which `renderPage` shows each component. */
  function SectionOf(c: DocsContent): string
  {
    match c
    case QuickStart => "quick-start"
    case Features => "features"
    case Compatibility => "compatibility"
    case License => "license"
    case ConfiguringWebShorts => "configuring-webshorts"
    case WebShortsProvider => "webshorts-provider"
    case ShortcutListeners => "shortcut-listener"
    case WebShortsDialog => "webshorts-dialog"
    case CustomStyling => "custom-styling"
    case UseShortcutsHooks => "use-shortcuts-hooks"
  }

  /** `renderPage`: the component shown for a section; anything unknown shows the quick start. */
  function RenderPage(activeSection: string): (c: DocsContent)
    ensures activeSection in LocalPageOrder ==> SectionOf(c) == activeSection
    ensures activeSection !in LocalPageOrder ==> c == QuickStart
  {
    match activeSection
    case "quick-start" => QuickStart
    case "features" => Features
    case "compatibility" => Compatibility
    case "license" => License
    case "configuring-webshorts" => ConfiguringWebShorts
    case "webshorts-provider" => WebShortsProvider
    case "shortcut-listener" => ShortcutListeners
    case "webshorts-dialog" => WebShortsDialog
    case "custom-styling" => CustomStyling
    case "use-shortcuts-hooks" => UseShortcutsHooks
    case _ => QuickStart
  }

  /** Every component is reachable: its own section renders it, and its section is in the order. */
  lemma EveryPageRenders(c: DocsContent)
    ensures SectionOf(c) in LocalPageOrder
    ensures RenderPage(SectionOf(c)) == c
  {
  }

  /** The page a press of Previous or Next asks for: `getPreviousPage()` or `getNextPage()`. */
  function ClickTarget(activeSection: string, click: Click): Option<string>
  {
    match click
    case PreviousClick => Predecessor(LocalPageOrder, activeSection)
    case NextClick => Successor(LocalPageOrder, activeSection)
  }

  /** The page a press asks for is the neighbour of the active section in the order, when there is one. */
  lemma ClickTargetIsNeighbour(activeSection: string, click: Click)
    ensures var t := ClickTarget(activeSection, click);
      click == PreviousClick ==>
        (Truthy(t) <==> activeSection in LocalPageOrder && activeSection != "quick-start") &&
        (t.Some? ==> Adjacent(LocalPageOrder, t.value, activeSection))
    ensures var t := ClickTarget(activeSection, click);
      click == NextClick ==>
        (Truthy(t) <==> activeSection != "use-shortcuts-hooks") &&
        (activeSection !in LocalPageOrder ==> t == Some("quick-start")) &&
        (t.Some? && activeSection in LocalPageOrder ==> Adjacent(LocalPageOrder, activeSection, t.value))
    ensures var t := ClickTarget(activeSection, click);
      t.Some? ==> t.value in LocalPageOrder
  {
    LocalOrderIsLibraryOrder();
    DocsNavigation.LastPage(activeSection);
    var t := ClickTarget(activeSection, click);
    if t.Some? {
      PredecessorIsAdjacent(LocalPageOrder, activeSection, t.value);
      if activeSection in LocalPageOrder {
        SuccessorIsAdjacent(LocalPageOrder, activeSection, t.value);
      }
    }
  }

  /**
   * `activeSection` after one press of Previous or Next: the neighbour in the
   * order when there is one, else unchanged. A section outside the order has
   * no predecessor, and its successor is the first page.
   */
  function AfterClick(activeSection: string, click: Click): (s: string)
    ensures click == PreviousClick ==>
      if activeSection in LocalPageOrder && activeSection != "quick-start"
      then Adjacent(LocalPageOrder, s, activeSection)
      else s == activeSection
    ensures click == NextClick ==>
      if activeSection !in LocalPageOrder then s == "quick-start"
      else if activeSection == "use-shortcuts-hooks" then s == activeSection
      else Adjacent(LocalPageOrder, activeSection, s)
    ensures activeSection in LocalPageOrder ==> s in LocalPageOrder
  {
    ClickTargetIsNeighbour(activeSection, click);
    var target := ClickTarget(activeSection, click);
    if Truthy(target) then target.value else activeSection
  }

  /** `activeSection` after a run of button presses, applied first to last. */
  function AfterClicks(activeSection: string, clicks: seq<Click>): (s: string)
    ensures activeSection in LocalPageOrder ==> s in LocalPageOrder
    ensures s in LocalPageOrder || s == activeSection
    decreases clicks
  {
    if clicks == [] then activeSection
    else AfterClicks(AfterClick(activeSection, clicks[0]), clicks[1..])
  }

  /** `${pageTitles[page]}` inside a template literal: a missing key prints as "undefined". */
  function TitleText(titles: map<string, string>, page: string): (t: string)
    ensures page in titles ==> t == titles[page]
    ensures t == "undefined" <==> page !in titles || titles[page] == "undefined"
  {
    if page in titles then titles[page] else "undefined"
  }

  /** The caption of an enabled Previous button, around the title it prints. */
  function PreviousCaption(title: string): (c: string)
    ensures |c| > |title|
  {
    "← Previous: " + title
  }

  /** The caption of an enabled Next button, around the title it prints. */
  function NextCaption(title: string): (c: string)
    ensures |c| > |title|
  {
    "Next: " + title + " →"
  }

  /** Different titles give different captions. */
  lemma CaptionsInjective(t: string, u: string)
    ensures PreviousCaption(t) == PreviousCaption(u) <==> t == u
    ensures NextCaption(t) == NextCaption(u) <==> t == u
  {
    if PreviousCaption(t) == PreviousCaption(u) {
      assert PreviousCaption(t)[|"← Previous: "|..] == t;
      assert PreviousCaption(u)[|"← Previous: "|..] == u;
    }
    if NextCaption(t) == NextCaption(u) {
      assert |t| == |u|;
      assert NextCaption(t)[|"Next: "|..|"Next: "| + |t|] == t;
      assert NextCaption(u)[|"Next: "|..|"Next: "| + |u|] == u;
    }
  }

  /** The Previous button for a given `previousPage`: disabled and blank exactly when there is no previous page. */
  function PreviousButton(titles: map<string, string>, previousPage: Option<string>): (b: NavButton)
    ensures b.disabled <==> !Truthy(previousPage)
    ensures b.caption == "" <==> b.disabled
    ensures !b.disabled ==> b.caption == PreviousCaption(TitleText(titles, previousPage.value))
  {
    if Truthy(previousPage)
    then NavButton(PreviousCaption(TitleText(titles, previousPage.value)), false)
    else NavButton("", true)
  }

  /** The Next button for a given `nextPage`: disabled and blank exactly when there is no next page. */
  function NextButton(titles: map<string, string>, nextPage: Option<string>): (b: NavButton)
    ensures b.disabled <==> !Truthy(nextPage)
    ensures b.caption == "" <==> b.disabled
    ensures !b.disabled ==> b.caption == NextCaption(TitleText(titles, nextPage.value))
  {
    if Truthy(nextPage)
    then NavButton(NextCaption(TitleText(titles, nextPage.value)), false)
    else NavButton("", true)
  }

  /**
   * With a title table that names every page of an order but one (`missing`)
   * and has no title "undefined", a button aimed at a page of the order is
   * disabled exactly when there is no target, and prints "undefined" exactly
   * when it is aimed at the missing page; otherwise it names the target's title.
   */
  lemma ButtonsNameTheirTarget(titles: map<string, string>, order: seq<string>, missing: string, target: Option<string>)
    requires target.Some? ==> target.value in order
    requires "" !in order
    requires forall p :: p in order && p != missing ==> p in titles
    requires missing !in titles
    requires forall k :: k in titles ==> titles[k] != "undefined"
    ensures var b := PreviousButton(titles, target);
      (b.disabled <==> target.None?) &&
      (!b.disabled ==> (b.caption == PreviousCaption("undefined") <==> target.value == missing)) &&
      (!b.disabled && target.value != missing ==> b.caption == PreviousCaption(titles[target.value]))
    ensures var b := NextButton(titles, target);
      (b.disabled <==> target.None?) &&
      (!b.disabled ==> (b.caption == NextCaption("undefined") <==> target.value == missing)) &&
      (!b.disabled && target.value != missing ==> b.caption == NextCaption(titles[target.value]))
  {
    if target.Some? {
      CaptionsInjective(TitleText(titles, target.value), "undefined");
    }
  }

  /** The title table as written names every page of the order except the listener page, and no title is "undefined". */
  lemma LocalTitlesCoverAllButListener()
    ensures forall p :: p in LocalPageOrder && p != "shortcut-listener" ==> p in LocalPageTitles
    ensures forall k :: k in LocalPageTitles ==> LocalPageTitles[k] != "undefined"
  {
  }

  /** "shortcut-listener" is not a key of the title table as written (no key has its length). */
  lemma ListenerTitleMissing()
    ensures "shortcut-listener" !in LocalPageTitles
    ensures TitleText(LocalPageTitles, "shortcut-listener") == "undefined"
  {
    assert forall k :: k in LocalPageTitles ==> |k| != 17;
  }

  /** The listener page sits between the provider page and the dialog page. */
  lemma ListenerNeighbours(activeSection: string)
    ensures activeSection == "webshorts-provider" ==> Successor(LocalPageOrder, activeSection) == Some("shortcut-listener")
    ensures activeSection == "webshorts-dialog" ==> Predecessor(LocalPageOrder, activeSection) == Some("shortcut-listener")
  {
    LocalOrderIsLibraryOrder();
    NeighboursAt(LocalPageOrder, 5);
    NeighboursAt(LocalPageOrder, 7);
  }

  /** Both buttons pointing at the listener page look its title up under a key the table as written lacks. */
  lemma ListenerCaptions(target: Option<string>)
    requires target == Some("shortcut-listener")
    ensures NextButton(LocalPageTitles, target).caption == "Next: undefined →"
    ensures PreviousButton(LocalPageTitles, target).caption == "← Previous: undefined"
  {
    ListenerTitleMissing();
  }

  /** With the title table as written, the Next button on the provider page prints "undefined" in place of a title. */
  lemma NextCaptionPrintsUndefined(activeSection: string)
    requires activeSection == "webshorts-provider"
    ensures NextButton(LocalPageTitles, Successor(LocalPageOrder, activeSection)).caption
      == "Next: undefined →"
  {
    ListenerNeighbours(activeSection);
    ListenerCaptions(Successor(LocalPageOrder, activeSection));
  }

  /** With the title table as written, the Previous button on the dialog page prints "undefined" in place of a title. */
  lemma PreviousCaptionPrintsUndefined(activeSection: string)
    requires activeSection == "webshorts-dialog"
    ensures PreviousButton(LocalPageTitles, Predecessor(LocalPageOrder, activeSection)).caption
      == "← Previous: undefined"
  {
    ListenerNeighbours(activeSection);
    ListenerCaptions(Predecessor(LocalPageOrder, activeSection));
  }

  /** The corrected table has a title for every page of the order, none of them "undefined", and keeps every other entry of the table as written. */
  lemma CorrectedTitlesTotal()
    ensures forall s :: s in LocalPageOrder ==> s in CorrectedPageTitles
    ensures forall k :: k in CorrectedPageTitles ==> CorrectedPageTitles[k] != "undefined"
    ensures forall k :: k in LocalPageTitles && k != "shortcut-listeners" ==>
      k in CorrectedPageTitles && CorrectedPageTitles[k] == LocalPageTitles[k]
  {
  }

  /** With the corrected table an enabled button always names its target page: "undefined" is never printed. */
  lemma CorrectedTitlesNameNeighbours(s: string)
    ensures Predecessor(LocalPageOrder, s).Some? ==>
      PreviousButton(CorrectedPageTitles, Predecessor(LocalPageOrder, s)).caption
        == "← Previous: " + CorrectedPageTitles[Predecessor(LocalPageOrder, s).value]
    ensures Successor(LocalPageOrder, s).Some? ==>
      NextButton(CorrectedPageTitles, Successor(LocalPageOrder, s)).caption
        == "Next: " + CorrectedPageTitles[Successor(LocalPageOrder, s).value] + " →"
  {
    CorrectedTitlesTotal();
    LocalOrderIsLibraryOrder();
  }

  /** The `Docs` component's state. */
  class Docs {
    var activeSection: string

    /** `useState('quick-start')` */
    constructor ()
      ensures activeSection == "quick-start"
    {
      activeSection := "quick-start";
    }

    /** `getCurrentPageIndex` */
    function CurrentPageIndex(): (i: int)
      reads this
      ensures -1 <= i < |LocalPageOrder|
      ensures i == -1 <==> activeSection !in LocalPageOrder
      ensures 0 <= i ==> LocalPageOrder[i] == activeSection
    {
      IndexOf(LocalPageOrder, activeSection)
    }

    /** `getPreviousPage`, over the active section */
    function PreviousPage(): (r: Option<string>)
      reads this
      ensures r.Some? <==> activeSection in LocalPageOrder && activeSection != "quick-start"
      ensures r.Some? ==> Adjacent(LocalPageOrder, r.value, activeSection)
      ensures r.Some? ==> r.value in LocalPageOrder
    {
      LocalOrderIsLibraryOrder();
      var r := Predecessor(LocalPageOrder, activeSection);
      if r.Some? then PredecessorIsAdjacent(LocalPageOrder, activeSection, r.value); r else r
    }

    /** `getNextPage`, over the active section */
    function NextPage(): (r: Option<string>)
      reads this
      ensures r.None? <==> activeSection == "use-shortcuts-hooks"
      ensures activeSection !in LocalPageOrder ==> r == Some("quick-start")
      ensures r.Some? && activeSection in LocalPageOrder ==> Adjacent(LocalPageOrder, activeSection, r.value)
      ensures r.Some? ==> r.value in LocalPageOrder
    {
      LocalOrderIsLibraryOrder();
      DocsNavigation.LastPage(activeSection);
      var r := Successor(LocalPageOrder, activeSection);
      if r.Some? && activeSection in LocalPageOrder then
        SuccessorIsAdjacent(LocalPageOrder, activeSection, r.value); r
      else r
    }

    /** `handleSectionClick(section)`: the section becomes active, whatever it is. */
    method HandleSectionClick(section: string)
      modifies this
      ensures activeSection == section
    {
      activeSection := section;
    }

    /** `handlePreviousClick` */
    method HandlePreviousClick()
      modifies this
      ensures activeSection == AfterClick(old(activeSection), PreviousClick)
    {
      LocalOrderIsLibraryOrder();
      var previousPage := PreviousPage();
      if Truthy(previousPage) {
        activeSection := previousPage.value;
      }
    }

    /** `handleNextClick` */
    method HandleNextClick()
      modifies this
      ensures activeSection == AfterClick(old(activeSection), NextClick)
    {
      LocalOrderIsLibraryOrder();
      var nextPage := NextPage();
      if Truthy(nextPage) {
        activeSection := nextPage.value;
      }
    }

    /**
     * The Previous button as rendered, with the title table as written:
     * disabled exactly on the first page and off the order, and titled
     * "undefined" exactly when the previous page is the listener page.
     */
    function PreviousButtonView(): (b: NavButton)
      reads this
      ensures b.disabled <==> activeSection !in LocalPageOrder || activeSection == "quick-start"
      ensures b.caption == "" <==> b.disabled
      ensures !b.disabled ==> (b.caption == PreviousCaption("undefined") <==> PreviousPage() == Some("shortcut-listener"))
      ensures !b.disabled && PreviousPage() != Some("shortcut-listener") ==>
        b.caption == PreviousCaption(LocalPageTitles[PreviousPage().value])
    {
      LocalOrderIsLibraryOrder();
      LocalTitlesCoverAllButListener();
      ListenerTitleMissing();
      ButtonsNameTheirTarget(LocalPageTitles, LocalPageOrder, "shortcut-listener", PreviousPage());
      PreviousButton(LocalPageTitles, PreviousPage())
    }

    /**
     * The Next button as rendered, with the title table as written: disabled
     * exactly on the last page, and titled "undefined" exactly when the next
     * page is the listener page.
     */
    function NextButtonView(): (b: NavButton)
      reads this
      ensures b.disabled <==> activeSection == "use-shortcuts-hooks"
      ensures b.caption == "" <==> b.disabled
      ensures !b.disabled ==> (b.caption == NextCaption("undefined") <==> NextPage() == Some("shortcut-listener"))
      ensures !b.disabled && NextPage() != Some("shortcut-listener") ==>
        b.caption == NextCaption(LocalPageTitles[NextPage().value])
    {
      LocalOrderIsLibraryOrder();
      LocalTitlesCoverAllButListener();
      ListenerTitleMissing();
      ButtonsNameTheirTarget(LocalPageTitles, LocalPageOrder, "shortcut-listener", NextPage());
      NextButton(LocalPageTitles, NextPage())
    }

    /** The Previous button with the corrected title table: an enabled button always names its target's title. */
    function CorrectedPreviousButtonView(): (b: NavButton)
      reads this
      ensures b.disabled <==> activeSection !in LocalPageOrder || activeSection == "quick-start"
      ensures b.caption == "" <==> b.disabled
      ensures !b.disabled ==> b.caption == PreviousCaption(CorrectedPageTitles[PreviousPage().value])
      ensures b.caption != PreviousCaption("undefined")
    {
      LocalOrderIsLibraryOrder();
      CorrectedTitlesTotal();
      ButtonsNameTheirTarget(CorrectedPageTitles, LocalPageOrder, "", PreviousPage());
      PreviousButton(CorrectedPageTitles, PreviousPage())
    }

    /** The Next button with the corrected title table: an enabled button always names its target's title. */
    function CorrectedNextButtonView(): (b: NavButton)
      reads this
      ensures b.disabled <==> activeSection == "use-shortcuts-hooks"
      ensures b.caption == "" <==> b.disabled
      ensures !b.disabled ==> b.caption == NextCaption(CorrectedPageTitles[NextPage().value])
      ensures b.caption != NextCaption("undefined")
    {
      LocalOrderIsLibraryOrder();
      CorrectedTitlesTotal();
      ButtonsNameTheirTarget(CorrectedPageTitles, LocalPageOrder, "", NextPage());
      NextButton(CorrectedPageTitles, NextPage())
    }
  }
}
