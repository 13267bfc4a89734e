/**
 * The shared navigation tables and helpers of the docs section
 * (`src/lib/docsNavigation.js`).
 */
module DocsNavigation {
  import opened Wrappers
  import opened Ordering
  import Browser

  /** `docsPageMap`: section name to route path. */
  const DocsPageMap: map<string, string> := map[
    "quick-start" := "/docs/quick-start",
    "features" := "/docs/features",
    "compatibility" := "/docs/compatibility",
    "license" := "/docs/license",
    "configuring-webshorts" := "/docs/configuring-webshorts",
    "webshorts-provider" := "/docs/webshorts-provider",
    "shortcut-listener" := "/docs/shortcut-listener",
    "webshorts-dialog" := "/docs/webshorts-dialog",
    "custom-styling" := "/docs/custom-styling",
    "use-shortcuts-hooks" := "/docs/use-shortcuts-hooks"
  ]

  /** `pageTitles`: section name to the title shown on the navigation buttons. */
  const PageTitles: map<string, string> := map[
    "quick-start" := "Quick Start",
    "features" := "Features",
    "compatibility" := "Compatibility",
    "license" := "License",
    "configuring-webshorts" := "Configuring WebShorts",
    "webshorts-provider" := "WebShorts Provider",
    "shortcut-listener" := "Shortcut Listener",
    "webshorts-dialog" := "WebShorts Dialog",
    "custom-styling" := "Custom Styling",
    "use-shortcuts-hooks" := "useShortcuts Hooks"
  ]

  /** `pageOrder`: the reading order of the docs. */
  const PageOrder: seq<string> := [
    "quick-start", "features", "compatibility", "license", "configuring-webshorts",
    "webshorts-provider", "shortcut-listener", "webshorts-dialog", "custom-styling",
    "use-shortcuts-hooks"
  ]

  /** The order holds ten pages, each once (no two of the names even have the same length). */
  lemma PageOrderDistinct()
    ensures |PageOrder| == 10 && Distinct(PageOrder)
    ensures "" !in PageOrder
  {
    var lengths := [11, 8, 13, 7, 21, 18, 17, 16, 14, 19];
    assert forall i :: 0 <= i < 10 ==> |PageOrder[i]| == lengths[i];
  }

  /** Every path in the path table is "/docs/" followed by its section name. */
  lemma PathsFollowSections()
    ensures forall s :: s in DocsPageMap ==> DocsPageMap[s] == "/docs/" + s
  {
    assert DocsPageMap["quick-start"] == "/docs/" + "quick-start";
    assert DocsPageMap["features"] == "/docs/" + "features";
    assert DocsPageMap["compatibility"] == "/docs/" + "compatibility";
    assert DocsPageMap["license"] == "/docs/" + "license";
    assert DocsPageMap["configuring-webshorts"] == "/docs/" + "configuring-webshorts";
    assert DocsPageMap["webshorts-provider"] == "/docs/" + "webshorts-provider";
    assert DocsPageMap["shortcut-listener"] == "/docs/" + "shortcut-listener";
    assert DocsPageMap["webshorts-dialog"] == "/docs/" + "webshorts-dialog";
    assert DocsPageMap["custom-styling"] == "/docs/" + "custom-styling";
    assert DocsPageMap["use-shortcuts-hooks"] == "/docs/" + "use-shortcuts-hooks";
  }

  /**
   * The three tables describe the same ten pages: the order lists every key of
   * the path table once, every key's path is "/docs/" followed by the key, and
   * every page in the order has a title.
   */
  lemma PageTablesAgree()
    ensures |PageOrder| == 10 && Distinct(PageOrder)
    ensures forall s :: s in DocsPageMap <==> s in PageOrder
    ensures forall s :: s in DocsPageMap ==> DocsPageMap[s] == "/docs/" + s
    ensures forall s :: s in PageOrder ==> s in PageTitles
  {
    PageOrderDistinct();
    PathsFollowSections();
  }

  /** 'use-shortcuts-hooks' is the one page that appears only in the last position. */
  lemma LastPage(s: string)
    ensures s in PageOrder ==> (s !in PageOrder[..|PageOrder| - 1] <==> s == "use-shortcuts-hooks")
  {
    PageOrderDistinct();
    if s in PageOrder {
      OnlyLastIsMissingFromPrefix(PageOrder, s);
    }
  }

  /** `getPreviousPage(currentSection)` */
  function GetPreviousPage(currentSection: string): (r: Option<string>)
    ensures r.Some? ==> r.value in DocsPageMap && r.value in PageTitles
    ensures r.Some? <==> currentSection in PageOrder && currentSection != "quick-start"
  {
    Predecessor(PageOrder, currentSection)
  }

  /** `getNextPage(currentSection)` */
  function GetNextPage(currentSection: string): (r: Option<string>)
    ensures r.Some? ==> r.value in DocsPageMap && r.value in PageTitles
    ensures r.None? <==> currentSection == "use-shortcuts-hooks"
    ensures currentSection !in PageOrder ==> r == Some("quick-start")
  {
    PageTablesAgree();
    LastPage(currentSection);
    Successor(PageOrder, currentSection)
  }

  /** `getPreviousPage` names the page the order places immediately before the given one. */
  lemma PreviousPageIsNeighbour(s: string, p: string)
    ensures GetPreviousPage(s) == Some(p) <==> Adjacent(PageOrder, p, s)
  {
    PageTablesAgree();
    PredecessorIsAdjacent(PageOrder, s, p);
  }

  /** For a page in the order, `getNextPage` names the page placed immediately after it. */
  lemma NextPageIsNeighbour(s: string, n: string)
    requires s in PageOrder
    ensures GetNextPage(s) == Some(n) <==> Adjacent(PageOrder, s, n)
  {
    PageTablesAgree();
    SuccessorIsAdjacent(PageOrder, s, n);
  }

  /** Next after previous: every page but the first is reached again. */
  lemma PreviousThenNext(s: string)
    requires s in PageOrder && s != "quick-start"
    ensures GetPreviousPage(s).Some? && GetNextPage(GetPreviousPage(s).value) == Some(s)
  {
    PageTablesAgree();
    PredecessorThenSuccessor(PageOrder, s);
  }

  /** Previous after next: every page but the last is reached again. */
  lemma NextThenPrevious(s: string)
    requires s in PageOrder && s != "use-shortcuts-hooks"
    ensures GetNextPage(s).Some? && GetPreviousPage(GetNextPage(s).value) == Some(s)
  {
    PageTablesAgree();
    SuccessorThenPredecessor(PageOrder, s);
  }

  /**
   * `navigateToDocsPage(section)`: the browser goes to the section's path
   * exactly when the section is mapped and the path differs from the current
   * pathname; otherwise the location and the page-load history stay as they were.
   */
  method NavigateToDocsPage(section: string, loc: Browser.Location)
    modifies loc
    ensures section in DocsPageMap && DocsPageMap[section] != old(loc.currentPath) ==>
      loc.currentPath == DocsPageMap[section] && loc.loads == old(loc.loads) + [DocsPageMap[section]]
    ensures !(section in DocsPageMap && DocsPageMap[section] != old(loc.currentPath)) ==>
      loc.currentPath == old(loc.currentPath) && loc.loads == old(loc.loads)
  {
    PageTablesAgree();
    Browser.Redirect(DocsPageMap, section, loc);
  }

  /** Navigating twice to the same section loads the page at most once: the second call finds the browser there. */
  lemma NavigateIdempotent(section: string, pathname: string)
    ensures Browser.RedirectTarget(DocsPageMap, section, Browser.Landing(DocsPageMap, section, pathname)).None?
  {
    Browser.RedirectIdempotent(DocsPageMap, section, pathname);
  }
}
