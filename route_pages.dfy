/**
 * The per-page docs routes (`src/app/docs/<section>/page.js`). Each page
 * wires the left-hand navigation to a section handler and the Previous/Next
 * buttons (and ALT + P / ALT + N) to handlers that change `window.location`.
 * The quick start goes through the shared navigation helpers; the other six
 * pages carry their own copy of the path table and hardcode their targets.
 */
module RoutePages {
  import opened Wrappers
  import Ordering
  import Browser
  import DocsNavigation

  /** The route pages of the docs section that exist as files. */
  datatype RoutePage =
    | QuickStartPage | FeaturesPage | CompatibilityPage | LicensePage
    | ConfiguringWebShortsPage | ShortcutListenerPage | WebShortsDialogPage

  /** The section each page marks as active in the left-hand navigation: the page of the order at `Position(page)`. */
  function ActiveSection(page: RoutePage): (s: string)
    ensures s in DocsNavigation.PageOrder
    ensures DocsNavigation.PageOrder[Position(page)] == s
  {
    match page
    case QuickStartPage => "quick-start"
    case FeaturesPage => "features"
    case CompatibilityPage => "compatibility"
    case LicensePage => "license"
    case ConfiguringWebShortsPage => "configuring-webshorts"
    case ShortcutListenerPage => "shortcut-listener"
    case WebShortsDialogPage => "webshorts-dialog"
  }

  /**
   * The `pageMap` a page builds inside its section handler (the quick start
   * has none: it calls `navigateToDocsPage`). Every copy is the shared
   * `docsPageMap`, key for key.
   */
  function LocalPageMap(page: RoutePage): (m: map<string, string>)
    requires page != QuickStartPage
    ensures m == DocsNavigation.DocsPageMap
  {
    match page
    case FeaturesPage => map[
        "quick-start" := "/docs/quick-start",
        "features" := "/docs/features",
        "compatibility" := "/docs/compatibility",
        "license" := "/docs/license",
        "configuring-webshorts" := "/docs/configuring-webshorts",
        "webshorts-provider" := "/docs/webshorts-provider",
        "shortcut-listener" := "/docs/shortcut-listener",
        "webshorts-dialog" := "/docs/webshorts-dialog",
        "custom-styling" := "/docs/custom-styling",
        "use-shortcuts-hooks" := "/docs/use-shortcuts-hooks"
      ]
    case CompatibilityPage => map[
        "quick-start" := "/docs/quick-start",
        "features" := "/docs/features",
        "compatibility" := "/docs/compatibility",
        "license" := "/docs/license",
        "configuring-webshorts" := "/docs/configuring-webshorts",
        "webshorts-provider" := "/docs/webshorts-provider",
        "shortcut-listener" := "/docs/shortcut-listener",
        "webshorts-dialog" := "/docs/webshorts-dialog",
        "custom-styling" := "/docs/custom-styling",
        "use-shortcuts-hooks" := "/docs/use-shortcuts-hooks"
      ]
    case LicensePage => map[
        "quick-start" := "/docs/quick-start",
        "features" := "/docs/features",
        "compatibility" := "/docs/compatibility",
        "license" := "/docs/license",
        "configuring-webshorts" := "/docs/configuring-webshorts",
        "webshorts-provider" := "/docs/webshorts-provider",
        "shortcut-listener" := "/docs/shortcut-listener",
        "webshorts-dialog" := "/docs/webshorts-dialog",
        "custom-styling" := "/docs/custom-styling",
        "use-shortcuts-hooks" := "/docs/use-shortcuts-hooks"
      ]
    case ConfiguringWebShortsPage => map[
        "quick-start" := "/docs/quick-start",
        "features" := "/docs/features",
        "compatibility" := "/docs/compatibility",
        "license" := "/docs/license",
        "configuring-webshorts" := "/docs/configuring-webshorts",
        "webshorts-provider" := "/docs/webshorts-provider",
        "shortcut-listener" := "/docs/shortcut-listener",
        "webshorts-dialog" := "/docs/webshorts-dialog",
        "custom-styling" := "/docs/custom-styling",
        "use-shortcuts-hooks" := "/docs/use-shortcuts-hooks"
      ]
    case ShortcutListenerPage => map[
        "quick-start" := "/docs/quick-start",
        "features" := "/docs/features",
        "compatibility" := "/docs/compatibility",
        "license" := "/docs/license",
        "configuring-webshorts" := "/docs/configuring-webshorts",
        "webshorts-provider" := "/docs/webshorts-provider",
        "shortcut-listener" := "/docs/shortcut-listener",
        "webshorts-dialog" := "/docs/webshorts-dialog",
        "custom-styling" := "/docs/custom-styling",
        "use-shortcuts-hooks" := "/docs/use-shortcuts-hooks"
      ]
    case WebShortsDialogPage => map[
        "quick-start" := "/docs/quick-start",
        "features" := "/docs/features",
        "compatibility" := "/docs/compatibility",
        "license" := "/docs/license",
        "configuring-webshorts" := "/docs/configuring-webshorts",
        "webshorts-provider" := "/docs/webshorts-provider",
        "shortcut-listener" := "/docs/shortcut-listener",
        "webshorts-dialog" := "/docs/webshorts-dialog",
        "custom-styling" := "/docs/custom-styling",
        "use-shortcuts-hooks" := "/docs/use-shortcuts-hooks"
      ]
  }

  /** The path `handlePreviousClick` assigns to `window.location.href`: the path of the page just before in the order. */
  function PreviousHref(page: RoutePage): (h: string)
    requires page != QuickStartPage
    ensures 0 < Position(page) && h == DocsNavigation.DocsPageMap[DocsNavigation.PageOrder[Position(page) - 1]]
  {
    match page
    case FeaturesPage => "/docs/quick-start"
    case CompatibilityPage => "/docs/features"
    case LicensePage => "/docs/compatibility"
    case ConfiguringWebShortsPage => "/docs/license"
    case ShortcutListenerPage => "/docs/webshorts-provider"
    case WebShortsDialogPage => "/docs/shortcut-listener"
  }

  /** The path `handleNextClick` assigns to `window.location.href`: the path of the page just after in the order. */
  function NextHref(page: RoutePage): (h: string)
    requires page != QuickStartPage
    ensures Position(page) < |DocsNavigation.PageOrder| - 1
    ensures h == DocsNavigation.DocsPageMap[DocsNavigation.PageOrder[Position(page) + 1]]
  {
    match page
    case FeaturesPage => "/docs/compatibility"
    case CompatibilityPage => "/docs/license"
    case LicensePage => "/docs/configuring-webshorts"
    case ConfiguringWebShortsPage => "/docs/webshorts-provider"
    case ShortcutListenerPage => "/docs/webshorts-dialog"
    case WebShortsDialogPage => "/docs/custom-styling"
  }

  /** Whether the Previous button is rendered disabled: only on the quick start, the first page of the order. */
  function PreviousDisabled(page: RoutePage): (d: bool)
    ensures d <==> Position(page) == 0
  {
    page == QuickStartPage
  }

  /** The position of a route page's section in `pageOrder`. */
  function Position(page: RoutePage): (i: nat)
    ensures i < |DocsNavigation.PageOrder|
  {
    match page
    case QuickStartPage => 0
    case FeaturesPage => 1
    case CompatibilityPage => 2
    case LicensePage => 3
    case ConfiguringWebShortsPage => 4
    case ShortcutListenerPage => 6
    case WebShortsDialogPage => 7
  }

  /**
   * The hardcoded targets agree with the shared order: Previous goes to the
   * path of `getPreviousPage` of the page's section and Next to the path of
   * `getNextPage`. On the quick start there is no previous page, which is why
   * its Previous button is disabled, and the next page is the features page.
   */
  lemma HardcodedTargetsFollowOrder(page: RoutePage)
    ensures PreviousDisabled(page) <==> DocsNavigation.GetPreviousPage(ActiveSection(page)).None?
    ensures DocsNavigation.GetNextPage(ActiveSection(page)).Some?
    ensures page == QuickStartPage ==>
      DocsNavigation.DocsPageMap[DocsNavigation.GetNextPage(ActiveSection(page)).value] == "/docs/features"
    ensures page != QuickStartPage ==>
      PreviousHref(page) == DocsNavigation.DocsPageMap[DocsNavigation.GetPreviousPage(ActiveSection(page)).value]
    ensures page != QuickStartPage ==>
      NextHref(page) == DocsNavigation.DocsPageMap[DocsNavigation.GetNextPage(ActiveSection(page)).value]
  {
    DocsNavigation.PageOrderDistinct();
    var i := Position(page);
    Ordering.NeighboursAt(DocsNavigation.PageOrder, i);
    assert DocsNavigation.GetNextPage(ActiveSection(page)) == Some(DocsNavigation.PageOrder[i + 1]);
    if page != QuickStartPage {
      assert DocsNavigation.GetPreviousPage(ActiveSection(page)) == Some(DocsNavigation.PageOrder[i - 1]);
    }
  }

  /**
   * `handleSectionClick(section)` on any route page behaves exactly like
   * `navigateToDocsPage(section)`: the browser goes to the section's path
   * when the section is mapped and the path differs from the current
   * pathname, and nothing happens otherwise.
   */
  method HandleSectionClick(page: RoutePage, section: string, loc: Browser.Location)
    modifies loc
    ensures section in DocsNavigation.DocsPageMap && DocsNavigation.DocsPageMap[section] != old(loc.currentPath) ==>
      loc.currentPath == DocsNavigation.DocsPageMap[section] && loc.loads == old(loc.loads) + [DocsNavigation.DocsPageMap[section]]
    ensures !(section in DocsNavigation.DocsPageMap && DocsNavigation.DocsPageMap[section] != old(loc.currentPath)) ==>
      loc.currentPath == old(loc.currentPath) && loc.loads == old(loc.loads)
  {
    if page == QuickStartPage {
      DocsNavigation.NavigateToDocsPage(section, loc);
    } else {
      DocsNavigation.PageTablesAgree();
      Browser.Redirect(LocalPageMap(page), section, loc);
    }
  }

  /**
   * `handlePreviousClick`: nothing on the quick start; elsewhere an
   * unconditional load of the previous page in the shared order.
   */
  method HandlePreviousClick(page: RoutePage, loc: Browser.Location)
    modifies loc
    ensures page == QuickStartPage ==> loc.currentPath == old(loc.currentPath) && loc.loads == old(loc.loads)
    ensures page != QuickStartPage ==>
      var target := DocsNavigation.DocsPageMap[DocsNavigation.GetPreviousPage(ActiveSection(page)).value];
      loc.currentPath == target && loc.loads == old(loc.loads) + [target]
  {
    HardcodedTargetsFollowOrder(page);
    if page != QuickStartPage {
      loc.Assign(PreviousHref(page));
    }
  }

  /**
   * `handleNextClick`: the next page in the shared order. The quick start goes
   * there through `navigateToDocsPage`, so it does nothing when the browser is
   * already on the features page; the other pages load it unconditionally.
   */
  method HandleNextClick(page: RoutePage, loc: Browser.Location)
    modifies loc
    ensures page == QuickStartPage && old(loc.currentPath) == "/docs/features" ==>
      loc.currentPath == old(loc.currentPath) && loc.loads == old(loc.loads)
    ensures page == QuickStartPage && old(loc.currentPath) != "/docs/features" ==>
      loc.currentPath == "/docs/features" && loc.loads == old(loc.loads) + ["/docs/features"]
    ensures page != QuickStartPage ==>
      var target := DocsNavigation.DocsPageMap[DocsNavigation.GetNextPage(ActiveSection(page)).value];
      loc.currentPath == target && loc.loads == old(loc.loads) + [target]
  {
    HardcodedTargetsFollowOrder(page);
    if page == QuickStartPage {
      var nextPage := DocsNavigation.GetNextPage("quick-start");
      if Truthy(nextPage) {
        DocsNavigation.NavigateToDocsPage(nextPage.value, loc);
      }
    } else {
      loc.Assign(NextHref(page));
    }
  }
}
