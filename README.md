# WebShorts demo site: docs navigation and hydration gates

The site documents and demonstrates a React keyboard-shortcut library. Almost all of the shortcut
logic lives in that library. The site implements two small pieces of its own, and this project
models both in Dafny.

1. **Docs navigation.**
   - `src/lib/docsNavigation.js` holds three tables: section to path (`docsPageMap`), section to
     title (`pageTitles`) and the reading order (`pageOrder`).
   - `getPreviousPage` and `getNextPage` step through `pageOrder` with `indexOf` arithmetic.
   - `navigateToDocsPage` is a guarded redirect through `window.location`.
   - `src/app/docs/page.js` is a single-page docs browser. It keeps its own copy of the order and
     of the title table, and holds an `activeSection` state.
   - Seven route files under `src/app/docs/<section>/page.js` handle the section links and the
     Previous/Next buttons. Six of them carry a copy of the path table and hardcode their targets.
2. **Hydration gates.**
   - `ClientShortcutListener` and `ClientWebShortsProvider` keep a `mounted` flag that starts
     false and is set to true by a post-commit effect.
   - Until that happens they render their children unchanged. After it, they render the
     library's `ShortcutListener`, or its `WebShortsProvider` holding the children, the help
     dialog and the toast surface.

Modules (one file each):

- `Wrappers`: the `Option` type, JavaScript object lookup and string truthiness.
- `Browser`: `window.location` as a `Location` class. `currentPath` is the pathname, and
  `loads` records every assignment to `href`, since each one is a page load. The guarded
  redirect that the library and six route files share is defined here.
- `Ordering`: `indexOf`, predecessor and successor over any order. They are tied to an
  independent adjacency predicate, and the round-trip lemmas are proved here.
- `DocsNavigation`: the library tables and functions.
- `DocsBrowser`: the `Docs` component as a class with an `activeSection` field.
- `RoutePages`: the seven route files.
- `Elements`: rendered trees as values. The library components are opaque constructors, and
  `Bindings`/`Providers` say what a tree registers.
- `ClientShortcutListener` and `ClientWebShortsProvider`: the gates as classes with `mounted`,
  `Commit()` and `Render()`.

`ClientShortcutListener.SaveShortcutLifecycle` walks one gate through its life with a CTRL + S binding:
- before the first commit, the children are rendered and nothing is registered;
- after the first commit, exactly that binding is registered;
- a second commit changes nothing.

A window location is a parameter of every handler. The router's pathname is a parameter of the
provider's `Render`. The post-commit effect is an explicit `Commit()` call.

## Model

| member | source | states |
|---|---|---|
| `Browser.Location.Assign` | src/lib/docsNavigation.js:36 | assigning `href` moves the pathname to the target and records one page load |
| `Browser.RedirectTarget` | src/lib/docsNavigation.js:34-35 | a redirect happens iff the section is mapped to a non-empty path that differs from the current pathname, and the target is that path |
| `Browser.Landing` | src/lib/docsNavigation.js:33-38 | after the guarded redirect the pathname is either unchanged or the section's mapped path |
| `Browser.Redirect` | src/lib/docsNavigation.js:33-38 | the location ends at `Landing`, with one recorded load when the guard passes and none otherwise |
| `Browser.RedirectIdempotent` | src/lib/docsNavigation.js:35-37 | once the redirect has run, the same redirect finds nothing to do and the location stays put |
| `Ordering.IndexOf` | src/lib/docsNavigation.js:42 | `indexOf` returns -1 iff the entry is absent; otherwise it returns the position of its first occurrence |
| `Ordering.Predecessor` | src/lib/docsNavigation.js:41-47 | a previous page exists iff the section is in the order and is not its first entry; any result is in the order |
| `Ordering.Successor` | src/lib/docsNavigation.js:50-56 | there is no next page iff the order is empty or the section occurs only in the last position; the result is in the order; a section not in the order (index -1) gets the first entry |
| `Ordering.IndexOfDistinct` | src/lib/docsNavigation.js:42 | in an order without repeats, `indexOf` finds every entry at its own position |
| `Ordering.NeighboursAt` | src/lib/docsNavigation.js:41-56 | in an order without repeats, the neighbours of position i are the entries at i-1 and i+1 |
| `Ordering.OnlyLastIsMissingFromPrefix` | src/lib/docsNavigation.js:52 | in an order without repeats, only the last entry is missing from the prefix that drops the last position |
| `Ordering.PredecessorIsAdjacent` | src/lib/docsNavigation.js:41-47 | both directions: the predecessor is p iff p comes immediately before the section in the order |
| `Ordering.SuccessorIsAdjacent` | src/lib/docsNavigation.js:50-56 | both directions, for a section in the order: the successor is n iff n comes immediately after it |
| `Ordering.PredecessorThenSuccessor` | src/lib/docsNavigation.js:41-56 | going to the next page of the previous page returns to every page except the first |
| `Ordering.SuccessorThenPredecessor` | src/lib/docsNavigation.js:41-56 | going to the previous page of the next page returns to every page except the last |
| `DocsNavigation.PageOrderDistinct` | src/lib/docsNavigation.js:30 | `pageOrder` has ten entries, none repeated and none empty |
| `DocsNavigation.PathsFollowSections` | src/lib/docsNavigation.js:2-13 | every key of `docsPageMap` maps to "/docs/" followed by the key |
| `DocsNavigation.PageTablesAgree` | src/lib/docsNavigation.js:2-30 | `pageOrder` lists exactly the keys of `docsPageMap`, each once, and every page of the order has a title |
| `DocsNavigation.LastPage` | src/lib/docsNavigation.js:30 | 'use-shortcuts-hooks' is the only page that occurs solely in the last position |
| `DocsNavigation.GetPreviousPage` | src/lib/docsNavigation.js:41-47 | null exactly for 'quick-start' and for sections not in the order; any result has a path and a title |
| `DocsNavigation.GetNextPage` | src/lib/docsNavigation.js:50-56 | null exactly for 'use-shortcuts-hooks'; 'quick-start' for any section not in the order; any result has a path and a title |
| `DocsNavigation.PreviousPageIsNeighbour` | src/lib/docsNavigation.js:41-47 | `getPreviousPage(s) == p` iff p immediately precedes s in `pageOrder` |
| `DocsNavigation.NextPageIsNeighbour` | src/lib/docsNavigation.js:50-56 | for s in the order, `getNextPage(s) == n` iff n immediately follows s |
| `DocsNavigation.PreviousThenNext` | src/lib/docsNavigation.js:41-56 | `getNextPage(getPreviousPage(s)) == s` for every page but the first |
| `DocsNavigation.NextThenPrevious` | src/lib/docsNavigation.js:41-56 | `getPreviousPage(getNextPage(s)) == s` for every page but the last |
| `DocsNavigation.NavigateToDocsPage` | src/lib/docsNavigation.js:33-38 | the location moves to `docsPageMap[section]`, with one page load, exactly when the section is mapped and its path differs from the pathname; otherwise nothing changes |
| `DocsNavigation.NavigateIdempotent` | src/lib/docsNavigation.js:33-38 | a second `navigateToDocsPage` with the same section finds nothing to do |
| `DocsBrowser.LocalOrderIsLibraryOrder` | src/app/docs/page.js:13 | the page's own `pageOrder` is the library's order, so it too is ten distinct non-empty names |
| `DocsBrowser.RenderPage` | src/app/docs/page.js:67-92 | each of the ten sections shows the component registered under that section; anything else shows `QuickStart` |
| `DocsBrowser.EveryPageRenders` | src/app/docs/page.js:67-92 | every docs component belongs to a section of the order, and that section renders it |
| `DocsBrowser.ClickTargetIsNeighbour` | src/app/docs/page.js:53-65 | the page a Previous press asks for exists iff the section is in the order and not first, and comes just before it. The page a Next press asks for exists iff the section is not 'use-shortcuts-hooks'; it comes just after a section in the order, and is 'quick-start' off the order. Either is a page of the order |
| `DocsBrowser.AfterClick` | src/app/docs/page.js:53-65 | Previous moves to the adjacent earlier page, or stays put on the first page and off the order. Next moves to the adjacent later page, stays put on the last page, and goes to 'quick-start' off the order. A section in the order stays in it |
| `DocsBrowser.AfterClicks` | src/app/docs/page.js:53-65 | after any sequence of Previous/Next presses, a section in the order is still in the order; from anywhere the result is in the order or unchanged |
| `DocsBrowser.TitleText` | src/app/docs/page.js:108 | `${pageTitles[page]}` prints the table's title when the key is present, and "undefined" exactly when the key is missing (or its title is "undefined") |
| `DocsBrowser.PreviousCaption` | src/app/docs/page.js:108 | the enabled Previous caption is longer than the title it wraps, so it is never blank |
| `DocsBrowser.NextCaption` | src/app/docs/page.js:113 | the enabled Next caption is longer than the title it wraps, so it is never blank |
| `DocsBrowser.CaptionsInjective` | src/app/docs/page.js:108-113 | two Previous captions, or two Next captions, are equal iff their titles are |
| `DocsBrowser.PreviousButton` | src/app/docs/page.js:107-108 | for any title table: disabled iff `previousPage` is falsy; the caption is blank iff disabled, and otherwise "← Previous: " followed by the printed title |
| `DocsBrowser.NextButton` | src/app/docs/page.js:112-113 | for any title table: disabled iff `nextPage` is falsy; the caption is blank iff disabled, and otherwise "Next: " followed by the printed title and " →" |
| `DocsBrowser.ButtonsNameTheirTarget` | src/app/docs/page.js:106-115 | for a title table that lacks one page of the order and has no title "undefined": a button aimed at a page of the order prints "undefined" iff it is aimed at the missing page, and otherwise names its target's title |
| `DocsBrowser.LocalTitlesCoverAllButListener` | src/app/docs/page.js:13-27 | the title table as written has a title for every page of the order except 'shortcut-listener', and none of its titles is "undefined" |
| `DocsBrowser.ListenerTitleMissing` | src/app/docs/page.js:16-27 | the page's title table has no key 'shortcut-listener', so the title renders as "undefined" |
| `DocsBrowser.ListenerNeighbours` | src/app/docs/page.js:13 | 'shortcut-listener' is the next page of 'webshorts-provider' and the previous page of 'webshorts-dialog' |
| `DocsBrowser.ListenerCaptions` | src/app/docs/page.js:106-115 | the title table as written gives the captions "Next: undefined →" and "← Previous: undefined" for buttons that target the listener page |
| `DocsBrowser.NextCaptionPrintsUndefined` | src/app/docs/page.js:111-115 | as written, the Next button on 'webshorts-provider' reads "Next: undefined →" |
| `DocsBrowser.PreviousCaptionPrintsUndefined` | src/app/docs/page.js:106-110 | as written, the Previous button on 'webshorts-dialog' reads "← Previous: undefined" |
| `DocsBrowser.CorrectedTitlesTotal` | src/app/docs/page.js:16-27 | the corrected title table covers every page of the order, has no title "undefined", and keeps every other entry as written |
| `DocsBrowser.CorrectedTitlesNameNeighbours` | src/app/docs/page.js:106-115 | with the corrected table, an enabled button always names its target page's title |
| `DocsBrowser.Docs.constructor` | src/app/docs/page.js:10 | `activeSection` starts at 'quick-start' |
| `DocsBrowser.Docs.CurrentPageIndex` | src/app/docs/page.js:33-35 | -1 iff the active section is not in the order; otherwise the section's position |
| `DocsBrowser.Docs.PreviousPage` | src/app/docs/page.js:37-43 | a previous page exists iff the active section is in the order and not first, and it is the adjacent earlier page |
| `DocsBrowser.Docs.NextPage` | src/app/docs/page.js:45-51 | null iff the active section is 'use-shortcuts-hooks'; 'quick-start' off the order; otherwise the adjacent later page |
| `DocsBrowser.Docs.HandleSectionClick` | src/app/docs/page.js:29-31 | `activeSection` becomes exactly the clicked section, and nothing else changes |
| `DocsBrowser.Docs.HandlePreviousClick` | src/app/docs/page.js:53-58 | the new `activeSection` is `AfterClick(old, Previous)` |
| `DocsBrowser.Docs.HandleNextClick` | src/app/docs/page.js:60-65 | the new `activeSection` is `AfterClick(old, Next)` |
| `DocsBrowser.Docs.PreviousButtonView` | src/app/docs/page.js:106-110 | with the page's own title table: the Previous button is disabled and blank exactly on 'quick-start' and off the order. When enabled, it reads "← Previous: undefined" iff the previous page is 'shortcut-listener', and otherwise names the previous page's title |
| `DocsBrowser.Docs.NextButtonView` | src/app/docs/page.js:111-115 | with the page's own title table: the Next button is disabled and blank exactly on 'use-shortcuts-hooks'. When enabled, it reads "Next: undefined →" iff the next page is 'shortcut-listener', and otherwise names the next page's title |
| `DocsBrowser.Docs.CorrectedPreviousButtonView` | src/app/docs/page.js:106-110 | with the corrected title table: disabled exactly as written, and an enabled button names the previous page's title and never reads "← Previous: undefined" |
| `DocsBrowser.Docs.CorrectedNextButtonView` | src/app/docs/page.js:111-115 | with the corrected title table: disabled exactly as written, and an enabled button names the next page's title and never reads "Next: undefined →" |
| `Elements.BindingsOfAllAppend` | src/components/ClientWebShortsProvider.jsx:21-25 | the bindings of two content lists joined are the first list's followed by the second's |
| `Elements.ProvidersOfAllAppend` | src/components/ClientWebShortsProvider.jsx:21-25 | the providers of two content lists joined add up |
| `Elements.SingletonContent` | src/components/ClientWebShortsProvider.jsx:21-25 | a one-element content list registers and holds exactly what its element does |
| `Elements.BindingsOfThree` | src/components/ClientWebShortsProvider.jsx:21-25 | a three-element content list registers the bindings of its elements, in order |
| `Elements.ProvidersOfThree` | src/components/ClientWebShortsProvider.jsx:21-25 | a three-element content list holds as many providers as its elements do together |
| `ClientShortcutListener.ClientShortcutListener.constructor` | src/components/ClientShortcutListener.jsx:6 | `mounted` is false on every fresh instance |
| `ClientShortcutListener.ClientShortcutListener.Commit` | src/components/ClientShortcutListener.jsx:8-10 | the post-commit effect sets `mounted` to true; this is the only write to it, so it never returns to false |
| `ClientShortcutListener.ClientShortcutListener.Render` | src/components/ClientShortcutListener.jsx:12-21 | before mounting: exactly the children, with no binding of its own. After mounting: one `ShortcutListener` with keys, action, shortName, description and children unchanged, registering exactly one binding ahead of the children's |
| `ClientWebShortsProvider.ClientWebShortsProvider.constructor` | src/components/ClientWebShortsProvider.jsx:8 | `mounted` is false on every fresh instance |
| `ClientWebShortsProvider.ClientWebShortsProvider.Commit` | src/components/ClientWebShortsProvider.jsx:11-13 | the post-commit effect sets `mounted` to true; this is the only write to it |
| `ClientWebShortsProvider.ClientWebShortsProvider.Render` | src/components/ClientWebShortsProvider.jsx:15-26 | before mounting: exactly the children, with no provider. After mounting: one provider that receives `config` and `className` unchanged and the pathname as `currentPage`, and holds the children, the dialog and the toaster in that order. It never adds a shortcut binding of its own |
| `RoutePages.Position` | src/app/docs/features/page.js:43 | the position in `pageOrder` of each route page's section |
| `RoutePages.ActiveSection` | src/app/docs/features/page.js:43 | the section each route page marks active in `LeftDocsNav` is in `pageOrder`, at `Position` |
| `RoutePages.LocalPageMap` | src/app/docs/features/page.js:12-23 | the `pageMap` copied into each of the six route pages (features … webshorts-dialog) equals `docsPageMap` key for key |
| `RoutePages.PreviousHref` | src/app/docs/license/page.js:30-32 | each hardcoded Previous target is the path of the entry just before the page in `pageOrder` |
| `RoutePages.NextHref` | src/app/docs/license/page.js:34-36 | each hardcoded Next target is the path of the entry just after the page in `pageOrder` |
| `RoutePages.PreviousDisabled` | src/app/docs/quick-start/page.js:75 | the Previous button is rendered disabled exactly on the page at the first position of `pageOrder` |
| `RoutePages.HardcodedTargetsFollowOrder` | src/app/docs/shortcut-listener/page.js:31-37 | every hardcoded Previous target is the path of `getPreviousPage` of the page's section, and every Next target the path of `getNextPage`. The quick start's Previous button is disabled exactly because it has no previous page, and its next page's path is '/docs/features' |
| `RoutePages.HandleSectionClick` | src/app/docs/configuring-webshorts/page.js:10-28 | on every route page, a section click behaves exactly like `navigateToDocsPage`: guarded by "mapped and different from the pathname" |
| `RoutePages.HandlePreviousClick` | src/app/docs/webshorts-dialog/page.js:31-33 | the quick start does nothing. The other pages load the path of the previous page in the shared order, even when already there |
| `RoutePages.HandleNextClick` | src/app/docs/quick-start/page.js:20-25 | the quick start goes to '/docs/features' through the guarded redirect, and does nothing if already there. The other pages load the path of the next page in the shared order |

## Left out

- The keyboard-shortcut library (`ShortcutListener`, `WebShortsProvider`, `WebShortsDialog`) and the toast library (`Toaster`) are opaque constructors in `Elements`.
  - Key-combination parsing and matching are not modelled.
  - Registration on mount, deregistration on unmount and re-registration on prop changes are not modelled.
  - The dialog's own help binding is not modelled.
  - What a tree registers is counted by `Bindings`, one binding per `ShortcutListener` element.
- React and Next.js effect scheduling, and unmounting, are not modelled. The first commit is an explicit `Commit()` call.
- `ClientShortcutListener.ClientShortcutListener.Render` treats missing children as `Empty`, which stands for `undefined`. Markup is opaque (`Markup`).
- The `ShortcutListener`/`ClientShortcutListener` elements around the Previous/Next buttons (ALT + P, ALT + N) are not modelled as data. Neither are the rest of the page markup, `LeftDocsNav`, or the JSON-LD `Script` blocks, which carry fixed metadata and wall-clock dates.
- JavaScript object lookup is a plain dictionary lookup. Keys inherited from `Object.prototype`, such as 'toString', would be truthy in the source, and the model does not cover them.
- `Browser.Location.Assign` stands for a completed navigation, not for the start of one.
  - It assumes every `href` the site assigns is a same-origin path, so the pathname becomes that path at once.
  - The page reload itself is recorded in `loads`, not simulated.
  - In a browser, `pathname` keeps its old value until the new document loads. So two handler calls within one document (ALT + N pressed twice on the quick start before it unloads) assign `href` twice.
  - The model records a single load there. `Browser.RedirectIdempotent` and `DocsNavigation.NavigateIdempotent` therefore hold for a call made on the newly loaded page, not for repeated calls within one document.
- src/app/docs/webshorts-provider/page.js, src/app/docs/custom-styling/page.js and src/app/docs/use-shortcuts-hooks/page.js are not part of this model.
- The documentation prose components, the demo cards, the sitemap, `webshorts.config.js` and the layout/navigation markup are left out. They hold no logic beyond markup, timers, randomness and I/O.
- `Render` of both gates is a Dafny function of the `mounted` field and its arguments. Rendering twice with the same inputs therefore gives the same output by construction, and no separate lemma states it.

## Findings

| source | as written | input that shows it | evidently intended | confidence | as-written member | corrected member |
|---|---|---|---|---|---|---|
| src/app/docs/page.js:23 | the title table keys the listener page as 'shortcut-listeners', but the order and `renderPage` use 'shortcut-listener', so the template literal prints "undefined" | `activeSection` = 'webshorts-provider' gives a Next button reading "Next: undefined →" | "Next: Shortcut Listeners →" | high; not executed | `DocsBrowser.NextCaptionPrintsUndefined` | `DocsBrowser.Docs.CorrectedNextButtonView` |
| src/app/docs/page.js:23 | same key mismatch, on the Previous button | `activeSection` = 'webshorts-dialog' gives a Previous button reading "← Previous: undefined" | "← Previous: Shortcut Listeners" | high; not executed | `DocsBrowser.PreviousCaptionPrintsUndefined` | `DocsBrowser.Docs.CorrectedPreviousButtonView` |

The corrected table `DocsBrowser.CorrectedPageTitles` keys that page as 'shortcut-listener'. The `Docs` class renders its buttons both ways:
- `PreviousButtonView` and `NextButtonView` use the table as written;
- `CorrectedPreviousButtonView` and `CorrectedNextButtonView` use the corrected table.

`CorrectedTitlesNameNeighbours` states the corrected captions for every section.
