/**
 * The part of the browser the docs pages touch: `window.location`.
 * Reading `window.location.pathname` is reading `currentPath`; assigning
 * `window.location.href` starts a page load, recorded in `loads`.
 */
module Browser {
  import opened Wrappers

  class Location {
    /** `window.location.pathname` */
    var currentPath: string
    /** every path the page has assigned to `window.location.href`, oldest first */
    var loads: seq<string>

    constructor (path: string)
      ensures currentPath == path && loads == []
    {
      currentPath := path;
      loads := [];
    }

    /** `window.location.href = href` for a same-origin path `href`. */
    method Assign(href: string)
      modifies this
      ensures currentPath == href
      ensures loads == old(loads) + [href]
    {
      currentPath := href;
      loads := loads + [href];
    }
  }

  /**
   * The guarded redirect written out in `navigateToDocsPage` and copied into
   * each docs route page: look the section up, and go there only when the
   * lookup is truthy and differs from the current pathname.
   */
  function RedirectTarget(pageMap: map<string, string>, section: string, pathname: string): (r: Option<string>)
    ensures r.Some? <==> section in pageMap && pageMap[section] != "" && pageMap[section] != pathname
    ensures r.Some? ==> r.value == pageMap[section]
  {
    var targetPath := Lookup(pageMap, section);
    if Truthy(targetPath) && targetPath.value != pathname then targetPath else None
  }

  /** The pathname after the guarded redirect has run from `pathname`. */
  function Landing(pageMap: map<string, string>, section: string, pathname: string): (p: string)
    ensures p == pathname || (section in pageMap && p == pageMap[section])
  {
    match RedirectTarget(pageMap, section, pathname)
    case Some(target) => target
    case None => pathname
  }

  /** Runs the guarded redirect against the browser location. */
  method Redirect(pageMap: map<string, string>, section: string, loc: Location)
    modifies loc
    ensures loc.currentPath == Landing(pageMap, section, old(loc.currentPath))
    ensures loc.loads == old(loc.loads) +
      (match RedirectTarget(pageMap, section, old(loc.currentPath))
       case Some(target) => [target]
       case None => [])
  {
    var target := RedirectTarget(pageMap, section, loc.currentPath);
    if target.Some? {
      loc.Assign(target.value);
    }
  }

  /** A second redirect to the same section finds the browser already there and does nothing. */
  lemma RedirectIdempotent(pageMap: map<string, string>, section: string, pathname: string)
    ensures RedirectTarget(pageMap, section, Landing(pageMap, section, pathname)).None?
    ensures Landing(pageMap, section, Landing(pageMap, section, pathname)) == Landing(pageMap, section, pathname)
  {
  }
}
