/**
 * `ClientWebShortsProvider`: the application-wide `WebShortsProvider`, with
 * the help dialog and the toast surface, mounted only after the component's
 * first client commit.
 */
module ClientWebShortsProvider {
  import opened Wrappers
  import opened Elements

  /** The wrapper's props. */
  datatype ProviderProps = ProviderProps(config: Config, className: Option<string>, children: Node)

  /** Where the toast surface is placed. */
  const ToasterPosition := "bottom-right"

  class ClientWebShortsProvider {
    /** `const [mounted, setMounted] = useState(false)` */
    var mounted: bool

    /** A fresh instance has not mounted yet. */
    constructor ()
      ensures !mounted
    {
      mounted := false;
    }

    /**
     * The effect with an empty dependency list, run after the first commit:
     * `setMounted(true)`. It is the only write to `mounted`, and it writes true.
     */
    method Commit()
      modifies this
      ensures mounted
    {
      mounted := true;
    }

    /**
     * The render function, given the router's current `pathname`. Before
     * mounting it returns exactly the children: no provider, dialog or toaster.
     * Once mounted it returns one provider that receives `config` and
     * `className` unchanged and the pathname as `currentPage`, holding the
     * children, then the dialog, then the toaster.
     */
    function Render(props: ProviderProps, pathname: string): (r: Node)
      reads this
      ensures !mounted ==> r == props.children
      ensures mounted ==>
        && r.WebShortsProvider?
        && r.config == props.config && r.className == props.className && r.currentPage == pathname
        && r.content == [props.children, WebShortsDialog, Toaster(ToasterPosition, true)]
      ensures Providers(r) == Providers(props.children) + (if mounted then 1 else 0)
      ensures Bindings(r) == Bindings(props.children)
    {
      if !mounted then props.children
      else
        var content := [props.children, WebShortsDialog, Toaster(ToasterPosition, true)];
        BindingsOfThree(props.children, WebShortsDialog, Toaster(ToasterPosition, true));
        ProvidersOfThree(props.children, WebShortsDialog, Toaster(ToasterPosition, true));
        WebShortsProvider(props.config, pathname, props.className, content)
    }
  }
}
