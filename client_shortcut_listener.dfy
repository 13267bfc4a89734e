/**
 * `ClientShortcutListener`: a `ShortcutListener` that appears only after the
 * component's first client commit, so the server-rendered markup and the
 * first client render agree and no shortcut is registered before hydration.
 */
module ClientShortcutListener {
  import opened Elements

  class ClientShortcutListener {
    /** `const [mounted, setMounted] = useState(false)` */
    var mounted: bool

    /** A fresh instance has not mounted yet. */
    constructor ()
      ensures !mounted
    {
      mounted := false;
    }

    /**
     * The effect with an empty dependency list, run after the first commit:
     * `setMounted(true)`. It is the only write to `mounted`, and it writes true.
     */
    method Commit()
      modifies this
      ensures mounted
    {
      mounted := true;
    }

    /**
     * The render function. Before mounting it returns the children themselves
     * and registers nothing of its own; once mounted it returns one
     * `ShortcutListener` that receives every prop unchanged and registers
     * exactly one binding ahead of those of the children.
     */
    function Render(props: ListenerProps): (r: Node)
      reads this
      ensures !mounted ==> r == props.children
      ensures mounted ==> r == ShortcutListener(props)
      ensures Bindings(r) == (if mounted then [Binding(props.keys, props.action)] else []) + Bindings(props.children)
      ensures Providers(r) == Providers(props.children)
    {
      if !mounted then props.children
      else ShortcutListener(props)
    }
  }

  /**
   * Saving with CTRL + S: before hydration the button is on the page and the
   * shortcut is not registered; after the first commit it is registered once,
   * and re-rendering does not register it again.
   */
  method SaveShortcutLifecycle(save: Action)
  {
    var button := Markup("span", [Markup("Save", [])]);
    var props := ListenerProps("CTRL + S", save, Wrappers.None, Wrappers.None, button);
    var gate := new ClientShortcutListener();
    var before := gate.Render(props);
    assert before == button && Bindings(before) == [];
    gate.Commit();
    var after := gate.Render(props);
    assert Bindings(after) == [Binding("CTRL + S", save)];
    gate.Commit();
    assert gate.Render(props) == after;
  }
}
