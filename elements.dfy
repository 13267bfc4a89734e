/**
 * The React elements the two hydration wrappers return, as values. The
 * components of the keyboard-shortcut library and of the toast library are
 * opaque constructors: only the props they receive are recorded.
 */
module Elements {
  import opened Wrappers

  /** The identity of a callback passed as `action`. */
  type Action = nat

  /** The provider's `config`: for each route, the key combinations it binds. */
  datatype Config = Config(shortcuts: map<string, seq<string>>)

  datatype Node =
    | Empty                                      // no children (`undefined`)
    | Markup(tag: string, content: seq<Node>)    // the page's own elements, passed through untouched
    | ShortcutListener(props: ListenerProps)      // the library's `ShortcutListener`
    | WebShortsProvider(config: Config, currentPage: string, className: Option<string>, content: seq<Node>)
    | WebShortsDialog                            // the library's help dialog
    | Toaster(position: string, richColors: bool) // the toast surface

  /** The props of a `ShortcutListener`, and of the wrapper that defers it. */
  datatype ListenerProps = ListenerProps(
    keys: string,
    action: Action,
    shortName: Option<string>,
    description: Option<string>,
    children: Node)

  /** A key binding registered with the shortcut engine by a mounted `ShortcutListener`. */
  datatype Binding = Binding(keys: string, action: Action)

  /** The bindings a rendered tree registers: one per `ShortcutListener`, in document order. */
  function Bindings(n: Node): seq<Binding>
    decreases n
  {
    match n
    case Empty => []
    case Markup(_, content) => BindingsOfAll(content)
    case ShortcutListener(props) => [Binding(props.keys, props.action)] + Bindings(props.children)
    case WebShortsProvider(_, _, _, content) => BindingsOfAll(content)
    case WebShortsDialog => []
    case Toaster(_, _) => []
  }

  function BindingsOfAll(ns: seq<Node>): seq<Binding>
    decreases ns
  {
    if ns == [] then [] else Bindings(ns[0]) + BindingsOfAll(ns[1..])
  }

  /** The number of `WebShortsProvider` elements in a tree: each one owns a context and a global key listener. */
  function Providers(n: Node): nat
    decreases n
  {
    match n
    case Empty => 0
    case Markup(_, content) => ProvidersOfAll(content)
    case ShortcutListener(props) => Providers(props.children)
    case WebShortsProvider(_, _, _, content) => 1 + ProvidersOfAll(content)
    case WebShortsDialog => 0
    case Toaster(_, _) => 0
  }

  function ProvidersOfAll(ns: seq<Node>): nat
    decreases ns
  {
    if ns == [] then 0 else Providers(ns[0]) + ProvidersOfAll(ns[1..])
  }

  /** Joining two content lists joins what they register, in order. */
  lemma {:induction false} BindingsOfAllAppend(xs: seq<Node>, ys: seq<Node>)
    ensures BindingsOfAll(xs + ys) == BindingsOfAll(xs) + BindingsOfAll(ys)
    decreases |xs|
  {
    if xs == [] {
      assert xs + ys == ys;
    } else {
      assert (xs + ys)[0] == xs[0];
      assert (xs + ys)[1..] == xs[1..] + ys;
      BindingsOfAllAppend(xs[1..], ys);
    }
  }

  /** Joining two content lists adds up the providers they hold. */
  lemma {:induction false} ProvidersOfAllAppend(xs: seq<Node>, ys: seq<Node>)
    ensures ProvidersOfAll(xs + ys) == ProvidersOfAll(xs) + ProvidersOfAll(ys)
    decreases |xs|
  {
    if xs == [] {
      assert xs + ys == ys;
    } else {
      assert (xs + ys)[0] == xs[0];
      assert (xs + ys)[1..] == xs[1..] + ys;
      ProvidersOfAllAppend(xs[1..], ys);
    }
  }

  /** A one-element content list registers what its element registers and holds its providers. */
  lemma SingletonContent(a: Node)
    ensures BindingsOfAll([a]) == Bindings(a)
    ensures ProvidersOfAll([a]) == Providers(a)
  {
    assert [a][1..] == [];
  }

  /** A three-element content list registers the bindings of its elements, in order. */
  lemma BindingsOfThree(a: Node, b: Node, c: Node)
    ensures BindingsOfAll([a, b, c]) == Bindings(a) + Bindings(b) + Bindings(c)
  {
    assert [a, b, c] == [a] + [b] + [c];
    BindingsOfAllAppend([a] + [b], [c]);
    BindingsOfAllAppend([a], [b]);
    SingletonContent(a);
    SingletonContent(b);
    SingletonContent(c);
  }

  /** A three-element content list holds as many providers as its elements together. */
  lemma ProvidersOfThree(a: Node, b: Node, c: Node)
    ensures ProvidersOfAll([a, b, c]) == Providers(a) + Providers(b) + Providers(c)
  {
    assert [a, b, c] == [a] + [b] + [c];
    ProvidersOfAllAppend([a] + [b], [c]);
    ProvidersOfAllAppend([a], [b]);
    SingletonContent(a);
    SingletonContent(b);
    SingletonContent(c);
  }
}
