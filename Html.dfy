/**
 * The parsed HTML tree the converters walk, and the tree queries they use
 * (`get_text`, `find_all`, `stripped_strings`, `.get(attr, default)`).
 * Parsing itself is not modelled: a conversion starts from a `Node`.
 */
module Html {
  import opened Wrappers
  import opened Strings

  /** A text leaf (NavigableString) or an element with its attributes and children. */
  datatype Node =
    | Text(s: string)
    | Elem(name: string, attrs: map<string, string>, children: seq<Node>)

  function Children(n: Node): seq<Node> {
    if n.Elem? then n.children else []
  }

  /** `elem.get(key)`: the attribute's value, if present. */
  function Attr(n: Node, key: string): Option<string> {
    if n.Elem? && key in n.attrs then Some(n.attrs[key]) else None
  }

  /** `elem.get(key, default)`. */
  function AttrOr(n: Node, key: string, default: string): string {
    if n.Elem? && key in n.attrs then n.attrs[key] else default
  }

  /** A heading tag: one of `h1` ... `h6`. */
  predicate IsHeadingTag(tag: string) {
    |tag| == 2 && tag[0] == 'h' && '1' <= tag[1] <= '6'
  }

  /** `int(tag[1])` for a heading tag. */
  function HeadingLevel(tag: string): (level: int)
    requires IsHeadingTag(tag)
    ensures 1 <= level <= 6
  {
    tag[1] as int - '0' as int
  }

  /** `get_text()`: every text leaf below the node, concatenated in document order. */
  function GetText(n: Node): string
    decreases n
  {
    match n
    case Text(s) => s
    case Elem(_, _, ch) => TextOf(ch)
  }

  function TextOf(ns: seq<Node>): string
    decreases ns
  {
    if ns == [] then "" else GetText(ns[0]) + TextOf(ns[1..])
  }

  lemma {:induction false} TextOfAppend(a: seq<Node>, b: seq<Node>)
    ensures TextOf(a + b) == TextOf(a) + TextOf(b)
  {
    if a == [] {
      assert a + b == b;
    } else {
      assert (a + b)[0] == a[0];
      assert (a + b)[1..] == a[1..] + b;
      TextOfAppend(a[1..], b);
    }
  }

  /** `"".join(n.stripped_strings)`: each text leaf stripped, blank ones skipped. */
  function StrippedText(n: Node): string
    decreases n
  {
    match n
    case Text(s) => Strip(s)
    case Elem(_, _, ch) => StrippedTextOf(ch)
  }

  function StrippedTextOf(ns: seq<Node>): string
    decreases ns
  {
    if ns == [] then "" else StrippedText(ns[0]) + StrippedTextOf(ns[1..])
  }

  /** `n.find_all(names)`: the elements strictly below `n` whose name is listed, in document order. */
  function FindAll(n: Node, names: set<string>): (r: seq<Node>)
    ensures forall k :: 0 <= k < |r| ==> r[k].Elem? && r[k].name in names
  {
    FindAllIn(Children(n), names)
  }

  function FindAllIn(ns: seq<Node>, names: set<string>): (r: seq<Node>)
    ensures forall k :: 0 <= k < |r| ==> r[k].Elem? && r[k].name in names
    decreases ns
  {
    if ns == [] then []
    else
      var n := ns[0];
      (if n.Elem? && n.name in names then [n] else [])
      + (if n.Elem? then FindAllIn(n.children, names) else [])
      + FindAllIn(ns[1..], names)
  }

  /** `n.find_all(names, recursive=False)`: the listed children of `n`, in order. */
  function DirectChildren(n: Node, names: set<string>): (r: seq<Node>)
    ensures forall k :: 0 <= k < |r| ==> r[k].Elem? && r[k].name in names && r[k] in Children(n)
  {
    Select(Children(n), names)
  }

  function Select(ns: seq<Node>, names: set<string>): (r: seq<Node>)
    ensures forall k :: 0 <= k < |r| ==> r[k].Elem? && r[k].name in names && r[k] in ns
    ensures |r| <= |ns|
  {
    if ns == [] then []
    else (if ns[0].Elem? && ns[0].name in names then [ns[0]] else []) + Select(ns[1..], names)
  }

  /** `find_all` over a list is `find_all` over each part, in order. */
  lemma {:induction false} FindAllInAppend(a: seq<Node>, b: seq<Node>, names: set<string>)
    ensures FindAllIn(a + b, names) == FindAllIn(a, names) + FindAllIn(b, names)
    decreases a
  {
    if a == [] {
      assert a + b == b;
    } else {
      assert (a + b)[0] == a[0];
      assert (a + b)[1..] == a[1..] + b;
      FindAllInAppend(a[1..], b, names);
    }
  }

  /** One node contributes itself when its name is listed, then every match below it, in document order. */
  lemma FindAllInOne(x: Node, names: set<string>)
    ensures FindAllIn([x], names) == (if x.Elem? && x.name in names then [x] else []) + FindAll(x, names)
  {
    assert [x][1..] == [];
  }

  /** Selecting from a list is selecting from each part, in order. */
  lemma {:induction false} SelectAppend(a: seq<Node>, b: seq<Node>, names: set<string>)
    ensures Select(a + b, names) == Select(a, names) + Select(b, names)
    decreases a
  {
    if a == [] {
      assert a + b == b;
    } else {
      var head := if a[0].Elem? && a[0].name in names then [a[0]] else [];
      assert (a + b)[0] == a[0];
      assert (a + b)[1..] == a[1..] + b;
      calc {
        Select(a + b, names);
        head + Select(a[1..] + b, names);
        { SelectAppend(a[1..], b, names); }
        head + (Select(a[1..], names) + Select(b, names));
        { AppendAssociative(head, Select(a[1..], names), Select(b, names)); }
        Select(a, names) + Select(b, names);
      }
    }
  }

  /** A single child is kept exactly when it is an element with a listed name. */
  lemma SelectOne(x: Node, names: set<string>)
    ensures Select([x], names) == if x.Elem? && x.name in names then [x] else []
  {
    assert [x][1..] == [];
  }

  predicate Named(n: Node, name: string) {
    n.Elem? && n.name == name
  }

  /** Some element strictly below `n` is named `name`. */
  predicate HasDescendant(n: Node, name: string)
    decreases n, 0
  {
    n.Elem? && exists k :: 0 <= k < |n.children| && InSubtree(n.children[k], name)
  }

  /** `n` itself or some element below it is named `name`. */
  predicate InSubtree(n: Node, name: string)
    decreases n, 1
  {
    Named(n, name) || HasDescendant(n, name)
  }

  /** The first element named `name` in a pre-order walk of `ns` and the subtrees below them. */
  function FirstIn(ns: seq<Node>, name: string): (r: Option<Node>)
    ensures r.Some? ==> Named(r.value, name)
    decreases ns
  {
    if ns == [] then None
    else if Named(ns[0], name) then Some(ns[0])
    else
      var below := if ns[0].Elem? then FirstIn(ns[0].children, name) else None;
      if below.Some? then below else FirstIn(ns[1..], name)
  }

  /** `find_all(name)[0]` is the first such element in pre-order, and the search is empty exactly when there is none. */
  lemma {:induction false} FindAllInFirst(ns: seq<Node>, name: string)
    ensures FindAllIn(ns, {name}) == [] <==> FirstIn(ns, name) == None
    ensures FindAllIn(ns, {name}) != [] ==> FirstIn(ns, name) == Some(FindAllIn(ns, {name})[0])
    decreases ns
  {
    if ns != [] {
      var n := ns[0];
      if n.Elem? {
        FindAllInFirst(n.children, name);
      }
      FindAllInFirst(ns[1..], name);
    }
  }

  /** `find_all` finds something exactly when such a descendant exists. */
  lemma FindAllNonEmpty(n: Node, name: string)
    ensures FindAll(n, {name}) != [] <==> HasDescendant(n, name)
  {
    if n.Elem? {
      FindAllInNonEmpty(n.children, name);
    }
  }

  lemma {:induction false} FindAllInNonEmpty(ns: seq<Node>, name: string)
    ensures FindAllIn(ns, {name}) != [] <==> exists k :: 0 <= k < |ns| && InSubtree(ns[k], name)
    decreases ns
  {
    if ns != [] {
      FindAllInNonEmpty(ns[1..], name);
      if ns[0].Elem? {
        FindAllInNonEmpty(ns[0].children, name);
      }
      if exists k :: 0 <= k < |ns[1..]| && InSubtree(ns[1..][k], name) {
        var k :| 0 <= k < |ns[1..]| && InSubtree(ns[1..][k], name);
        assert ns[k + 1] == ns[1..][k];
      }
      if exists k :: 0 <= k < |ns| && InSubtree(ns[k], name) {
        var k :| 0 <= k < |ns| && InSubtree(ns[k], name);
        if k > 0 { assert ns[1..][k - 1] == ns[k]; }
      }
    }
  }
}
