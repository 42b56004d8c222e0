/**
 * The part of the DOM the voucher export uses: elements with a tag,
 * attributes and ordered children, and text nodes; plus the read-side
 * queries (attribute lookup, child by tag, `textContent`) in which the
 * properties of the export are stated.
 */
module Xml {
  import opened Wrappers

  datatype Attribute = Attribute(name: string, value: string)

  datatype Node =
    | Element(tag: string, attributes: seq<Attribute>, children: seq<Node>)
    | TextNode(content: string)

  /**
   * `el = createElement(tag); el.textContent = s`: setting `textContent` to
   * the empty string leaves the element without any child.
   */
  function TextElement(tag: string, s: string): (n: Node)
    ensures n.Element? && n.tag == tag && n.attributes == []
    ensures |n.children| <= 1
  {
    Element(tag, [], if s == "" then [] else [TextNode(s)])
  }

  /** Reading `textContent` back gives what was set. */
  lemma TextElementContent(tag: string, s: string)
    ensures TextContent(TextElement(tag, s)) == s
  {
    if s != "" {
      var children := [TextNode(s)];
      assert children[1..] == [];
      assert ChildrenText(children) == s + ChildrenText([]);
    }
  }

  /** `node.textContent`: the text of all descendant text nodes, in document order. */
  function TextContent(n: Node): string {
    match n
    case TextNode(c) => c
    case Element(_, _, children) => ChildrenText(children)
  }

  function ChildrenText(cs: seq<Node>): string
    decreases cs
  {
    if |cs| == 0 then ""
    else
      var first := match cs[0]
        case TextNode(c) => c
        case Element(_, _, grandchildren) => ChildrenText(grandchildren);
      first + ChildrenText(cs[1..])
  }

  /** `getAttribute(name)`: the value of the first attribute called `name`, if any. */
  function AttributeOf(attributes: seq<Attribute>, name: string): Option<string> {
    if |attributes| == 0 then None
    else if attributes[0].name == name then Some(attributes[0].value)
    else AttributeOf(attributes[1..], name)
  }

  /** The lookup finds nothing exactly when no attribute has that name. */
  lemma {:induction false} AttributeOfAbsent(attributes: seq<Attribute>, name: string)
    ensures AttributeOf(attributes, name).None? <==> forall k :: 0 <= k < |attributes| ==> attributes[k].name != name
  {
    if |attributes| > 0 {
      AttributeOfAbsent(attributes[1..], name);
      assert forall k :: 1 <= k < |attributes| ==> attributes[k] == attributes[1..][k - 1];
    }
  }

  /** The attribute found is the one at `i` when none before it has that name. */
  lemma {:induction false} AttributeAt(attributes: seq<Attribute>, name: string, i: nat)
    requires i < |attributes| && attributes[i].name == name
    requires forall k :: 0 <= k < i ==> attributes[k].name != name
    ensures AttributeOf(attributes, name) == Some(attributes[i].value)
  {
    if i > 0 {
      AttributeAt(attributes[1..], name, i - 1);
    }
  }

  function GetAttribute(n: Node, name: string): Option<string> {
    if n.Element? then AttributeOf(n.attributes, name) else None
  }

  /** `n` is an element called `tag`. */
  predicate Named(n: Node, tag: string) {
    n.Element? && n.tag == tag
  }

  /** The first node of `cs` that is an element called `tag`, if any. */
  function FirstNamed(cs: seq<Node>, tag: string): (r: Option<Node>)
    ensures r.Some? ==> Named(r.value, tag)
  {
    if |cs| == 0 then None
    else if Named(cs[0], tag) then Some(cs[0])
    else FirstNamed(cs[1..], tag)
  }

  /** The first element called `tag` is the one at `i` when none before it has that name. */
  lemma {:induction false} FirstNamedAt(cs: seq<Node>, tag: string, i: nat)
    requires i < |cs| && Named(cs[i], tag)
    requires forall k :: 0 <= k < i ==> !Named(cs[k], tag)
    ensures FirstNamed(cs, tag) == Some(cs[i])
  {
    if i > 0 {
      FirstNamedAt(cs[1..], tag, i - 1);
    }
  }

  /** The first child element of `n` called `tag`. */
  function Child(n: Node, tag: string): Option<Node> {
    if n.Element? then FirstNamed(n.children, tag) else None
  }

  /** The text of the first child element of `n` called `tag`. */
  function ChildText(n: Node, tag: string): Option<string> {
    match Child(n, tag)
    case None => None
    case Some(c) => Some(TextContent(c))
  }

  /** The node reached from `n` by following, tag by tag, the first child with that name. */
  function Path(n: Node, tags: seq<string>): Option<Node>
    decreases |tags|
  {
    if |tags| == 0 then Some(n)
    else
      match Child(n, tags[0])
      case None => None
      case Some(c) => Path(c, tags[1..])
  }

  /** Following a path is following its first step, then the rest. */
  lemma PathStep(n: Node, tags: seq<string>, c: Node)
    requires |tags| > 0 && Child(n, tags[0]) == Some(c)
    ensures Path(n, tags) == Path(c, tags[1..])
  {
  }

  /** All elements of `cs` called `tag`, in order (`getElementsByTagName` one level deep). */
  function NamedAmong(cs: seq<Node>, tag: string): (r: seq<Node>)
    ensures |r| <= |cs|
  {
    if |cs| == 0 then []
    else (if Named(cs[0], tag) then [cs[0]] else []) + NamedAmong(cs[1..], tag)
  }

  function ChildrenNamed(n: Node, tag: string): seq<Node> {
    if n.Element? then NamedAmong(n.children, tag) else []
  }

  /** Selecting by name distributes over concatenation. */
  lemma {:induction false} NamedAmongAppend(a: seq<Node>, b: seq<Node>, tag: string)
    ensures NamedAmong(a + b, tag) == NamedAmong(a, tag) + NamedAmong(b, tag)
  {
    if |a| > 0 {
      var head := if Named(a[0], tag) then [a[0]] else [];
      assert (a + b)[0] == a[0];
      assert (a + b)[1..] == a[1..] + b;
      assert NamedAmong(a + b, tag) == head + NamedAmong(a[1..] + b, tag);
      NamedAmongAppend(a[1..], b, tag);
      assert NamedAmong(a, tag) == head + NamedAmong(a[1..], tag);
      assert head + (NamedAmong(a[1..], tag) + NamedAmong(b, tag)) == (head + NamedAmong(a[1..], tag)) + NamedAmong(b, tag);
    } else {
      assert a + b == b;
    }
  }

  /** When every node has the name, selecting by it keeps them all. */
  lemma {:induction false} NamedAmongAll(cs: seq<Node>, tag: string)
    requires forall k :: 0 <= k < |cs| ==> Named(cs[k], tag)
    ensures NamedAmong(cs, tag) == cs
  {
    if |cs| > 0 {
      NamedAmongAll(cs[1..], tag);
    }
  }

  /** When no node has the name, selecting by it keeps none. */
  lemma {:induction false} NamedAmongNone(cs: seq<Node>, tag: string)
    requires forall k :: 0 <= k < |cs| ==> !Named(cs[k], tag)
    ensures NamedAmong(cs, tag) == []
  {
    if |cs| > 0 {
      NamedAmongNone(cs[1..], tag);
    }
  }
}
