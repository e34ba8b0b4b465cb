// The syntax tree the plugin rewrites (hast: HTML as nested elements and text).

module Hast {
  import opened Base

  /** A property value: a string, a boolean flag, or a list of names
      (`className`). */
  datatype Prop = Str(s: string) | Flag(b: bool) | Names(names: seq<string>)

  /** A node of the tree. `Markup(html)` stands for the subtree that converting
      the HTML text `html` produces; its inner structure is not modelled. */
  datatype Node =
    | Text(value: string)
    | Element(tagName: string, properties: map<string, Prop>, children: seq<Node>)
    | Markup(html: string)

  /** `node.tagName`, absent on text and opaque nodes. */
  function TagOf(n: Node): Option<string> {
    if n.Element? then Some(n.tagName) else None
  }

  /** A string property of an element, absent when missing or not a string. */
  function StrProp(n: Node, key: string): (r: Option<string>)
    ensures r.Some? ==> n.Element? && key in n.properties && n.properties[key] == Str(r.value)
  {
    if n.Element? && key in n.properties && n.properties[key].Str? then Some(n.properties[key].s) else None
  }

  /** `node.properties?.className?.includes(c)`: a list of names holds `c`, or a
      class string contains it. */
  predicate HasClass(n: Node, c: string) {
    n.Element? && "className" in n.properties &&
    match n.properties["className"]
    case Names(names) => c in names
    case Str(s) => Includes(s, c)
    case Flag(_) => false
  }

  /** The element with one property set; other nodes are left as they are. */
  function WithProp(n: Node, key: string, v: Prop): (r: Node)
    ensures n.Element? ==> r.Element? && r.tagName == n.tagName && r.children == n.children
    ensures n.Element? ==> r.properties == n.properties[key := v]
    ensures !n.Element? ==> r == n
  {
    if n.Element? then n.(properties := n.properties[key := v]) else n
  }
}
