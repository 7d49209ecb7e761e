/** The tree builder's tree and its stack of open elements. Nodes are kept in the
    order they were made, and an element lists its children by number; the
    document itself is node 0. */
module TreeTables {
  import opened Basics

  type Attrs = map<string, string>

  datatype Node =
    | Element(tag: string, attrs: Attrs, children: seq<nat>)
    | Text(data: string)

  datatype Token =
    | Start(tag: string, attrs: Attrs)
    | SelfClosing(tag: string, attrs: Attrs)
    | End(tag: string)
    | Data(data: string)

  const VOIDS: set<string> := {
    "area", "base", "br", "col", "embed", "hr", "img", "input", "link", "meta", "param", "source", "track", "wbr"
  }

  /** The open elements a start tag closes, as long as one is on top. */
  function Closers(tag: string): set<string> {
    if tag == "p" then {"p"}
    else if tag == "li" then {"li"}
    else if tag == "td" || tag == "th" then {"td", "th"}
    else if tag == "tr" then {"tr", "td", "th"}
    else if tag == "dt" || tag == "dd" then {"dt", "dd"}
    else {}
  }

  datatype Builder = Builder(nodes: seq<Node>, stack: seq<nat>)

  function Empty(): Builder {
    Builder([Element("document", map[], [])], [0])
  }

  /** The stack holds elements, the document first. */
  predicate Open(b: Builder) {
    && b.stack != [] && b.stack[0] == 0
    && forall k :: 0 <= k < |b.stack| ==> b.stack[k] < |b.nodes| && b.nodes[b.stack[k]].Element?
  }

  function TagAt(b: Builder, k: nat): string
    requires Open(b) && k < |b.stack|
  {
    b.nodes[b.stack[k]].tag
  }

  /** How much of the stack is left when everything on top that closers name has
      been closed; the document always is. */
  function LeftOpen(b: Builder, n: nat, closers: set<string>): (left: nat)
    requires Open(b) && 1 <= n <= |b.stack|
    ensures 1 <= left <= n
    ensures left == 1 || TagAt(b, left - 1) !in closers
    ensures forall k :: left <= k < n ==> TagAt(b, k) in closers
  {
    if n > 1 && TagAt(b, n - 1) in closers then LeftOpen(b, n - 1, closers) else n
  }

  /** A new last child of the element on top. */
  function Append(b: Builder, node: Node): (after: Builder)
    requires Open(b)
    ensures Open(after)
  {
    var top := b.stack[|b.stack| - 1];
    var parent := b.nodes[top];
    b.(nodes := b.nodes[top := parent.(children := parent.children + [|b.nodes|])] + [node])
  }

  function StartTag(b: Builder, tag: string, attrs: Attrs): (after: Builder)
    requires Open(b)
    ensures Open(after)
  {
    var closed := b.(stack := b.stack[..LeftOpen(b, |b.stack|, Closers(tag))]);
    var grown := Append(closed, Element(tag, attrs, []));
    if tag in VOIDS then grown else grown.(stack := grown.stack + [|b.nodes|])
  }

  /** Where the innermost open element of that name is, 0 for none. */
  function Innermost(b: Builder, n: nat, tag: string): (k: nat)
    requires Open(b) && 1 <= n <= |b.stack|
    ensures k < n
    ensures k > 0 ==> TagAt(b, k) == tag
    ensures forall j :: k < j < n ==> TagAt(b, j) != tag
  {
    if n == 1 then 0 else if TagAt(b, n - 1) == tag then n - 1 else Innermost(b, n - 1, tag)
  }

  function EndTag(b: Builder, tag: string): (after: Builder)
    requires Open(b)
    ensures Open(after)
  {
    var k := Innermost(b, |b.stack|, tag);
    if tag in VOIDS || k == 0 then b else b.(stack := b.stack[..k])
  }

  function Take(b: Builder, t: Token): (after: Builder)
    requires Open(b)
    ensures Open(after)
  {
    match t
    case Start(tag, attrs) => StartTag(b, tag, attrs)
    case SelfClosing(tag, attrs) => EndTag(StartTag(b, tag, attrs), tag)
    case End(tag) => EndTag(b, tag)
    case Data(data) => Append(b, Text(data))
  }

  function Fed(tokens: seq<Token>): (b: Builder)
    ensures Open(b)
  {
    if tokens == [] then Empty() else Take(Fed(tokens[..|tokens| - 1]), tokens[|tokens| - 1])
  }
}
