/** The tree builder as it runs, proved against the functions of its tables, and
    what its trees are for every stream of tokens. */
module TreeBuilder {
  import opened Basics
  import opened TreeTables

  class Parser {
    var nodes: seq<Node>
    var stack: seq<nat>

    ghost function State(): Builder
      reads this
    {
      Builder(nodes, stack)
    }

    constructor ()
      ensures State() == Empty()
    {
      nodes, stack := [Element("document", map[], [])], [0];
    }

    method CloseFor(closers: set<string>)
      requires Open(State())
      modifies this
      ensures nodes == old(nodes) && stack == old(stack)[..LeftOpen(old(State()), |old(stack)|, closers)]
    {
      while |stack| > 1 && nodes[stack[|stack| - 1]].tag in closers
        invariant nodes == old(nodes) && 1 <= |stack| <= |old(stack)| && stack == old(stack)[..|stack|]
        invariant LeftOpen(old(State()), |old(stack)|, closers) == LeftOpen(old(State()), |stack|, closers)
        decreases |stack|
      {
        stack := stack[..|stack| - 1];
      }
    }

    method HandleStartTag(tag: string, attrs: Attrs)
      requires Open(State())
      modifies this
      ensures State() == StartTag(old(State()), tag, attrs)
    {
      CloseFor(Closers(tag));
      AppendChild(Element(tag, attrs, []));
      if tag !in VOIDS {
        stack := stack + [|nodes| - 1];
      }
    }

    method AppendChild(node: Node)
      requires Open(State())
      modifies this
      ensures State() == Append(old(State()), node)
    {
      var top := stack[|stack| - 1];
      nodes := nodes[top := nodes[top].(children := nodes[top].children + [|nodes|])] + [node];
    }

    method HandleEndTag(tag: string)
      requires Open(State())
      modifies this
      ensures State() == EndTag(old(State()), tag)
    {
      if tag in VOIDS {
        return;
      }
      var i := |stack| - 1;
      while i > 0
        invariant 0 <= i < |stack| && State() == old(State())
        invariant Innermost(State(), |stack|, tag) == Innermost(State(), i + 1, tag)
      {
        if nodes[stack[i]].tag == tag {
          stack := stack[..i];
          return;
        }
        i := i - 1;
      }
    }

    method Handle(t: Token)
      requires Open(State())
      modifies this
      ensures State() == Take(old(State()), t)
    {
      match t
      case Start(tag, attrs) => HandleStartTag(tag, attrs);
      case SelfClosing(tag, attrs) =>
        HandleStartTag(tag, attrs);
        HandleEndTag(tag);
      case End(tag) => HandleEndTag(tag);
      case Data(data) => AppendChild(Text(data));
    }

    method Feed(tokens: seq<Token>)
      requires State() == Empty()
      modifies this
      ensures State() == Fed(tokens)
    {
      for i := 0 to |tokens|
        invariant State() == Fed(tokens[..i])
      {
        assert tokens[..i + 1][..i] == tokens[..i];
        Handle(tokens[i]);
      }
      assert tokens[..|tokens|] == tokens;
    }
  }

  // ---------- reading order ----------

  /** Children come after their parents, so a tree can be walked. */
  ghost predicate Downward(nodes: seq<Node>) {
    forall i, k :: 0 <= i < |nodes| && nodes[i].Element? && 0 <= k < |nodes[i].children| ==>
      i < nodes[i].children[k] < |nodes|
  }

  /** A node and everything under it, in reading order. */
  ghost function Walk(nodes: seq<Node>, i: nat): seq<nat>
    requires Downward(nodes) && i < |nodes|
    decreases |nodes| - i, 0
  {
    if nodes[i].Text? then [i] else [i] + WalkAll(nodes, i, |nodes[i].children|)
  }

  /** Its first n children, each with everything under it. */
  ghost function WalkAll(nodes: seq<Node>, i: nat, n: nat): seq<nat>
    requires Downward(nodes) && i < |nodes| && nodes[i].Element? && n <= |nodes[i].children|
    decreases |nodes| - i - 1, n + 1
  {
    if n == 0 then [] else WalkAll(nodes, i, n - 1) + Walk(nodes, nodes[i].children[n - 1])
  }

  function Range(lo: nat, hi: nat): seq<nat> {
    if lo < hi then seq(hi - lo, k requires 0 <= k < hi - lo => lo + k) else []
  }

  lemma {:induction false} WalkGoesDown(nodes: seq<Node>, i: nat)
    requires Downward(nodes) && i < |nodes|
    ensures forall x :: x in Walk(nodes, i) ==> i <= x < |nodes|
    decreases |nodes| - i, 0
  {
    if nodes[i].Element? {
      WalkAllGoesDown(nodes, i, |nodes[i].children|);
    }
  }

  lemma {:induction false} WalkAllGoesDown(nodes: seq<Node>, i: nat, n: nat)
    requires Downward(nodes) && i < |nodes| && nodes[i].Element? && n <= |nodes[i].children|
    ensures forall x :: x in WalkAll(nodes, i, n) ==> i < x < |nodes|
    decreases |nodes| - i - 1, n + 1
  {
    if n > 0 {
      WalkAllGoesDown(nodes, i, n - 1);
      WalkGoesDown(nodes, nodes[i].children[n - 1]);
    }
  }

  /** A tree with one more node, a child of top, walks as before wherever top is
      not. */
  ghost predicate Grown(was: seq<Node>, now: seq<Node>, top: nat) {
    && top < |was| && was[top].Element? && |now| == |was| + 1
    && now[top] == was[top].(children := was[top].children + [|was|])
    && (forall i :: 0 <= i < |was| && i != top ==> now[i] == was[i])
    && (now[|was|].Element? ==> now[|was|].children == [])
  }

  lemma {:induction false} GrownGoesDown(was: seq<Node>, now: seq<Node>, top: nat)
    requires Downward(was) && Grown(was, now, top)
    ensures Downward(now)
  {
  }

  lemma {:induction false} WalkAsBefore(was: seq<Node>, now: seq<Node>, top: nat, i: nat)
    requires Downward(was) && Downward(now) && Grown(was, now, top) && i < |was| && top !in Walk(was, i)
    ensures Walk(now, i) == Walk(was, i)
    decreases |was| - i, 0
  {
    assert i in Walk(was, i);
    if was[i].Element? {
      WalkAllAsBefore(was, now, top, i, |was[i].children|);
    }
  }

  lemma {:induction false} WalkAllAsBefore(was: seq<Node>, now: seq<Node>, top: nat, i: nat, n: nat)
    requires Downward(was) && Downward(now) && Grown(was, now, top) && i < |was| && was[i].Element?
    requires n <= |was[i].children| && top !in WalkAll(was, i, n)
    ensures now[i].Element? && n <= |now[i].children| && WalkAll(now, i, n) == WalkAll(was, i, n)
    decreases |was| - i - 1, n + 1
  {
    if n > 0 {
      assert was[i].children[n - 1] == now[i].children[n - 1];
      WalkAllAsBefore(was, now, top, i, n - 1);
      WalkAsBefore(was, now, top, was[i].children[n - 1]);
    }
  }

  // ---------- the stack is the right edge of the tree ----------

  /** Each open element is the last child of the one below it, and everything made
      since it was opened is under it, in the order it was made. */
  ghost predicate RightEdge(b: Builder) {
    && Open(b) && Downward(b.nodes)
    && (forall k :: 0 <= k < |b.stack| ==> Walk(b.nodes, b.stack[k]) == Range(b.stack[k], |b.nodes|))
    && (forall k :: 0 <= k < |b.stack| - 1 ==> LastChild(b.nodes, b.stack[k]) == Some(b.stack[k + 1]))
  }

  function LastChild(nodes: seq<Node>, i: nat): Option<nat>
    requires i < |nodes|
  {
    if nodes[i].Element? && nodes[i].children != [] then Some(nodes[i].children[|nodes[i].children| - 1]) else None
  }

  lemma {:induction false} ClosingKeepsEdge(b: Builder, n: nat)
    requires RightEdge(b) && 1 <= n <= |b.stack|
    ensures RightEdge(b.(stack := b.stack[..n]))
  {
  }

  lemma {:induction false} RangeSplits(lo: nat, mid: nat, hi: nat, left: seq<nat>)
    requires lo <= mid <= hi && left + Range(mid, hi) == Range(lo, hi)
    ensures left == Range(lo, mid)
  {
    assert |left| == mid - lo;
    assert Range(lo, hi)[..mid - lo] == left;
    assert forall k :: 0 <= k < mid - lo ==> left[k] == Range(lo, hi)[k];
  }

  /** The walk of an open element grows by the new node, from the top down to the
      document. */
  lemma {:induction false} EdgeWalkGrows(b: Builder, now: seq<Node>, k: nat)
    requires RightEdge(b) && k < |b.stack|
    requires Grown(b.nodes, now, b.stack[|b.stack| - 1]) && Downward(now)
    ensures Walk(now, b.stack[k]) == Walk(b.nodes, b.stack[k]) + [|b.nodes|]
    decreases |b.stack| - k
  {
    var was, top, i := b.nodes, b.stack[|b.stack| - 1], b.stack[k];
    var n := |was[i].children|;
    if k == |b.stack| - 1 {
      WalkAllGoesDown(was, i, n);
      WalkAllAsBefore(was, now, top, i, n);
      assert now[i].children[n] == |was|;
      assert Walk(now, |was|) == [|was|];
    } else {
      var next := b.stack[k + 1];
      assert LastChild(was, i) == Some(next);
      EdgeWalkGrows(b, now, k + 1);
      EarlierChildrenEnd(b, k);
      EdgeClimbs(b, k + 1);
      WalkAllAsBefore(was, now, top, i, n - 1);
      assert Walk(now, i) == [i] + (WalkAll(now, i, n - 1) + Walk(now, next));
    }
  }

  lemma {:induction false} EdgeClimbs(b: Builder, k: nat)
    requires RightEdge(b) && k < |b.stack|
    ensures b.stack[k] <= b.stack[|b.stack| - 1]
    decreases |b.stack| - k
  {
    if k < |b.stack| - 1 {
      assert LastChild(b.nodes, b.stack[k]) == Some(b.stack[k + 1]);
      EdgeClimbs(b, k + 1);
    }
  }

  ghost predicate Below(walk: seq<nat>, bound: nat) {
    forall x :: x in walk ==> x < bound
  }

  lemma {:induction false} EarlierChildrenEnd(b: Builder, k: nat)
    requires RightEdge(b) && k < |b.stack| - 1
    ensures b.nodes[b.stack[k]].children != []
    ensures Below(WalkAll(b.nodes, b.stack[k], |b.nodes[b.stack[k]].children| - 1), b.stack[k + 1])
  {
    var i, next := b.stack[k], b.stack[k + 1];
    assert LastChild(b.nodes, i) == Some(next);
    var left := WalkAll(b.nodes, i, |b.nodes[i].children| - 1);
    assert Walk(b.nodes, i) == ([i] + left) + Range(next, |b.nodes|);
    RangeSplits(i, next, |b.nodes|, [i] + left);
    assert forall x :: x in left ==> x in [i] + left;
  }

  lemma {:induction false} AppendKeepsEdge(b: Builder, node: Node)
    requires RightEdge(b) && (node.Element? ==> node.children == [])
    ensures RightEdge(Append(b, node))
    ensures Walk(Append(b, node).nodes, |b.nodes|) == [|b.nodes|]
    ensures LastChild(Append(b, node).nodes, b.stack[|b.stack| - 1]) == Some(|b.nodes|)
  {
    var after := Append(b, node);
    var top := b.stack[|b.stack| - 1];
    assert Grown(b.nodes, after.nodes, top);
    GrownGoesDown(b.nodes, after.nodes, top);
    forall k | 0 <= k < |b.stack| ensures Walk(after.nodes, b.stack[k]) == Range(b.stack[k], |after.nodes|) {
      EdgeWalkGrows(b, after.nodes, k);
    }
    forall k | 0 <= k < |b.stack| - 1 ensures LastChild(after.nodes, b.stack[k]) == Some(b.stack[k + 1]) {
      assert LastChild(b.nodes, b.stack[k]) == Some(b.stack[k + 1]);
      NotTop(b, k);
    }
  }

  lemma {:induction false} NotTop(b: Builder, k: nat)
    requires RightEdge(b) && k < |b.stack| - 1
    ensures b.stack[k] != b.stack[|b.stack| - 1]
  {
    assert LastChild(b.nodes, b.stack[k]) == Some(b.stack[k + 1]);
    EdgeClimbs(b, k + 1);
  }

  lemma {:induction false} TakeKeepsEdge(b: Builder, t: Token)
    requires RightEdge(b)
    ensures RightEdge(Take(b, t))
  {
    match t
    case Start(tag, attrs) => StartKeepsEdge(b, tag, attrs);
    case SelfClosing(tag, attrs) =>
      StartKeepsEdge(b, tag, attrs);
      EndKeepsEdge(StartTag(b, tag, attrs), tag);
    case End(tag) => EndKeepsEdge(b, tag);
    case Data(data) => AppendKeepsEdge(b, Text(data));
  }

  lemma {:induction false} StartKeepsEdge(b: Builder, tag: string, attrs: Attrs)
    requires RightEdge(b)
    ensures RightEdge(StartTag(b, tag, attrs))
  {
    var n := LeftOpen(b, |b.stack|, Closers(tag));
    ClosingKeepsEdge(b, n);
    var closed := b.(stack := b.stack[..n]);
    AppendKeepsEdge(closed, Element(tag, attrs, []));
    if tag !in VOIDS {
      OpeningKeepsEdge(Append(closed, Element(tag, attrs, [])), |b.nodes|);
    }
  }

  lemma {:induction false} OpeningKeepsEdge(b: Builder, i: nat)
    requires RightEdge(b) && |b.nodes| == i + 1 && b.nodes[i].Element?
    requires Walk(b.nodes, i) == [i] && LastChild(b.nodes, b.stack[|b.stack| - 1]) == Some(i)
    ensures RightEdge(b.(stack := b.stack + [i]))
  {
  }

  lemma {:induction false} EndKeepsEdge(b: Builder, tag: string)
    requires RightEdge(b)
    ensures RightEdge(EndTag(b, tag))
  {
  }

  /** For every stream of tokens, however badly nested, the stack is the right
      edge of the tree, from the document down. */
  lemma {:induction false} StackIsTheRightEdge(tokens: seq<Token>)
    ensures RightEdge(Fed(tokens))
  {
    if tokens != [] {
      StackIsTheRightEdge(tokens[..|tokens| - 1]);
      TakeKeepsEdge(Fed(tokens[..|tokens| - 1]), tokens[|tokens| - 1]);
    }
  }

  // ---------- what was read ----------

  /** A node without its children, and what a token adds to a document. */
  datatype Piece = Tag(tag: string, attrs: Attrs) | Words(data: string)

  function PieceOf(node: Node): Piece {
    if node.Text? then Words(node.data) else Tag(node.tag, node.attrs)
  }

  function Pieces(nodes: seq<Node>): seq<Piece> {
    seq(|nodes|, i requires 0 <= i < |nodes| => PieceOf(nodes[i]))
  }

  function Said(tokens: seq<Token>): seq<Piece> {
    if tokens == [] then [Tag("document", map[])] else Said(tokens[..|tokens| - 1]) + Added(tokens[|tokens| - 1])
  }

  lemma {:induction false} AppendAddsAPiece(b: Builder, node: Node)
    requires Open(b)
    ensures Pieces(Append(b, node).nodes) == Pieces(b.nodes) + [PieceOf(node)]
  {
  }

  function Added(t: Token): seq<Piece> {
    match t
    case Start(tag, attrs) => [Tag(tag, attrs)]
    case SelfClosing(tag, attrs) => [Tag(tag, attrs)]
    case End(_) => []
    case Data(data) => [Words(data)]
  }

  lemma {:induction false} TokenAddsItsPiece(b: Builder, t: Token)
    requires Open(b)
    ensures Pieces(Take(b, t).nodes) == Pieces(b.nodes) + Added(t)
  {
    match t
    case Start(tag, attrs) => StartAddsATag(b, tag, attrs);
    case SelfClosing(tag, attrs) => StartAddsATag(b, tag, attrs);
    case End(_) =>
    case Data(data) => AppendAddsAPiece(b, Text(data));
  }

  lemma {:induction false} PiecesAreWhatWasSaid(tokens: seq<Token>)
    ensures Pieces(Fed(tokens).nodes) == Said(tokens)
  {
    if tokens != [] {
      PiecesAreWhatWasSaid(tokens[..|tokens| - 1]);
      TokenAddsItsPiece(Fed(tokens[..|tokens| - 1]), tokens[|tokens| - 1]);
    }
  }

  lemma {:induction false} StartAddsATag(b: Builder, tag: string, attrs: Attrs)
    requires Open(b)
    ensures Pieces(StartTag(b, tag, attrs).nodes) == Pieces(b.nodes) + [Tag(tag, attrs)]
  {
  }

  /** Reading the finished tree from the document down gives back every element
      and every text of the stream, in the order they came: closing an element
      early, an end tag that matches nothing, a void tag lose and move nothing. */
  lemma {:induction false} NothingLostOrMoved(tokens: seq<Token>)
    ensures var nodes := Fed(tokens).nodes;
            Downward(nodes) && |Walk(nodes, 0)| == |nodes| == |Said(tokens)| &&
            forall k :: 0 <= k < |nodes| ==> Walk(nodes, 0)[k] < |nodes| && PieceOf(nodes[Walk(nodes, 0)[k]]) == Said(tokens)[k]
  {
    StackIsTheRightEdge(tokens);
    PiecesAreWhatWasSaid(tokens);
    var b := Fed(tokens);
    assert Walk(b.nodes, b.stack[0]) == Range(0, |b.nodes|);
    assert forall k :: 0 <= k < |b.nodes| ==> Pieces(b.nodes)[k] == PieceOf(b.nodes[k]);
  }

  // ---------- what is never inside what ----------

  ghost predicate Fits(nodes: seq<Node>, i: nat)
    requires Downward(nodes) && i < |nodes|
  {
    nodes[i].Element? ==>
      && (nodes[i].tag in VOIDS ==> nodes[i].children == [])
      && forall k :: 0 <= k < |nodes[i].children| && nodes[nodes[i].children[k]].Element? ==>
           nodes[i].tag !in Closers(nodes[nodes[i].children[k]].tag)
  }

  ghost predicate WellNested(b: Builder) {
    && Open(b) && Downward(b.nodes)
    && (forall i :: 0 <= i < |b.nodes| ==> Fits(b.nodes, i))
    && TagAt(b, 0) == "document"
    && forall k :: 0 <= k < |b.stack| ==> TagAt(b, k) !in VOIDS
  }

  lemma {:induction false} AppendKeepsNesting(b: Builder, node: Node)
    requires WellNested(b) && (node.Element? ==> node.children == [])
    requires node.Element? ==> TagAt(b, |b.stack| - 1) !in Closers(node.tag)
    ensures WellNested(Append(b, node))
  {
    var after, top := Append(b, node), b.stack[|b.stack| - 1];
    assert Grown(b.nodes, after.nodes, top);
    GrownGoesDown(b.nodes, after.nodes, top);
    forall i | 0 <= i < |after.nodes| ensures Fits(after.nodes, i) {
      if i < |b.nodes| {
        assert Fits(b.nodes, i);
      }
      if i == top {
        assert TagAt(b, |b.stack| - 1) !in VOIDS;
      }
    }
    assert forall k :: 0 <= k < |b.stack| ==> TagAt(after, k) == TagAt(b, k);
  }

  lemma {:induction false} StartKeepsNesting(b: Builder, tag: string, attrs: Attrs)
    requires WellNested(b)
    ensures WellNested(StartTag(b, tag, attrs))
  {
    var n := LeftOpen(b, |b.stack|, Closers(tag));
    var closed := b.(stack := b.stack[..n]);
    assert forall k :: 0 <= k < n ==> TagAt(closed, k) == TagAt(b, k);
    assert "document" !in Closers(tag);
    AppendKeepsNesting(closed, Element(tag, attrs, []));
    if tag !in VOIDS {
      OpeningKeepsNesting(Append(closed, Element(tag, attrs, [])), |b.nodes|);
    }
  }

  lemma {:induction false} OpeningKeepsNesting(b: Builder, i: nat)
    requires WellNested(b) && i < |b.nodes| && b.nodes[i].Element? && b.nodes[i].tag !in VOIDS
    ensures WellNested(b.(stack := b.stack + [i]))
  {
    var after := b.(stack := b.stack + [i]);
    assert forall k :: 0 <= k < |b.stack| ==> TagAt(after, k) == TagAt(b, k);
  }

  lemma {:induction false} EndKeepsNesting(b: Builder, tag: string)
    requires WellNested(b)
    ensures WellNested(EndTag(b, tag))
  {
    var after := EndTag(b, tag);
    assert forall k :: 0 <= k < |after.stack| ==> TagAt(after, k) == TagAt(b, k);
  }

  /** No element ends up inside one its start tag closes, a row in a row or a
      paragraph in a paragraph, and void elements stay empty. */
  lemma {:induction false} TreesAreWellNested(tokens: seq<Token>)
    ensures WellNested(Fed(tokens))
  {
    if tokens != [] {
      var b := Fed(tokens[..|tokens| - 1]);
      TreesAreWellNested(tokens[..|tokens| - 1]);
      match tokens[|tokens| - 1]
      case Start(tag, attrs) => StartKeepsNesting(b, tag, attrs);
      case SelfClosing(tag, attrs) =>
        StartKeepsNesting(b, tag, attrs);
        EndKeepsNesting(StartTag(b, tag, attrs), tag);
      case End(tag) => EndKeepsNesting(b, tag);
      case Data(data) => AppendKeepsNesting(b, Text(data));
    }
  }

  /** The element i has the element j for a child. */
  ghost predicate IsChild(b: Builder, i: nat, j: nat) {
    && i < |b.nodes| && j < |b.nodes| && b.nodes[i].Element? && b.nodes[j].Element?
    && exists k :: 0 <= k < |b.nodes[i].children| && b.nodes[i].children[k] == j
  }

  /** Whatever the tokens: no item is an item's child, no paragraph a paragraph's, no
      cell a cell's, no row a row's or a cell's, no term or description one of
      either; and an element that is always empty has no child. */
  lemma {:induction false} ListsAndTablesNest(tokens: seq<Token>, i: nat, j: nat)
    requires IsChild(Fed(tokens), i, j)
    ensures var outer, inner := Fed(tokens).nodes[i].tag, Fed(tokens).nodes[j].tag;
            && !(inner == "li" && outer == "li")
            && !(inner == "p" && outer == "p")
            && !(inner in {"td", "th"} && outer in {"td", "th"})
            && !(inner == "tr" && outer in {"tr", "td", "th"})
            && !(inner in {"dt", "dd"} && outer in {"dt", "dd"})
            && outer !in {"area", "base", "br", "col", "embed", "hr", "img", "input", "link", "meta", "param", "source", "track", "wbr"}
  {
    var b := Fed(tokens);
    TreesAreWellNested(tokens);
    assert Fits(b.nodes, i);
  }

  /** An open element of this name that a start tag of that one ends, when on top. */
  predicate EndedBy(open: string, tag: string) {
    || (open == "p" && tag == "p")
    || (open == "li" && tag == "li")
    || ((open == "td" || open == "th") && (tag == "td" || tag == "th" || tag == "tr"))
    || (open == "tr" && tag == "tr")
    || ((open == "dt" || open == "dd") && (tag == "dt" || tag == "dd"))
  }

  /** A start tag ends the elements on top that it may, down to the first it may not,
      and no other: what lies below stays open, and the new element opens in it. */
  lemma {:induction false} StartTagEndsOnly(b: Builder, tag: string, attrs: Attrs) returns (left: nat)
    requires Open(b)
    ensures 1 <= left <= |b.stack| && (forall k :: left <= k < |b.stack| ==> EndedBy(TagAt(b, k), tag))
    ensures left > 1 ==> !EndedBy(TagAt(b, left - 1), tag)
    ensures var after := StartTag(b, tag, attrs);
            && after.stack == b.stack[..left] + (if tag in VOIDS then [] else [|b.nodes|])
            && var top := b.stack[left - 1]; var parent := b.nodes[top];
               after.nodes == b.nodes[top := Element(parent.tag, parent.attrs, parent.children + [|b.nodes|])] + [Element(tag, attrs, [])]
  {
    left := LeftOpen(b, |b.stack|, Closers(tag));
  }
}
