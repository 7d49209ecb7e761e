/** Documents that are nested as they should be come back as they were written. */
module TreeRoundTrip {
  import opened Basics
  import opened TreeTables
  import opened TreeBuilder

  datatype Tree = Branch(tag: string, attrs: Attrs, kids: seq<Tree>) | Leaf(data: string)

  /** The tokens of a tree written out. */
  function Print(t: Tree): seq<Token>
    decreases t, 0
  {
    match t
    case Leaf(data) => [Data(data)]
    case Branch(tag, attrs, kids) =>
      if tag in VOIDS then [Start(tag, attrs)]
      else [Start(tag, attrs)] + PrintAll(t, |kids|) + [End(tag)]
  }

  /** The first n of its children. */
  function PrintAll(t: Tree, n: nat): seq<Token>
    requires t.Branch? && n <= |t.kids|
    decreases t, 0, n
  {
    if n == 0 then [] else PrintAll(t, n - 1) + Print(t.kids[n - 1])
  }

  /** Void elements have nothing in them, and no element is in one that its start
      tag would close. */
  ghost predicate Proper(t: Tree)
    decreases t
  {
    t.Branch? ==>
      && (t.tag in VOIDS ==> t.kids == [])
      && forall k :: 0 <= k < |t.kids| ==> Proper(t.kids[k]) && (t.kids[k].Branch? ==> t.tag !in Closers(t.kids[k].tag))
  }

  /** The tree under a node. */
  ghost function TreeOf(nodes: seq<Node>, i: nat): Tree
    requires Downward(nodes) && i < |nodes|
    decreases |nodes| - i, 0
  {
    if nodes[i].Text? then Leaf(nodes[i].data)
    else Branch(nodes[i].tag, nodes[i].attrs, TreesOf(nodes, i, |nodes[i].children|))
  }

  ghost function TreesOf(nodes: seq<Node>, i: nat, n: nat): seq<Tree>
    requires Downward(nodes) && i < |nodes| && nodes[i].Element? && n <= |nodes[i].children|
    decreases |nodes| - i - 1, n + 1
  {
    if n == 0 then [] else TreesOf(nodes, i, n - 1) + [TreeOf(nodes, nodes[i].children[n - 1])]
  }

  function Fold<S, T>(step: (S, T) -> S, s: S, items: seq<T>): S {
    if items == [] then s else step(Fold(step, s, items[..|items| - 1]), items[|items| - 1])
  }

  lemma {:induction false} FoldBoth<S, T>(step: (S, T) -> S, s: S, first: seq<T>, second: seq<T>)
    ensures Fold(step, s, first + second) == Fold(step, Fold(step, s, first), second)
  {
    if second == [] {
      assert first + second == first;
    } else {
      FoldBoth(step, s, first, second[..|second| - 1]);
      assert (first + second)[..|first + second| - 1] == first + second[..|second| - 1];
    }
  }

  function Step(b: Builder, t: Token): Builder {
    if Open(b) then Take(b, t) else b
  }

  /** Tokens fed to a builder that has begun. */
  function FedOn(b: Builder, tokens: seq<Token>): Builder {
    Fold(Step, b, tokens)
  }

  type Feed = (Builder, seq<Token>) -> Builder

  /** Feeding, token after token. */
  ghost predicate IsFeed(feed: Feed) {
    && (forall b :: feed(b, []) == b)
    && (forall b, t :: Open(b) ==> feed(b, [t]) == Take(b, t))
    && (forall b, first, second :: feed(b, first + second) == feed(feed(b, first), second))
  }

  lemma {:induction false} FedOnIsFeed()
    ensures IsFeed(FedOn)
  {
    forall b, t | Open(b) ensures FedOn(b, [t]) == Take(b, t) {
      FedOnOne(b, t);
    }
    forall b: Builder, first: seq<Token>, second: seq<Token> ensures FedOn(b, first + second) == FedOn(FedOn(b, first), second) {
      FoldBoth(Step, b, first, second);
    }
  }

  lemma {:induction false} FedOnOne(b: Builder, t: Token)
    requires Open(b)
    ensures FedOn(b, [t]) == Take(b, t)
  {
    assert [t][..0] == [] && Fold(Step, b, []) == b;
    assert Step(b, t) == Take(b, t);
  }

  lemma {:induction false} FeedOne(feed: Feed, b: Builder, t: Token)
    requires IsFeed(feed) && Open(b)
    ensures feed(b, [t]) == Take(b, t)
  {
  }

  lemma {:induction false} FeedBoth(feed: Feed, b: Builder, first: seq<Token>, second: seq<Token>)
    requires IsFeed(feed)
    ensures feed(b, first + second) == feed(feed(b, first), second)
  {
  }

  lemma {:induction false} FedIsFedOn(tokens: seq<Token>)
    ensures Fed(tokens) == FedOn(Empty(), tokens)
  {
    if tokens != [] {
      FedIsFedOn(tokens[..|tokens| - 1]);
    }
  }

  /** Trees under nodes from lo on are what they were when those nodes are. */
  ghost predicate SameFrom(was: seq<Node>, now: seq<Node>, lo: nat) {
    |was| <= |now| && forall i :: lo <= i < |was| ==> now[i] == was[i]
  }

  lemma {:induction false} TreeStays(was: seq<Node>, now: seq<Node>, lo: nat, i: nat)
    requires Downward(was) && Downward(now) && SameFrom(was, now, lo) && lo <= i < |was|
    ensures TreeOf(now, i) == TreeOf(was, i)
    decreases |was| - i, 0
  {
    if was[i].Element? {
      TreesStay(was, now, lo, i, |was[i].children|);
    }
  }

  lemma {:induction false} TreesStay(was: seq<Node>, now: seq<Node>, lo: nat, i: nat, n: nat)
    requires Downward(was) && Downward(now) && SameFrom(was, now, lo) && lo <= i < |was| && was[i].Element?
    requires n <= |was[i].children|
    ensures TreesOf(now, i, n) == TreesOf(was, i, n)
    decreases |was| - i - 1, n + 1
  {
    if n > 0 {
      TreesStay(was, now, lo, i, n - 1);
      TreeStays(was, now, lo, was[i].children[n - 1]);
    }
  }

  function Top(b: Builder): nat
    requires Open(b)
  {
    b.stack[|b.stack| - 1]
  }

  /** After some trees were fed: the stack is as it was, the element on top has
      them as further children, and no other node has changed. */
  ghost predicate Gained(b: Builder, after: Builder, trees: seq<Tree>) {
    && Open(b) && Open(after) && Downward(b.nodes) && Downward(after.nodes)
    && after.stack == b.stack && |b.nodes| <= |after.nodes|
    && (forall i :: 0 <= i < |b.nodes| && i != Top(b) ==> after.nodes[i] == b.nodes[i])
    && var was, now := b.nodes[Top(b)], after.nodes[Top(b)];
       && |now.children| == |was.children| + |trees|
       && now == was.(children := now.children) && now.children[..|was.children|] == was.children
       && forall j :: |was.children| <= j < |now.children| ==>
            |b.nodes| <= now.children[j] && TreeOf(after.nodes, now.children[j]) == trees[j - |was.children|]
  }

  lemma {:induction false} GainNothing(b: Builder)
    requires Open(b) && Downward(b.nodes)
    ensures Gained(b, b, [])
  {
  }

  lemma {:induction false} GainOneMore(b: Builder, mid: Builder, after: Builder, trees: seq<Tree>, t: Tree)
    requires Gained(b, mid, trees) && Gained(mid, after, [t])
    ensures Gained(b, after, trees + [t])
  {
    var was, half, now := b.nodes[Top(b)], mid.nodes[Top(b)], after.nodes[Top(b)];
    assert now.children[..|was.children|] == half.children[..|was.children|];
    NewNodesStay(b, mid, after);
    forall j | |was.children| <= j < |half.children|
      ensures now.children[j] == half.children[j] && TreeOf(after.nodes, now.children[j]) == trees[j - |was.children|]
    {
      assert now.children[..|half.children|][j] == half.children[j];
      TreeStays(mid.nodes, after.nodes, |b.nodes|, half.children[j]);
    }
  }

  lemma {:induction false} NewNodesStay(b: Builder, mid: Builder, after: Builder)
    requires Open(b) && Open(mid) && mid.stack == b.stack && |b.nodes| <= |mid.nodes| <= |after.nodes|
    requires forall i :: 0 <= i < |mid.nodes| && i != Top(mid) ==> after.nodes[i] == mid.nodes[i]
    ensures SameFrom(mid.nodes, after.nodes, |b.nodes|)
  {
  }

  lemma {:induction false} AppendGains(b: Builder, node: Node)
    requires Open(b) && Downward(b.nodes) && (node.Element? ==> node.children == [])
    ensures Gained(b, Append(b, node), [if node.Text? then Leaf(node.data) else Branch(node.tag, node.attrs, [])])
  {
  }

  lemma {:induction false} EndCloses(b: Builder, tag: string, below: seq<nat>, i: nat)
    requires Open(b) && below != [] && b.stack == below + [i] && tag !in VOIDS
    requires i < |b.nodes| && b.nodes[i].Element? && b.nodes[i].tag == tag
    ensures EndTag(b, tag) == b.(stack := below)
  {
  }

  /** What an element gains between its start and end tags is what it holds, and
      its parent gains it. */
  lemma {:induction false} ClosingGains(b: Builder, begun: Builder, filled: Builder, tag: string, attrs: Attrs, kids: seq<Tree>)
    requires Open(b) && Downward(b.nodes) && tag !in VOIDS
    requires begun == Append(b, Element(tag, attrs, [])).(stack := b.stack + [|b.nodes|])
    requires Gained(begun, filled, kids)
    ensures Gained(b, EndTag(filled, tag), [Branch(tag, attrs, kids)])
  {
    EndCloses(filled, tag, b.stack, |b.nodes|);
    FilledTree(filled.nodes, |b.nodes|, kids);
    ParentGains(b, begun, filled, Element(tag, attrs, []), kids);
  }

  lemma {:induction false} FilledTree(nodes: seq<Node>, i: nat, kids: seq<Tree>)
    requires Downward(nodes) && i < |nodes| && nodes[i].Element? && |nodes[i].children| == |kids|
    requires forall j :: 0 <= j < |kids| ==> TreeOf(nodes, nodes[i].children[j]) == kids[j]
    ensures TreeOf(nodes, i) == Branch(nodes[i].tag, nodes[i].attrs, kids)
  {
    AllTrees(nodes, i, |kids|, kids);
    assert kids[..|kids|] == kids;
  }

  lemma {:induction false} ParentGains(b: Builder, begun: Builder, filled: Builder, node: Node, kids: seq<Tree>)
    requires Open(b) && Downward(b.nodes) && node.Element? && node.children == []
    requires begun == Append(b, node).(stack := b.stack + [|b.nodes|])
    requires Gained(begun, filled, kids)
    ensures Gained(b, filled.(stack := b.stack), [TreeOf(filled.nodes, |b.nodes|)])
  {
  }

  lemma {:induction false} AllTrees(nodes: seq<Node>, i: nat, n: nat, trees: seq<Tree>)
    requires Downward(nodes) && i < |nodes| && nodes[i].Element? && n <= |nodes[i].children| && n <= |trees|
    requires forall j :: 0 <= j < n ==> TreeOf(nodes, nodes[i].children[j]) == trees[j]
    ensures TreesOf(nodes, i, n) == trees[..n]
  {
    if n > 0 {
      AllTrees(nodes, i, n - 1, trees);
      assert trees[..n] == trees[..n - 1] + [trees[n - 1]];
    }
  }

  /** Feeding a tree to a builder whose top element its start tag does not close
      makes it that element's next child. */
  lemma {:induction false} FeedTree(feed: Feed, b: Builder, t: Tree) returns (after: Builder)
    requires IsFeed(feed) && Open(b) && Downward(b.nodes) && Proper(t)
    requires t.Branch? ==> TagAt(b, |b.stack| - 1) !in Closers(t.tag)
    ensures after == feed(b, Print(t)) && Gained(b, after, [t])
    decreases t, 0
  {
    match t
    case Leaf(data) =>
      after := Take(b, Data(data));
      FeedOne(feed, b, Data(data));
      AppendGains(b, Text(data));
    case Branch(tag, attrs, kids) =>
      var begun := StartTag(b, tag, attrs);
      FeedOne(feed, b, Start(tag, attrs));
      assert b.stack[..|b.stack|] == b.stack;
      AppendGains(b, Element(tag, attrs, []));
      if tag in VOIDS {
        after := begun;
      } else {
        var filled := FeedKids(feed, begun, t, |kids|);
        assert kids[..|kids|] == kids;
        after := EndTag(filled, tag);
        ClosingGains(b, begun, filled, tag, attrs, kids);
        BranchIsFed(feed, b, t, begun, filled);
      }
  }

  lemma {:induction false} BranchIsFed(feed: Feed, b: Builder, t: Tree, begun: Builder, filled: Builder)
    requires IsFeed(feed) && Open(b) && t.Branch? && t.tag !in VOIDS
    requires begun == StartTag(b, t.tag, t.attrs) && filled == feed(begun, PrintAll(t, |t.kids|)) && Open(filled)
    ensures EndTag(filled, t.tag) == feed(b, Print(t))
  {
    FeedOne(feed, b, Start(t.tag, t.attrs));
    FeedOne(feed, filled, End(t.tag));
    FeedBoth(feed, b, [Start(t.tag, t.attrs)], PrintAll(t, |t.kids|));
    FeedBoth(feed, b, [Start(t.tag, t.attrs)] + PrintAll(t, |t.kids|), [End(t.tag)]);
  }

  lemma {:induction false} KidIsProper(t: Tree, k: nat)
    requires t.Branch? && Proper(t) && k < |t.kids|
    ensures Proper(t.kids[k]) && (t.kids[k].Branch? ==> t.tag !in Closers(t.kids[k].tag))
  {
  }

  lemma {:induction false} GainingKeepsTop(b: Builder, after: Builder, trees: seq<Tree>)
    requires Gained(b, after, trees)
    ensures TagAt(after, |after.stack| - 1) == TagAt(b, |b.stack| - 1)
  {
  }

  /** The first n children of an element, fed while it is on top, are what it gains. */
  lemma {:induction false} FeedKids(feed: Feed, b: Builder, t: Tree, n: nat) returns (after: Builder)
    requires IsFeed(feed) && Open(b) && Downward(b.nodes) && t.Branch? && n <= |t.kids| && Proper(t)
    requires TagAt(b, |b.stack| - 1) == t.tag
    ensures after == feed(b, PrintAll(t, n)) && Gained(b, after, t.kids[..n])
    decreases t, 0, n
  {
    if n == 0 {
      after := b;
      GainNothing(b);
      assert t.kids[..0] == [];
    } else {
      var mid := FeedKids(feed, b, t, n - 1);
      after := FeedKid(feed, b, mid, t, n - 1);
      FeedBoth(feed, b, PrintAll(t, n - 1), Print(t.kids[n - 1]));
    }
  }

  lemma {:induction false} FeedKid(feed: Feed, b: Builder, mid: Builder, t: Tree, n: nat) returns (after: Builder)
    requires IsFeed(feed) && t.Branch? && n < |t.kids| && Proper(t)
    requires Gained(b, mid, t.kids[..n]) && TagAt(b, |b.stack| - 1) == t.tag
    ensures after == feed(mid, Print(t.kids[n])) && Gained(b, after, t.kids[..n + 1])
    decreases t, 0, n
  {
    GainingKeepsTop(b, mid, t.kids[..n]);
    KidIsProper(t, n);
    after := FeedTree(feed, mid, t.kids[n]);
    GainOneMore(b, mid, after, t.kids[..n], t.kids[n]);
    assert t.kids[..n + 1] == t.kids[..n] + [t.kids[n]];
  }

  /** A document nested as it should be is read back exactly. */
  lemma {:induction false} ProperDocumentsComeBack(kids: seq<Tree>)
    requires Proper(Branch("document", map[], kids))
    ensures var nodes := Fed(PrintAll(Branch("document", map[], kids), |kids|)).nodes;
            Downward(nodes) && TreeOf(nodes, 0) == Branch("document", map[], kids)
  {
    var t := Branch("document", map[], kids);
    FedIsFedOn(PrintAll(t, |kids|));
    FedOnIsFeed();
    DocumentIsFed(FedOn, Empty(), t);
  }

  lemma {:induction false} DocumentIsFed(feed: Feed, b: Builder, t: Tree)
    requires IsFeed(feed) && t.Branch? && Proper(t)
    requires Open(b) && Downward(b.nodes) && b.stack == [0] && b.nodes == [Element(t.tag, t.attrs, [])]
    ensures var nodes := feed(b, PrintAll(t, |t.kids|)).nodes;
            Downward(nodes) && 0 < |nodes| && TreeOf(nodes, 0) == t
  {
    var after := FeedKids(feed, b, t, |t.kids|);
    assert t.kids[..|t.kids|] == t.kids;
    GainedByTheDocument(b, after, t.kids);
    FilledTree(after.nodes, 0, t.kids);
  }

  lemma {:induction false} GainedByTheDocument(b: Builder, after: Builder, kids: seq<Tree>)
    requires Gained(b, after, kids) && b.stack == [0] && |b.nodes| == 1 && b.nodes[0].children == []
    ensures |after.nodes[0].children| == |kids| && after.nodes[0] == b.nodes[0].(children := after.nodes[0].children)
    ensures forall j :: 0 <= j < |kids| ==> TreeOf(after.nodes, after.nodes[0].children[j]) == kids[j]
  {
  }
}
