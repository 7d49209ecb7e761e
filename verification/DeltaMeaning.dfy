/** What a delta means. Whatever uids and modseqs the store hands out, the folder
    it describes is the plain map from Graph id to flags, and a delta is applied
    to that map item by item, the last word on an id winning. */
module DeltaMeaning {
  import opened Basics
  import opened GraphTables

  type PlainMap = map<GraphId, Flags>

  function PlainItem(p: PlainMap, it: Seen): PlainMap {
    if it.removed then p - {it.graphId} else p[it.graphId := it.flags]
  }

  function PlainItems(p: PlainMap, items: seq<Seen>): PlainMap {
    if items == [] then p
    else PlainItem(PlainItems(p, items[..|items| - 1]), items[|items| - 1])
  }

  /** An item tells the folder nothing it does not already hold. */
  predicate Agrees(p: PlainMap, it: Seen) {
    if it.removed then it.graphId !in p else it.graphId in p && p[it.graphId] == it.flags
  }

  /** How many items put something into the folder it did not have. */
  function News(p: PlainMap, items: seq<Seen>): nat {
    if items == [] then 0
    else
      var n := |items| - 1;
      News(p, items[..n]) + if items[n].removed || Agrees(PlainItems(p, items[..n]), items[n]) then 0 else 1
  }

  /** The one row a delta item writes, at the message's own uid or the next. */
  function WriteRow(b: Box, uid: nat, r: Row): Box
    requires if r.graphId in b.ids then uid == b.ids[r.graphId] else uid !in b.rows
  {
    b.(rows := b.rows[uid := r], ids := b.ids[r.graphId := uid])
  }

  lemma {:induction false} WriteRowMeans(b: Box, uid: nat, r: Row)
    requires if r.graphId in b.ids then uid == b.ids[r.graphId] else uid !in b.rows
    ensures Plain(WriteRow(b, uid, r)) == Plain(b)[r.graphId := r.flags]
  {
  }

  lemma {:induction false} WithoutMeans(b: Box, g: GraphId)
    ensures Plain(Without(b, g)) == Plain(b) - {g}
  {
  }

  /** The effect of an item on the plain map. */
  lemma {:induction false} ItemPlain(b: Box, it: Seen)
    requires ApplyItem(b, it).Some?
    ensures Plain(ApplyItem(b, it).value) == PlainItem(Plain(b), it)
  {
    var c := ApplyItem(b, it).value;
    if it.removed {
      WithoutMeans(b, it.graphId);
    } else {
      var uid := if it.graphId in b.ids then b.ids[it.graphId] else b.nextUid;
      WriteRowMeans(b, uid, c.rows[uid]);
      assert WriteRow(b, uid, c.rows[uid]).rows == c.rows && WriteRow(b, uid, c.rows[uid]).ids == c.ids;
    }
  }

  /** A whole delta does to the plain map what its items say, in order. */
  lemma {:induction false} DeltaMeans(b: Box, items: seq<Seen>, c: Box)
    requires ApplyItems(b, items) == Some(c)
    ensures Plain(c) == PlainItems(Plain(b), items)
  {
    if items != [] {
      var front, it := items[..|items| - 1], items[|items| - 1];
      var s := ApplyItems(b, front).value;
      DeltaMeans(b, front, s);
      ItemPlain(s, it);
    }
  }

  /** One item, with room for one more uid, succeeds, keeps the folder sound and
      moves the modseq exactly when it is news. */
  lemma {:induction false} ItemCounters(b: Box, it: Seen)
    requires Sound(b) && b.nextUid < MAX_UINT32
    ensures ApplyItem(b, it).Some?
    ensures var c := ApplyItem(b, it).value;
      && Sound(c)
      && b.nextUid <= c.nextUid <= b.nextUid + 1
      && c.validity == b.validity
      && c.modseq == b.modseq + (if it.removed || Agrees(Plain(b), it) then 0 else 1)
  {
  }

  /** A delta for which there are uids enough succeeds, and the modseq counts its
      news. */
  lemma {:induction false} DeltaCounters(b: Box, items: seq<Seen>)
    requires Sound(b) && b.nextUid + |items| <= MAX_UINT32
    ensures ApplyItems(b, items).Some?
    ensures var c := ApplyItems(b, items).value;
      && Sound(c)
      && b.nextUid <= c.nextUid <= b.nextUid + |items|
      && c.validity == b.validity
      && c.modseq == b.modseq + News(Plain(b), items)
  {
    if items != [] {
      var front := items[..|items| - 1];
      DeltaCounters(b, front);
      var s := ApplyItems(b, front).value;
      DeltaMeans(b, front, s);
      ItemCounters(s, items[|items| - 1]);
    }
  }

  // ---------- replaying a delta ----------

  /** Items about one message say the same thing about it. */
  predicate Consistent(items: seq<Seen>) {
    forall i, j :: 0 <= i < j < |items| && items[i].graphId == items[j].graphId ==>
      items[i].removed == items[j].removed && (!items[i].removed ==> items[i].flags == items[j].flags)
  }

  predicate AllAgree(p: PlainMap, items: seq<Seen>) {
    forall i :: 0 <= i < |items| ==> Agrees(p, items[i])
  }

  lemma {:induction false} ConsistentItemsAgree(p: PlainMap, items: seq<Seen>, i: nat)
    requires Consistent(items) && i < |items|
    ensures Agrees(PlainItems(p, items), items[i])
  {
    var n := |items| - 1;
    if i < n {
      assert items[..n][i] == items[i];
      ConsistentItemsAgree(p, items[..n], i);
    }
  }

  lemma {:induction false} AgreeingItemsChangeNothing(p: PlainMap, items: seq<Seen>)
    requires AllAgree(p, items)
    ensures PlainItems(p, items) == p
  {
    if items != [] {
      var n := |items| - 1;
      assert forall i :: 0 <= i < n ==> items[..n][i] == items[i];
      AgreeingItemsChangeNothing(p, items[..n]);
    }
  }

  /** Without news a folder only loses messages, and if it loses none either then
      every item agreed with it. */
  lemma {:induction false} NoNews(p: PlainMap, items: seq<Seen>)
    requires News(p, items) == 0
    ensures forall g :: g in PlainItems(p, items) ==> g in p && p[g] == PlainItems(p, items)[g]
    ensures PlainItems(p, items) == p ==> AllAgree(p, items)
  {
    if items != [] {
      var n := |items| - 1;
      NoNews(p, items[..n]);
      if PlainItems(p, items) == p {
        assert PlainItems(p, items[..n]) == p;
        forall i | 0 <= i < |items| ensures Agrees(p, items[i]) {
          if i < n { assert items[..n][i] == items[i]; }
        }
      }
    }
  }

  /** No item from i on names g. */
  predicate Unnamed(items: seq<Seen>, i: nat, g: GraphId) {
    forall j :: i <= j < |items| ==> items[j].graphId != g
  }

  /** What one item does to a row it does not name, and to the one it does. */
  lemma {:induction false} ItemAtRow(b: Box, it: Seen, u: nat)
    requires ApplyItem(b, it).Some? && u in ApplyItem(b, it).value.rows
    ensures var r := ApplyItem(b, it).value.rows[u];
      if r.graphId == it.graphId then !it.removed && r.categories == it.categories
      else u in b.rows && r == b.rows[u]
  {
  }

  /** An item that agrees with the folder at most rewrites one category list. */
  lemma {:induction false} AgreeingItem(b: Box, it: Seen)
    requires Agrees(Plain(b), it)
    ensures ApplyItem(b, it).Some?
    ensures var c := ApplyItem(b, it).value;
      && c == b.(rows := c.rows)
      && c.rows.Keys == b.rows.Keys
      && forall u :: u in b.rows ==> c.rows[u] == b.rows[u].(categories := c.rows[u].categories)
  {
  }

  /** The category list a message is left with is that of the last item naming it. */
  lemma {:induction false} LastWordStands(b: Box, items: seq<Seen>, c: Box, i: nat, u: nat)
    requires ApplyItems(b, items) == Some(c) && u in c.rows
    requires i < |items| && items[i].graphId == c.rows[u].graphId
    requires Unnamed(items, i + 1, items[i].graphId)
    ensures !items[i].removed && c.rows[u].categories == items[i].categories
  {
    var n := |items| - 1;
    var front, it := items[..n], items[n];
    var s := ApplyItems(b, front).value;
    ItemAtRow(s, it, u);
    if i < n {
      assert Unnamed(front, i + 1, items[i].graphId) && front[i] == items[i] && it.graphId != items[i].graphId;
      LastWordStands(b, front, s, i, u);
    }
  }

  lemma {:induction false} UnnamedRowStays(b: Box, items: seq<Seen>, c: Box, u: nat)
    requires ApplyItems(b, items) == Some(c) && u in c.rows
    requires Unnamed(items, 0, c.rows[u].graphId)
    ensures u in b.rows && c.rows[u] == b.rows[u]
  {
    if items != [] {
      var n := |items| - 1;
      var s := ApplyItems(b, items[..n]).value;
      ItemAtRow(s, items[n], u);
      UnnamedRowStays(b, items[..n], s, u);
    }
  }

  /** Items that agree with the folder rewrite the category lists of the messages
      they name and nothing else. */
  lemma {:induction false} AgreeingItemsKeepRows(b: Box, items: seq<Seen>)
    requires AllAgree(Plain(b), items)
    ensures ApplyItems(b, items).Some?
    ensures var c := ApplyItems(b, items).value;
      && c == b.(rows := c.rows) && c.rows.Keys == b.rows.Keys
      && forall u :: u in b.rows ==> c.rows[u] == b.rows[u].(categories := c.rows[u].categories)
  {
    if items != [] {
      var n := |items| - 1;
      assert AllAgree(Plain(b), items[..n]) by {
        assert forall i :: 0 <= i < n ==> items[..n][i] == items[i];
      }
      AgreeingItemsKeepRows(b, items[..n]);
      var s := ApplyItems(b, items[..n]).value;
      DeltaMeans(b, items[..n], s);
      AgreeingItemsChangeNothing(Plain(b), items[..n]);
      AgreeingItem(s, items[n]);
    }
  }

  /** The latest item about a message, given one. */
  lemma {:induction false} LastItemAbout(items: seq<Seen>, i: nat) returns (k: nat)
    requires i < |items|
    ensures i <= k < |items| && items[k].graphId == items[i].graphId
    ensures Unnamed(items, k + 1, items[i].graphId)
  {
    k := |items| - 1;
    while items[k].graphId != items[i].graphId
      invariant i <= k < |items|
      invariant Unnamed(items, k + 1, items[i].graphId)
      decreases k
    {
      k := k - 1;
    }
  }

  lemma {:induction false} AgreeingReplayKeepsRow(b: Box, items: seq<Seen>, c: Box, d: Box, u: nat)
    requires ApplyItems(b, items) == Some(c) && ApplyItems(c, items) == Some(d)
    requires u in c.rows && u in d.rows && d.rows[u] == c.rows[u].(categories := d.rows[u].categories)
    ensures d.rows[u] == c.rows[u]
  {
    if Unnamed(items, 0, c.rows[u].graphId) {
      UnnamedRowStays(c, items, d, u);
    } else {
      var i :| 0 <= i < |items| && items[i].graphId == c.rows[u].graphId;
      var k := LastItemAbout(items, i);
      LastWordStands(b, items, c, k, u);
      LastWordStands(c, items, d, k, u);
    }
  }

  lemma {:induction false} ConsistentReplay(b: Box, items: seq<Seen>, c: Box)
    requires ApplyItems(b, items) == Some(c) && Consistent(items)
    ensures ApplyItems(c, items) == Some(c)
  {
    assert AllAgree(Plain(c), items) by {
      DeltaMeans(b, items, c);
      forall i | 0 <= i < |items| ensures Agrees(Plain(c), items[i]) {
        ConsistentItemsAgree(Plain(b), items, i);
      }
    }
    AgreeingItemsKeepRows(c, items);
    var d := ApplyItems(c, items).value;
    forall u | u in c.rows ensures d.rows[u] == c.rows[u] {
      AgreeingReplayKeepsRow(b, items, c, d, u);
    }
    assert d.rows == c.rows;
  }

  /** A folder that agrees with every item heard one thing about each message. */
  lemma {:induction false} AgreeingMeansConsistent(p: PlainMap, items: seq<Seen>)
    requires AllAgree(p, items)
    ensures Consistent(items)
  {
  }

  lemma {:induction false} NoOpReplay(c: Box, items: seq<Seen>)
    requires Sound(c) && c.nextUid + |items| <= MAX_UINT32
    requires ApplyItems(c, items) == Some(c)
    ensures Consistent(items)
  {
    DeltaCounters(c, items);
    DeltaMeans(c, items, c);
    NoNews(Plain(c), items);
    AgreeingMeansConsistent(Plain(c), items);
  }

  /** A delta applied a second time, as after a crash that lost the link, changes
      nothing exactly when it said one thing about each message. */
  lemma {:induction false} ReplayIsNoOpIff(b: Box, items: seq<Seen>, c: Box)
    requires Sound(b) && b.nextUid + |items| + |items| <= MAX_UINT32
    requires ApplyItems(b, items) == Some(c)
    ensures ApplyItems(c, items) == Some(c) <==> Consistent(items)
  {
    if Consistent(items) {
      ConsistentReplay(b, items, c);
    } else if ApplyItems(c, items) == Some(c) {
      DeltaCounters(b, items);
      NoOpReplay(c, items);
    }
  }
}
