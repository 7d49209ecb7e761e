/** What a round comes to, entry by entry: an object known by an id dropped, or an
    event told. Which acts a round makes, and whether it fails, is settled by the
    delta and the server's replies alone, before any table is looked at. */
module CalendarActs {
  import opened Basics
  import opened CalendarTables

  /** Fail is a read the server refused. */
  datatype Act = Drop(id: string) | Tell(event: Event) | Fail

  function ReplyAct(id: string, reply: Reply, whenGone: seq<Act>): seq<Act> {
    match reply
    case Gone => whenGone
    case Refused => [Fail]
    case Found(e) => [Tell(e.(id := id))]
  }

  function ItemAct(it: Item, reply: Reply): seq<Act> {
    match it
    case Removed(id) => [Drop(id)]
    case Master(_) => []
    case Occurrence(_, _) => []
    case Single(event, described) => if described then [Tell(event)] else ReplyAct(event.id, reply, [])
  }

  function ItemActs(items: seq<Item>, replies: seq<Reply>): seq<Act>
    requires |items| == |replies|
  {
    if items == [] then []
    else
      var n := |items| - 1;
      ItemActs(items[..n], replies[..n]) + ItemAct(items[n], replies[n])
  }

  function MasterActs(masters: seq<string>, ask: string -> Reply): seq<Act> {
    if masters == [] then []
    else
      var n := |masters| - 1;
      MasterActs(masters[..n], ask) + ReplyAct(masters[n], ask(masters[n]), [Drop(masters[n])])
  }

  function Acts(items: seq<Item>, replies: seq<Reply>, masters: seq<string>, ask: string -> Reply): seq<Act>
    requires |items| == |replies|
  {
    ItemActs(items, replies) + MasterActs(masters, ask)
  }

  function Do(r: Round, calendar: string, a: Act): Round {
    match a
    case Drop(id) => if id in r.tables.byId then Forget(r, id) else r
    case Tell(e) => Describe(r, calendar, e)
    case Fail => r.(failed := true)
  }

  function DoAll(r: Round, calendar: string, acts: seq<Act>): Round {
    if acts == [] then r
    else
      var before := DoAll(r, calendar, acts[..|acts| - 1]);
      if before.failed then before else Do(before, calendar, acts[|acts| - 1])
  }

  /** Two rounds alike in all but the series they remember and mark. */
  ghost predicate Alike(r: Round, x: Round) {
    r.tables.byHref == x.tables.byHref && r.tables.byId == x.tables.byId && r.log == x.log && r.failed == x.failed
  }

  lemma {:induction false} DoOne(r: Round, calendar: string, a: Act)
    ensures DoAll(r, calendar, []) == r
    ensures DoAll(r, calendar, [a]) == if r.failed then r else Do(r, calendar, a)
  {
    assert [a][..0] == [];
  }

  lemma {:induction false} DoBoth(r: Round, calendar: string, a: seq<Act>, b: seq<Act>)
    ensures DoAll(r, calendar, a + b) ==
              if DoAll(r, calendar, a).failed then DoAll(r, calendar, a) else DoAll(DoAll(r, calendar, a), calendar, b)
  {
    if b == [] {
      assert a + b == a;
    } else {
      var n := |b| - 1;
      DoBoth(r, calendar, a, b[..n]);
      assert (a + b)[..|a| + n] == a + b[..n];
    }
  }

  lemma {:induction false} DoAlike(r: Round, x: Round, calendar: string, a: Act)
    requires Alike(r, x)
    ensures Alike(Do(r, calendar, a), Do(x, calendar, a))
  {
  }

  lemma {:induction false} ItemIsItsAct(r: Round, x: Round, calendar: string, it: Item, reply: Reply)
    requires Alike(r, x) && !r.failed
    ensures Alike(TakeItem(r, calendar, it, reply), DoAll(x, calendar, ItemAct(it, reply)))
  {
    DoOne(x, calendar, Fail);
    if it.Removed? {
      DoOne(x, calendar, Drop(it.id));
    } else if it.Single? && (it.described || reply.Found?) {
      var e := if it.described then it.event else reply.event.(id := it.event.id);
      DoOne(x, calendar, Tell(e));
      DoAlike(r, x, calendar, Tell(e));
    }
  }

  lemma {:induction false} MasterIsItsAct(r: Round, x: Round, calendar: string, master: string, reply: Reply)
    requires Alike(r, x) && !r.failed
    ensures Alike(TakeMaster(r, calendar, master, reply), DoAll(x, calendar, ReplyAct(master, reply, [Drop(master)])))
  {
    match reply
    case Gone => DoOne(x, calendar, Drop(master));
    case Refused => DoOne(x, calendar, Fail);
    case Found(e) =>
      DoOne(x, calendar, Tell(e.(id := master)));
      DoAlike(r, x, calendar, Tell(e.(id := master)));
  }

  lemma {:induction false} ItemsAreTheirActs(r: Round, calendar: string, items: seq<Item>, replies: seq<Reply>)
    requires |items| == |replies| && !r.failed
    ensures Alike(TakeItems(r, calendar, items, replies), DoAll(r, calendar, ItemActs(items, replies)))
  {
    if items != [] {
      var n := |items| - 1;
      var before := TakeItems(r, calendar, items[..n], replies[..n]);
      ItemsAreTheirActs(r, calendar, items[..n], replies[..n]);
      DoBoth(r, calendar, ItemActs(items[..n], replies[..n]), ItemAct(items[n], replies[n]));
      if !before.failed {
        ItemIsItsAct(before, DoAll(r, calendar, ItemActs(items[..n], replies[..n])), calendar, items[n], replies[n]);
      }
    }
  }

  lemma {:induction false} MastersAreTheirActs(r: Round, x: Round, calendar: string, masters: seq<string>, ask: string -> Reply)
    requires Alike(r, x) && !r.failed
    ensures Alike(TakeMasters(r, calendar, masters, ask), DoAll(x, calendar, MasterActs(masters, ask)))
  {
    if masters != [] {
      var n := |masters| - 1;
      var before := TakeMasters(r, calendar, masters[..n], ask);
      MastersAreTheirActs(r, x, calendar, masters[..n], ask);
      DoBoth(x, calendar, MasterActs(masters[..n], ask), ReplyAct(masters[n], ask(masters[n]), [Drop(masters[n])]));
      if !before.failed {
        MasterIsItsAct(before, DoAll(x, calendar, MasterActs(masters[..n], ask)), calendar, masters[n], ask(masters[n]));
      }
    }
  }

  /** A round does to the tables and hands over what its acts do, in their order. */
  lemma {:induction false} RoundIsItsActs(t: Tables, calendar: string, items: seq<Item>, replies: seq<Reply>,
                                          masters: seq<string>, ask: string -> Reply)
    requires |items| == |replies|
    ensures Alike(Rounded(t, calendar, items, replies, masters, ask),
                  DoAll(Begin(t), calendar, Acts(items, replies, masters, ask)))
  {
    var listed, acts := TakeItems(Begin(t), calendar, items, replies), ItemActs(items, replies);
    ItemsAreTheirActs(Begin(t), calendar, items, replies);
    DoBoth(Begin(t), calendar, acts, MasterActs(masters, ask));
    if !listed.failed {
      MastersAreTheirActs(listed, DoAll(Begin(t), calendar, acts), calendar, masters, ask);
    }
  }

  // ---------- where a round stops ----------

  predicate Fails(a: Act) {
    a.Fail? || (a.Tell? && a.event.body.None?)
  }

  /** The acts a round gets to: up to the first that fails, and that one too. */
  function Reached(acts: seq<Act>): seq<Act> {
    if acts == [] then []
    else if Fails(acts[0]) then [acts[0]]
    else [acts[0]] + Reached(acts[1..])
  }

  lemma {:induction false} FailingStops(r: Round, calendar: string, acts: seq<Act>)
    requires r.failed
    ensures DoAll(r, calendar, acts) == r
  {
    if acts != [] {
      FailingStops(r, calendar, acts[..|acts| - 1]);
    }
  }

  lemma {:induction false} FailsIff(r: Round, calendar: string, acts: seq<Act>)
    requires !r.failed
    ensures DoAll(r, calendar, acts).failed <==> exists k :: 0 <= k < |acts| && Fails(acts[k])
  {
    if acts != [] {
      FailsIff(r, calendar, acts[..|acts| - 1]);
    }
  }

  lemma {:induction false} OnlyReachedCount(r: Round, calendar: string, acts: seq<Act>)
    requires !r.failed
    ensures DoAll(r, calendar, acts) == DoAll(r, calendar, Reached(acts))
    decreases |acts|
  {
    if acts != [] {
      var next := Do(r, calendar, acts[0]);
      assert acts == [acts[0]] + acts[1..];
      DoOne(r, calendar, acts[0]);
      DoBoth(r, calendar, [acts[0]], acts[1..]);
      if Fails(acts[0]) {
        FailingStops(next, calendar, acts[1..]);
      } else {
        OnlyReachedCount(next, calendar, acts[1..]);
        DoBoth(r, calendar, [acts[0]], Reached(acts[1..]));
      }
    }
  }

  // ---------- what a consistent round leaves, by id ----------

  ghost predicate Drops(acts: seq<Act>, id: string) {
    Drop(id) in acts
  }

  ghost predicate Tells(acts: seq<Act>, e: Event) {
    Tell(e) in acts
  }

  /** A round that says one thing of each id: none both dropped and told, none told
      under two names, and no new event told under the name of a known one that is
      told too. */
  ghost predicate Steady(t: Tables, calendar: string, acts: seq<Act>) {
    && (forall e :: Tells(acts, e) ==> !Drops(acts, e.id))
    && (forall e, f :: Tells(acts, e) && Tells(acts, f) && e.id == f.id ==> KeyOf(e) == KeyOf(f))
    && (forall e, f :: Tells(acts, e) && Tells(acts, f) && e.id !in t.byId && f.id in t.byId ==> NewHref(calendar, e) != t.byId[f.id])
  }

  function NewHref(calendar: string, e: Event): Href {
    Href(calendar, KeyOf(e))
  }

  /** An event the tables do not know, told under this href. */
  ghost predicate NewAt(t: Tables, calendar: string, acts: seq<Act>, h: Href) {
    exists e :: Tells(acts, e) && e.id !in t.byId && NewHref(calendar, e) == h
  }

  /** An href the tables have after the acts: a new one, or an old one not dropped. */
  ghost predicate KnownAfter(t: Tables, calendar: string, acts: seq<Act>, h: Href) {
    NewAt(t, calendar, acts, h) || (h in t.byHref && !Drops(acts, t.byHref[h]))
  }

  /** An href the acts name: a new one, or an old one whose id is dropped or told. */
  ghost predicate NamedIn(t: Tables, calendar: string, acts: seq<Act>, h: Href) {
    || NewAt(t, calendar, acts, h)
    || (h in t.byHref && (Drops(acts, t.byHref[h]) || exists e :: Tells(acts, e) && e.id == t.byHref[h]))
  }

  /** The tables in the middle of a consistent round. */
  ghost predicate Midway(t: Tables, calendar: string, acts: seq<Act>, now: Tables) {
    && (forall h :: h in now.byHref <==> KnownAfter(t, calendar, acts, h))
    && (forall id :: id in now.byId && id !in t.byId ==>
         exists e :: Tells(acts, e) && e.id == id && now.byId[id] == NewHref(calendar, e))
    && (forall id :: id in now.byId && id in t.byId ==> now.byId[id] == t.byId[id])
    && (forall id :: id in t.byId ==> (id in now.byId <==> !Drops(acts, id) && !NewAt(t, calendar, acts, t.byId[id])))
  }

  lemma {:induction false} OneMoreAct(t: Tables, calendar: string, acts: seq<Act>, a: Act)
    ensures forall e :: Tells(acts + [a], e) <==> Tells(acts, e) || a == Tell(e)
    ensures forall id :: Drops(acts + [a], id) <==> Drops(acts, id) || a == Drop(id)
    ensures forall h :: NewAt(t, calendar, acts + [a], h) <==>
              NewAt(t, calendar, acts, h) || (a.Tell? && a.event.id !in t.byId && NewHref(calendar, a.event) == h)
  {
    forall h: Href
      ensures NewAt(t, calendar, acts + [a], h) <==>
                NewAt(t, calendar, acts, h) || (a.Tell? && a.event.id !in t.byId && NewHref(calendar, a.event) == h)
    {
      if a.Tell? && a.event.id !in t.byId && NewHref(calendar, a.event) == h {
        assert Tells(acts + [a], a.event);
      }
      if e :| Tells(acts, e) && e.id !in t.byId && NewHref(calendar, e) == h {
        assert Tells(acts + [a], e);
      }
    }
  }

  lemma {:induction false} ToldIsKnown(t: Tables, calendar: string, acts: seq<Act>, now: Tables, e: Event)
    requires Midway(t, calendar, acts, now) && Steady(t, calendar, acts + [Tell(e)])
    ensures e.id in t.byId ==> e.id in now.byId
    ensures HrefOf(now, calendar, e) == if e.id in t.byId then t.byId[e.id] else NewHref(calendar, e)
  {
    var all := acts + [Tell(e)];
    OneMoreAct(t, calendar, acts, Tell(e));
    assert Tells(all, e);
    assert e.id in t.byId ==> !NewAt(t, calendar, acts, t.byId[e.id]);
    if e.id !in t.byId && e.id in now.byId {
      var f :| Tells(acts, f) && f.id == e.id && now.byId[e.id] == NewHref(calendar, f);
      assert Tells(all, f);
    }
  }

  lemma {:induction false} TellMidway(t: Tables, calendar: string, acts: seq<Act>, now: Tables, e: Event)
    requires Midway(t, calendar, acts, now) && Steady(t, calendar, acts + [Tell(e)])
    ensures Midway(t, calendar, acts + [Tell(e)], Learn(now, calendar, e))
  {
    ToldIsKnown(t, calendar, acts, now, e);
    if e.id in now.byId {
      KnownMidway(t, calendar, acts, now, e);
    } else {
      var after := Learn(now, calendar, e);
      LearnPuts(now, calendar, e);
      NewHrefs(t, calendar, acts, now, after, e);
      NewIds(t, calendar, acts, now, after, e);
      OldIds(t, calendar, acts, now, after, e);
    }
  }

  lemma {:induction false} KnownMidway(t: Tables, calendar: string, acts: seq<Act>, now: Tables, e: Event)
    requires Midway(t, calendar, acts, now) && Steady(t, calendar, acts + [Tell(e)]) && e.id in now.byId
    ensures Midway(t, calendar, acts + [Tell(e)], now)
  {
    OneMoreAct(t, calendar, acts, Tell(e));
    assert Tells(acts + [Tell(e)], e);
    if e.id !in t.byId {
      var f :| Tells(acts, f) && f.id == e.id && now.byId[e.id] == NewHref(calendar, f);
      assert Tells(acts + [Tell(e)], f);
      assert NewAt(t, calendar, acts, NewHref(calendar, e));
    }
    StillTold(t, calendar, acts, now, Tell(e));
  }

  /** One row more, in place of any other under its href. */
  ghost predicate Put(now: Tables, after: Tables, h: Href, id: string) {
    && (forall x :: x in after.byId <==> x == id || (x in now.byId && now.byId[x] != h))
    && (forall x :: x in after.byId ==> after.byId[x] == if x == id then h else now.byId[x])
    && (forall x :: x in after.byHref <==> x == h || x in now.byHref)
  }

  lemma {:induction false} LearnPuts(now: Tables, calendar: string, e: Event)
    requires e.id !in now.byId
    ensures Put(now, Learn(now, calendar, e), NewHref(calendar, e), e.id)
  {
  }

  lemma {:induction false} NewHrefs(t: Tables, calendar: string, acts: seq<Act>, now: Tables, after: Tables, e: Event)
    requires Midway(t, calendar, acts, now) && Put(now, after, NewHref(calendar, e), e.id) && e.id !in t.byId
    ensures forall h :: h in after.byHref <==> KnownAfter(t, calendar, acts + [Tell(e)], h)
  {
    OneMoreAct(t, calendar, acts, Tell(e));
  }

  lemma {:induction false} NewIds(t: Tables, calendar: string, acts: seq<Act>, now: Tables, after: Tables, e: Event)
    requires Midway(t, calendar, acts, now) && Put(now, after, NewHref(calendar, e), e.id) && e.id !in t.byId
    ensures forall id :: id in after.byId && id !in t.byId ==>
              exists f :: Tells(acts + [Tell(e)], f) && f.id == id && after.byId[id] == NewHref(calendar, f)
  {
    StillTold(t, calendar, acts, now, Tell(e));
    assert Tells(acts + [Tell(e)], e);
  }

  lemma {:induction false} OldIds(t: Tables, calendar: string, acts: seq<Act>, now: Tables, after: Tables, e: Event)
    requires Midway(t, calendar, acts, now) && Put(now, after, NewHref(calendar, e), e.id) && e.id !in t.byId
    ensures forall id :: id in after.byId && id in t.byId ==> after.byId[id] == t.byId[id]
    ensures forall id :: id in t.byId ==>
              (id in after.byId <==> !Drops(acts + [Tell(e)], id) && !NewAt(t, calendar, acts + [Tell(e)], t.byId[id]))
  {
    OneMoreAct(t, calendar, acts, Tell(e));
  }

  lemma {:induction false} StillTold(t: Tables, calendar: string, acts: seq<Act>, now: Tables, a: Act)
    requires Midway(t, calendar, acts, now)
    ensures forall id :: id in now.byId && id !in t.byId ==>
              exists e :: Tells(acts + [a], e) && e.id == id && now.byId[id] == NewHref(calendar, e)
  {
    OneMoreAct(t, calendar, acts, a);
    forall id | id in now.byId && id !in t.byId
      ensures exists e :: Tells(acts + [a], e) && e.id == id && now.byId[id] == NewHref(calendar, e)
    {
      var e :| Tells(acts, e) && e.id == id && now.byId[id] == NewHref(calendar, e);
      assert Tells(acts + [a], e);
    }
  }

  lemma {:induction false} DropTakes(now: Tables, id: string)
    ensures var after := DropObject(now, id);
            && (forall x :: x in after.byId <==> x != id && x in now.byId)
            && (forall x :: x in after.byId ==> after.byId[x] == now.byId[x])
            && (forall h :: h in after.byHref <==> h in now.byHref && now.byHref[h] != id)
            && (forall h :: h in after.byHref ==> after.byHref[h] == now.byHref[h])
  {
  }

  lemma {:induction false} DroppedWasOld(t: Tables, calendar: string, acts: seq<Act>, now: Tables, id: string)
    requires Midway(t, calendar, acts, now) && Steady(t, calendar, acts + [Drop(id)])
    ensures id in now.byId ==> id in t.byId && now.byId[id] == t.byId[id] && !NewAt(t, calendar, acts, t.byId[id])
  {
    OneMoreAct(t, calendar, acts, Drop(id));
    assert Drops(acts + [Drop(id)], id);
  }

  lemma {:induction false} DropMidway(t: Tables, calendar: string, acts: seq<Act>, now: Tables, id: string)
    requires Midway(t, calendar, acts, now) && Steady(t, calendar, acts + [Drop(id)])
    ensures Midway(t, calendar, acts + [Drop(id)], DropObject(now, id))
  {
    var after := DropObject(now, id);
    DropTakes(now, id);
    DroppedWasOld(t, calendar, acts, now, id);
    StillTold(t, calendar, acts, now, Drop(id));
    DroppedHrefs(t, calendar, acts, now, after, id);
    OneMoreAct(t, calendar, acts, Drop(id));
  }

  lemma {:induction false} DroppedHrefs(t: Tables, calendar: string, acts: seq<Act>, now: Tables, after: Tables, id: string)
    requires Midway(t, calendar, acts, now)
    requires id in now.byId ==> id in t.byId && now.byId[id] == t.byId[id] && !NewAt(t, calendar, acts, t.byId[id])
    requires forall h :: h in after.byHref <==> h in now.byHref && now.byHref[h] != id
    ensures forall h :: h in after.byHref <==> KnownAfter(t, calendar, acts + [Drop(id)], h)
  {
    OneMoreAct(t, calendar, acts, Drop(id));
    forall h ensures h in after.byHref <==> KnownAfter(t, calendar, acts + [Drop(id)], h) {
      if h in now.byHref && now.byHref[h] == id {
        assert now.byId[id] == h;
      }
    }
  }

  lemma {:induction false} FewerActsAreSteady(t: Tables, calendar: string, acts: seq<Act>, a: Act)
    requires Steady(t, calendar, acts + [a])
    ensures Steady(t, calendar, acts)
  {
    OneMoreAct(t, calendar, acts, a);
  }

  /** None fails but perhaps the last. */
  ghost predicate Stopping(acts: seq<Act>) {
    forall k :: 0 <= k < |acts| - 1 ==> !Fails(acts[k])
  }

  lemma {:induction false} ReachedStops(t: Tables, calendar: string, acts: seq<Act>)
    ensures Stopping(Reached(acts)) && Reached(acts) <= acts
    decreases |acts|
  {
    if acts != [] && !Fails(acts[0]) {
      ReachedStops(t, calendar, acts[1..]);
      assert acts == [acts[0]] + acts[1..];
    }
  }

  /** The tables after a consistent round, one that fails too: every href new or old
      is there exactly if it was told or was known and has not been dropped. */
  lemma {:induction false} TablesAfter(t: Tables, calendar: string, acts: seq<Act>)
    requires Steady(t, calendar, acts) && Stopping(acts)
    ensures Midway(t, calendar, acts, DoAll(Begin(t), calendar, acts).tables)
  {
    if acts != [] {
      var n := |acts| - 1;
      var before, a := DoAll(Begin(t), calendar, acts[..n]), acts[n];
      assert acts == acts[..n] + [a];
      FewerActsAreSteady(t, calendar, acts[..n], a);
      TablesAfter(t, calendar, acts[..n]);
      FailsIff(Begin(t), calendar, acts[..n]);
      OneMoreMidway(t, calendar, acts[..n], before, a);
    }
  }

  lemma {:induction false} OneMoreMidway(t: Tables, calendar: string, acts: seq<Act>, before: Round, a: Act)
    requires !before.failed && Midway(t, calendar, acts, before.tables) && Steady(t, calendar, acts + [a])
    ensures Midway(t, calendar, acts + [a], Do(before, calendar, a).tables)
  {
    match a
    case Drop(id) => DropMidway(t, calendar, acts, before.tables, id);
    case Tell(e) => TellMidway(t, calendar, acts, before.tables, e);
    case Fail =>
      OneMoreAct(t, calendar, acts, a);
      StillTold(t, calendar, acts, before.tables, a);
  }

  lemma {:induction false} OneMoreNamed(t: Tables, calendar: string, acts: seq<Act>, a: Act, h: Href)
    ensures NamedIn(t, calendar, acts + [a], h) <==>
              || NamedIn(t, calendar, acts, h)
              || (a.Drop? && a.id in t.byId && t.byId[a.id] == h)
              || (a.Tell? && h == if a.event.id in t.byId then t.byId[a.event.id] else NewHref(calendar, a.event))
  {
    OneMoreAct(t, calendar, acts, a);
    if h in t.byHref {
      if e :| Tells(acts, e) && e.id == t.byHref[h] {
        assert Tells(acts + [a], e);
      }
      if a.Tell? && a.event.id == t.byHref[h] {
        assert Tells(acts + [a], a.event);
      }
    }
  }

  lemma {:induction false} DoLogs(r: Round, calendar: string, a: Act, h: Href)
    requires !r.failed && !Fails(a)
    ensures h in Latest(Do(r, calendar, a).log) <==>
              || h in Latest(r.log)
              || (a.Drop? && a.id in r.tables.byId && r.tables.byId[a.id] == h)
              || (a.Tell? && HrefOf(r.tables, calendar, a.event) == h)
  {
  }

  lemma {:induction false} NamesOneMore(t: Tables, calendar: string, acts: seq<Act>, r: Round, a: Act, h: Href)
    requires !r.failed && !Fails(a) && Midway(t, calendar, acts, r.tables) && Steady(t, calendar, acts + [a])
    requires h in Latest(r.log) <==> NamedIn(t, calendar, acts, h)
    ensures h in Latest(Do(r, calendar, a).log) <==> NamedIn(t, calendar, acts + [a], h)
  {
    OneMoreNamed(t, calendar, acts, a, h);
    DoLogs(r, calendar, a, h);
    if a.Drop? {
      DroppedWasOld(t, calendar, acts, r.tables, a.id);
      assert a.id in t.byId && a.id !in r.tables.byId ==> Drops(acts, a.id) || NewAt(t, calendar, acts, t.byId[a.id]);
    } else {
      ToldIsKnown(t, calendar, acts, r.tables, a.event);
    }
  }

  /** The hrefs a consistent round that does not fail hands over are those its acts
      name. */
  lemma {:induction false} NamesIff(t: Tables, calendar: string, acts: seq<Act>, h: Href)
    requires Steady(t, calendar, acts) && forall k :: 0 <= k < |acts| ==> !Fails(acts[k])
    ensures h in Latest(DoAll(Begin(t), calendar, acts).log) <==> NamedIn(t, calendar, acts, h)
  {
    if acts != [] {
      var n := |acts| - 1;
      assert acts == acts[..n] + [acts[n]];
      FewerActsAreSteady(t, calendar, acts[..n], acts[n]);
      NamesIff(t, calendar, acts[..n], h);
      TablesAfter(t, calendar, acts[..n]);
      FailsIff(Begin(t), calendar, acts[..n]);
      NamesOneMore(t, calendar, acts[..n], DoAll(Begin(t), calendar, acts[..n]), acts[n], h);
    }
  }
}
