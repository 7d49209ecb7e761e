/** What a round puts in the mirror: under every href the last telling of the event
    that has it, its change key beside its text, and nothing new anywhere else. */
module CalendarContents {
  import opened Basics
  import opened CalendarTables
  import opened CalendarActs
  import opened CalendarMirror

  // ---------- what a delta comes to ----------

  /** An item of the delta, or a series read again, makes this act. */
  ghost predicate Makes(e: Sync, a: Act) {
    (exists i :: 0 <= i < |e.items| && ItemMakes(e.items[i], e.replies[i], a)) ||
    (exists i :: 0 <= i < |e.masters| && MasterMakes(e.masters[i], e.ask(e.masters[i]), a))
  }

  /** An id reported removed is dropped; an event described is told; one only named
      is told as the server describes it when asked, under the id it was named by. */
  predicate ItemMakes(it: Item, reply: Reply, a: Act) {
    match it
    case Removed(id) => a == Drop(id)
    case Single(event, true) => a == Tell(event)
    case Single(event, false) => ReadMakes(event.id, reply, a)
    case _ => false
  }

  /** A series the server no longer has is dropped. */
  predicate MasterMakes(master: string, reply: Reply, a: Act) {
    ReadMakes(master, reply, a) || (reply.Gone? && a == Drop(master))
  }

  predicate ReadMakes(id: string, reply: Reply, a: Act) {
    match reply
    case Gone => false
    case Refused => a == Fail
    case Found(f) => a == Tell(Event(id, f.iCalUid, f.hash, f.etag, f.body))
  }

  lemma {:induction false} ItemActsAre(items: seq<Item>, replies: seq<Reply>, a: Act)
    requires |items| == |replies|
    ensures a in ItemActs(items, replies) <==> exists i :: 0 <= i < |items| && ItemMakes(items[i], replies[i], a)
  {
    if items != [] {
      var n := |items| - 1;
      ItemActsAre(items[..n], replies[..n], a);
      assert a in ItemAct(items[n], replies[n]) <==> ItemMakes(items[n], replies[n], a);
    }
  }

  lemma {:induction false} MasterActsAre(masters: seq<string>, ask: string -> Reply, a: Act)
    ensures a in MasterActs(masters, ask) <==> exists i :: 0 <= i < |masters| && MasterMakes(masters[i], ask(masters[i]), a)
  {
    if masters != [] {
      var n := |masters| - 1;
      MasterActsAre(masters[..n], ask, a);
      assert a in ReplyAct(masters[n], ask(masters[n]), [Drop(masters[n])]) <==> MasterMakes(masters[n], ask(masters[n]), a);
    }
  }

  lemma {:induction false} RoundMakesWhatItSays(e: Sync, a: Act)
    ensures a in ActsOf(e) <==> Makes(e, a)
  {
    ItemActsAre(e.items, e.replies, a);
    MasterActsAre(e.masters, e.ask, a);
  }

  // ---------- the last telling of an event ----------

  /** Act k tells the event, and none after it tells that id again. */
  ghost predicate LastTelling(acts: seq<Act>, k: nat, event: Event) {
    k < |acts| && acts[k] == Tell(event) && forall j :: k < j < |acts| ==> !TellsOf(acts[j], event.id)
  }

  predicate TellsOf(a: Act, id: string) {
    a.Tell? && a.event.id == id
  }

  ghost predicate Untold(acts: seq<Act>, id: string) {
    forall k :: 0 <= k < |acts| ==> !TellsOf(acts[k], id)
  }

  function Carrying(h: Href, event: Event): Change
    requires event.body.Some?
  {
    Put(h, event.etag, event.body.value)
  }

  /** Every id the tables know has its href from before and no change gathered for
      it, or the change gathered for its href is what was last told of it. */
  ghost predicate Carries(t: Tables, r: Round, acts: seq<Act>) {
    && (forall id :: id in r.tables.byId && Untold(acts, id) ==>
          id in t.byId && t.byId[id] == r.tables.byId[id] && r.tables.byId[id] !in Latest(r.log))
    && (forall id, k: nat, event :: id in r.tables.byId && LastTelling(acts, k, event) && event.id == id && event.body.Some? ==>
          r.tables.byId[id] in Latest(r.log) && Latest(r.log)[r.tables.byId[id]] == Carrying(r.tables.byId[id], event))
  }

  lemma {:induction false} LastOfMore(acts: seq<Act>, a: Act, k: nat, event: Event)
    ensures LastTelling(acts + [a], k, event) <==>
              if k == |acts| then a == Tell(event) else LastTelling(acts, k, event) && !TellsOf(a, event.id)
    ensures forall id :: Untold(acts + [a], id) <==> Untold(acts, id) && !TellsOf(a, id)
  {
    forall id ensures Untold(acts + [a], id) <==> Untold(acts, id) && !TellsOf(a, id) {
      if Untold(acts + [a], id) {
        assert forall j :: 0 <= j < |acts| ==> (acts + [a])[j] == acts[j];
        assert (acts + [a])[|acts|] == a;
      }
    }
    if k < |acts| && LastTelling(acts + [a], k, event) {
      assert (acts + [a])[|acts|] == a;
      assert forall j :: k <= j < |acts| ==> (acts + [a])[j] == acts[j];
    }
  }

  /** Who is known after one act, and where. */
  lemma {:induction false} KnownAfterAct(r: Round, calendar: string, a: Act, id: string)
    requires !Fails(a) && id in Do(r, calendar, a).tables.byId && !TellsOf(a, id)
    ensures id in r.tables.byId && Do(r, calendar, a).tables.byId[id] == r.tables.byId[id]
    ensures var h := r.tables.byId[id]; var after := Latest(Do(r, calendar, a).log);
            (h in after <==> h in Latest(r.log)) && (h in after ==> after[h] == Latest(r.log)[h])
  {
    var h := r.tables.byId[id];
    if a.Drop? && a.id in r.tables.byId {
      LogMore(r.log, Deleted(r.tables.byId[a.id]));
    } else if a.Tell? {
      LogMore(r.log, Carrying(HrefOf(r.tables, calendar, a.event), a.event));
      assert HrefOf(r.tables, calendar, a.event) != h;
    }
  }

  lemma {:induction false} LogMore(log: seq<Change>, ch: Change)
    ensures Latest(log + [ch]) == Latest(log)[ch.href := ch]
  {
    assert (log + [ch])[..|log|] == log;
  }

  lemma {:induction false} ToldAfterAct(r: Round, calendar: string, event: Event)
    requires event.body.Some?
    ensures var x := Do(r, calendar, Tell(event));
            && event.id in x.tables.byId && x.tables.byId[event.id] in Latest(x.log)
            && Latest(x.log)[x.tables.byId[event.id]] == Carrying(x.tables.byId[event.id], event)
  {
    LogMore(r.log, Carrying(HrefOf(r.tables, calendar, event), event));
  }

  lemma {:induction false} ActCarries(t: Tables, r: Round, calendar: string, acts: seq<Act>, a: Act)
    requires Carries(t, r, acts) && !Fails(a)
    ensures Carries(t, Do(r, calendar, a), acts + [a])
  {
    var x := Do(r, calendar, a);
    if a.Tell? {
      ToldAfterAct(r, calendar, a.event);
    }
    forall id | id in x.tables.byId && Untold(acts + [a], id)
      ensures id in t.byId && t.byId[id] == x.tables.byId[id] && x.tables.byId[id] !in Latest(x.log)
    {
      LastOfMore(acts, a, 0, Event(id, "", "", "", None));
      KnownAfterAct(r, calendar, a, id);
    }
    forall id, k: nat, event | id in x.tables.byId && LastTelling(acts + [a], k, event) && event.id == id && event.body.Some?
      ensures x.tables.byId[id] in Latest(x.log) && Latest(x.log)[x.tables.byId[id]] == Carrying(x.tables.byId[id], event)
    {
      LastOfMore(acts, a, k, event);
      if k < |acts| {
        KnownAfterAct(r, calendar, a, id);
      }
    }
  }

  lemma {:induction false} ActsCarry(t: Tables, calendar: string, acts: seq<Act>)
    requires forall k :: 0 <= k < |acts| ==> !Fails(acts[k])
    ensures Carries(t, DoAll(Begin(t), calendar, acts), acts)
  {
    if acts != [] {
      var n := |acts| - 1;
      ActsCarry(t, calendar, acts[..n]);
      FailsIff(Begin(t), calendar, acts[..n]);
      ActCarries(t, DoAll(Begin(t), calendar, acts[..n]), calendar, acts[..n], acts[n]);
      assert acts == acts[..n] + [acts[n]];
    }
  }

  // ---------- the mirror ----------

  function After(m: Mirror, t: Tables, e: Sync): Mirror {
    ApplyAll(m, e.calendar, Emitted(Outcome(t, e).log))
  }

  lemma {:induction false} RoundCarries(m: Mirror, t: Tables, e: Sync, row: Row)
    requires Succeeds(e)
    ensures Carries(t, Outcome(t, e), ActsOf(e))
    ensures RowFollows(m, After(m, t, e), row, e.calendar, Latest(Outcome(t, e).log))
  {
    OutcomeIs(t, e);
    ActsCarry(t, e.calendar, ActsOf(e));
    OneChangePerHrefIsEnough(m, e.calendar, Outcome(t, e).log);
    LogFollows(m, e.calendar, Outcome(t, e).log, row);
  }

  /** After a round that returns no error the mirror's row of every event told that
      still has an href is what was last told of it: its change key and its text. */
  lemma {:induction false} MirrorHoldsTheLastTelling(m: Mirror, t: Tables, e: Sync, k: nat, event: Event)
    requires Succeeds(e) && LastTelling(ActsOf(e), k, event) && event.id in Outcome(t, e).tables.byId
    ensures var row := Row(e.calendar, Outcome(t, e).tables.byId[event.id]);
            event.body.Some? && row in After(m, t, e) && After(m, t, e)[row] == Object(event.etag, event.body.value)
  {
    assert !Fails(ActsOf(e)[k]);
    RoundCarries(m, t, e, Row(e.calendar, Outcome(t, e).tables.byId[event.id]));
  }

  /** Another calendar's rows, and those of events not told, are as they were; and a
      row whose href the tables have lost is gone. */
  lemma {:induction false} OtherRowsAreAsTheyWere(m: Mirror, t: Tables, e: Sync, row: Row)
    requires Succeeds(e)
    requires var now := Outcome(t, e).tables.byHref;
             row.calendar != e.calendar || (row.href in now && Untold(ActsOf(e), now[row.href]))
    ensures (row in After(m, t, e) <==> row in m) && (row in m ==> After(m, t, e)[row] == m[row])
  {
    RoundCarries(m, t, e, row);
  }

  lemma {:induction false} LostRowsAreGone(m: Mirror, t: Tables, e: Sync, h: Href)
    requires Succeeds(e) && h in t.byHref && h !in Outcome(t, e).tables.byHref
    ensures Row(e.calendar, h) !in After(m, t, e)
  {
    RoundAccounts(t, e);
    RoundCarries(m, t, e, Row(e.calendar, h));
  }

  // ---------- by name ----------

  /** What an event new to the tables is filed under: its iCalUId, unless it has none
      or one with a character a path cannot hold, and then the hash of its id. */
  function NameOf(event: Event): string {
    if event.iCalUid == "" || '/' in event.iCalUid || '?' in event.iCalUid || '#' in event.iCalUid ||
       '%' in event.iCalUid || ' ' in event.iCalUid
    then event.hash else event.iCalUid
  }

  lemma {:induction false} NameIsItsKey(event: Event)
    ensures NameOf(event) == KeyOf(event)
  {
    if Awkward(event.iCalUid) {
      var i :| 0 <= i < |event.iCalUid| && event.iCalUid[i] in {'/', '?', '#', '%', ' '};
      assert event.iCalUid[i] in event.iCalUid;
    }
  }

  /** Where an event told is found after the round: the href it had, or one of its
      own name. */
  function FiledAt(t: Tables, calendar: string, event: Event): Href {
    if event.id in t.byId then t.byId[event.id] else Href(calendar, NameOf(event))
  }

  /** No other new event is told under the name. */
  ghost predicate OnlyOfItsName(t: Tables, acts: seq<Act>, event: Event) {
    forall f :: Tells(acts, f) && f.id !in t.byId && f.id != event.id ==> NameOf(f) != NameOf(event)
  }

  lemma {:induction false} ToldIsFiled(t: Tables, calendar: string, acts: seq<Act>, now: Tables, event: Event)
    requires Midway(t, calendar, acts, now) && Steady(t, calendar, acts) && Tells(acts, event) && OnlyOfItsName(t, acts, event)
    ensures event.id in now.byId && now.byId[event.id] == FiledAt(t, calendar, event)
  {
    var h := NewHref(calendar, event);
    NameIsItsKey(event);
    if event.id in t.byId {
      assert !NewAt(t, calendar, acts, t.byId[event.id]);
    } else {
      assert NewAt(t, calendar, acts, h);
      assert KnownAfter(t, calendar, acts, h);
      var id := now.byHref[h];
      if id != event.id && id !in t.byId {
        var f :| Tells(acts, f) && f.id == id && now.byId[id] == NewHref(calendar, f);
        NameIsItsKey(f);
      }
    }
  }

  /** After a round that says one thing of each id and returns no error, every event
      it tells, alone of its name, is in the mirror under its old href or its own
      name, with the change key and the text it was told with. Two told under
      different names are two objects. */
  lemma {:induction false} EveryEventToldIsThere(m: Mirror, t: Tables, e: Sync, k: nat, event: Event)
    requires Succeeds(e) && Steady(t, e.calendar, ActsOf(e))
    requires LastTelling(ActsOf(e), k, event) && OnlyOfItsName(t, ActsOf(e), event)
    ensures var row := Row(e.calendar, FiledAt(t, e.calendar, event));
            event.body.Some? && row in After(m, t, e) && After(m, t, e)[row] == Object(event.etag, event.body.value)
  {
    OutcomeIs(t, e);
    TablesAfter(t, e.calendar, ActsOf(e));
    assert Tells(ActsOf(e), event);
    ToldIsFiled(t, e.calendar, ActsOf(e), Outcome(t, e).tables, event);
    MirrorHoldsTheLastTelling(m, t, e, k, event);
  }
}
