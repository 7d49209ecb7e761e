/** The calendar half of the DAV driver as it runs: a delta folded, item by item,
    into one change per href while the tables are updated underneath it. */
module CalendarSync {
  import opened Basics
  import opened CalendarTables

  /** The changes gathered so far: the last one per href, and the hrefs in the
      order they were first named. */
  class Gathered {
    var byHref: map<Href, Change>
    var order: seq<Href>

    ghost predicate Holds(log: seq<Change>)
      reads this
    {
      byHref == Latest(log) && order == Hrefs(log)
    }

    constructor ()
      ensures Holds([])
    {
      byHref, order := map[], [];
    }

    method Add(ch: Change, ghost log: seq<Change>)
      requires Holds(log)
      modifies this
      ensures Holds(log + [ch])
    {
      assert (log + [ch])[..|log|] == log;
      if ch.href !in byHref {
        order := order + [ch.href];
      }
      byHref := byHref[ch.href := ch];
    }

    method Items(ghost log: seq<Change>) returns (items: seq<Change>)
      requires Holds(log)
      ensures items == Emitted(log)
    {
      HrefsAreThoseNamed(log);
      items := [];
      for i := 0 to |order|
        invariant items == Emitted(log)[..i]
      {
        items := items + [byHref[order[i]]];
      }
    }
  }

  class Driver {
    var tables: Tables

    constructor ()
      ensures tables == Tables(map[], map[], map[])
    {
      tables := Tables(map[], map[], map[]);
    }

    method EventHref(calendar: string, e: Event) returns (h: Href)
      modifies this
      ensures h == HrefOf(old(tables), calendar, e)
      ensures tables == Learn(old(tables), calendar, e)
    {
      if e.id in tables.byId {
        return tables.byId[e.id];
      }
      h := Href(calendar, KeyOf(e));
      tables := PutObject(tables, h, e.id);
    }

    /** An event written out, or None when it cannot be. */
    method SingleChange(calendar: string, e: Event) returns (ch: Option<Change>)
      modifies this
      ensures tables == Learn(old(tables), calendar, e)
      ensures ch == Written(HrefOf(old(tables), calendar, e), e)
    {
      var h := EventHref(calendar, e);
      if e.body.None? {
        return None;
      }
      return Some(Put(h, e.etag, e.body.value));
    }

    /** One item of the delta; false is an error. */
    method Item(calendar: string, it: Item, reply: Reply, got: Gathered, dirty: set<string>, ghost r: Round)
      returns (ok: bool, marked: set<string>)
      requires r.tables == tables && r.dirty == dirty && !r.failed && got.Holds(r.log)
      modifies this, got
      ensures var after := TakeItem(r, calendar, it, reply);
              after.tables == tables && ok == !after.failed &&
              (ok ==> after.dirty == marked && got.Holds(after.log))
    {
      marked := dirty;
      match it
      case Removed(id) =>
        if id in tables.byId {
          got.Add(Deleted(tables.byId[id]), r.log);
          tables := DropObject(tables, id);
        } else if id in tables.masters {
          marked := marked + {tables.masters[id]};
        }
        return true, marked;
      case Master(id) =>
        return true, marked + {id};
      case Occurrence(id, master) =>
        tables := tables.(masters := tables.masters[id := master]);
        return true, marked + {master};
      case Single(event, described) =>
        var e := event;
        if !described {
          match reply {
            case Gone => return true, marked;
            case Refused => return false, marked;
            case Found(full) => e := full.(id := event.id);
          }
        }
        var ch := SingleChange(calendar, e);
        if ch.None? {
          return false, marked;
        }
        got.Add(ch.value, r.log);
        return true, marked;
    }

    /** One series read again; None is an error. */
    method Series(calendar: string, master: string, reply: Reply, got: Gathered, ghost r: Round) returns (ok: bool)
      requires r.tables == tables && !r.failed && got.Holds(r.log)
      modifies this, got
      ensures var after := TakeMaster(r, calendar, master, reply);
              after.tables == tables && ok == !after.failed && (ok ==> got.Holds(after.log))
    {
      match reply
      case Gone =>
        if master in tables.byId {
          got.Add(Deleted(tables.byId[master]), r.log);
          tables := DropObject(tables, master);
        }
        return true;
      case Refused =>
        return false;
      case Found(e) =>
        var ch := SingleChange(calendar, e.(id := master));
        if ch.None? {
          return false;
        }
        got.Add(ch.value, r.log);
        return true;
    }

    /** A round. The series that need reading are taken in whatever order they
        come out of the set; masters records it. */
    method SyncCalendar(calendar: string, items: seq<Item>, replies: seq<Reply>, ask: string -> Reply)
      returns (out: Option<seq<Change>>, ghost masters: seq<string>)
      requires |items| == |replies|
      modifies this
      ensures var r := Rounded(old(tables), calendar, items, replies, masters, ask);
              tables == r.tables && out == if r.failed then None else Some(Emitted(r.log))
      ensures out.Some? ==>
                Lists(masters, TakeItems(Begin(old(tables)), calendar, items, replies).dirty)
    {
      masters := [];
      var got := new Gathered();
      var dirty: set<string> := {};
      ghost var r := Begin(tables);
      for i := 0 to |items|
        invariant fresh(got) && got.Holds(r.log)
        invariant r == TakeItems(Begin(old(tables)), calendar, items[..i], replies[..i])
        invariant !r.failed && r.tables == tables && r.dirty == dirty
      {
        ItemsTaken(Begin(old(tables)), calendar, items, replies, i);
        var ok, marked := Item(calendar, items[i], replies[i], got, dirty, r);
        r := TakeItem(r, calendar, items[i], replies[i]);
        if !ok {
          FailureStopsItems(Begin(old(tables)), calendar, items, replies, i + 1);
          return None, masters;
        }
        dirty := marked;
      }
      assert items[..|items|] == items && replies[..|items|] == replies;
      ghost var listed := r;
      var left := dirty;
      while left != {}
        invariant fresh(got) && got.Holds(r.log)
        invariant r == TakeMasters(listed, calendar, masters, ask)
        invariant !r.failed && r.tables == tables
        invariant left <= dirty && Lists(masters, dirty - left)
        decreases left
      {
        var master :| master in left;
        var ok := Series(calendar, master, ask(master), got, r);
        r := TakeMaster(r, calendar, master, ask(master));
        assert (masters + [master])[..|masters|] == masters;
        ListOneMore(masters, dirty - left, master);
        masters := masters + [master];
        if !ok {
          return None, masters;
        }
        assert dirty - (left - {master}) == dirty - left + {master};
        left := left - {master};
      }
      var found := got.Items(r.log);
      out := Some(found);
      assert dirty - left == dirty;
    }
  }
}
