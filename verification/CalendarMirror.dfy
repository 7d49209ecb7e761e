/** What a round of a calendar leaves in the mirror, against what it leaves in
    the store's tables. The mirror keeps objects by calendar and href; the tables
    are shared by all calendars. */
module CalendarMirror {
  import opened Basics
  import opened CalendarTables
  import opened CalendarActs

  datatype Row = Row(calendar: string, href: Href)
  datatype Object = Object(etag: string, data: string)
  type Mirror = map<Row, Object>

  /** One change written to the mirror, by the reconciler's transaction. */
  function Apply(m: Mirror, calendar: string, ch: Change): Mirror {
    match ch
    case Put(h, etag, data) => m[Row(calendar, h) := Object(etag, data)]
    case Deleted(h) => m - {Row(calendar, h)}
  }

  function ApplyAll(m: Mirror, calendar: string, changes: seq<Change>): Mirror {
    if changes == [] then m
    else Apply(ApplyAll(m, calendar, changes[..|changes| - 1]), calendar, changes[|changes| - 1])
  }

  function Clear(m: Mirror, calendar: string): Mirror {
    map row | row in m && row.calendar != calendar :: m[row]
  }

  // ---------- gathering one change per href loses nothing ----------

  /** A row after the changes: what the last change of its href made of it. */
  ghost predicate RowFollows(m: Mirror, after: Mirror, row: Row, calendar: string, last: map<Href, Change>) {
    if row.calendar != calendar || row.href !in last then
      (row in after <==> row in m) && (row in m ==> after[row] == m[row])
    else
      match last[row.href]
      case Put(_, etag, data) => row in after && after[row] == Object(etag, data)
      case Deleted(_) => row !in after
  }

  lemma {:induction false} LogFollows(m: Mirror, calendar: string, log: seq<Change>, row: Row)
    ensures RowFollows(m, ApplyAll(m, calendar, log), row, calendar, Latest(log))
  {
    if log != [] {
      LogFollows(m, calendar, log[..|log| - 1], row);
    }
  }

  lemma {:induction false} ApplyFollows(m: Mirror, calendar: string, ch: Change, row: Row)
    ensures RowFollows(m, Apply(m, calendar, ch), row, calendar, map[ch.href := ch])
  {
  }

  lemma {:induction false} EmittedStep(m: Mirror, calendar: string, log: seq<Change>, n: nat)
    requires n < |Hrefs(log)|
    ensures Hrefs(log)[n] in Latest(log) && Latest(log)[Hrefs(log)[n]].href == Hrefs(log)[n]
    ensures ApplyAll(m, calendar, Emitted(log)[..n + 1])
         == Apply(ApplyAll(m, calendar, Emitted(log)[..n]), calendar, Latest(log)[Hrefs(log)[n]])
  {
    HrefsAreThoseNamed(log);
    assert Emitted(log)[..n + 1][..n] == Emitted(log)[..n];
  }

  lemma {:induction false} EmittedLeaves(m: Mirror, calendar: string, log: seq<Change>, n: nat, row: Row)
    requires n <= |Hrefs(log)| && forall k :: 0 <= k < n ==> Hrefs(log)[k] != row.href
    ensures RowFollows(m, ApplyAll(m, calendar, Emitted(log)[..n]), row, calendar, map[])
  {
    if n > 0 {
      EmittedLeaves(m, calendar, log, n - 1, row);
      EmittedStep(m, calendar, log, n - 1);
      ApplyFollows(ApplyAll(m, calendar, Emitted(log)[..n - 1]), calendar, Latest(log)[Hrefs(log)[n - 1]], row);
    }
  }

  lemma {:induction false} EmittedFollows(m: Mirror, calendar: string, log: seq<Change>, n: nat, k: nat, row: Row)
    requires k < n <= |Hrefs(log)| && Hrefs(log)[k] == row.href
    ensures RowFollows(m, ApplyAll(m, calendar, Emitted(log)[..n]), row, calendar, Latest(log))
  {
    EmittedStep(m, calendar, log, n - 1);
    ApplyFollows(ApplyAll(m, calendar, Emitted(log)[..n - 1]), calendar, Latest(log)[Hrefs(log)[n - 1]], row);
    if k < n - 1 {
      EachHrefOnce(log, k, n - 1);
      EmittedFollows(m, calendar, log, n - 1, k, row);
    } else {
      forall i | 0 <= i < k ensures Hrefs(log)[i] != row.href {
        EachHrefOnce(log, i, k);
      }
      EmittedLeaves(m, calendar, log, k, row);
    }
  }

  /** Handing over the last change of every href does to the mirror exactly what
      making every change in the order it was found would have done. */
  lemma {:induction false} OneChangePerHrefIsEnough(m: Mirror, calendar: string, log: seq<Change>)
    ensures ApplyAll(m, calendar, Emitted(log)) == ApplyAll(m, calendar, log)
  {
    var one, all := ApplyAll(m, calendar, Emitted(log)), ApplyAll(m, calendar, log);
    forall row: Row ensures (row in one <==> row in all) && (row in one ==> one[row] == all[row]) {
      LogFollows(m, calendar, log, row);
      HrefsAreThoseNamed(log);
      assert Emitted(log)[..|Hrefs(log)|] == Emitted(log);
      if row.href in Hrefs(log) {
        var k :| 0 <= k < |Hrefs(log)| && Hrefs(log)[k] == row.href;
        EmittedFollows(m, calendar, log, |Hrefs(log)|, k, row);
      } else {
        EmittedLeaves(m, calendar, log, |Hrefs(log)|, row);
      }
    }
  }

  // ---------- the tables and the changes agree ----------

  /** Every href is in the tables as the last change said, or as it was before;
      and another calendar's href is only ever named because it was known. */
  ghost predicate Accounts(t: Tables, r: Round, calendar: string) {
    var last := Latest(r.log);
    && (forall h :: h in r.tables.byHref <==> if h in last then last[h].Put? else h in t.byHref)
    && (forall h :: h in last && h.calendar != calendar ==> h in t.byHref)
  }

  lemma {:induction false} ActAccounts(t: Tables, r: Round, calendar: string, a: Act)
    requires Accounts(t, r, calendar) && !Fails(a)
    ensures Accounts(t, Do(r, calendar, a), calendar)
  {
  }

  lemma {:induction false} ActsAccount(t: Tables, calendar: string, acts: seq<Act>)
    requires forall k :: 0 <= k < |acts| ==> !Fails(acts[k])
    ensures Accounts(t, DoAll(Begin(t), calendar, acts), calendar)
  {
    if acts != [] {
      var n := |acts| - 1;
      ActsAccount(t, calendar, acts[..n]);
      ActAccounts(t, DoAll(Begin(t), calendar, acts[..n]), calendar, acts[n]);
    }
  }

  /** What one round is given: the delta, what the server answers when it is asked
      about an event, and the order the series are read in. */
  datatype AnySync = Sync(calendar: string, full: bool, items: seq<Item>, replies: seq<Reply>,
                          masters: seq<string>, ask: string -> Reply)
  type Sync = e: AnySync | |e.items| == |e.replies| witness Sync("", false, [], [], [], id => Gone)

  function Outcome(t: Tables, e: Sync): Round {
    Rounded(t, e.calendar, e.items, e.replies, e.masters, e.ask)
  }

  function ActsOf(e: Sync): seq<Act> {
    Acts(e.items, e.replies, e.masters, e.ask)
  }

  /** No read is refused and every event told can be written. */
  ghost predicate Succeeds(e: Sync) {
    forall k :: 0 <= k < |ActsOf(e)| ==> !Fails(ActsOf(e)[k])
  }

  lemma {:induction false} OutcomeIs(t: Tables, e: Sync)
    ensures Alike(Outcome(t, e), DoAll(Begin(t), e.calendar, ActsOf(e)))
    ensures Outcome(t, e).failed <==> !Succeeds(e)
  {
    RoundIsItsActs(t, e.calendar, e.items, e.replies, e.masters, e.ask);
    FailsIff(Begin(t), e.calendar, ActsOf(e));
  }

  lemma {:induction false} RoundAccounts(t: Tables, e: Sync)
    requires Succeeds(e)
    ensures Accounts(t, Outcome(t, e), e.calendar)
  {
    OutcomeIs(t, e);
    ActsAccount(t, e.calendar, ActsOf(e));
  }

  // ---------- the mirror and the tables ----------

  /** Every calendar's mirror holds exactly the hrefs the tables know in it. */
  ghost predicate Agree(m: Mirror, t: Tables) {
    forall row: Row :: row in m <==> row.href in t.byHref && row.href.calendar == row.calendar
  }

  ghost predicate AtHome(log: seq<Change>, calendar: string) {
    forall h :: h in Latest(log) ==> h.calendar == calendar
  }

  predicate FiledHere(t: Tables, calendar: string, id: string) {
    id in t.byId ==> t.byId[id].calendar == calendar
  }

  function IdOf(a: Act): string
    requires !a.Fail?
  {
    if a.Drop? then a.id else a.event.id
  }

  /** Every id dropped or told is unknown or filed in this calendar. */
  ghost predicate NamesNoneElsewhere(t: Tables, calendar: string, acts: seq<Act>) {
    forall a :: a in acts && !a.Fail? ==> FiledHere(t, calendar, IdOf(a))
  }

  /** So far the round has named only this calendar's hrefs and filed nothing
      elsewhere that was not there before. */
  ghost predicate Home(t: Tables, r: Round, calendar: string) {
    && AtHome(r.log, calendar)
    && forall id :: FiledHere(t, calendar, id) ==> FiledHere(r.tables, calendar, id)
  }

  lemma {:induction false} ActAtHome(t: Tables, r: Round, calendar: string, a: Act)
    requires Home(t, r, calendar) && !Fails(a) && FiledHere(t, calendar, IdOf(a))
    ensures Home(t, Do(r, calendar, a), calendar)
  {
  }

  /** So far a round has named a foreign href, or left every foreign row alone. */
  ghost predicate Telltale(t: Tables, r: Round, calendar: string) {
    AtHome(r.log, calendar) ==> forall id :: id in t.byId && !FiledHere(t, calendar, id) ==> id in r.tables.byId && r.tables.byId[id] == t.byId[id]
  }

  lemma {:induction false} ActTelltale(t: Tables, r: Round, calendar: string, a: Act)
    requires Telltale(t, r, calendar) && !Fails(a) && !r.failed
    ensures Telltale(t, Do(r, calendar, a), calendar)
    ensures !FiledHere(t, calendar, IdOf(a)) ==> !AtHome(Do(r, calendar, a).log, calendar)
    ensures !AtHome(r.log, calendar) ==> !AtHome(Do(r, calendar, a).log, calendar)
  {
    forall h ensures h in Latest(Do(r, calendar, a).log) <==>
               || h in Latest(r.log) || (a.Drop? && a.id in r.tables.byId && r.tables.byId[a.id] == h)
               || (a.Tell? && HrefOf(r.tables, calendar, a.event) == h)
    {
      DoLogs(r, calendar, a, h);
    }
  }

  lemma {:induction false} AtHomeIff(t: Tables, calendar: string, acts: seq<Act>)
    requires forall k :: 0 <= k < |acts| ==> !Fails(acts[k])
    ensures AtHome(DoAll(Begin(t), calendar, acts).log, calendar) <==> NamesNoneElsewhere(t, calendar, acts)
    ensures Telltale(t, DoAll(Begin(t), calendar, acts), calendar)
    ensures NamesNoneElsewhere(t, calendar, acts) ==> Home(t, DoAll(Begin(t), calendar, acts), calendar)
  {
    if acts != [] {
      var n := |acts| - 1;
      var before, a := DoAll(Begin(t), calendar, acts[..n]), acts[n];
      assert acts == acts[..n] + [a];
      AtHomeIff(t, calendar, acts[..n]);
      FailsIff(Begin(t), calendar, acts[..n]);
      ActTelltale(t, before, calendar, a);
      if NamesNoneElsewhere(t, calendar, acts[..n]) && FiledHere(t, calendar, IdOf(a)) {
        ActAtHome(t, before, calendar, a);
      }
    }
  }

  /** A round that returns no error keeps every calendar's mirror and the tables
      in agreement exactly when it names no object that was filed under another
      calendar. */
  lemma {:induction false} CalendarsAgreeIff(m: Mirror, t: Tables, e: Sync)
    requires Agree(m, t) && Succeeds(e)
    ensures Agree(ApplyAll(m, e.calendar, Emitted(Outcome(t, e).log)), Outcome(t, e).tables)
       <==> NamesNoneElsewhere(t, e.calendar, ActsOf(e))
  {
    var r := Outcome(t, e);
    OutcomeIs(t, e);
    AtHomeIff(t, e.calendar, ActsOf(e));
    RoundAccounts(t, e);
    OneChangePerHrefIsEnough(m, e.calendar, r.log);
    var after := ApplyAll(m, e.calendar, r.log);
    if AtHome(r.log, e.calendar) {
      forall row: Row ensures row in after <==> row.href in r.tables.byHref && row.href.calendar == row.calendar {
        LogFollows(m, e.calendar, r.log, row);
      }
    } else {
      var h :| h in Latest(r.log) && h.calendar != e.calendar;
      LogFollows(m, e.calendar, r.log, Row(e.calendar, h));
      LogFollows(m, e.calendar, r.log, Row(h.calendar, h));
    }
  }

  function Telling(calendar: string, e: Event): Sync {
    Sync(calendar, false, [Single(e, true)], [Gone], [], id => Gone)
  }

  /** An event whose immutable id comes along when it moves to another calendar is
      put in that calendar's mirror under the href it had in the old one. */
  lemma {:induction false} MovedEventExample(e: Event, from: Href, calendar: string, m: Mirror)
    requires e.body.Some? && from.calendar != calendar
    requires Agree(m, Tables(map[from := e.id], map[e.id := from], map[]))
    ensures var t := Tables(map[from := e.id], map[e.id := from], map[]);
            var r := Outcome(t, Telling(calendar, e));
            !r.failed && !Agree(ApplyAll(m, calendar, Emitted(r.log)), r.tables)
  {
    var t := Tables(map[from := e.id], map[e.id := from], map[]);
    var sync := Telling(calendar, e);
    assert ItemActs(sync.items[..0], sync.replies[..0]) == [];
    assert ActsOf(sync) == [Tell(e)];
    assert Tell(e) in ActsOf(sync);
    OutcomeIs(t, sync);
    CalendarsAgreeIff(m, t, sync);
  }

  // ---------- rounds that fail ----------

  /** An href the tables had before a failed round and have lost to it. */
  ghost predicate LostTo(t: Tables, failed: Sync, h: Href) {
    var acts := Reached(ActsOf(failed));
    h in t.byHref && Drops(acts, t.byHref[h]) && !NewAt(t, failed.calendar, acts, h)
  }

  /** An href a failed round has put in the tables. */
  ghost predicate GainedBy(t: Tables, failed: Sync, h: Href) {
    h !in t.byHref && NewAt(t, failed.calendar, Reached(ActsOf(failed)), h)
  }

  lemma {:induction false} FailedTables(t: Tables, e: Sync)
    requires Steady(t, e.calendar, Reached(ActsOf(e)))
    ensures forall h :: h in Outcome(t, e).tables.byHref <==> KnownAfter(t, e.calendar, Reached(ActsOf(e)), h)
    ensures forall h :: (h in Outcome(t, e).tables.byHref <==> h in t.byHref) <==> !LostTo(t, e, h) && !GainedBy(t, e, h)
  {
    OutcomeIs(t, e);
    OnlyReachedCount(Begin(t), e.calendar, ActsOf(e));
    ReachedStops(t, e.calendar, ActsOf(e));
    TablesAfter(t, e.calendar, Reached(ActsOf(e)));
  }

  lemma {:induction false} NamedByIff(t: Tables, e: Sync)
    requires Succeeds(e) && Steady(t, e.calendar, ActsOf(e))
    ensures forall h :: h in Latest(Outcome(t, e).log) <==> NamedIn(t, e.calendar, ActsOf(e), h)
  {
    OutcomeIs(t, e);
    forall h ensures h in Latest(Outcome(t, e).log) <==> NamedIn(t, e.calendar, ActsOf(e), h) {
      NamesIff(t, e.calendar, ActsOf(e), h);
    }
  }

  /** A round that fails hands nothing over, but the tables keep what it had done to
      them. Asked again, and answered, the next round puts that right exactly when
      every href the failed one dropped belongs to an event it tells anew, and
      every href the failed one added is named again. */
  lemma {:induction false} RetryAgreesIff(m: Mirror, t: Tables, first: Sync, retry: Sync)
    requires Agree(m, t) && !Succeeds(first) && Succeeds(retry) && first.calendar == retry.calendar
    requires Steady(t, first.calendar, Reached(ActsOf(first)))
    requires var failed := Outcome(t, first).tables;
             Steady(failed, retry.calendar, ActsOf(retry)) && NamesNoneElsewhere(failed, retry.calendar, ActsOf(retry))
    ensures var failed := Outcome(t, first).tables; var r := Outcome(failed, retry);
            Agree(ApplyAll(m, retry.calendar, Emitted(r.log)), r.tables)
            <==> && (forall h :: LostTo(t, first, h) ==> NewAt(failed, retry.calendar, ActsOf(retry), h))
                 && (forall h :: GainedBy(t, first, h) ==> NamedIn(failed, retry.calendar, ActsOf(retry), h))
  {
    var failed := Outcome(t, first).tables;
    FailedTables(t, first);
    NamedByIff(failed, retry);
    RetryAgreesWhenNamed(m, t, failed, retry);
  }

  lemma {:induction false} RetryAgreesWhenNamed(m: Mirror, t: Tables, failed: Tables, retry: Sync)
    requires Agree(m, t) && Succeeds(retry) && NamesNoneElsewhere(failed, retry.calendar, ActsOf(retry))
    ensures var r := Outcome(failed, retry);
            Agree(ApplyAll(m, retry.calendar, Emitted(r.log)), r.tables)
            <==> forall h :: (h in failed.byHref <==> h in t.byHref) || h in Latest(r.log)
  {
    var r := Outcome(failed, retry);
    OutcomeIs(failed, retry);
    AtHomeIff(failed, retry.calendar, ActsOf(retry));
    RoundAccounts(failed, retry);
    OneChangePerHrefIsEnough(m, retry.calendar, r.log);
    var after := ApplyAll(m, retry.calendar, r.log);
    if Agree(after, r.tables) {
      forall h: Href ensures (h in failed.byHref <==> h in t.byHref) || h in Latest(r.log) {
        LogFollows(m, retry.calendar, r.log, Row(h.calendar, h));
      }
    }
    if forall h :: (h in failed.byHref <==> h in t.byHref) || h in Latest(r.log) {
      forall row: Row ensures row in after <==> row.href in r.tables.byHref && row.href.calendar == row.calendar {
        LogFollows(m, retry.calendar, r.log, row);
        assert (row.href in failed.byHref <==> row.href in t.byHref) || row.href in Latest(r.log);
      }
    }
  }

  /** So the same delta asked again never takes a removed object out of the mirror
      once a failed round has got to its removal. */
  lemma {:induction false} RemovalIsLost(m: Mirror, t: Tables, first: Sync, retry: Sync, id: string)
    requires Agree(m, t) && !Succeeds(first) && Succeeds(retry) && first.calendar == retry.calendar
    requires Steady(t, first.calendar, Reached(ActsOf(first)))
    requires var failed := Outcome(t, first).tables;
             Steady(failed, retry.calendar, ActsOf(retry)) && NamesNoneElsewhere(failed, retry.calendar, ActsOf(retry))
    requires id in t.byId && Drops(Reached(ActsOf(first)), id)
    requires forall e :: Tells(Reached(ActsOf(first)), e) || Tells(ActsOf(retry), e) ==> NewHref(first.calendar, e) != t.byId[id]
    ensures var r := Outcome(Outcome(t, first).tables, retry);
            !Agree(ApplyAll(m, retry.calendar, Emitted(r.log)), r.tables)
  {
    RetryAgreesIff(m, t, first, retry);
    assert LostTo(t, first, t.byId[id]);
  }

  function OneRow(h: Href): Tables {
    Tables(map[h := "a"], map["a" := h], map[])
  }

  /** A removal and then an event that has to be read. */
  function RemovalAndRead(calendar: string, e: Event, reply: Reply): Sync {
    Sync(calendar, false, [Removed("a"), Single(e, false)], [Gone, reply], [], id => Gone)
  }

  lemma {:induction false} RemovalAndReadActs(calendar: string, e: Event, reply: Reply)
    ensures ActsOf(RemovalAndRead(calendar, e, reply)) == [Drop("a")] + ReplyAct(e.id, reply, [])
  {
    var sync := RemovalAndRead(calendar, e, reply);
    assert sync.items[..1][..0] == [] && sync.replies[..1][..0] == [];
    assert ItemActs(sync.items[..1][..0], sync.replies[..1][..0]) == [];
    assert ItemActs(sync.items[..1], sync.replies[..1]) == [Drop("a")];
  }

  lemma {:induction false} RefusedThenRead(calendar: string, e: Event)
    requires e.body.Some?
    ensures var first, retry := RemovalAndRead(calendar, e, Reply.Refused), RemovalAndRead(calendar, e, Found(e));
            Reached(ActsOf(first)) == [Drop("a"), Fail] && ActsOf(retry) == [Drop("a"), Tell(e)] && !Succeeds(first) && Succeeds(retry)
  {
    var first := RemovalAndRead(calendar, e, Reply.Refused);
    RemovalAndReadActs(calendar, e, Reply.Refused);
    RemovalAndReadActs(calendar, e, Found(e));
    assert e.(id := e.id) == e;
    assert ActsOf(first) == [Drop("a"), Fail] && [Drop("a"), Fail][1..] == [Fail];
    assert Fails(ActsOf(first)[1]);
  }

  lemma {:induction false} NothingIsLeft(h: Href, acts: seq<Act>)
    requires acts == [Drop("a"), Fail]
    ensures Steady(OneRow(h), h.calendar, acts) && Drops(acts, "a")
    ensures forall x :: !KnownAfter(OneRow(h), h.calendar, acts, x)
  {
  }

  /** To empty tables everything is new. */
  lemma {:induction false} NothingIsKnown(t: Tables, calendar: string, e: Event)
    requires t.byId == map[] && e.id != "a"
    ensures Steady(t, calendar, [Drop("a"), Tell(e)]) && NamesNoneElsewhere(t, calendar, [Drop("a"), Tell(e)])
  {
  }

  /** One event removed, the next unreadable: the round fails, and the retry, which
      reads the second one well, no longer knows the first. It stays in the mirror. */
  lemma {:induction false} LostRemovalExample(m: Mirror, calendar: string, e: Event)
    requires e.body.Some? && KeyOf(e) != "A" && e.id != "a"
    requires Agree(m, OneRow(Href(calendar, "A")))
    ensures var t := OneRow(Href(calendar, "A"));
            var first := Outcome(t, RemovalAndRead(calendar, e, Reply.Refused));
            var retry := Outcome(first.tables, RemovalAndRead(calendar, e, Found(e)));
            first.failed && !retry.failed && !Agree(ApplyAll(m, calendar, Emitted(retry.log)), retry.tables)
  {
    var h := Href(calendar, "A");
    var t, first, retry := OneRow(h), RemovalAndRead(calendar, e, Reply.Refused), RemovalAndRead(calendar, e, Found(e));
    RefusedThenRead(calendar, e);
    NothingIsLeft(h, Reached(ActsOf(first)));
    FailedTables(t, first);
    var failed := Outcome(t, first).tables;
    OutcomeIs(t, first);
    OutcomeIs(failed, retry);
    assert failed.byId == map[];
    NothingIsKnown(failed, calendar, e);
    RemovalIsLost(m, t, first, retry, "a");
  }

  // ---------- starting over ----------

  /** A round without a token replaces the calendar. Whatever the mirror and the
      tables held before, every object it then holds has a Graph id; and it holds
      every href the tables know exactly when the sweep named all they knew. */
  lemma {:induction false} StartingOverAgreesIff(m: Mirror, t: Tables, e: Sync)
    requires Succeeds(e) && Steady(t, e.calendar, ActsOf(e)) && NamesNoneElsewhere(t, e.calendar, ActsOf(e))
    ensures var r := Outcome(t, e); var after := ApplyAll(Clear(m, e.calendar), e.calendar, Emitted(r.log));
            && (forall row :: row in after && row.calendar == e.calendar ==>
                  row.href in r.tables.byHref && row.href.calendar == e.calendar)
            && ((forall h :: h in r.tables.byHref && h.calendar == e.calendar ==> Row(e.calendar, h) in after)
                <==> (forall h :: h in t.byHref && h.calendar == e.calendar ==> NamedIn(t, e.calendar, ActsOf(e), h)))
  {
    var r, cleared := Outcome(t, e), Clear(m, e.calendar);
    OutcomeIs(t, e);
    AtHomeIff(t, e.calendar, ActsOf(e));
    NamedByIff(t, e);
    RoundAccounts(t, e);
    OneChangePerHrefIsEnough(cleared, e.calendar, r.log);
    var after := ApplyAll(cleared, e.calendar, r.log);
    forall row | row in after && row.calendar == e.calendar
      ensures row.href in r.tables.byHref && row.href.calendar == e.calendar
    {
      LogFollows(cleared, e.calendar, r.log, row);
    }
    forall h: Href | h.calendar == e.calendar
      ensures Row(e.calendar, h) in after <==> h in Latest(r.log) && Latest(r.log)[h].Put?
    {
      LogFollows(cleared, e.calendar, r.log, Row(e.calendar, h));
    }
  }

  // ---------- whole runs ----------

  datatype State = State(mirror: Mirror, tables: Tables)

  /** One cycle of one calendar, from the delta to the mirror's transaction. */
  ghost function Cycled(s: State, e: Sync): State {
    var r := Outcome(s.tables, e);
    if r.failed then s.(tables := r.tables)
    else
      var m := if e.full then Clear(s.mirror, e.calendar) else s.mirror;
      State(ApplyAll(m, e.calendar, Emitted(r.log)), r.tables)
  }

  /** Every mirrored object still names a Graph event: it can be changed, deleted
      and answered. */
  ghost predicate Resolves(s: State) {
    forall row :: row in s.mirror ==> row.href in s.tables.byHref && row.href.calendar == row.calendar
  }

  /** A cycle that names no other calendar's object; or one that fails, says one
      thing of each id and has got to no removal of an object the mirror holds. */
  ghost predicate Clean(s: State, e: Sync) {
    if Succeeds(e) then NamesNoneElsewhere(s.tables, e.calendar, ActsOf(e))
    else
      && Steady(s.tables, e.calendar, Reached(ActsOf(e)))
      && forall row :: row in s.mirror ==> !LostTo(s.tables, e, row.href)
  }

  lemma {:induction false} CleanCycleResolves(s: State, e: Sync)
    requires Resolves(s) && Clean(s, e)
    ensures Resolves(Cycled(s, e))
  {
    var r := Outcome(s.tables, e);
    OutcomeIs(s.tables, e);
    if r.failed {
      FailedTables(s.tables, e);
    } else {
      var m := if e.full then Clear(s.mirror, e.calendar) else s.mirror;
      RoundAccounts(s.tables, e);
      AtHomeIff(s.tables, e.calendar, ActsOf(e));
      OneChangePerHrefIsEnough(m, e.calendar, r.log);
      forall row | row in Cycled(s, e).mirror
        ensures row.href in r.tables.byHref && row.href.calendar == row.calendar
      {
        LogFollows(m, e.calendar, r.log, row);
      }
    }
  }

  /** A cycle that fails and says one thing of each id keeps every mirrored object
      resolvable exactly when it has got to no removal of one. */
  lemma {:induction false} FailedCycleResolvesIff(s: State, e: Sync)
    requires Resolves(s) && !Succeeds(e) && Steady(s.tables, e.calendar, Reached(ActsOf(e)))
    ensures Resolves(Cycled(s, e)) <==> forall row :: row in s.mirror ==> !LostTo(s.tables, e, row.href)
  {
    OutcomeIs(s.tables, e);
    FailedTables(s.tables, e);
  }

  ghost predicate IsRun(states: seq<State>, events: seq<Sync>) {
    && |states| == |events| + 1
    && forall k :: 0 <= k < |events| ==> states[k + 1] == Cycled(states[k], events[k])
  }

  /** Over any run of clean cycles, of any calendars, full or not, no object in
      the mirror ever loses its Graph id. */
  lemma {:induction false} RunsStayResolved(states: seq<State>, events: seq<Sync>, n: nat)
    requires IsRun(states, events) && n < |states| && Resolves(states[0])
    requires forall k :: 0 <= k < n ==> Clean(states[k], events[k])
    ensures Resolves(states[n])
  {
    if n > 0 {
      RunsStayResolved(states, events, n - 1);
      CleanCycleResolves(states[n - 1], events[n - 1]);
    }
  }

  // ---------- series ----------

  lemma {:induction false} ItemKeepsMarks(r: Round, calendar: string, it: Item, reply: Reply)
    ensures r.dirty <= TakeItem(r, calendar, it, reply).dirty
    ensures r.tables.masters.Keys <= TakeItem(r, calendar, it, reply).tables.masters.Keys
  {
  }

  /** Whose occurrence an id is, as far as the tables or an earlier item said. */
  ghost predicate SaidWhose(t: Tables, items: seq<Item>, id: string) {
    id in t.masters || exists it :: it in items && it.Occurrence? && it.id == id
  }

  lemma {:induction false} MastersRemembered(t: Tables, calendar: string, items: seq<Item>, replies: seq<Reply>, id: string)
    requires |items| == |replies| && SaidWhose(t, items, id) && !TakeItems(Begin(t), calendar, items, replies).failed
    ensures id in TakeItems(Begin(t), calendar, items, replies).tables.masters
  {
    if items != [] {
      var k := |items| - 1;
      var before := TakeItems(Begin(t), calendar, items[..k], replies[..k]);
      ItemKeepsMarks(before, calendar, items[k], replies[k]);
      if !(items[k].Occurrence? && items[k].id == id) {
        assert SaidWhose(t, items[..k], id);
        MastersRemembered(t, calendar, items[..k], replies[..k], id);
      }
    }
  }

  lemma {:induction false} MarksStay(t: Tables, calendar: string, items: seq<Item>, replies: seq<Reply>, n: nat)
    requires |items| == |replies| && n <= |items|
    ensures TakeItems(Begin(t), calendar, items[..n], replies[..n]).dirty <= TakeItems(Begin(t), calendar, items, replies).dirty
    decreases |items| - n
  {
    if n == |items| {
      assert items[..n] == items && replies[..n] == replies;
    } else {
      var before := TakeItems(Begin(t), calendar, items[..n], replies[..n]);
      if before.failed {
        FailureStopsItems(Begin(t), calendar, items, replies, n);
      } else {
        ItemsTaken(Begin(t), calendar, items, replies, n);
        ItemKeepsMarks(before, calendar, items[n], replies[n]);
        MarksStay(t, calendar, items, replies, n + 1);
      }
    }
  }

  /** Whatever a delta says of a series gets the series read again: the master
      itself, one of its occurrences, and also the removal of an occurrence,
      which names only an id, if any earlier round or item said whose it was. */
  lemma {:induction false} SeriesNamedIsRead(t: Tables, calendar: string, items: seq<Item>, replies: seq<Reply>, i: nat)
    requires |items| == |replies| && i < |items|
    requires !TakeItems(Begin(t), calendar, items, replies).failed
    ensures var before := TakeItems(Begin(t), calendar, items[..i], replies[..i]);
            var dirty := TakeItems(Begin(t), calendar, items, replies).dirty;
            match items[i]
            case Master(id) => id in dirty
            case Occurrence(_, master) => master in dirty
            case Removed(id) => SaidWhose(t, items[..i], id) && id !in before.tables.byId ==>
                                  id in before.tables.masters && before.tables.masters[id] in dirty
            case Single(_, _) => true
  {
    var before := TakeItems(Begin(t), calendar, items[..i], replies[..i]);
    if before.failed {
      FailureStopsItems(Begin(t), calendar, items, replies, i);
    } else {
      ItemsTaken(Begin(t), calendar, items, replies, i);
      MarksStay(t, calendar, items, replies, i + 1);
      if items[i].Removed? && SaidWhose(t, items[..i], items[i].id) {
        MastersRemembered(t, calendar, items[..i], replies[..i], items[i].id);
      }
    }
  }
}
