/** The store's two calendar tables and what one delta of a calendar does to
    them. objects names every calendar object both by the href the mirror knows
    it by and by its Graph id, and both keys are unique; occurrences remembers
    which series an occurrence belongs to.

    A round is written here as the changes in the order they are found; the
    driver itself keeps one change per href. */
module CalendarTables {
  import opened Basics

  /** Where an object lives: hrefs of one calendar share its path. */
  datatype Href = Href(calendar: string, key: string)

  datatype AnyTables = Tables(byHref: map<Href, string>, byId: map<string, Href>, masters: map<string, string>)

  ghost predicate Paired(byHref: map<Href, string>, byId: map<string, Href>) {
    && (forall h :: h in byHref ==> byHref[h] in byId && byId[byHref[h]] == h)
    && (forall id :: id in byId ==> byId[id] in byHref && byHref[byId[id]] == id)
  }

  /** The database keeps hrefs and ids unique: a partial bijection. */
  type Tables = t: AnyTables | Paired(t.byHref, t.byId) witness Tables(map[], map[], map[])

  /** INSERT OR REPLACE: a row in the way under either key goes first. */
  function PutObject(t: Tables, h: Href, id: string): Tables {
    var oldHrefs := if id in t.byId then {h, t.byId[id]} else {h};
    var oldIds := if h in t.byHref then {id, t.byHref[h]} else {id};
    t.(byHref := (t.byHref - oldHrefs)[h := id], byId := (t.byId - oldIds)[id := h])
  }

  function DropObject(t: Tables, id: string): Tables {
    if id in t.byId then t.(byHref := t.byHref - {t.byId[id]}, byId := t.byId - {id}) else t
  }

  /** An event as Graph describes it. hash is the name made from its id, body the
      calendar object written from it, None when it cannot be written. */
  datatype Event = Event(id: string, iCalUid: string, hash: string, etag: string, body: Option<string>)

  /** One entry of a delta. */
  datatype Item =
    | Removed(id: string)
    | Master(id: string)
    | Occurrence(id: string, master: string)
    | Single(event: Event, described: bool)

  /** What the server says when an event is read. */
  datatype Reply = Gone | Refused | Found(event: Event)

  datatype Change = Put(href: Href, etag: string, data: string) | Deleted(href: Href)

  datatype Round = Round(tables: Tables, log: seq<Change>, dirty: set<string>, failed: bool)

  function Begin(t: Tables): Round {
    Round(t, [], {}, false)
  }

  predicate Awkward(s: string) {
    exists i :: 0 <= i < |s| && s[i] in {'/', '?', '#', '%', ' '}
  }

  /** An event is named after its iCalUId, or after its id when it has none that
      can stand in a path. */
  function KeyOf(e: Event): string {
    if e.iCalUid == "" || Awkward(e.iCalUid) then e.hash else e.iCalUid
  }

  function HrefOf(t: Tables, calendar: string, e: Event): Href {
    if e.id in t.byId then t.byId[e.id] else Href(calendar, KeyOf(e))
  }

  /** The href is remembered before the object is written, so an event that
      cannot be written has its row all the same. */
  function Learn(t: Tables, calendar: string, e: Event): Tables {
    if e.id in t.byId then t else PutObject(t, Href(calendar, KeyOf(e)), e.id)
  }

  function Written(h: Href, e: Event): Option<Change> {
    if e.body.None? then None else Some(Put(h, e.etag, e.body.value))
  }

  function Describe(r: Round, calendar: string, e: Event): Round {
    var ch := Written(HrefOf(r.tables, calendar, e), e);
    var t := Learn(r.tables, calendar, e);
    if ch.None? then r.(tables := t, failed := true) else r.(tables := t, log := r.log + [ch.value])
  }

  function Forget(r: Round, id: string): Round
    requires id in r.tables.byId
  {
    r.(tables := DropObject(r.tables, id), log := r.log + [Deleted(r.tables.byId[id])])
  }

  function TakeItem(r: Round, calendar: string, it: Item, reply: Reply): Round {
    match it
    case Removed(id) =>
      if id in r.tables.byId then Forget(r, id)
      else if id in r.tables.masters then r.(dirty := r.dirty + {r.tables.masters[id]})
      else r
    case Master(id) => r.(dirty := r.dirty + {id})
    case Occurrence(id, master) =>
      r.(tables := r.tables.(masters := r.tables.masters[id := master]), dirty := r.dirty + {master})
    case Single(event, described) =>
      if described then Describe(r, calendar, event)
      else
        match reply
        case Gone => r
        case Refused => r.(failed := true)
        case Found(e) => Describe(r, calendar, e.(id := event.id))
  }

  /** The items in order; an error stops the round where it is. */
  function TakeItems(r: Round, calendar: string, items: seq<Item>, replies: seq<Reply>): Round
    requires |items| == |replies|
  {
    if items == [] then r
    else
      var n := |items| - 1;
      var before := TakeItems(r, calendar, items[..n], replies[..n]);
      if before.failed then before else TakeItem(before, calendar, items[n], replies[n])
  }

  function TakeMaster(r: Round, calendar: string, master: string, reply: Reply): Round {
    match reply
    case Gone => if master in r.tables.byId then Forget(r, master) else r
    case Refused => r.(failed := true)
    case Found(e) => Describe(r, calendar, e.(id := master))
  }

  function TakeMasters(r: Round, calendar: string, masters: seq<string>, ask: string -> Reply): Round {
    if masters == [] then r
    else
      var n := |masters| - 1;
      var before := TakeMasters(r, calendar, masters[..n], ask);
      if before.failed then before else TakeMaster(before, calendar, masters[n], ask(masters[n]))
  }

  /** A whole round, its series read in the order given. */
  function Rounded(t: Tables, calendar: string, items: seq<Item>, replies: seq<Reply>,
                   masters: seq<string>, ask: string -> Reply): Round
    requires |items| == |replies|
  {
    var listed := TakeItems(Begin(t), calendar, items, replies);
    if listed.failed then listed else TakeMasters(listed, calendar, masters, ask)
  }

  /** Every member of the set, each once. */
  ghost predicate Lists(order: seq<string>, members: set<string>) {
    && (forall m :: m in order <==> m in members)
    && forall i, j :: 0 <= i < j < |order| ==> order[i] != order[j]
  }

  lemma {:induction false} ListOneMore(order: seq<string>, members: set<string>, m: string)
    requires Lists(order, members) && m !in members
    ensures Lists(order + [m], members + {m})
  {
  }

  lemma {:induction false} ItemsTaken(r: Round, calendar: string, items: seq<Item>, replies: seq<Reply>, n: nat)
    requires |items| == |replies| && n < |items|
    requires !TakeItems(r, calendar, items[..n], replies[..n]).failed
    ensures TakeItems(r, calendar, items[..n + 1], replies[..n + 1])
         == TakeItem(TakeItems(r, calendar, items[..n], replies[..n]), calendar, items[n], replies[n])
  {
    assert items[..n + 1][..n] == items[..n] && replies[..n + 1][..n] == replies[..n];
  }

  lemma {:induction false} FailureStopsItems(r: Round, calendar: string, items: seq<Item>, replies: seq<Reply>, n: nat)
    requires |items| == |replies| && n <= |items|
    requires TakeItems(r, calendar, items[..n], replies[..n]).failed
    ensures TakeItems(r, calendar, items, replies) == TakeItems(r, calendar, items[..n], replies[..n])
    decreases |items| - n
  {
    if n < |items| {
      assert items[..n + 1][..n] == items[..n] && replies[..n + 1][..n] == replies[..n];
      FailureStopsItems(r, calendar, items, replies, n + 1);
    } else {
      assert items[..n] == items && replies[..n] == replies;
    }
  }

  // ---------- one change per href ----------

  /** The last change found for each href, and the hrefs in the order they were
      first found. */
  function Latest(log: seq<Change>): map<Href, Change> {
    if log == [] then map[] else Latest(log[..|log| - 1])[log[|log| - 1].href := log[|log| - 1]]
  }

  function Hrefs(log: seq<Change>): seq<Href> {
    if log == [] then []
    else
      var before := log[..|log| - 1];
      var h := log[|log| - 1].href;
      if h in Latest(before) then Hrefs(before) else Hrefs(before) + [h]
  }

  lemma {:induction false} HrefsAreThoseNamed(log: seq<Change>)
    ensures forall h :: h in Hrefs(log) <==> h in Latest(log)
    ensures forall h :: h in Latest(log) ==> Latest(log)[h].href == h
  {
    if log != [] {
      HrefsAreThoseNamed(log[..|log| - 1]);
    }
  }

  /** What is handed to the mirror. */
  function Emitted(log: seq<Change>): (out: seq<Change>)
    ensures |out| == |Hrefs(log)|
    ensures forall i :: 0 <= i < |out| ==> out[i].href == Hrefs(log)[i]
  {
    HrefsAreThoseNamed(log);
    seq(|Hrefs(log)|, i requires 0 <= i < |Hrefs(log)| => Latest(log)[Hrefs(log)[i]])
  }

  lemma {:induction false} EachHrefOnce(log: seq<Change>, i: nat, j: nat)
    requires i < j < |Hrefs(log)|
    ensures Hrefs(log)[i] != Hrefs(log)[j]
  {
    var before := log[..|log| - 1];
    HrefsAreThoseNamed(before);
    if j < |Hrefs(before)| {
      EachHrefOnce(before, i, j);
    } else {
      assert Hrefs(before)[i] in Hrefs(before);
    }
  }
}
