/** The store against what it stands for: for every folder the plain map from Graph
    id to flags, with no uid, modseq or UIDVALIDITY in it. */
module PlainStore {
  import opened Basics
  import opened GraphTables
  import opened DeltaMeaning
  import opened GraphHistory

  type PlainDb = map<string, PlainMap>

  /** What a caller means by a step: uids stand for the messages they were shown
      for, and a folder made again under another Graph id starts empty. */
  datatype Meaning =
    | Kept
    | Emptied(name: string)
    | Told(name: string, items: seq<Seen>)
    | Added(name: string, g: GraphId, flags: Flags)
    | Flagged(name: string, g: GraphId, flags: Flags)
    | Removed(name: string, g: GraphId)

  function MeaningOf(db: Db, s: Step): Meaning {
    match s
    case SetFolderStep(name, g, _) => if name in db && db[name].graphId == g then Kept else Emptied(name)
    case ResetStep(name, _, _) => Emptied(name)
    case DeltaStep(name, items, _) => Told(name, items)
    case PlaceStep(name, g, flags, _) => Added(name, g, flags)
    case SetFlagsStep(name, uid, flags, _) =>
      if name in db && uid in db[name].rows then Flagged(name, db[name].rows[uid].graphId, flags) else Kept
    case DropStep(name, uid) =>
      if name in db && uid in db[name].rows then Removed(name, db[name].rows[uid].graphId) else Kept
  }

  /** The step on plain maps. A folder nobody made holds nothing and takes nothing. */
  function PlainNext(p: PlainDb, m: Meaning): PlainDb {
    match m
    case Kept => p
    case Emptied(name) => p[name := map[]]
    case Told(name, items) => if name in p then p[name := PlainItems(p[name], items)] else p
    case Added(name, g, flags) => if name in p && g !in p[name] then p[name := p[name][g := flags]] else p
    case Flagged(name, g, flags) => if name in p then p[name := p[name][g := flags]] else p
    case Removed(name, g) => if name in p then p[name := p[name] - {g}] else p
  }

  function PlainOf(db: Db): PlainDb {
    map name | name in db :: Plain(db[name])
  }

  lemma {:induction false} PlainOfUpdate(db: Db, name: string, b: Box)
    ensures PlainOf(db[name := b]) == PlainOf(db)[name := Plain(b)]
  {
  }

  lemma {:induction false} DeltaPlain(db: Db, name: string, items: seq<Seen>, link: string)
    requires SoundDb(db) && HasRoom(db, DeltaStep(name, items, link))
    ensures PlainOf(ApplyDelta(db, name, items, link)) == PlainNext(PlainOf(db), Told(name, items))
  {
    if name in db {
      DeltaCounters(db[name], items);
      var c := ApplyItems(db[name], items).value;
      DeltaMeans(db[name], items, c);
      assert Plain(c.(delta := link)) == Plain(c);
      PlainOfUpdate(db, name, c.(delta := link));
    }
  }

  lemma {:induction false} InsertPlain(b: Box, g: GraphId, flags: Flags, cats: seq<string>)
    requires g !in b.ids && Insert(b, g, flags, cats).Some?
    ensures Plain(Insert(b, g, flags, cats).value) == Plain(b)[g := flags]
  {
  }

  lemma {:induction false} PlacePlain(db: Db, name: string, g: GraphId, flags: Flags, cats: seq<string>)
    requires SoundDb(db) && HasRoom(db, PlaceStep(name, g, flags, cats))
    ensures PlainOf(Place(db, name, g, flags, cats)) == PlainNext(PlainOf(db), Added(name, g, flags))
  {
    if name in db && g !in db[name].ids {
      assert db[name].nextUid !in db[name].rows;
      InsertPlain(db[name], g, flags, cats);
      PlainOfUpdate(db, name, Insert(db[name], g, flags, cats).value);
    }
  }

  lemma {:induction false} RowPlain(b: Box, uid: nat, flags: Flags, cats: seq<string>)
    requires uid in b.rows
    ensures Plain(WithFlags(b, uid, flags, cats)) == Plain(b)[b.rows[uid].graphId := flags]
    ensures Plain(WithoutUid(b, uid)) == Plain(b) - {b.rows[uid].graphId}
  {
    assert b.ids[b.rows[uid].graphId] == uid;
  }

  lemma {:induction false} ResetPlain(db: Db, name: string, g: string, now: int)
    ensures PlainOf(Reset(db, name, g, now)) == PlainOf(db)[name := map[]]
  {
    PlainOfUpdate(db, name, Reset(db, name, g, now)[name]);
  }

  lemma {:induction false} FolderPlain(db: Db, name: string, b: Box, p: PlainMap)
    requires name in db && Plain(b) == p
    ensures PlainOf(db[name := b]) == PlainOf(db)[name := p]
    ensures p == Plain(db[name]) ==> PlainOf(db[name := b]) == PlainOf(db)
  {
    PlainOfUpdate(db, name, b);
  }

  lemma {:induction false} FlagsPlain(db: Db, name: string, uid: nat, flags: Flags, cats: seq<string>)
    requires name in db
    ensures var b := db[name];
            PlainOf(SetFlags(db, name, uid, flags, cats)) ==
              if uid in b.rows then PlainOf(db)[name := Plain(b)[b.rows[uid].graphId := flags]] else PlainOf(db)
  {
    var b := db[name];
    if uid in b.rows {
      RowPlain(b, uid, flags, cats);
    }
    FolderPlain(db, name, WithFlags(b, uid, flags, cats), Plain(WithFlags(b, uid, flags, cats)));
  }

  lemma {:induction false} DropPlain(db: Db, name: string, uid: nat)
    requires name in db
    ensures var b := db[name];
            PlainOf(Drop(db, name, uid)) ==
              if uid in b.rows then PlainOf(db)[name := Plain(b) - {b.rows[uid].graphId}] else PlainOf(db)
  {
    var b := db[name];
    if uid in b.rows {
      RowPlain(b, uid, [], []);
    }
    FolderPlain(db, name, WithoutUid(b, uid), Plain(WithoutUid(b, uid)));
  }

  lemma {:induction false} FlagStepMeans(db: Db, s: Step)
    requires s.SetFlagsStep?
    ensures PlainOf(Next(db, s)) == PlainNext(PlainOf(db), MeaningOf(db, s))
  {
    if s.name in db {
      assert PlainNext(PlainOf(db), MeaningOf(db, s)) ==
             (var b := db[s.name];
              if s.uid in b.rows then PlainOf(db)[s.name := Plain(b)[b.rows[s.uid].graphId := s.flags]] else PlainOf(db));
      assert Next(db, s) == SetFlags(db, s.name, s.uid, s.flags, s.cats);
      FlagsPlain(db, s.name, s.uid, s.flags, s.cats);
    } else {
      assert Next(db, s) == db && MeaningOf(db, s) == Kept;
    }
  }

  lemma {:induction false} DropStepMeans(db: Db, s: Step)
    requires s.DropStep?
    ensures PlainOf(Next(db, s)) == PlainNext(PlainOf(db), MeaningOf(db, s))
  {
    if s.name in db {
      assert PlainNext(PlainOf(db), MeaningOf(db, s)) ==
             (var b := db[s.name];
              if s.uid in b.rows then PlainOf(db)[s.name := Plain(b) - {b.rows[s.uid].graphId}] else PlainOf(db));
      assert Next(db, s) == Drop(db, s.name, s.uid);
      DropPlain(db, s.name, s.uid);
    } else {
      assert Next(db, s) == db && MeaningOf(db, s) == Kept;
    }
  }

  lemma {:induction false} FolderStepMeans(db: Db, s: Step)
    requires s.SetFolderStep? || s.ResetStep?
    ensures PlainOf(Next(db, s)) == PlainNext(PlainOf(db), MeaningOf(db, s))
  {
    ResetPlain(db, s.name, s.graphId, s.now);
  }

  /** Every step does to the plain maps what it means, whatever uids, modseqs and
      UIDVALIDITY it hands out on the way. */
  lemma {:induction false} NextMeans(db: Db, s: Step)
    requires SoundDb(db) && HasRoom(db, s)
    ensures PlainOf(Next(db, s)) == PlainNext(PlainOf(db), MeaningOf(db, s))
  {
    match s
    case DeltaStep(name, items, link) => DeltaPlain(db, name, items, link);
    case PlaceStep(name, g, flags, cats) => PlacePlain(db, name, g, flags, cats);
    case SetFlagsStep(_, _, _, _) => FlagStepMeans(db, s);
    case DropStep(_, _) => DropStepMeans(db, s);
    case _ => FolderStepMeans(db, s);
  }

  lemma {:induction false} RunStepMeans(dbs: seq<Db>, steps: seq<Step>, k: nat)
    requires IsRun(dbs, steps) && k < |steps|
    ensures IsMeant(dbs[k], steps[k], dbs[k + 1])
  {
    assert SoundDb(dbs[k]) by { RunsStaySound(dbs, steps, k); }
    NextMeans(dbs[k], steps[k]);
  }

  ghost predicate IsMeant(db: Db, s: Step, after: Db) {
    PlainOf(after) == PlainNext(PlainOf(db), MeaningOf(db, s))
  }

  /** The plain maps a run goes through are those its steps' meanings lead to. */
  ghost predicate Follows(p: PlainDb, db: Db, s: Step, next: PlainDb) {
    next == PlainNext(p, MeaningOf(db, s))
  }

  /** At every moment of every run the store holds, under its uids, exactly the
      plain maps that the meanings of its steps, from nothing, lead to. */
  lemma {:induction false} StoreIsThePlainMap(dbs: seq<Db>, steps: seq<Step>, ps: seq<PlainDb>, k: nat)
    requires IsRun(dbs, steps) && |ps| == |dbs| && k < |dbs| && ps[0] == map[]
    requires forall j :: 0 <= j < |steps| ==> Follows(ps[j], dbs[j], steps[j], ps[j + 1])
    ensures PlainOf(dbs[k]) == ps[k]
  {
    if k > 0 {
      StoreIsThePlainMap(dbs, steps, ps, k - 1);
      RunStepMeans(dbs, steps, k - 1);
      assert Follows(ps[k - 1], dbs[k - 1], steps[k - 1], ps[k]);
    }
  }
}
