/** Whole runs of the store: deltas, placements, drops, flag writes, resets and
    folders made again, under a clock that may go anywhere. A folder name, a
    UIDVALIDITY and a uid together never come to name a second message
    (section 2.3.1.1 of RFC 3501). */
module GraphHistory {
  import opened Basics
  import opened GraphTables
  import opened DeltaMeaning

  datatype Step =
    | SetFolderStep(name: string, graphId: string, now: int)
    | ResetStep(name: string, graphId: string, now: int)
    | DeltaStep(name: string, items: seq<Seen>, link: string)
    | PlaceStep(name: string, g: GraphId, flags: Flags, cats: seq<string>)
    | SetFlagsStep(name: string, uid: nat, flags: Flags, cats: seq<string>)
    | DropStep(name: string, uid: nat)

  function Next(db: Db, s: Step): Db {
    match s
    case SetFolderStep(name, g, now) => SetFolder(db, name, g, now)
    case ResetStep(name, g, now) => Reset(db, name, g, now)
    case DeltaStep(name, items, link) => ApplyDelta(db, name, items, link)
    case PlaceStep(name, g, flags, cats) => Place(db, name, g, flags, cats)
    case SetFlagsStep(name, uid, flags, cats) => SetFlags(db, name, uid, flags, cats)
    case DropStep(name, uid) => Drop(db, name, uid)
  }

  /** The 32-bit counters a step draws on are not at their end. */
  predicate HasRoom(db: Db, s: Step) {
    match s
    case SetFolderStep(name, _, now) => name in db ==> db[name].validity < MAX_UINT32
    case ResetStep(name, _, now) => name in db ==> db[name].validity < MAX_UINT32
    case DeltaStep(name, items, _) => name in db ==> db[name].nextUid + |items| <= MAX_UINT32
    case PlaceStep(name, _, _, _) => name in db ==> db[name].nextUid < MAX_UINT32
    case _ => true
  }

  /** A run: the databases it passes through, from an empty one, and the steps
      between them. */
  ghost predicate IsRun(dbs: seq<Db>, steps: seq<Step>) {
    && |dbs| == |steps| + 1
    && dbs[0] == map[]
    && forall k :: 0 <= k < |steps| ==> HasRoom(dbs[k], steps[k]) && dbs[k + 1] == Next(dbs[k], steps[k])
  }

  /** How a folder may grow older: a higher UIDVALIDITY and nothing else to say,
      or the same one with every uid below the old UIDNEXT either gone or still
      naming the same message, and no modseq moving back. */
  ghost predicate Grows(a: Box, b: Box) {
    a.validity < b.validity ||
    (&& a.validity == b.validity
     && a.nextUid <= b.nextUid
     && a.modseq <= b.modseq
     && forall u :: u in b.rows && u < a.nextUid ==>
          u in a.rows && a.rows[u].graphId == b.rows[u].graphId && a.rows[u].modseq <= b.rows[u].modseq)
  }

  ghost predicate GrowsDb(a: Db, b: Db) {
    forall name :: name in a ==> name in b && Grows(a[name], b[name])
  }

  // ---------- the folder's two counters ----------

  /** A reset raises the UIDVALIDITY of a folder it knew unless the old one was
      the last there is, and then it starts again at nought. */
  lemma {:induction false} ResetRaisesValidityIff(db: Db, name: string, graphId: string, now: int)
    requires name in db && db[name].validity <= MAX_UINT32
    ensures var after := Reset(db, name, graphId, now)[name].validity;
      && (after > db[name].validity <==> db[name].validity < MAX_UINT32)
      && (db[name].validity == MAX_UINT32 ==> after == 0)
      && after <= MAX_UINT32
  {
  }

  /** A folder new to the store goes by the clock, in 32 bits, so a store that was lost
      gives a folder a higher one than it had from an earlier second. A known folder
      goes by it too once it has passed the old one. */
  lemma {:induction false} NewFolderGoesByTheClock(db: Db, lost: Db, name: string, g: string, h: string, before: int, now: int)
    requires name !in db && name !in lost && 0 <= before < now < 0x1_0000_0000
    ensures Reset(lost, name, h, before)[name].validity == before < Reset(db, name, g, now)[name].validity == now
    ensures var known := Reset(lost, name, h, before);
            Reset(known, name, g, now)[name].validity == now && Reset(known, name, g, before)[name].validity == before + 1
  {
  }

  /** A new placement keeps the folder sound exactly when it does not take the
      last uid there is. */
  lemma {:induction false} InsertKeepsSoundIff(b: Box, g: GraphId, flags: Flags, cats: seq<string>)
    requires Sound(b) && g !in b.ids
    ensures Insert(b, g, flags, cats).Some?
    ensures Sound(Insert(b, g, flags, cats).value) <==> b.nextUid < MAX_UINT32
  {
  }

  // ---------- every step grows every folder ----------

  lemma {:induction false} GrowsTransitive(a: Box, b: Box, c: Box)
    requires Grows(a, b) && Grows(b, c)
    ensures Grows(a, c)
  {
  }

  lemma {:induction false} GrowsDbTransitive(a: Db, b: Db, c: Db)
    requires GrowsDb(a, b) && GrowsDb(b, c)
    ensures GrowsDb(a, c)
  {
  }

  lemma {:induction false} ItemGrows(b: Box, it: Seen)
    requires Sound(b) && b.nextUid < MAX_UINT32
    ensures ApplyItem(b, it).Some? && Grows(b, ApplyItem(b, it).value)
  {
  }

  lemma {:induction false} DeltaGrows(b: Box, items: seq<Seen>)
    requires Sound(b) && b.nextUid + |items| <= MAX_UINT32
    ensures ApplyItems(b, items).Some? && Grows(b, ApplyItems(b, items).value)
  {
    if items != [] {
      var front := items[..|items| - 1];
      DeltaCounters(b, front);
      DeltaGrows(b, front);
      ItemGrows(ApplyItems(b, front).value, items[|items| - 1]);
      GrowsTransitive(b, ApplyItems(b, front).value, ApplyItems(b, items).value);
    }
  }

  /** A step that puts c where a sound database had b, or nothing there. */
  lemma {:induction false} UpdateGrows(db: Db, name: string, c: Box)
    requires SoundDb(db) && Sound(c) && (name in db ==> Grows(db[name], c))
    ensures SoundDb(db[name := c]) && GrowsDb(db, db[name := c])
  {
  }

  lemma {:induction false} ResetGrows(db: Db, name: string, g: string, now: int)
    requires SoundDb(db) && (name in db ==> db[name].validity < MAX_UINT32)
    ensures SoundDb(Reset(db, name, g, now)) && GrowsDb(db, Reset(db, name, g, now))
  {
  }

  lemma {:induction false} DeltaStepGrows(db: Db, name: string, items: seq<Seen>, link: string)
    requires SoundDb(db) && name in db && db[name].nextUid + |items| <= MAX_UINT32
    ensures SoundDb(ApplyDelta(db, name, items, link)) && GrowsDb(db, ApplyDelta(db, name, items, link))
  {
    DeltaCounters(db[name], items);
    DeltaGrows(db[name], items);
    UpdateGrows(db, name, ApplyItems(db[name], items).value.(delta := link));
  }

  lemma {:induction false} PlaceStepGrows(db: Db, name: string, g: GraphId, flags: Flags, cats: seq<string>)
    requires SoundDb(db) && name in db && g !in db[name].ids && db[name].nextUid < MAX_UINT32
    ensures SoundDb(Place(db, name, g, flags, cats)) && GrowsDb(db, Place(db, name, g, flags, cats))
  {
    InsertKeepsSoundIff(db[name], g, flags, cats);
    UpdateGrows(db, name, Insert(db[name], g, flags, cats).value);
  }

  /** Every step with room keeps the database sound and lets every folder only
      grow older. */
  lemma {:induction false} NextGrows(db: Db, s: Step)
    requires SoundDb(db) && HasRoom(db, s)
    ensures SoundDb(Next(db, s)) && GrowsDb(db, Next(db, s))
  {
    match s
    case SetFolderStep(name, g, now) =>
      if name !in db || db[name].graphId != g { ResetGrows(db, name, g, now); }
    case ResetStep(name, g, now) =>
      ResetGrows(db, name, g, now);
    case DeltaStep(name, items, link) =>
      if name in db { DeltaStepGrows(db, name, items, link); }
    case PlaceStep(name, g, flags, cats) =>
      if name in db && g !in db[name].ids { PlaceStepGrows(db, name, g, flags, cats); }
    case SetFlagsStep(name, uid, flags, cats) =>
      if name in db { UpdateGrows(db, name, WithFlags(db[name], uid, flags, cats)); }
    case DropStep(name, uid) =>
      if name in db { UpdateGrows(db, name, WithoutUid(db[name], uid)); }
  }

  lemma {:induction false} RunsStaySound(dbs: seq<Db>, steps: seq<Step>, j: nat)
    requires IsRun(dbs, steps) && j < |dbs|
    ensures SoundDb(dbs[j])
  {
    if j > 0 {
      RunsStaySound(dbs, steps, j - 1);
      NextGrows(dbs[j - 1], steps[j - 1]);
    }
  }

  lemma {:induction false} StepOfRunGrows(dbs: seq<Db>, steps: seq<Step>, k: nat)
    requires IsRun(dbs, steps) && k < |steps|
    ensures GrowsDb(dbs[k], dbs[k + 1])
  {
    RunsStaySound(dbs, steps, k);
    NextGrows(dbs[k], steps[k]);
  }

  ghost predicate GrowsAt(dbs: seq<Db>, k: nat) {
    k + 1 < |dbs| && GrowsDb(dbs[k], dbs[k + 1])
  }

  lemma {:induction false} ChainGrows(dbs: seq<Db>, i: nat, j: nat)
    requires i <= j < |dbs|
    requires forall k :: i <= k < j ==> GrowsAt(dbs, k)
    ensures GrowsDb(dbs[i], dbs[j])
    decreases j
  {
    if i < j {
      ChainGrows(dbs, i, j - 1);
      assert GrowsAt(dbs, j - 1);
      GrowsDbTransitive(dbs[i], dbs[j - 1], dbs[j]);
    }
  }

  lemma {:induction false} RunsGrow(dbs: seq<Db>, steps: seq<Step>, i: nat, j: nat)
    requires IsRun(dbs, steps) && i <= j < |dbs|
    ensures GrowsDb(dbs[i], dbs[j])
  {
    forall k | i <= k < j ensures GrowsAt(dbs, k) {
      StepOfRunGrows(dbs, steps, k);
    }
    ChainGrows(dbs, i, j);
  }

  /** The identity IMAP clients rely on: at any two moments of any run, one
      folder name, UIDVALIDITY and uid mean one Graph message. */
  lemma {:induction false} OneMessagePerName(dbs: seq<Db>, steps: seq<Step>, i: nat, j: nat, name: string, uid: nat)
    requires IsRun(dbs, steps) && i <= j < |dbs|
    requires name in dbs[i] && name in dbs[j] && dbs[i][name].validity == dbs[j][name].validity
    requires uid in dbs[i][name].rows && uid in dbs[j][name].rows
    ensures dbs[i][name].rows[uid].graphId == dbs[j][name].rows[uid].graphId
  {
    RunsStaySound(dbs, steps, i);
    RunsGrow(dbs, steps, i, j);
  }

  /** A uid that has left a folder does not come back under the same UIDVALIDITY. */
  lemma {:induction false} GoneUidsStayGone(dbs: seq<Db>, steps: seq<Step>, i: nat, j: nat, name: string, uid: nat)
    requires IsRun(dbs, steps) && i <= j < |dbs|
    requires name in dbs[i] && name in dbs[j] && dbs[i][name].validity == dbs[j][name].validity
    requires uid < dbs[i][name].nextUid && uid !in dbs[i][name].rows
    ensures uid !in dbs[j][name].rows
  {
    RunsGrow(dbs, steps, i, j);
  }
}
