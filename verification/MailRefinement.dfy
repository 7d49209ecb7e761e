/** The store, the Mirror and the writers together: whatever happens between two
    cycles, the cycle leaves the Mirror holding exactly the folder. Two writes
    break that promise in the code as it stands, and the lemmas say exactly when. */
module MailRefinement {
  import opened Basics
  import opened GraphTables
  import opened DeltaMeaning
  import opened GraphHistory
  import opened MailSync

  datatype System = System(db: Db, mirror: map<string, Folder>)

  datatype Event =
    | ServerSide(s: Step)
    | CycleOf(name: string)
    | FlagWrite(name: string, uid: nat, flags: Flags, cats: seq<string>)
    | MoveWrite(name: string, uid: nat, dest: string, g: GraphId, flags: Flags, cats: seq<string>)

  function WriteRowFlags(f: Folder, uid: nat, flags: Flags): Folder {
    if uid in f.rows then f.(rows := f.rows[uid := flags]) else f
  }

  /** A flag write that was acknowledged: the store records the server's answer
      and the Mirror the same answer. */
  function AfterFlagWrite(sys: System, name: string, uid: nat, flags: Flags, cats: seq<string>): System {
    var db := SetFlags(sys.db, name, uid, flags, cats);
    if name in sys.db && uid in sys.db[name].rows && name in sys.mirror then
      System(db, sys.mirror[name := WriteRowFlags(sys.mirror[name], uid, flags)])
    else System(db, sys.mirror)
  }

  /** The store's half of a move: the row is dropped where it was and placed where
      it went, unless the store does not have the message any more. */
  function MovedDb(db: Db, name: string, uid: nat, dest: string, g: GraphId, flags: Flags, cats: seq<string>): Db {
    if name in db && uid in db[name].rows then Place(Drop(db, name, uid), dest, g, flags, cats) else db
  }

  /** The Mirror's half of a move: the placement goes, and reappears under the new
      uid with the flags the Mirror had for it. A placement the Mirror does not
      hold stops it. */
  function MovedMirror(sys: System, name: string, uid: nat, dest: string, g: GraphId, db': Db): map<string, Folder> {
    if name !in sys.mirror || uid !in sys.mirror[name].rows then sys.mirror
    else
      var f := sys.mirror[name];
      var left := sys.mirror[name := f.(rows := f.rows - {uid})];
      if name in sys.db && uid in sys.db[name].rows && dest in db' && g in db'[dest].ids && dest in left then
        left[dest := WithPlacement(left[dest], db'[dest].ids[g], f.rows[uid])]
      else left
  }

  function WithPlacement(f: Folder, uid: nat, flags: Flags): Folder {
    f.(rows := f.rows[uid := flags])
  }

  /** A move into a folder the store does not know is refused before anything. */
  function AfterMove(sys: System, name: string, uid: nat, dest: string, g: GraphId, flags: Flags, cats: seq<string>): System {
    if dest !in sys.db then sys
    else
      var db := MovedDb(sys.db, name, uid, dest, g, flags, cats);
      System(db, MovedMirror(sys, name, uid, dest, g, db))
  }

  function NextSystem(sys: System, e: Event): System {
    match e
    case ServerSide(s) => System(Next(sys.db, s), sys.mirror)
    case CycleOf(name) =>
      if name in sys.db && name in sys.mirror
      then System(sys.db, sys.mirror[name := Cycle(sys.mirror[name], sys.db[name])])
      else sys
    case FlagWrite(name, uid, flags, cats) => AfterFlagWrite(sys, name, uid, flags, cats)
    case MoveWrite(name, uid, dest, g, flags, cats) =>
      AfterMove(sys, name, uid, dest, g, flags, cats)
  }

  // ---------- the invariant ----------

  ghost predicate Stands(sys: System, name: string)
    requires name in sys.mirror
  {
    if name in sys.db then Coherent(sys.mirror[name], sys.db[name]) else sys.mirror[name].validity == 0
  }

  ghost predicate AllCoherent(sys: System) {
    && SoundDb(sys.db)
    && forall name | name in sys.mirror :: Stands(sys, name)
  }

  lemma {:induction false} ItemAnnounced(b: Box, it: Seen)
    requires Sound(b) && b.nextUid < MAX_UINT32
    ensures ApplyItem(b, it).Some? && Announced(b, ApplyItem(b, it).value)
  {
  }

  lemma {:induction false} DeltaAnnounced(b: Box, items: seq<Seen>)
    requires Sound(b) && b.nextUid + |items| <= MAX_UINT32
    ensures ApplyItems(b, items).Some? && Announced(b, ApplyItems(b, items).value)
  {
    if items != [] {
      var front := items[..|items| - 1];
      DeltaCounters(b, front);
      DeltaAnnounced(b, front);
      ItemAnnounced(ApplyItems(b, front).value, items[|items| - 1]);
      AnnouncedTransitive(b, ApplyItems(b, front).value, ApplyItems(b, items).value);
    }
  }

  lemma {:induction false} InsertAnnounced(b: Box, g: GraphId, flags: Flags, cats: seq<string>)
    requires Sound(b) && g !in b.ids && b.nextUid < MAX_UINT32
    ensures Insert(b, g, flags, cats).Some? && Announced(b, Insert(b, g, flags, cats).value)
  {
  }

  /** One folder after a step of the store, every kind but a bare flag write. */
  lemma {:induction false} StepAnnounced(db: Db, s: Step, name: string)
    requires SoundDb(db) && HasRoom(db, s) && !s.SetFlagsStep? && name in db
    ensures name in Next(db, s) && Announced(db[name], Next(db, s)[name])
  {
    if s.name == name {
      match s
      case SetFolderStep(_, g, now) => ResetRaisesValidityIff(db, name, g, now);
      case ResetStep(_, g, now) => ResetRaisesValidityIff(db, name, g, now);
      case DeltaStep(_, items, link) => DeltaAnnounced(db[name], items);
      case PlaceStep(_, g, flags, cats) =>
        if g !in db[name].ids { InsertAnnounced(db[name], g, flags, cats); }
      case SetFlagsStep(_, _, _, _) =>
      case DropStep(_, uid) =>
    }
  }

  lemma {:induction false} ServerSideKeepsCoherent(sys: System, s: Step)
    requires AllCoherent(sys) && HasRoom(sys.db, s) && !s.SetFlagsStep?
    ensures AllCoherent(System(Next(sys.db, s), sys.mirror))
  {
    NextGrows(sys.db, s);
    var after := System(Next(sys.db, s), sys.mirror);
    forall name | name in after.mirror ensures Stands(after, name) {
      assert Stands(sys, name);
      if name in sys.db {
        StepAnnounced(sys.db, s, name);
        AnnouncedKeepsCoherent(sys.mirror[name], sys.db[name], after.db[name]);
      }
    }
  }

  lemma {:induction false} CycleKeepsCoherent(sys: System, name: string)
    requires AllCoherent(sys) && name in sys.db && name in sys.mirror
    ensures AllCoherent(NextSystem(sys, CycleOf(name)))
    ensures NextSystem(sys, CycleOf(name)).mirror[name].rows == Contents(sys.db[name])
  {
    assert Stands(sys, name);
    CycleCatchesUp(sys.mirror[name], sys.db[name]);
    var after := NextSystem(sys, CycleOf(name));
    forall n | n in after.mirror ensures Stands(after, n) {
      assert Stands(sys, n);
    }
  }

  lemma {:induction false} AcknowledgedWriteKeepsCoherent(f: Folder, b: Box, uid: nat, flags: Flags, cats: seq<string>)
    requires Coherent(f, b) && uid in b.rows
    ensures Coherent(WriteRowFlags(f, uid, flags), WithFlags(b, uid, flags, cats))
  {
  }

  lemma {:induction false} FlagWriteKeepsCoherent(sys: System, name: string, uid: nat, flags: Flags, cats: seq<string>)
    requires AllCoherent(sys)
    ensures AllCoherent(AfterFlagWrite(sys, name, uid, flags, cats))
  {
    var after := AfterFlagWrite(sys, name, uid, flags, cats);
    if name in sys.db { UpdateGrows(sys.db, name, WithFlags(sys.db[name], uid, flags, cats)); }
    forall n | n in after.mirror ensures Stands(after, n) {
      assert Stands(sys, n);
      if n == name && name in sys.db && uid in sys.db[name].rows {
        AcknowledgedWriteKeepsCoherent(sys.mirror[name], sys.db[name], uid, flags, cats);
      }
    }
  }

  // ---------- moves ----------

  /** The one move that spoils the Mirror: the destination's store row is already
      there, the Mirror has nothing to learn about it, and the flags the Mirror
      carries over are not its flags. */
  predicate CarriesStaleFlags(f: Folder, b: Box, g: GraphId, carried: Flags) {
    && f.validity != 0
    && f.validity == b.validity
    && g in b.ids
    && b.rows[b.ids[g]].modseq <= f.modseq
    && b.rows[b.ids[g]].flags != carried
  }

  /** The destination box once the message has its place there. */
  function PlacedBox(b: Box, g: GraphId, flags: Flags, cats: seq<string>): (c: Box)
    requires b.nextUid !in b.rows
    ensures g in c.ids
  {
    if g in b.ids then b else Insert(b, g, flags, cats).value
  }

  lemma {:induction false} DestinationStaysCoherentIff(f: Folder, b: Box, g: GraphId, flags: Flags, cats: seq<string>, carried: Flags)
    requires Sound(b) && b.nextUid < MAX_UINT32 && Coherent(f, b)
    ensures var c := PlacedBox(b, g, flags, cats);
      Coherent(WithPlacement(f, c.ids[g], carried), c) <==> !CarriesStaleFlags(f, b, g, carried)
  {
  }

  lemma {:induction false} SourceStaysCoherent(f: Folder, b: Box, uid: nat)
    requires Coherent(f, b)
    ensures Coherent(f.(rows := f.rows - {uid}), WithoutUid(b, uid))
    ensures Coherent(f, WithoutUid(b, uid))
    ensures uid !in b.rows ==> Coherent(f.(rows := f.rows - {uid}), b)
  {
  }

  /** The Mirror holds the placement as current, with other flags than those written. */
  predicate LeavesStale(f: Folder, b: Box, uid: nat, flags: Flags) {
    && f.validity != 0 && f.validity == b.validity
    && uid in b.rows && uid in f.rows
    && b.rows[uid].modseq <= f.modseq
    && f.rows[uid] != flags
  }

  /** A flag write whose acknowledgement never reached the Mirror, because another
      uid of the same request failed after it. */
  lemma {:induction false} LostAcknowledgementIff(f: Folder, b: Box, uid: nat, flags: Flags, cats: seq<string>)
    requires Coherent(f, b)
    ensures Coherent(f, WithFlags(b, uid, flags, cats)) <==> !LeavesStale(f, b, uid, flags)
  {
  }

  lemma {:induction false} MovedDbSound(db: Db, name: string, uid: nat, dest: string, g: GraphId, flags: Flags, cats: seq<string>)
    requires SoundDb(db) && name != dest && dest in db && db[dest].nextUid < MAX_UINT32
    requires name in db && uid in db[name].rows
    ensures SoundDb(MovedDb(db, name, uid, dest, g, flags, cats))
  {
    NextGrows(db, DropStep(name, uid));
    NextGrows(Drop(db, name, uid), PlaceStep(dest, g, flags, cats));
  }

  /** Where a move leaves every box: the source without the uid, the destination
      with a place for the message, the others alone. */
  lemma {:induction false} MovedDbAt(db: Db, name: string, uid: nat, dest: string, g: GraphId, flags: Flags, cats: seq<string>, n: string)
    requires SoundDb(db) && name != dest && dest in db && name in db && uid in db[name].rows && n in db
    ensures var db' := MovedDb(db, name, uid, dest, g, flags, cats);
      n in db' && db'[n] == if n == dest then PlacedBox(db[n], g, flags, cats)
                            else if n == name then WithoutUid(db[n], uid) else db[n]
  {
    assert db[dest].nextUid !in db[dest].rows;
  }

  /** No move of this shape may be made for the guarantee to hold. */
  predicate SpoilsMirror(sys: System, name: string, uid: nat, dest: string, g: GraphId) {
    && name in sys.mirror && uid in sys.mirror[name].rows
    && name in sys.db && uid in sys.db[name].rows
    && dest in sys.mirror && dest in sys.db
    && CarriesStaleFlags(sys.mirror[dest], sys.db[dest], g, sys.mirror[name].rows[uid])
  }

  lemma {:induction false} MoveSourceStands(sys: System, name: string, uid: nat, dest: string, g: GraphId, flags: Flags, cats: seq<string>)
    requires AllCoherent(sys) && name != dest && dest in sys.db
    requires name in sys.db && uid in sys.db[name].rows && name in sys.mirror
    ensures name in AfterMove(sys, name, uid, dest, g, flags, cats).mirror
    ensures Stands(AfterMove(sys, name, uid, dest, g, flags, cats), name)
  {
    assert Stands(sys, name);
    MovedDbAt(sys.db, name, uid, dest, g, flags, cats, name);
    SourceStaysCoherent(sys.mirror[name], sys.db[name], uid);
  }

  lemma {:induction false} MoveDestinationStands(sys: System, name: string, uid: nat, dest: string, g: GraphId, flags: Flags, cats: seq<string>)
    requires AllCoherent(sys) && name != dest && dest in sys.db && sys.db[dest].nextUid < MAX_UINT32
    requires name in sys.db && uid in sys.db[name].rows && dest in sys.mirror
    requires !SpoilsMirror(sys, name, uid, dest, g)
    ensures dest in AfterMove(sys, name, uid, dest, g, flags, cats).mirror
    ensures Stands(AfterMove(sys, name, uid, dest, g, flags, cats), dest)
  {
    var f, b := sys.mirror[dest], sys.db[dest];
    assert Stands(sys, dest);
    MovedDbAt(sys.db, name, uid, dest, g, flags, cats, dest);
    if name in sys.mirror && uid in sys.mirror[name].rows {
      DestinationStaysCoherentIff(f, b, g, flags, cats, sys.mirror[name].rows[uid]);
    } else if g !in b.ids {
      InsertAnnounced(b, g, flags, cats);
      AnnouncedKeepsCoherent(f, b, PlacedBox(b, g, flags, cats));
    }
  }

  lemma {:induction false} MoveBystanderStands(sys: System, name: string, uid: nat, dest: string, g: GraphId, flags: Flags, cats: seq<string>, n: string)
    requires AllCoherent(sys) && name != dest && dest in sys.db
    requires name in sys.db && uid in sys.db[name].rows
    requires n in sys.mirror && n != name && n != dest
    ensures n in AfterMove(sys, name, uid, dest, g, flags, cats).mirror
    ensures Stands(AfterMove(sys, name, uid, dest, g, flags, cats), n)
  {
    assert Stands(sys, n);
    if n in sys.db { MovedDbAt(sys.db, name, uid, dest, g, flags, cats, n); }
  }

  lemma {:induction false} MoveKeepsCoherent(sys: System, name: string, uid: nat, dest: string, g: GraphId, flags: Flags, cats: seq<string>)
    requires AllCoherent(sys) && name != dest && (dest in sys.db ==> sys.db[dest].nextUid < MAX_UINT32)
    requires !SpoilsMirror(sys, name, uid, dest, g)
    ensures AllCoherent(AfterMove(sys, name, uid, dest, g, flags, cats))
  {
    var after := AfterMove(sys, name, uid, dest, g, flags, cats);
    if dest in sys.db {
      if name in sys.db && uid in sys.db[name].rows {
        MovedDbSound(sys.db, name, uid, dest, g, flags, cats);
        forall n | n in after.mirror ensures Stands(after, n) {
          if n == name {
            MoveSourceStands(sys, name, uid, dest, g, flags, cats);
          } else if n == dest {
            MoveDestinationStands(sys, name, uid, dest, g, flags, cats);
          } else {
            MoveBystanderStands(sys, name, uid, dest, g, flags, cats, n);
          }
        }
      } else {
        forall n | n in after.mirror ensures Stands(after, n) {
          assert Stands(sys, n);
          if n == name && n in sys.db { SourceStaysCoherent(sys.mirror[n], sys.db[n], uid); }
        }
      }
    }
  }

  // ---------- whole runs ----------

  /** A step has room in the counters. */
  predicate RoomFor(sys: System, e: Event) {
    match e
    case ServerSide(s) => HasRoom(sys.db, s)
    case MoveWrite(name, _, dest, _, _, _) => name != dest && (dest in sys.db ==> sys.db[dest].nextUid < MAX_UINT32)
    case _ => true
  }

  /** What a run may do: anything with room in the counters, short of the two
      writes that spoil the Mirror. */
  predicate Allowed(sys: System, e: Event) {
    RoomFor(sys, e) &&
    match e
    case ServerSide(SetFlagsStep(name, uid, flags, _)) =>
      name in sys.db && name in sys.mirror ==> !LeavesStale(sys.mirror[name], sys.db[name], uid, flags)
    case MoveWrite(name, uid, dest, g, _, _) => !SpoilsMirror(sys, name, uid, dest, g)
    case _ => true
  }

  lemma {:induction false} UnheardWriteKeepsCoherent(sys: System, s: Step)
    requires AllCoherent(sys) && s.SetFlagsStep? && Allowed(sys, ServerSide(s))
    ensures AllCoherent(System(Next(sys.db, s), sys.mirror))
  {
    NextGrows(sys.db, s);
    var after := System(Next(sys.db, s), sys.mirror);
    forall name | name in after.mirror ensures Stands(after, name) {
      assert Stands(sys, name);
      if name == s.name && name in sys.db {
        LostAcknowledgementIff(sys.mirror[name], sys.db[name], s.uid, s.flags, s.cats);
      }
    }
  }

  lemma {:induction false} NextKeepsCoherent(sys: System, e: Event)
    requires AllCoherent(sys) && Allowed(sys, e)
    ensures AllCoherent(NextSystem(sys, e))
  {
    match e
    case ServerSide(s) =>
      if s.SetFlagsStep? { UnheardWriteKeepsCoherent(sys, s); } else { ServerSideKeepsCoherent(sys, s); }
    case CycleOf(name) =>
      if name in sys.db && name in sys.mirror { CycleKeepsCoherent(sys, name); }
    case FlagWrite(name, uid, flags, cats) => FlagWriteKeepsCoherent(sys, name, uid, flags, cats);
    case MoveWrite(name, uid, dest, g, flags, cats) => MoveKeepsCoherent(sys, name, uid, dest, g, flags, cats);
  }

  ghost predicate IsSystemRun(states: seq<System>, events: seq<Event>) {
    && |states| == |events| + 1
    && states[0].db == map[]
    && (forall name :: name in states[0].mirror ==> states[0].mirror[name] == UNSYNCED)
    && forall k :: 0 <= k < |events| ==> Allowed(states[k], events[k]) && states[k + 1] == NextSystem(states[k], events[k])
  }

  lemma {:induction false} RunsStayCoherent(states: seq<System>, events: seq<Event>, k: nat)
    requires IsSystemRun(states, events) && k < |states|
    ensures AllCoherent(states[k])
  {
    if k > 0 {
      RunsStayCoherent(states, events, k - 1);
      NextKeepsCoherent(states[k - 1], events[k - 1]);
    }
  }

  /** The guarantee: wherever a run has got to, a cycle leaves the Mirror's folder
      equal to the store's, uid for uid and flag for flag. */
  lemma {:induction false} EveryCycleEndsCurrent(states: seq<System>, events: seq<Event>, k: nat, name: string)
    requires IsSystemRun(states, events) && k < |states|
    requires name in states[k].db && name in states[k].mirror
    ensures Cycle(states[k].mirror[name], states[k].db[name]).rows == Contents(states[k].db[name])
  {
    RunsStayCoherent(states, events, k);
    CycleKeepsCoherent(states[k], name);
  }

  // ---------- where the guarantee stops ----------

  /** A placement left behind by either of the two writes: held as current, with other
      flags than the store's. */
  ghost predicate IsStale(f: Folder, b: Box, uid: nat) {
    && f.validity == b.validity && 1 <= f.modseq <= b.modseq
    && uid in b.rows && LeavesStale(f, b, uid, b.rows[uid].flags)
  }

  /** A write of our own to the placement, or a move of its message. */
  predicate Touches(sys: System, e: Event, name: string, uid: nat) {
    match e
    case FlagWrite(n, u, _, _) => n == name && u == uid
    case MoveWrite(n, u, dest, g, _, _) =>
      (n == name && u == uid) || (dest == name && name in sys.db && g in sys.db[name].ids && sys.db[name].ids[g] == uid)
    case _ => false
  }

  /** The store goes on holding the message as it does, under the same UIDVALIDITY. */
  predicate HeldAlike(a: Db, b: Db, name: string, uid: nat) {
    && name in a && name in b && a[name].validity == b[name].validity && uid in a[name].rows && uid in b[name].rows
    && a[name].rows[uid].flags == b[name].rows[uid].flags && a[name].rows[uid].modseq == b[name].rows[uid].modseq
  }

  lemma {:induction false} CycleLeavesStale(f: Folder, b: Box, uid: nat)
    requires Sound(b) && IsStale(f, b, uid)
    ensures IsStale(Cycle(f, b), b, uid)
  {
    MissedStaysMissed(f, b, uid);
  }

  lemma {:induction false} NextIsSound(sys: System, e: Event)
    requires SoundDb(sys.db) && RoomFor(sys, e)
    ensures SoundDb(NextSystem(sys, e).db)
  {
    match e
    case ServerSide(s) => NextGrows(sys.db, s);
    case CycleOf(_) =>
    case FlagWrite(name, uid, flags, cats) => NextGrows(sys.db, SetFlagsStep(name, uid, flags, cats));
    case MoveWrite(name, uid, dest, g, flags, cats) =>
      if dest in sys.db && name in sys.db && uid in sys.db[name].rows {
        MovedDbSound(sys.db, name, uid, dest, g, flags, cats);
      }
  }

  lemma {:induction false} MoveKeepsModseq(sys: System, name: string, uid: nat, dest: string, g: GraphId, flags: Flags, cats: seq<string>,
                                           n: string)
    requires SoundDb(sys.db) && name != dest && dest in sys.db && sys.db[dest].nextUid < MAX_UINT32 && n in sys.db
    ensures var db := MovedDb(sys.db, name, uid, dest, g, flags, cats);
            n in db && sys.db[n].modseq <= db[n].modseq && (n == dest && g in sys.db[n].ids ==> db[n] == sys.db[n])
  {
    if name in sys.db && uid in sys.db[name].rows {
      MovedDbAt(sys.db, name, uid, dest, g, flags, cats, n);
    }
  }

  /** A placement put beside it or taken away beside it leaves it as it is. */
  lemma {:induction false} StaleBeside(f: Folder, f': Folder, b: Box, c: Box, uid: nat)
    requires IsStale(f, b, uid) && f'.validity == f.validity && f'.modseq == f.modseq
    requires uid in f'.rows && f'.rows[uid] == f.rows[uid]
    requires c.validity == b.validity && b.modseq <= c.modseq && uid in c.rows
    requires c.rows[uid].flags == b.rows[uid].flags && c.rows[uid].modseq == b.rows[uid].modseq
    ensures IsStale(f', c, uid)
  {
  }

  /** What a move does to the Mirror's other placements: nothing. */
  lemma {:induction false} MoveMirrorsBeside(sys: System, e: Event, name: string, uid: nat)
    requires SoundDb(sys.db) && RoomFor(sys, e) && e.MoveWrite? && !Touches(sys, e, name, uid)
    requires name in sys.db && name in sys.mirror && uid in sys.mirror[name].rows && uid in sys.db[name].rows
    ensures name in NextSystem(sys, e).mirror
    ensures var f, f' := sys.mirror[name], NextSystem(sys, e).mirror[name];
            f'.validity == f.validity && f'.modseq == f.modseq && uid in f'.rows && f'.rows[uid] == f.rows[uid]
  {
    if e.dest in sys.db && e.name in sys.db && e.uid in sys.db[e.name].rows {
      MovedDbAt(sys.db, e.name, e.uid, e.dest, e.g, e.flags, e.cats, e.dest);
      assert sys.db[e.dest].nextUid !in sys.db[e.dest].rows;
    }
  }

  lemma {:induction false} MoveStaysStale(sys: System, e: Event, name: string, uid: nat)
    requires SoundDb(sys.db) && RoomFor(sys, e) && e.MoveWrite? && !Touches(sys, e, name, uid)
    requires name in sys.db && name in sys.mirror && IsStale(sys.mirror[name], sys.db[name], uid)
    requires HeldAlike(sys.db, NextSystem(sys, e).db, name, uid)
    ensures name in NextSystem(sys, e).mirror && IsStale(NextSystem(sys, e).mirror[name], NextSystem(sys, e).db[name], uid)
  {
    var after := NextSystem(sys, e);
    MoveMirrorsBeside(sys, e, name, uid);
    if e.dest in sys.db {
      MoveKeepsModseq(sys, e.name, e.uid, e.dest, e.g, e.flags, e.cats, name);
    }
    StaleBeside(sys.mirror[name], after.mirror[name], sys.db[name], after.db[name], uid);
  }

  lemma {:induction false} StaysStale(sys: System, e: Event, name: string, uid: nat)
    requires SoundDb(sys.db) && RoomFor(sys, e) && !Touches(sys, e, name, uid)
    requires name in sys.db && name in sys.mirror && IsStale(sys.mirror[name], sys.db[name], uid)
    requires HeldAlike(sys.db, NextSystem(sys, e).db, name, uid)
    ensures name in NextSystem(sys, e).mirror && IsStale(NextSystem(sys, e).mirror[name], NextSystem(sys, e).db[name], uid)
  {
    match e
    case ServerSide(s) => NextGrows(sys.db, s);
    case CycleOf(n) => if n == name { CycleLeavesStale(sys.mirror[name], sys.db[name], uid); }
    case FlagWrite(_, _, _, _) =>
    case MoveWrite(_, _, _, _, _, _) => MoveStaysStale(sys, e, name, uid);
  }

  /** Over any run, whatever the deltas, the cycles and the other writes, the placement
      stays wrong in the Mirror for as long as the store holds the message as it does
      and nothing is written to it: no cycle ever looks at it again. */
  lemma {:induction false} StalePlacementIsNeverRepaired(states: seq<System>, events: seq<Event>, n: nat, name: string, uid: nat)
    requires |states| == |events| + 1 && n < |states| && SoundDb(states[0].db)
    requires forall k :: 0 <= k < n ==>
      RoomFor(states[k], events[k]) && !Touches(states[k], events[k], name, uid) && states[k + 1] == NextSystem(states[k], events[k])
    requires forall k :: 0 <= k < n ==> HeldAlike(states[k].db, states[k + 1].db, name, uid)
    requires name in states[0].db && name in states[0].mirror && IsStale(states[0].mirror[name], states[0].db[name], uid)
    ensures SoundDb(states[n].db) && name in states[n].db && name in states[n].mirror
    ensures IsStale(states[n].mirror[name], states[n].db[name], uid)
    ensures states[n].mirror[name].rows[uid] != Contents(states[n].db[name])[uid]
  {
    if n > 0 {
      StalePlacementIsNeverRepaired(states, events, n - 1, name, uid);
      NextIsSound(states[n - 1], events[n - 1]);
      StaysStale(states[n - 1], events[n - 1], name, uid);
    }
  }

  /** And a delta that only repeats what the store holds, which is how the server
      reports our own write, leaves it so held. */
  lemma {:induction false} OwnReportChangesNothing(db: Db, name: string, items: seq<Seen>, link: string, uid: nat)
    requires name in db && uid in db[name].rows && AllAgree(Plain(db[name]), items)
    ensures HeldAlike(db, ApplyDelta(db, name, items, link), name, uid)
  {
    AgreeingItemsKeepRows(db[name], items);
  }

  /** One unread mail, marked read by a request that failed at its second uid. The
      store and the server hold it read, the next cycle plans nothing, and the
      Mirror goes on showing it unread. */
  lemma {:induction false} LostAcknowledgementExample(b: Box, f: Folder, read: Box)
    requires b == AnyBox("inbox", 7, 2, 2, "", map[1 := Row("m", [], [], 2)], map["m" := 1])
    requires f == Folder(7, 2, 2, map[1 := []])
    requires read == WithFlags(b, 1, ["\\Seen"], [])
    ensures Coherent(f, b)
    ensures Cycle(f, read) == f
    ensures f.rows[1] != Contents(read)[1]
  {
  }

  /** A row of the destination the Mirror has nothing to learn about, carried over it. */
  lemma {:induction false} CarriedIsStale(f: Folder, b: Box, g: GraphId, carried: Flags)
    requires g in b.ids && CarriesStaleFlags(f, b, g, carried) && 1 <= f.modseq <= b.modseq
    ensures IsStale(WithPlacement(f, b.ids[g], carried), b, b.ids[g])
  {
  }

  lemma {:induction false} MovedOnto(sys: System, name: string, uid: nat, dest: string, g: GraphId, flags: Flags, cats: seq<string>)
    requires name != dest && name in sys.db && uid in sys.db[name].rows && dest in sys.db && g in sys.db[dest].ids
    requires name in sys.mirror && uid in sys.mirror[name].rows && dest in sys.mirror
    ensures var after := AfterMove(sys, name, uid, dest, g, flags, cats);
            && dest in after.db && after.db[dest] == sys.db[dest] && dest in after.mirror
            && after.mirror[dest] == WithPlacement(sys.mirror[dest], sys.db[dest].ids[g], sys.mirror[name].rows[uid])
  {
  }

  /** One mail that somebody moved in Outlook, where it is read, moved again by a caller
      who still sees it unread where it was: it lands in the Mirror unread, beside a
      store row that is read. */
  lemma {:induction false} StaleCarryExample(inbox: Box, done: Box, sys: System)
    requires inbox == AnyBox("i", 7, 2, 2, "", map[1 := Row("m", [], [], 2)], map["m" := 1])
    requires done == AnyBox("d", 8, 2, 2, "", map[1 := Row("m", ["\\Seen"], [], 2)], map["m" := 1])
    requires sys == System(map["inbox" := inbox, "done" := done],
                           map["inbox" := Folder(7, 2, 2, map[1 := []]), "done" := Folder(8, 2, 2, map[1 := ["\\Seen"]])])
    ensures AllCoherent(sys)
    ensures var after := AfterMove(sys, "inbox", 1, "done", "m", ["\\Seen"], []);
            "done" in after.db && "done" in after.mirror && IsStale(after.mirror["done"], after.db["done"], 1)
  {
    TwoBoxesCoherent(sys, inbox, done);
    MovedOnto(sys, "inbox", 1, "done", "m", ["\\Seen"], []);
    CarriedIsStale(sys.mirror["done"], done, "m", []);
  }

  lemma {:induction false} TwoBoxesCoherent(sys: System, inbox: Box, done: Box)
    requires sys.db == map["inbox" := inbox, "done" := done] && sys.mirror.Keys == {"inbox", "done"}
    requires Sound(inbox) && Sound(done) && Coherent(sys.mirror["inbox"], inbox) && Coherent(sys.mirror["done"], done)
    ensures AllCoherent(sys)
  {
  }
}
