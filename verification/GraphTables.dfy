/** The tables of the store that makes Graph look like IMAP: for every folder a
    UIDVALIDITY, a local uid per Graph message handed out in arrival order, and a
    local modseq.

    A Box is a row of the folders table with the rows of the messages table that
    belong to it. The messages table has two unique keys, the uid within the
    folder and the Graph id within the folder; rows is the table by the first,
    ids the index by the second. */
module GraphTables {
  import opened Basics

  type GraphId = string
  type Flags = seq<string>

  datatype Row = Row(graphId: GraphId, flags: Flags, categories: seq<string>, modseq: nat)

  datatype AnyBox = AnyBox(graphId: string, validity: nat, nextUid: nat, modseq: nat, delta: string,
                           rows: map<nat, Row>, ids: map<GraphId, nat>)

  ghost predicate Indexed(rows: map<nat, Row>, ids: map<GraphId, nat>) {
    && (forall u :: u in rows ==> rows[u].graphId in ids && ids[rows[u].graphId] == u)
    && (forall g :: g in ids ==> ids[g] in rows && rows[ids[g]].graphId == g)
  }

  /** The database keeps both keys unique. */
  type Box = b: AnyBox | Indexed(b.rows, b.ids) witness AnyBox("", 0, 1, 1, "", map[], map[])

  type Db = map<string, Box>

  /** One message as a delta reports it. */
  datatype Seen = Seen(graphId: GraphId, removed: bool, flags: Flags, categories: seq<string>)

  /** What every reachable box keeps. */
  ghost predicate Sound(b: Box) {
    && 1 <= b.nextUid <= MAX_UINT32
    && b.validity <= MAX_UINT32
    && 1 <= b.modseq
    && forall u :: u in b.rows ==> 1 <= u < b.nextUid && b.rows[u].modseq <= b.modseq
  }

  ghost predicate SoundDb(db: Db) {
    forall name :: name in db ==> Sound(db[name])
  }

  /** The uids and flags an IMAP client would be shown. */
  function Contents(b: Box): map<nat, Flags> {
    map u | u in b.rows :: b.rows[u].flags
  }

  /** The plain map the folder stands for: Graph id to flags. */
  function Plain(b: Box): map<GraphId, Flags> {
    map g | g in b.ids :: b.rows[b.ids[g]].flags
  }

  // ---------- the operations, as functions of the tables ----------

  /** The UIDVALIDITY a reset picks: the clock in seconds, or one more than the
      old one when the clock has not passed it. Both are 32 bits wide. */
  function NewValidity(db: Db, name: string, now: int): nat {
    if name in db && db[name].validity >= Uint32(now) then Uint32(db[name].validity + 1) else Uint32(now)
  }

  function Reset(db: Db, name: string, graphId: string, now: int): Db {
    db[name := AnyBox(graphId, NewValidity(db, name, now), 1, 1, "", map[], map[])]
  }

  function SetFolder(db: Db, name: string, graphId: string, now: int): Db {
    if name in db && db[name].graphId == graphId then db else Reset(db, name, graphId, now)
  }

  /** Deleting rows: by Graph id, as a delta does, or by uid. */
  function Without(b: Box, g: GraphId): Box {
    if g in b.ids then b.(rows := b.rows - {b.ids[g]}, ids := b.ids - {g}) else b
  }

  function WithoutUid(b: Box, uid: nat): Box {
    if uid in b.rows then b.(rows := b.rows - {uid}, ids := b.ids - {b.rows[uid].graphId}) else b
  }

  /** A new row under the next uid. None is the primary key refusing a uid the
      folder already has, which a wrapped counter can bring about. */
  function Insert(b: Box, g: GraphId, flags: Flags, cats: seq<string>): Option<Box>
    requires g !in b.ids
  {
    if b.nextUid in b.rows then None
    else Some(b.(nextUid := Uint32(b.nextUid + 1), modseq := b.modseq + 1,
                 rows := b.rows[b.nextUid := Row(g, flags, cats, b.modseq + 1)], ids := b.ids[g := b.nextUid]))
  }

  function ApplyItem(b: Box, it: Seen): Option<Box> {
    if it.removed then Some(Without(b, it.graphId))
    else if it.graphId !in b.ids then Insert(b, it.graphId, it.flags, it.categories)
    else
      var u := b.ids[it.graphId];
      if b.rows[u].flags != it.flags then
        Some(b.(modseq := b.modseq + 1,
                rows := b.rows[u := Row(it.graphId, it.flags, it.categories, b.modseq + 1)]))
      else
        Some(b.(rows := b.rows[u := b.rows[u].(categories := it.categories)]))
  }

  function ApplyItems(b: Box, items: seq<Seen>): Option<Box> {
    if items == [] then Some(b)
    else
      var before := ApplyItems(b, items[..|items| - 1]);
      if before.None? then None else ApplyItem(before.value, items[|items| - 1])
  }

  /** A whole delta with the link that follows it, or nothing of it. */
  function ApplyDelta(db: Db, name: string, items: seq<Seen>, link: string): Db {
    if name !in db then db
    else
      var after := ApplyItems(db[name], items);
      if after.None? then db else db[name := after.value.(delta := link)]
  }

  function WithFlags(b: Box, uid: nat, flags: Flags, cats: seq<string>): Box {
    if uid in b.rows then b.(rows := b.rows[uid := b.rows[uid].(flags := flags, categories := cats)]) else b
  }

  function SetFlags(db: Db, name: string, uid: nat, flags: Flags, cats: seq<string>): Db {
    if name in db then db[name := WithFlags(db[name], uid, flags, cats)] else db
  }

  function Place(db: Db, name: string, g: GraphId, flags: Flags, cats: seq<string>): Db {
    if name !in db || g in db[name].ids then db
    else
      var after := Insert(db[name], g, flags, cats);
      if after.None? then db else db[name := after.value]
  }

  function Drop(db: Db, name: string, uid: nat): Db {
    if name in db then db[name := WithoutUid(db[name], uid)] else db
  }

  // ---------- what the store answers ----------

  datatype FolderStatus = FolderStatus(validity: nat, uidNext: nat, modseq: nat, count: nat)

  function StatusOf(b: Box): FolderStatus {
    FolderStatus(b.validity, b.nextUid, b.modseq, |b.rows|)
  }

  /** Every uid whose modseq is past since, with the flags it has. */
  function ChangedSince(b: Box, since: nat): map<nat, Flags> {
    map u | u in b.rows && b.rows[u].modseq > since :: b.rows[u].flags
  }

  lemma {:induction false} FailedPrefix(b: Box, items: seq<Seen>, n: nat)
    requires n <= |items| && ApplyItems(b, items[..n]).None?
    ensures ApplyItems(b, items).None?
    decreases |items| - n
  {
    if n < |items| {
      assert items[..n + 1][..n] == items[..n];
      FailedPrefix(b, items, n + 1);
    } else {
      assert items[..n] == items;
    }
  }
}
