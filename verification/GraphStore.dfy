/** The store as the program runs it, each method proved against the function of
    the tables it carries out. */
module GraphStore {
  import opened Basics
  import opened GraphTables

  class Store {
    var boxes: Db

    constructor ()
      ensures boxes == map[]
    {
      boxes := map[];
    }

    method SetFolder(name: string, graphId: string, now: int)
      modifies this
      ensures boxes == GraphTables.SetFolder(old(boxes), name, graphId, now)
    {
      if name in boxes && boxes[name].graphId == graphId {
        return;
      }
      ResetFolder(name, graphId, now);
    }

    method ResetFolder(name: string, graphId: string, now: int)
      modifies this
      ensures boxes == Reset(old(boxes), name, graphId, now)
    {
      var validity := Uint32(now);
      if name in boxes && boxes[name].validity >= validity {
        validity := Uint32(boxes[name].validity + 1);
      }
      boxes := boxes[name := AnyBox(graphId, validity, 1, 1, "", map[], map[])];
    }

    /** One transaction: the rows are changed item by item and committed at the end
        with the counters and the link, or not at all. */
    method ApplyDelta(name: string, items: seq<Seen>, link: string) returns (ok: bool)
      modifies this
      ensures boxes == GraphTables.ApplyDelta(old(boxes), name, items, link)
      ensures ok <==> name in old(boxes) && ApplyItems(old(boxes)[name], items).Some?
    {
      if name !in boxes {
        return false;
      }
      var tx: Box := boxes[name];
      for i := 0 to |items|
        invariant boxes == old(boxes)
        invariant ApplyItems(boxes[name], items[..i]) == Some(tx)
      {
        assert items[..i + 1][..i] == items[..i];
        var after := Report(tx, items[i]);
        if after.None? {
          FailedPrefix(boxes[name], items, i + 1);
          return false;
        }
        tx := after.value;
      }
      assert items[..|items|] == items;
      boxes := boxes[name := tx.(delta := link)];
      return true;
    }

    /** One item of a delta inside the transaction; None is the primary key
        refusing the uid, which rolls the transaction back. */
    static method Report(b: Box, it: Seen) returns (after: Option<Box>)
      ensures after == ApplyItem(b, it)
    {
      var next, modseq, rows, ids := b.nextUid, b.modseq, b.rows, b.ids;
      if it.removed {
        if it.graphId in ids {
          rows, ids := rows - {ids[it.graphId]}, ids - {it.graphId};
        }
      } else if it.graphId !in ids {
        modseq := modseq + 1;
        if next in rows {
          return None;
        }
        rows, ids := rows[next := Row(it.graphId, it.flags, it.categories, modseq)], ids[it.graphId := next];
        next := Uint32(next + 1);
      } else {
        var uid := ids[it.graphId];
        if rows[uid].flags != it.flags {
          modseq := modseq + 1;
          rows := rows[uid := Row(it.graphId, it.flags, it.categories, modseq)];
        } else {
          rows := rows[uid := rows[uid].(categories := it.categories)];
        }
      }
      return Some(b.(nextUid := next, modseq := modseq, rows := rows, ids := ids));
    }

    /** What IMAP's STATUS promises of a sound folder: it lists as many messages as
        are counted, none at or past UIDNEXT, and asked for what has changed since the
        modseq reported it has nothing to say. */
    method Status(name: string) returns (st: Option<FolderStatus>)
      ensures st == if name in boxes then Some(StatusOf(boxes[name])) else None
      ensures st.Some? ==> st.value.count == |Contents(boxes[name])|
      ensures st.Some? && Sound(boxes[name]) ==>
                && (forall uid :: uid in Contents(boxes[name]) ==> 1 <= uid < st.value.uidNext)
                && ChangedSince(boxes[name], st.value.modseq) == map[]
    {
      if name !in boxes {
        return None;
      }
      var b := boxes[name];
      assert Contents(b).Keys == b.rows.Keys;
      return Some(FolderStatus(b.validity, b.nextUid, b.modseq, |b.rows|));
    }

    method SetFlags(name: string, uid: nat, flags: Flags, cats: seq<string>)
      modifies this
      ensures boxes == GraphTables.SetFlags(old(boxes), name, uid, flags, cats)
    {
      if name in boxes {
        boxes := boxes[name := WithFlags(boxes[name], uid, flags, cats)];
      }
    }

    /** The row of a new message, and the counters it moves on. */
    static method PlaceRow(b: Box, g: GraphId, flags: Flags, cats: seq<string>) returns (after: Box)
      requires g !in b.ids && b.nextUid !in b.rows
      ensures Insert(b, g, flags, cats) == Some(after)
      ensures g in after.ids && after.ids[g] == b.nextUid
    {
      after := b.(nextUid := Uint32(b.nextUid + 1), modseq := b.modseq + 1,
                  rows := b.rows[b.nextUid := Row(g, flags, cats, b.modseq + 1)],
                  ids := b.ids[g := b.nextUid]);
    }

    /** The uid the message has in the folder, new or not; None is an error. */
    method Place(name: string, g: GraphId, flags: Flags, cats: seq<string>) returns (uid: Option<nat>)
      modifies this
      ensures boxes == GraphTables.Place(old(boxes), name, g, flags, cats)
      ensures uid == if name in boxes && g in boxes[name].ids then Some(boxes[name].ids[g]) else None
    {
      if name !in boxes {
        return None;
      }
      var b := boxes[name];
      if g in b.ids {
        return Some(b.ids[g]);
      }
      if b.nextUid in b.rows {
        return None;
      }
      var placed := PlaceRow(b, g, flags, cats);
      boxes := boxes[name := placed];
      return Some(b.nextUid);
    }

    method Drop(name: string, uid: nat)
      modifies this
      ensures boxes == GraphTables.Drop(old(boxes), name, uid)
    {
      if name in boxes {
        boxes := boxes[name := WithoutUid(boxes[name], uid)];
      }
    }
  }
}
