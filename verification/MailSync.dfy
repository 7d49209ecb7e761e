/** The reconciler's side of the bargain: a Mirror folder that remembers a
    UIDVALIDITY, a UIDNEXT and a HIGHESTMODSEQ, plans each cycle from one status
    row, and finds deletions only by counting (section 3.1 of RFC 7162 without
    QRESYNC). */
module MailSync {
  import opened Basics
  import opened GraphTables

  /** A mirrored folder: its sync state and its placements, uid to flags. */
  datatype Folder = Folder(validity: nat, uidNext: nat, modseq: nat, rows: map<nat, Flags>)

  const UNSYNCED := Folder(0, 0, 0, map[])

  datatype Plan = Nothing | Resync | Incremental(flagsSince: nat, newFrom: nat, expungeDiff: bool)

  /** The decision about one folder. Zero in flagsSince or newFrom means that the
      question is not asked. */
  function MakePlan(local: Folder, remote: FolderStatus): Plan {
    var newFrom := if remote.uidNext > local.uidNext then local.uidNext else 0;
    var countDiffers := remote.count != |local.rows|;
    if local.validity == 0 || local.validity != remote.validity then Resync
    else if remote.modseq < local.modseq then Resync
    else if remote.modseq == 0 then Incremental(0, newFrom, countDiffers)
    else if remote.modseq > local.modseq then Incremental(local.modseq, newFrom, countDiffers)
    else if countDiffers then Incremental(0, 0, true)
    else Nothing
  }

  function NewUids(changed: map<nat, Flags>, newFrom: nat): set<nat> {
    if newFrom > 0 then set u | u in changed && u >= newFrom else {}
  }

  /** Flag updates for uids that are held, then the new uids with the flags of
      their envelopes. */
  function WithChanges(rows: map<nat, Flags>, changed: map<nat, Flags>, newUids: set<nat>): map<nat, Flags> {
    map u | u in rows.Keys + (newUids * changed.Keys) :: if u in changed then changed[u] else rows[u]
  }

  /** The uid diff: what the server no longer lists goes. */
  function WithoutGone(rows: map<nat, Flags>, remoteUids: set<nat>): map<nat, Flags> {
    map u | u in rows && u in remoteUids :: rows[u]
  }

  /** The placements an incremental cycle leaves. The counts are compared again
      once the new uids are known. */
  function IncrementalRows(local: Folder, b: Box, flagsSince: nat, newFrom: nat, expungeDiff: bool): map<nat, Flags> {
    var changed := if flagsSince > 0 then ChangedSince(b, flagsSince) else map[];
    var newUids := NewUids(changed, newFrom);
    var placed := WithChanges(local.rows, changed, newUids);
    if expungeDiff || |local.rows| + |newUids| != |b.rows| then WithoutGone(placed, b.rows.Keys) else placed
  }

  /** One cycle over a folder that does not change while it runs. */
  function Cycle(local: Folder, b: Box): Folder {
    match MakePlan(local, StatusOf(b))
    case Nothing => local
    case Resync => Folder(b.validity, b.nextUid, b.modseq, Contents(b))
    case Incremental(since, newFrom, diff) =>
      Folder(b.validity, b.nextUid, b.modseq, IncrementalRows(local, b, since, newFrom, diff))
  }

  /** What an incremental cycle can catch up on: a placement that is out of date
      has a modseq past ours, and a missing one is also past our UIDNEXT. */
  ghost predicate NothingMissed(local: Folder, b: Box) {
    forall u :: u in b.rows ==>
      if u in local.rows then local.rows[u] == b.rows[u].flags || b.rows[u].modseq > local.modseq
      else b.rows[u].modseq > local.modseq && u >= local.uidNext
  }

  lemma {:induction false} SubsetOfSameSize<T>(a: set<T>, b: set<T>)
    requires a <= b && |a| == |b|
    ensures a == b
  {
    assert |b - a| == |b| - |a|;
  }

  lemma {:induction false} SameKeys(m: map<nat, Flags>, rows: map<nat, Row>)
    requires rows.Keys <= m.Keys && |m| == |rows|
    ensures m.Keys == rows.Keys
  {
    assert |m.Keys| == |m| && |rows.Keys| == |rows|;
    SubsetOfSameSize(rows.Keys, m.Keys);
  }

  /** Nothing new in the answer means every uid of the box is already held, so the
      two counts agree only when nothing is gone. */
  lemma {:induction false} CountsRevealEveryExpunge(local: Folder, b: Box, newUids: set<nat>)
    requires forall u :: u in b.rows ==> u in local.rows || u in newUids
    requires |local.rows| == |b.rows| && |local.rows| + |newUids| == |b.rows|
    ensures local.rows.Keys == b.rows.Keys
  {
    assert newUids == {};
    SameKeys(local.rows, b.rows);
  }

  /** The exact condition for an incremental cycle to leave the Mirror holding the
      folder: every deletion included, whatever the counts happen to be. */
  lemma {:induction false} CycleCatchesUpIff(local: Folder, b: Box)
    requires Sound(b)
    requires local.validity == b.validity && local.validity != 0
    requires 1 <= local.uidNext && 1 <= local.modseq <= b.modseq
    ensures Cycle(local, b).rows == Contents(b) <==> NothingMissed(local, b)
  {
    if NothingMissed(local, b) {
      IncrementalCatchesUp(local, b);
    } else {
      var u :| u in b.rows && !(
        if u in local.rows then local.rows[u] == b.rows[u].flags || b.rows[u].modseq > local.modseq
        else b.rows[u].modseq > local.modseq && u >= local.uidNext);
      MissedStaysMissed(local, b, u);
    }
  }

  /** The modseq stood still: nothing arrived and no flag moved, so the box is a
      part of what is held. */
  lemma {:induction false} StillBoxIsHeld(local: Folder, b: Box)
    requires Sound(b) && NothingMissed(local, b) && b.modseq == local.modseq
    ensures b.rows.Keys <= local.rows.Keys
    ensures forall u :: u in b.rows ==> local.rows[u] == b.rows[u].flags
  {
  }

  /** Placements that cover the box with its flags are the box, once what the
      server does not list is gone. */
  lemma {:induction false} CoveringRows(rows: map<nat, Flags>, b: Box)
    requires b.rows.Keys <= rows.Keys
    requires forall u :: u in b.rows ==> rows[u] == b.rows[u].flags
    ensures WithoutGone(rows, b.rows.Keys) == Contents(b)
    ensures rows.Keys == b.rows.Keys ==> rows == Contents(b)
  {
  }

  lemma {:induction false} ChangesCover(local: Folder, b: Box, newFrom: nat)
    requires Sound(b) && NothingMissed(local, b) && 1 <= local.uidNext
    requires newFrom == if b.nextUid > local.uidNext then local.uidNext else 0
    ensures var changed := ChangedSince(b, local.modseq);
      var placed := WithChanges(local.rows, changed, NewUids(changed, newFrom));
      && b.rows.Keys <= placed.Keys
      && forall u :: u in b.rows ==> placed[u] == b.rows[u].flags
  {
  }

  lemma {:induction false} AgreeingCountsMeanSameKeys(local: Folder, b: Box, newFrom: nat)
    requires Sound(b) && NothingMissed(local, b) && 1 <= local.uidNext
    requires newFrom == if b.nextUid > local.uidNext then local.uidNext else 0
    requires var arrived := NewUids(ChangedSince(b, local.modseq), newFrom);
      |local.rows| == |b.rows| && |local.rows| + |arrived| == |b.rows|
    ensures var changed := ChangedSince(b, local.modseq);
      WithChanges(local.rows, changed, NewUids(changed, newFrom)).Keys == b.rows.Keys
  {
    var arrived := NewUids(ChangedSince(b, local.modseq), newFrom);
    CountsRevealEveryExpunge(local, b, arrived);
    assert arrived == {};
  }

  /** The modseq moved: what is placed covers the box with its current flags, and
      is the box once what is gone has been found. */
  lemma {:induction false} ChangesAndDiff(local: Folder, b: Box, newFrom: nat, diff: bool)
    requires Sound(b) && NothingMissed(local, b) && 1 <= local.uidNext && 1 <= local.modseq
    requires newFrom == if b.nextUid > local.uidNext then local.uidNext else 0
    requires diff <==> |b.rows| != |local.rows|
    ensures IncrementalRows(local, b, local.modseq, newFrom, diff) == Contents(b)
  {
    var changed := ChangedSince(b, local.modseq);
    var newUids := NewUids(changed, newFrom);
    ChangesCover(local, b, newFrom);
    CoveringRows(WithChanges(local.rows, changed, newUids), b);
    if !diff && |local.rows| + |newUids| == |b.rows| {
      AgreeingCountsMeanSameKeys(local, b, newFrom);
    }
  }

  lemma {:induction false} NothingAsked(local: Folder, b: Box)
    ensures IncrementalRows(local, b, 0, 0, true) == WithoutGone(local.rows, b.rows.Keys)
  {
  }

  lemma {:induction false} StillCatchesUp(local: Folder, b: Box)
    requires Sound(b) && NothingMissed(local, b) && b.modseq == local.modseq
    ensures |b.rows| == |local.rows| ==> local.rows == Contents(b)
    ensures WithoutGone(local.rows, b.rows.Keys) == Contents(b)
  {
    StillBoxIsHeld(local, b);
    CoveringRows(local.rows, b);
    if |b.rows| == |local.rows| {
      SameKeys(local.rows, b.rows);
    }
  }

  lemma {:induction false} MovedCatchesUp(local: Folder, b: Box)
    requires Sound(b) && NothingMissed(local, b)
    requires local.validity == b.validity && local.validity != 0
    requires 1 <= local.uidNext && 1 <= local.modseq < b.modseq
    ensures Cycle(local, b).rows == Contents(b)
  {
    ChangesAndDiff(local, b, if b.nextUid > local.uidNext then local.uidNext else 0, |b.rows| != |local.rows|);
  }

  lemma {:induction false} IncrementalCatchesUp(local: Folder, b: Box)
    requires Sound(b) && NothingMissed(local, b)
    requires local.validity == b.validity && local.validity != 0
    requires 1 <= local.uidNext && 1 <= local.modseq <= b.modseq
    ensures Cycle(local, b).rows == Contents(b)
  {
    if b.modseq > local.modseq {
      MovedCatchesUp(local, b);
    } else {
      StillCatchesUp(local, b);
      NothingAsked(local, b);
    }
  }

  lemma {:induction false} MissedStaysMissed(local: Folder, b: Box, u: nat)
    requires Sound(b) && u in b.rows
    requires local.validity == b.validity && local.validity != 0
    requires 1 <= local.modseq <= b.modseq
    requires if u in local.rows then local.rows[u] != b.rows[u].flags && b.rows[u].modseq <= local.modseq
             else b.rows[u].modseq <= local.modseq || u < local.uidNext
    ensures u !in Cycle(local, b).rows || Cycle(local, b).rows[u] != b.rows[u].flags
  {
  }

  /** How the Mirror and the store stand between cycles. */
  ghost predicate Coherent(local: Folder, b: Box) {
    || local.validity == 0
    || local.validity < b.validity
    || (&& local.validity == b.validity
        && 1 <= local.modseq <= b.modseq
        && 1 <= local.uidNext <= b.nextUid
        && NothingMissed(local, b))
  }

  /** A coherent folder is current after one cycle, and coherent again. */
  lemma {:induction false} CycleCatchesUp(local: Folder, b: Box)
    requires Sound(b) && Coherent(local, b)
    ensures Cycle(local, b).rows == Contents(b)
    ensures Coherent(Cycle(local, b), b)
  {
    if local.validity != 0 && local.validity == b.validity {
      CycleCatchesUpIff(local, b);
    }
  }

  // ---------- what the store may do between cycles ----------

  /** Every change the store makes on its own is announced: a higher UIDVALIDITY,
      or a modseq past all it has given out. */
  ghost predicate Announced(b: Box, c: Box) {
    || b.validity < c.validity
    || (&& b.validity == c.validity
        && b.nextUid <= c.nextUid
        && b.modseq <= c.modseq
        && forall u :: u in c.rows ==>
             || (u in b.rows && c.rows[u].flags == b.rows[u].flags && b.rows[u].modseq <= c.rows[u].modseq)
             || (c.rows[u].modseq > b.modseq && (u in b.rows || u >= b.nextUid)))
  }

  lemma {:induction false} AnnouncedKeepsCoherent(local: Folder, b: Box, c: Box)
    requires Coherent(local, b) && Announced(b, c)
    ensures Coherent(local, c)
  {
  }

  lemma {:induction false} AnnouncedTransitive(a: Box, b: Box, c: Box)
    requires Announced(a, b) && Announced(b, c)
    ensures Announced(a, c)
  {
  }
}
