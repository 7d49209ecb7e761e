/** What the store keeps beside uids and flags: which Graph folder a name stands
    for, the link its next delta goes on from, and every message's categories. Each
    is the last word on it, over any run, also one whose counters wrap and whose
    deltas are refused. */
module StoreRecords {
  import opened Basics
  import opened GraphTables
  import opened DeltaMeaning
  import opened GraphHistory

  /** Any steps from an empty store, with room in the counters or without. */
  ghost predicate IsAnyRun(dbs: seq<Db>, steps: seq<Step>) {
    && |dbs| == |steps| + 1
    && dbs[0] == map[]
    && forall k :: 0 <= k < |steps| ==> dbs[k + 1] == Next(dbs[k], steps[k])
  }

  // ---------- when a delta is refused ----------

  /** The item is a message new to the folder, and the uid it should get is taken. */
  ghost predicate RefusedAt(b: Box, items: seq<Seen>, n: nat)
    requires n < |items|
  {
    var before := ApplyItems(b, items[..n]);
    before.Some? && !items[n].removed && items[n].graphId !in before.value.ids && before.value.nextUid in before.value.rows
  }

  ghost predicate Refused(b: Box, items: seq<Seen>) {
    exists n :: 0 <= n < |items| && RefusedAt(b, items, n)
  }

  lemma {:induction false} RefusedLast(b: Box, items: seq<Seen>)
    requires items != []
    ensures var n := |items| - 1;
            ApplyItems(b, items).None? <==> ApplyItems(b, items[..n]).None? || RefusedAt(b, items, n)
  {
  }

  lemma {:induction false} RefusedEarlier(b: Box, items: seq<Seen>, n: nat, k: nat)
    requires k < n <= |items|
    ensures RefusedAt(b, items, k) <==> RefusedAt(b, items[..n], k)
  {
    assert items[..n][..k] == items[..k];
  }

  lemma {:induction false} RefusedOneMore(b: Box, items: seq<Seen>)
    requires items != []
    ensures var n := |items| - 1; Refused(b, items) <==> Refused(b, items[..n]) || RefusedAt(b, items, n)
  {
    var n := |items| - 1;
    if k :| 0 <= k < n && RefusedAt(b, items[..n], k) {
      RefusedEarlier(b, items, n, k);
    }
    if k :| 0 <= k <= n && RefusedAt(b, items, k) {
      if k < n {
        RefusedEarlier(b, items, n, k);
      }
    }
  }

  lemma {:induction false} RefusedIff(b: Box, items: seq<Seen>)
    ensures ApplyItems(b, items).None? <==> Refused(b, items)
  {
    if items != [] {
      RefusedIff(b, items[..|items| - 1]);
      RefusedLast(b, items);
      RefusedOneMore(b, items);
    }
  }

  // ---------- the folder's link and its Graph id ----------

  /** The folder is made anew: named for another Graph folder, or reset. */
  predicate StartsOver(db: Db, s: Step, name: string) {
    || (s.ResetStep? && s.name == name)
    || (s.SetFolderStep? && s.name == name && !(name in db && db[name].graphId == s.graphId))
  }

  /** A delta of the folder goes through. */
  ghost predicate Delivers(db: Db, s: Step, name: string) {
    s.DeltaStep? && s.name == name && name in db && !Refused(db[name], s.items)
  }

  lemma {:induction false} NextRecord(db: Db, s: Step, name: string)
    ensures name in Next(db, s) <==> name in db || StartsOver(db, s, name)
    ensures name in Next(db, s) ==>
              && Next(db, s)[name].delta ==
                   (if StartsOver(db, s, name) then "" else if Delivers(db, s, name) then s.link else db[name].delta)
              && Next(db, s)[name].graphId == if StartsOver(db, s, name) then s.graphId else db[name].graphId
  {
    if s.DeltaStep? && s.name in db {
      RefusedIff(db[s.name], s.items);
      ItemsKeepFolder(db[s.name], s.items);
    }
  }

  lemma {:induction false} ItemsKeepFolder(b: Box, items: seq<Seen>)
    ensures var c := ApplyItems(b, items); c.Some? ==> c.value.graphId == b.graphId && c.value.delta == b.delta
  {
    if items != [] {
      ItemsKeepFolder(b, items[..|items| - 1]);
    }
  }

  /** The last thing said of the folder's link before the moment j: step i made the
      folder anew or was a delta of it that went through, and none since did. */
  ghost predicate LastOfLink(dbs: seq<Db>, steps: seq<Step>, i: nat, j: nat, name: string)
    requires |dbs| == |steps| + 1 && j < |dbs|
  {
    && i < j && (StartsOver(dbs[i], steps[i], name) || Delivers(dbs[i], steps[i], name))
    && forall k :: i < k < j ==> !StartsOver(dbs[k], steps[k], name) && !Delivers(dbs[k], steps[k], name)
  }

  /** A folder goes on from the link of the last delta that went through since it
      was made, and from the beginning when none has: a delta that is refused, and
      every other step, leaves the link alone. */
  lemma {:induction false} LinkIsTheLastDeltas(dbs: seq<Db>, steps: seq<Step>, i: nat, j: nat, name: string)
    requires IsAnyRun(dbs, steps) && j < |dbs| && LastOfLink(dbs, steps, i, j, name)
    ensures name in dbs[j] && dbs[j][name].delta == if steps[i].DeltaStep? then steps[i].link else ""
    decreases j - i
  {
    NextRecord(dbs[j - 1], steps[j - 1], name);
    if i < j - 1 {
      LinkIsTheLastDeltas(dbs, steps, i, j - 1, name);
    }
  }

  /** There is such a last thing for every folder there is. */
  lemma {:induction false} EveryLinkHasASource(dbs: seq<Db>, steps: seq<Step>, j: nat, name: string)
    requires IsAnyRun(dbs, steps) && j < |dbs|
    ensures name in dbs[j] <==> exists i :: LastOfLink(dbs, steps, i, j, name)
  {
    if j > 0 {
      var k := j - 1;
      NextRecord(dbs[k], steps[k], name);
      EveryLinkHasASource(dbs, steps, k, name);
      if StartsOver(dbs[k], steps[k], name) || Delivers(dbs[k], steps[k], name) {
        assert LastOfLink(dbs, steps, k, j, name);
      } else {
        forall i: nat ensures LastOfLink(dbs, steps, i, j, name) <==> LastOfLink(dbs, steps, i, k, name) {
        }
      }
    }
  }

  /** And it stands for the Graph folder it was last made for. */
  lemma {:induction false} FolderIsTheOneNamed(dbs: seq<Db>, steps: seq<Step>, i: nat, j: nat, name: string)
    requires IsAnyRun(dbs, steps) && i < j < |dbs| && StartsOver(dbs[i], steps[i], name)
    requires forall k :: i < k < j ==> !StartsOver(dbs[k], steps[k], name)
    ensures name in dbs[j] && dbs[j][name].graphId == steps[i].graphId
    decreases j - i
  {
    NextRecord(dbs[j - 1], steps[j - 1], name);
    if i < j - 1 {
      FolderIsTheOneNamed(dbs, steps, i, j - 1, name);
    }
  }

  // ---------- the categories of a message ----------

  ghost predicate Knows(db: Db, name: string, g: GraphId) {
    name in db && g in db[name].ids
  }

  function Categories(db: Db, name: string, g: GraphId): seq<string>
    requires name in db && g in db[name].ids
  {
    db[name].rows[db[name].ids[g]].categories
  }

  /** What a step says of a message's categories, if it says anything: the last item
      to name it of a delta that goes through, the placement that adds it, a write to
      its row. */
  ghost predicate SaysOf(db: Db, s: Step, name: string, g: GraphId, cats: seq<string>) {
    match s
    case DeltaStep(folder, items, _) =>
      && folder == name && name in db && !Refused(db[name], items)
      && exists n :: 0 <= n < |items| && LastNaming(items, n, g) && items[n].categories == cats
    case PlaceStep(folder, id, _, written) => folder == name && id == g && !Knows(db, name, g) && written == cats
    case SetFlagsStep(folder, uid, _, written) =>
      folder == name && Knows(db, name, g) && db[name].ids[g] == uid && written == cats
    case _ => false
  }

  ghost predicate LastNaming(items: seq<Seen>, n: nat, g: GraphId) {
    n < |items| && items[n].graphId == g && Unnamed(items, n + 1, g)
  }

  ghost predicate SaysNothingOf(db: Db, s: Step, name: string, g: GraphId) {
    forall cats :: !SaysOf(db, s, name, g, cats)
  }

  /** A step leaves a message with the categories it says, or as it was. */
  lemma {:induction false} NextCategories(db: Db, s: Step, name: string, g: GraphId)
    requires Knows(Next(db, s), name, g)
    ensures SaysOf(db, s, name, g, Categories(Next(db, s), name, g)) ||
            (Knows(db, name, g) && Categories(db, name, g) == Categories(Next(db, s), name, g))
    ensures !SaysNothingOf(db, s, name, g) ==> SaysOf(db, s, name, g, Categories(Next(db, s), name, g))
  {
    if s.DeltaStep? && s.name == name && name in db {
      RefusedIff(db[name], s.items);
      if !Refused(db[name], s.items) {
        DeltaCategories(db[name], s.items, ApplyItems(db[name], s.items).value, g);
      }
    }
  }

  lemma {:induction false} DeltaCategories(b: Box, items: seq<Seen>, c: Box, g: GraphId)
    requires ApplyItems(b, items) == Some(c) && g in c.ids
    ensures if Unnamed(items, 0, g) then g in b.ids && c.rows[c.ids[g]].categories == b.rows[b.ids[g]].categories
            else exists n :: 0 <= n < |items| && LastNaming(items, n, g) && items[n].categories == c.rows[c.ids[g]].categories
  {
    if Unnamed(items, 0, g) {
      UnnamedRowStays(b, items, c, c.ids[g]);
    } else {
      var i :| 0 <= i < |items| && items[i].graphId == g;
      var k := LastItemAbout(items, i);
      LastWordStands(b, items, c, k, c.ids[g]);
      assert LastNaming(items, k, g);
    }
  }

  /** At every moment of every run the categories remembered of a message are those
      some step said of it, and no step since has said any: a write that sends the
      categories whole sends what was last heard. */
  lemma {:induction false} CategoriesAreTheLastWord(dbs: seq<Db>, steps: seq<Step>, j: nat, name: string, g: GraphId) returns (i: nat)
    requires IsAnyRun(dbs, steps) && j < |dbs| && Knows(dbs[j], name, g)
    ensures i < j && SaysOf(dbs[i], steps[i], name, g, Categories(dbs[j], name, g))
    ensures forall k :: i < k < j ==> SaysNothingOf(dbs[k], steps[k], name, g)
  {
    var k := j - 1;
    NextCategories(dbs[k], steps[k], name, g);
    if SaysNothingOf(dbs[k], steps[k], name, g) {
      i := CategoriesAreTheLastWord(dbs, steps, k, name, g);
    } else {
      i := k;
    }
  }
}
