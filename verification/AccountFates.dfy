/** What a reload does to each account, and when the daemon runs exactly what the
    file says. */
module AccountFates {
  import opened Basics
  import opened Text
  import opened Accounts
  import opened Reconcile

  /** What is running under a name, and the problem it carries. */
  datatype Entry = Entry(running: seq<Running>, problem: Option<Problem>)

  function Under(others: seq<Running>, name: string): seq<Running> {
    if others == [] then []
    else if others[0].name == name then [others[0]] + Under(others[1..], name)
    else Under(others[1..], name)
  }

  function EntryOf(s: State, name: string): Entry {
    Entry(Under(s.others, name), if name in s.problems then Some(s.problems[name]) else None)
  }

  function AllButFirst(running: seq<Running>): seq<Running> {
    if running == [] then [] else running[1..]
  }

  /** The fate of a name, from what the two files, the servers and the outbox say
      of it alone. */
  function Fate(was: map<string, Account>, now: map<string, Account>, w: World, name: string, e: Entry): Entry {
    if name in now then
      if name in was && was[name] == now[name] then e
      else
        var left := if name in was then AllButFirst(e.running) else e.running;
        if w.build(name, now[name]) then Entry(left + [Running(name, now[name])], None) else Entry(left, Some(BuildFailed))
    else if name in was then
      match w.inFlight(name)
      case None => e.(problem := Some(Unchecked))
      case Some(n) => if n > 0 then e.(problem := Some(InOutbox(n))) else Entry(AllButFirst(e.running), None)
    else e
  }

  /** None of the names differs from this one only in case. */
  ghost predicate NoTwin(names: set<string>, name: string) {
    forall other :: other in names && SameFold(other, name) ==> other == name
  }

  ghost predicate AllNamed(others: seq<Running>, names: set<string>) {
    forall i :: 0 <= i < |others| ==> others[i].name in names
  }

  /** The name a Stop goes by. */
  ghost predicate FirstOf(others: seq<Running>, i: nat, name: string) {
    i < |others| && SameFold(others[i].name, name) && forall k :: 0 <= k < i ==> !SameFold(others[k].name, name)
  }

  lemma {:induction false} StopTakes(others: seq<Running>, i: nat, name: string)
    requires FirstOf(others, i, name)
    ensures Stop(others, name) == others[..i] + others[i + 1..]
  {
    if i > 0 {
      StopTakes(others[1..], i - 1, name);
    }
  }

  lemma {:induction false} UnderBoth(a: seq<Running>, b: seq<Running>, name: string)
    ensures Under(a + b, name) == Under(a, name) + Under(b, name)
  {
    if a == [] {
      assert a + b == b;
    } else {
      UnderBoth(a[1..], b, name);
      assert (a + b)[1..] == a[1..] + b;
    }
  }

  lemma {:induction false} NoneUnder(others: seq<Running>, name: string)
    ensures Under(others, name) == [] <==> forall k :: 0 <= k < |others| ==> others[k].name != name
  {
    if others != [] {
      NoneUnder(others[1..], name);
    }
  }

  /** Stopping an account takes that one and no other exactly when the first running
      account its name folds to bears it as it is written. */
  lemma {:induction false} StopTakesItsOwnIff(others: seq<Running>, i: nat, name: string)
    requires FirstOf(others, i, name)
    ensures (forall other :: Under(Stop(others, name), other) ==
               if other == name then AllButFirst(Under(others, name)) else Under(others, other))
       <==> others[i].name == name
  {
    var first := others[i];
    StopTakes(others, i, name);
    assert others == others[..i] + ([first] + others[i + 1..]);
    NoneUnder(others[..i], first.name);
    NoneUnder(others[..i], name);
    FoldsToItself(name);
    forall other: string
      ensures Under(Stop(others, name), other) == Under(others[..i], other) + Under(others[i + 1..], other)
      ensures Under(others, other) == Under(others[..i], other) + (if other == first.name then [first] else []) + Under(others[i + 1..], other)
    {
      UnderBoth(others[..i], others[i + 1..], other);
      UnderBoth(others[..i], [first] + others[i + 1..], other);
      UnderBoth([first], others[i + 1..], other);
      assert [first][1..] == [];
    }
    if first.name != name {
      assert |Under(Stop(others, name), first.name)| < |Under(others, first.name)|;
    }
  }

  lemma {:induction false} StopTakesOne(others: seq<Running>, names: set<string>, name: string, other: string)
    requires NoTwin(names, other) && AllNamed(others, names) && name in names
    ensures Under(Stop(others, name), other) == if other == name then AllButFirst(Under(others, name)) else Under(others, other)
    ensures AllNamed(Stop(others, name), names)
  {
    if others != [] && !SameFold(others[0].name, name) {
      StopTakesOne(others[1..], names, name, other);
      FoldsToItself(others[0].name);
    } else {
      FoldsToItself(name);
    }
  }

  lemma {:induction false} FoldsToItself(name: string)
    ensures SameFold(name, name)
  {
  }

  lemma {:induction false} UnderGrows(others: seq<Running>, r: Running, name: string)
    ensures Under(others + [r], name) == Under(others, name) + if r.name == name then [r] else []
  {
    var grown := others + [r];
    if others == [] {
      assert grown[1..] == [];
      assert Under(grown[1..], name) == [];
    } else {
      UnderGrows(others[1..], r, name);
      assert grown[0] == others[0] && grown[1..] == others[1..] + [r];
    }
  }

  lemma {:induction false} BringFate(s: State, was: map<string, Account>, name: string, account: Account, w: World,
                                     names: set<string>, other: string)
    requires NoTwin(names, other) && AllNamed(s.others, names) && name in names
    ensures AllNamed(Bring(s, was, name, account, w).others, names)
    ensures EntryOf(Bring(s, was, name, account, w), other)
         == if other == name then Fate(was, map[name := account], w, name, EntryOf(s, name)) else EntryOf(s, other)
  {
    if !(name in was && was[name] == account) {
      if name in was {
        StopTakesOne(s.others, names, name, other);
      }
      var others := if name in was then Stop(s.others, name) else s.others;
      UnderGrows(others, Running(name, account), other);
    }
  }

  lemma {:induction false} DropFate(s: State, was: map<string, Account>, name: string, w: World, names: set<string>, other: string)
    requires NoTwin(names, other) && AllNamed(s.others, names) && name in names && name in was
    ensures AllNamed(Drop(s, name, w).others, names)
    ensures EntryOf(Drop(s, name, w), other)
         == if other == name then Fate(was, map[], w, name, EntryOf(s, name)) else EntryOf(s, other)
  {
    StopTakesOne(s.others, names, name, other);
  }

  lemma {:induction false} BringAllFates(s: State, was: map<string, Account>, now: map<string, Account>, list: seq<string>,
                                         w: World, names: set<string>, name: string)
    requires NoTwin(names, name) && AllNamed(s.others, names)
    requires forall n :: n in list ==> n in now && n in names
    requires forall i, j :: 0 <= i < j < |list| ==> list[i] != list[j]
    ensures AllNamed(BringAll(s, was, now, list, w).others, names)
    ensures EntryOf(BringAll(s, was, now, list, w), name)
         == if name in list then Fate(was, now, w, name, EntryOf(s, name)) else EntryOf(s, name)
  {
    if list != [] {
      var before, last := list[..|list| - 1], list[|list| - 1];
      BringAllFates(s, was, now, before, w, names, name);
      BringFate(BringAll(s, was, now, before, w), was, last, now[last], w, names, name);
      assert list == before + [last] && last !in before;
    }
  }

  lemma {:induction false} DropAllFates(s: State, was: map<string, Account>, now: map<string, Account>, list: seq<string>,
                                        w: World, names: set<string>, name: string)
    requires NoTwin(names, name) && AllNamed(s.others, names)
    requires forall n :: n in list ==> n in was && n in names
    requires forall i, j :: 0 <= i < j < |list| ==> list[i] != list[j]
    ensures AllNamed(DropAll(s, now, list, w).others, names)
    ensures EntryOf(DropAll(s, now, list, w), name)
         == if name in list && name !in now then Fate(was, now, w, name, EntryOf(s, name)) else EntryOf(s, name)
  {
    if list != [] {
      var before, last := list[..|list| - 1], list[|list| - 1];
      DropAllFates(s, was, now, before, w, names, name);
      assert list == before + [last] && last !in before;
      if last !in now {
        DropFate(DropAll(s, now, before, w), was, last, w, names, name);
      }
    }
  }

  /** The accounts after a reload, as the daemon leaves them. */
  function Reloaded(s: State, was: map<string, Account>, now: map<string, Account>, wasNames: seq<string>,
                    nowNames: seq<string>, w: World): State
    requires forall n :: n in nowNames ==> n in now
  {
    DropAll(BringAll(s, was, now, nowNames, w), now, wasNames, w)
  }

  /** After a reload the fate of a name no other differs from only in case is decided
      by the two files, its own build and its own outbox, whatever order the names
      were taken in and whatever became of the others. */
  lemma {:induction false} EveryAccountHasItsFate(s: State, was: map<string, Account>, now: map<string, Account>,
                                                  wasNames: seq<string>, nowNames: seq<string>, w: World,
                                                  names: set<string>, name: string)
    requires Lists(wasNames, was.Keys) && Lists(nowNames, now.Keys)
    requires NoTwin(names, name) && AllNamed(s.others, names) && was.Keys + now.Keys <= names
    ensures EntryOf(Reloaded(s, was, now, wasNames, nowNames, w), name) == Fate(was, now, w, name, EntryOf(s, name))
  {
    BringAllFates(s, was, now, nowNames, w, names, name);
    DropAllFates(BringAll(s, was, now, nowNames, w), was, now, wasNames, w, names, name);
  }

  /** The daemon runs exactly the accounts of a file, one of each, as it says. */
  ghost predicate RunsAsWritten(s: State, file: map<string, Account>) {
    forall name :: RunsIt(s, file, name)
  }

  ghost predicate RunsIt(s: State, file: map<string, Account>, name: string) {
    EntryOf(s, name).running == if name in file then [Running(name, file[name])] else []
  }

  /** A server that has to be reached can be, an outbox that has to be empty is. */
  ghost predicate Agrees(was: map<string, Account>, now: map<string, Account>, w: World, name: string) {
    && (name in now && !(name in was && was[name] == now[name]) ==> w.build(name, now[name]))
    && (name in was && name !in now ==> w.inFlight(name) == Some(0))
  }

  ghost predicate NothingDeclines(was: map<string, Account>, now: map<string, Account>, w: World) {
    forall name :: Agrees(was, now, w, name)
  }

  lemma {:induction false} RunsItIff(was: map<string, Account>, now: map<string, Account>, w: World, name: string, e: Entry)
    requires e.running == if name in was then [Running(name, was[name])] else []
    ensures Fate(was, now, w, name, e).running == (if name in now then [Running(name, now[name])] else [])
       <==> Agrees(was, now, w, name)
  {
  }

  /** An account kept because of its outbox is not in the file the next reload
      compares with. Added again there, it is started beside the one still
      running; and that is the only way to run one twice under a name without a
      twin. */
  lemma {:induction false} RunsOneOfEachIff(s: State, was: map<string, Account>, now: map<string, Account>,
                                            wasNames: seq<string>, nowNames: seq<string>, w: World, names: set<string>, name: string)
    requires Lists(wasNames, was.Keys) && Lists(nowNames, now.Keys)
    requires NoTwin(names, name) && AllNamed(s.others, names) && was.Keys + now.Keys <= names
    requires |EntryOf(s, name).running| <= 1
    ensures |EntryOf(Reloaded(s, was, now, wasNames, nowNames, w), name).running| <= 1 <==>
            (name in now && name !in was && w.build(name, now[name]) ==> EntryOf(s, name).running == [])
  {
    EveryAccountHasItsFate(s, was, now, wasNames, nowNames, w, names, name);
  }

  /** No Microsoft 365 account is stopped, started or rebuilt in place: a change to
      one is an exit. */
  lemma {:induction false} GraphAccountsAreLeftAlone(was: map<string, Account>, now: map<string, Account>, w: World,
                                                     name: string, e: Entry)
    requires !GraphChanged(was, now) && ((name in was && was[name].graph) || (name in now && now[name].graph))
    ensures Fate(was, now, w, name, e) == e
  {
    assert name in was.Keys + now.Keys;
    assert !GraphChangedAt(was, now, name);
  }

  /** Reading the same file again does nothing and says nothing. */
  lemma {:induction false} SameFileChangesNothing(s: State, c: Config, names: seq<string>, w: World, dav: bool)
    requires Lists(names, c.secondary.Keys)
    ensures !NeedsRestart(c, c)
    ensures Reloaded(s, c.secondary, c.secondary, names, names, w) == s
    ensures Brought(c.secondary, c.secondary, names, w) + Dropped(c.secondary, names, w) + Settings(c, c, dav) == []
  {
    KnownNamesChangeNothing(s, c.secondary, names, w);
  }

  lemma {:induction false} KnownNamesChangeNothing(s: State, file: map<string, Account>, names: seq<string>, w: World)
    requires forall n :: n in names ==> n in file
    ensures BringAll(s, file, file, names, w) == s && DropAll(s, file, names, w) == s
    ensures Brought(file, file, names, w) == [] && Dropped(file, names, w) == []
  {
    if names != [] {
      KnownNamesChangeNothing(s, file, names[..|names| - 1], w);
    }
  }

  /** Without an exit every setting of the file that is not applied in place is as it
      was, one by one; so what is in use is the new file's as it was the old one's. */
  lemma {:induction false} ExitIff(was: Config, now: Config)
    ensures !NeedsRestart(was, now) <==>
              && was.account.email == now.account.email
              && was.account.imapServer == now.account.imapServer && was.account.smtp == now.account.smtp
              && was.account.dav == now.account.dav && was.account.sieve == now.account.sieve
              && was.account.password == now.account.password && was.account.davPassword == now.account.davPassword
              && was.account.watch == now.account.watch && was.account.sentBox == now.account.sentBox
              && was.account.displayName == now.account.displayName && was.account.noDav == now.account.noDav
              && was.account.color == now.account.color
              && was.calDav == now.calDav && was.other == now.other
              && forall name :: (name in was.secondary && was.secondary[name].graph) || (name in now.secondary && now.secondary[name].graph) ==>
                   name in was.secondary && name in now.secondary && was.secondary[name] == now.secondary[name]
  {
    forall name | name in was.secondary.Keys + now.secondary.Keys
      ensures GraphChangedAt(was.secondary, now.secondary, name) <==>
                ((name in was.secondary && was.secondary[name].graph) || (name in now.secondary && now.secondary[name].graph)) &&
                !(name in was.secondary && name in now.secondary && was.secondary[name] == now.secondary[name])
    {
    }
  }

  // ---------- what a reload says it did ----------

  /** An account of the new file comes up or fails to, unless it is as it was, and one
      the new file leaves out is gone or kept. */
  ghost predicate SaysOf(was: map<string, Account>, now: map<string, Account>, w: World, c: Change) {
    match c
    case Up(name) => name in now && !(name in was && was[name] == now[name]) && w.build(name, now[name])
    case Failed(name) => name in now && !(name in was && was[name] == now[name]) && !w.build(name, now[name])
    case Gone(name) => name in was && name !in now && w.inFlight(name) == Some(0)
    case Kept(name) => name in was && name !in now && w.inFlight(name) != Some(0)
    case _ => false
  }

  lemma {:induction false} BroughtIff(was: map<string, Account>, now: map<string, Account>, list: seq<string>, w: World, c: Change)
    requires forall n :: n in list ==> n in now
    ensures c in Brought(was, now, list, w) <==> (c.Up? || c.Failed?) && c.name in list && SaysOf(was, now, w, c)
  {
    if list != [] {
      BroughtIff(was, now, list[..|list| - 1], w, c);
    }
  }

  lemma {:induction false} DroppedIff(was: map<string, Account>, now: map<string, Account>, list: seq<string>, w: World, c: Change)
    requires forall n :: n in list ==> n in was
    ensures c in Dropped(now, list, w) <==> (c.Gone? || c.Kept?) && c.name in list && SaysOf(was, now, w, c)
  {
    if list != [] {
      DroppedIff(was, now, list[..|list| - 1], w, c);
    }
  }

  /** A reload says what it did, all of it and nothing else; of colours, only that
      another set of collections has them. */
  lemma {:induction false} ReportIff(was: Config, now: Config, wasNames: seq<string>, nowNames: seq<string>, w: World, dav: bool, c: Change)
    requires Lists(wasNames, was.secondary.Keys) && Lists(nowNames, now.secondary.Keys)
    ensures c in Brought(was.secondary, now.secondary, nowNames, w) + Dropped(now.secondary, wasNames, w) + Settings(was, now, dav) <==>
            match c
            case CollectionsChanged => dav && (was.exclude != now.exclude || exists key :: (key in was.colors) != (key in now.colors))
            case DefaultsChanged => was.account.taskList != now.account.taskList || was.account.addressBook != now.account.addressBook
            case _ => SaysOf(was.secondary, now.secondary, w, c)
  {
    BroughtIff(was.secondary, now.secondary, nowNames, w, c);
    DroppedIff(was.secondary, now.secondary, wasNames, w, c);
    if was.colors.Keys != now.colors.Keys {
      assert exists key :: (key in was.colors.Keys) != (key in now.colors.Keys);
    }
  }

  /** Whether the colours in use are the file's. They are applied only with a change
      to the excluded collections or to which collections have a colour, and the
      file's other differences are an exit: a colour changed for another is neither. */
  lemma {:induction false} ColoursFollowIff(was: Config, now: Config, used: map<string, string>)
    requires used == if CollectionsChanged in Settings(was, now, true) then now.colors else was.colors
    ensures used == now.colors <==> was.colors == now.colors || was.exclude != now.exclude || was.colors.Keys != now.colors.Keys
    ensures NeedsRestart(was, now) == NeedsRestart(was.(colors := now.colors), now)
  {
    assert NotInPlace(was) == NotInPlace(was.(colors := now.colors));
  }

  /** Two names that differ only in case: editing one stops the other, and leaves
      the one that was edited running twice. */
  lemma {:induction false} CaseTwinsExample(x: Account, y: Account, z: Account, w: World)
    requires y != z && w.build("A", z)
    ensures var was, now := map["a" := x, "A" := y], map["a" := x, "A" := z];
            var after := BringAll(State([Running("a", x), Running("A", y)], map[]), was, now, ["A", "a"], w);
            after.others == [Running("A", y), Running("A", z)]
  {
    var was, now := map["a" := x, "A" := y], map["a" := x, "A" := z];
    var s := State([Running("a", x), Running("A", y)], map[]);
    assert SameFold("a", "A");
    assert ["A", "a"][..1] == ["A"] && ["A"][..0] == [];
    assert BringAll(s, was, now, [], w) == s;
    assert BringAll(s, was, now, ["A"], w) == Bring(s, was, "A", z, w);
  }

  // ---------- reload after reload ----------

  ghost predicate IsRun(states: seq<State>, files: seq<map<string, Account>>, orders: seq<seq<string>>, worlds: seq<World>,
                        names: set<string>)
  {
    && |states| == |files| == |orders| == |worlds|
    && (forall k :: 0 <= k < |files| ==> Lists(orders[k], files[k].Keys) && files[k].Keys <= names && AllNamed(states[k].others, names))
    && forall k :: 0 < k < |states| ==>
         states[k] == Reloaded(states[k - 1], files[k - 1], files[k], orders[k - 1], orders[k], worlds[k])
  }

  /** A kept account is never looked at again while the file leaves it out, not even
      when its outbox has emptied: it runs, and its problem stands, until it is
      written back or the daemon is started anew. */
  lemma {:induction false} KeptAccountsStayKept(states: seq<State>, files: seq<map<string, Account>>, orders: seq<seq<string>>,
                                                worlds: seq<World>, names: set<string>, name: string, i: nat, j: nat)
    requires IsRun(states, files, orders, worlds, names) && i <= j < |states| && NoTwin(names, name)
    requires forall k :: i <= k <= j ==> name !in files[k]
    ensures EntryOf(states[j], name) == EntryOf(states[i], name)
    decreases j - i
  {
    if i < j {
      KeptAccountsStayKept(states, files, orders, worlds, names, name, i, j - 1);
      EveryAccountHasItsFate(states[j - 1], files[j - 1], files[j], orders[j - 1], orders[j], worlds[j], names, name);
      assert name !in files[j - 1] && name !in files[j];
    }
  }
}
