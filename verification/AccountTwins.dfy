/** Accounts whose names differ only in case. The file keeps them apart and so does
    everything but StopAccount, which takes the first running account its name
    folds to. What a reload then does to all the accounts of one folded name, and
    when that is what each should get. */
module AccountTwins {
  import opened Basics
  import opened Text
  import opened Accounts
  import opened Reconcile
  import opened AccountFates

  /** The running accounts of one folded name, in the order they were started. */
  function Kin(others: seq<Running>, name: string): seq<Running> {
    if others == [] then []
    else if SameFold(others[0].name, name) then [others[0]] + Kin(others[1..], name)
    else Kin(others[1..], name)
  }

  predicate Edited(was: map<string, Account>, now: map<string, Account>, n: string) {
    n in was && n in now && was[n] != now[n]
  }

  /** The names of that kin a reload stops, in the order it does: those edited, and
      then those removed whose outbox is empty. */
  function KinEdited(was: map<string, Account>, now: map<string, Account>, list: seq<string>, name: string): seq<string> {
    if list == [] then []
    else
      var before, n := KinEdited(was, now, list[..|list| - 1], name), list[|list| - 1];
      if SameFold(n, name) && Edited(was, now, n) then before + [n] else before
  }

  function KinGone(now: map<string, Account>, list: seq<string>, w: World, name: string): seq<string> {
    if list == [] then []
    else
      var before, n := KinGone(now, list[..|list| - 1], w, name), list[|list| - 1];
      if SameFold(n, name) && n !in now && w.inFlight(n) == Some(0) then before + [n] else before
  }

  function KinStarted(was: map<string, Account>, now: map<string, Account>, list: seq<string>, w: World, name: string): seq<Running> {
    if list == [] then []
    else
      var before, n := KinStarted(was, now, list[..|list| - 1], w, name), list[|list| - 1];
      if SameFold(n, name) && n in now && !(n in was && was[n] == now[n]) && w.build(n, now[n])
      then before + [Running(n, now[n])] else before
  }

  lemma {:induction false} KinBoth(a: seq<Running>, b: seq<Running>, name: string)
    ensures Kin(a + b, name) == Kin(a, name) + Kin(b, name)
  {
    if a == [] {
      assert a + b == b;
    } else {
      KinBoth(a[1..], b, name);
      assert (a + b)[1..] == a[1..] + b;
    }
  }

  lemma {:induction false} StopKin(others: seq<Running>, n: string, name: string)
    ensures Kin(Stop(others, n), name) == if SameFold(n, name) then AllButFirst(Kin(others, name)) else Kin(others, name)
  {
    if others != [] && !SameFold(others[0].name, n) {
      StopKin(others[1..], n, name);
    }
  }

  lemma {:induction false} BringKin(s: State, was: map<string, Account>, n: string, account: Account, w: World, name: string)
    ensures var kin := Kin(s.others, name);
            Kin(Bring(s, was, n, account, w).others, name) ==
              if !SameFold(n, name) || (n in was && was[n] == account) then kin
              else (if n in was then AllButFirst(kin) else kin) + (if w.build(n, account) then [Running(n, account)] else [])
  {
    var others := if n in was then Stop(s.others, n) else s.others;
    StopKin(s.others, n, name);
    KinBoth(others, [Running(n, account)], name);
    assert [Running(n, account)][1..] == [];
  }

  /** As many of the kin go as are stopped, from the front, whoever was meant; what
      is started comes last. */
  lemma {:induction false} BringAllKin(s: State, was: map<string, Account>, now: map<string, Account>, list: seq<string>,
                                       w: World, name: string)
    requires forall n :: n in list ==> n in now
    requires |KinEdited(was, now, list, name)| <= |Kin(s.others, name)|
    ensures Kin(BringAll(s, was, now, list, w).others, name) ==
              Kin(s.others, name)[|KinEdited(was, now, list, name)|..] + KinStarted(was, now, list, w, name)
  {
    if list != [] {
      var n := list[|list| - 1];
      BringAllKin(s, was, now, list[..|list| - 1], w, name);
      BringKin(BringAll(s, was, now, list[..|list| - 1], w), was, n, now[n], w, name);
    }
  }

  lemma {:induction false} DropAllKin(s: State, now: map<string, Account>, list: seq<string>, w: World, name: string)
    requires |KinGone(now, list, w, name)| <= |Kin(s.others, name)|
    ensures Kin(DropAll(s, now, list, w).others, name) == Kin(s.others, name)[|KinGone(now, list, w, name)|..]
  {
    if list != [] {
      var n, before := list[|list| - 1], DropAll(s, now, list[..|list| - 1], w);
      DropAllKin(s, now, list[..|list| - 1], w, name);
      StopKin(before.others, n, name);
    }
  }

  // ---------- problems are kept under the name as written ----------

  lemma {:induction false} BringProblem(s: State, was: map<string, Account>, n: string, account: Account, w: World, name: string)
    ensures EntryOf(Bring(s, was, n, account, w), name).problem
         == if name == n then Fate(was, map[n := account], w, n, EntryOf(s, n)).problem else EntryOf(s, name).problem
  {
  }

  lemma {:induction false} DropProblem(s: State, was: map<string, Account>, n: string, w: World, name: string)
    requires n in was
    ensures EntryOf(Drop(s, n, w), name).problem
         == if name == n then Fate(was, map[], w, n, EntryOf(s, n)).problem else EntryOf(s, name).problem
  {
  }

  lemma {:induction false} BringAllProblems(s: State, was: map<string, Account>, now: map<string, Account>, list: seq<string>,
                                            w: World, name: string)
    requires (forall n :: n in list ==> n in now) && forall i, j :: 0 <= i < j < |list| ==> list[i] != list[j]
    ensures EntryOf(BringAll(s, was, now, list, w), name).problem
         == if name in list then Fate(was, now, w, name, EntryOf(s, name)).problem else EntryOf(s, name).problem
  {
    if list != [] {
      var before, n := list[..|list| - 1], list[|list| - 1];
      BringAllProblems(s, was, now, before, w, name);
      BringProblem(BringAll(s, was, now, before, w), was, n, now[n], w, name);
      assert list == before + [n] && n !in before;
    }
  }

  lemma {:induction false} DropAllProblems(s: State, was: map<string, Account>, now: map<string, Account>, list: seq<string>,
                                           w: World, name: string)
    requires (forall n :: n in list ==> n in was) && forall i, j :: 0 <= i < j < |list| ==> list[i] != list[j]
    ensures EntryOf(DropAll(s, now, list, w), name).problem
         == if name in list && name !in now then Fate(was, now, w, name, EntryOf(s, name)).problem else EntryOf(s, name).problem
  {
    if list != [] {
      var before, n := list[..|list| - 1], list[|list| - 1];
      DropAllProblems(s, was, now, before, w, name);
      if n !in now {
        DropProblem(DropAll(s, now, before, w), was, n, w, name);
      }
      assert list == before + [n] && n !in before;
    }
  }

  lemma {:induction false} ProblemsAreTheirOwn(s: State, was: map<string, Account>, now: map<string, Account>,
                                               wasNames: seq<string>, nowNames: seq<string>, w: World, name: string)
    requires Lists(wasNames, was.Keys) && Lists(nowNames, now.Keys)
    ensures EntryOf(Reloaded(s, was, now, wasNames, nowNames, w), name).problem == Fate(was, now, w, name, EntryOf(s, name)).problem
  {
    BringAllProblems(s, was, now, nowNames, w, name);
    DropAllProblems(BringAll(s, was, now, nowNames, w), was, now, wasNames, w, name);
  }

  // ---------- counting ----------

  ghost function NamesOf(kin: seq<Running>): set<string> {
    set r | r in kin :: r.name
  }

  ghost function Listed(names: seq<string>): set<string> {
    set n | n in names
  }

  ghost predicate Distinct(names: seq<string>) {
    forall i, j :: 0 <= i < j < |names| ==> names[i] != names[j]
  }

  lemma {:induction false} DistinctCount(names: seq<string>)
    requires Distinct(names)
    ensures |Listed(names)| == |names|
  {
    if names != [] {
      var before, n := names[..|names| - 1], names[|names| - 1];
      DistinctCount(before);
      assert Listed(names) == Listed(before) + {n};
    }
  }

  lemma {:induction false} NamesOfCount(kin: seq<Running>)
    ensures |NamesOf(kin)| <= |kin|
    ensures (forall i, j :: 0 <= i < j < |kin| ==> kin[i].name != kin[j].name) ==> |NamesOf(kin)| == |kin|
  {
    if kin != [] {
      var before, r := kin[..|kin| - 1], kin[|kin| - 1];
      NamesOfCount(before);
      assert NamesOf(kin) == NamesOf(before) + {r.name};
    }
  }

  lemma {:induction false} Smaller(a: set<string>, b: set<string>)
    requires a <= b
    ensures |a| <= |b| && (|a| == |b| ==> a == b)
  {
    if a != b {
      var x :| x in b && x !in a;
      Smaller(a, b - {x});
    }
  }

  /** Every name stopped is running, each once: there are as many. */
  lemma {:induction false} EnoughKin(stopped: seq<string>, kin: seq<Running>)
    requires Distinct(stopped) && forall n :: n in stopped ==> n in NamesOf(kin)
    ensures |stopped| <= |kin|
  {
    DistinctCount(stopped);
    NamesOfCount(kin);
    Smaller(Listed(stopped), NamesOf(kin));
  }

  /** The first of the kin are among those stopped exactly when they are those. */
  lemma {:induction false} FirstAreAllIff(stopped: seq<string>, kin: seq<Running>)
    requires Distinct(stopped) && |stopped| <= |kin|
    requires forall i, j :: 0 <= i < j < |kin| ==> kin[i].name != kin[j].name
    ensures (forall i :: 0 <= i < |stopped| ==> kin[i].name in stopped) <==>
            NamesOf(kin[..|stopped|]) == Listed(stopped)
  {
    var first := kin[..|stopped|];
    DistinctCount(stopped);
    NamesOfCount(first);
    if forall i :: 0 <= i < |stopped| ==> kin[i].name in stopped {
      Smaller(NamesOf(first), Listed(stopped));
    } else {
      var i :| 0 <= i < |stopped| && kin[i].name !in stopped;
      assert first[i] in first && first[i].name in NamesOf(first);
    }
  }

  // ---------- the fates of twins ----------

  function Stopped(was: map<string, Account>, now: map<string, Account>, wasNames: seq<string>, nowNames: seq<string>,
                   w: World, name: string): seq<string> {
    KinEdited(was, now, nowNames, name) + KinGone(now, wasNames, w, name)
  }

  /** Of the running accounts of a folded name, as many as are stopped come first
      that are to be stopped. */
  predicate StoppedStandFirst(s: State, was: map<string, Account>, now: map<string, Account>, wasNames: seq<string>,
                              nowNames: seq<string>, w: World, name: string) {
    var kin, stopped := Kin(s.others, name), Stopped(was, now, wasNames, nowNames, w, name);
    forall i :: 0 <= i < |stopped| && i < |kin| ==> kin[i].name in stopped
  }

  lemma {:induction false} EditedAre(was: map<string, Account>, now: map<string, Account>, list: seq<string>, name: string)
    requires Distinct(list)
    ensures Distinct(KinEdited(was, now, list, name))
    ensures forall n :: n in KinEdited(was, now, list, name) <==> n in list && SameFold(n, name) && Edited(was, now, n)
  {
    if list != [] {
      var before, n := list[..|list| - 1], list[|list| - 1];
      EditedAre(was, now, before, name);
      assert list == before + [n] && n !in before;
    }
  }

  lemma {:induction false} GoneAre(now: map<string, Account>, list: seq<string>, w: World, name: string)
    requires Distinct(list)
    ensures Distinct(KinGone(now, list, w, name))
    ensures forall n :: n in KinGone(now, list, w, name) <==> n in list && SameFold(n, name) && n !in now && w.inFlight(n) == Some(0)
  {
    if list != [] {
      var before, n := list[..|list| - 1], list[|list| - 1];
      GoneAre(now, before, w, name);
      assert list == before + [n] && n !in before;
    }
  }

  ghost predicate IsStopped(was: map<string, Account>, now: map<string, Account>, w: World, n: string) {
    Edited(was, now, n) || (n in was && n !in now && w.inFlight(n) == Some(0))
  }

  lemma {:induction false} StoppedAre(was: map<string, Account>, now: map<string, Account>, wasNames: seq<string>,
                                      nowNames: seq<string>, w: World, name: string)
    requires Lists(wasNames, was.Keys) && Lists(nowNames, now.Keys)
    ensures Distinct(Stopped(was, now, wasNames, nowNames, w, name))
    ensures forall n :: n in Stopped(was, now, wasNames, nowNames, w, name) <==> SameFold(n, name) && IsStopped(was, now, w, n)
  {
    EditedAre(was, now, nowNames, name);
    GoneAre(now, wasNames, w, name);
    DistinctBoth(KinEdited(was, now, nowNames, name), KinGone(now, wasNames, w, name));
  }

  lemma {:induction false} DistinctBoth(a: seq<string>, b: seq<string>)
    requires Distinct(a) && Distinct(b) && forall n :: n in a ==> n !in b
    ensures Distinct(a + b)
  {
    forall i, j | 0 <= i < j < |a + b| ensures (a + b)[i] != (a + b)[j] {
      if i < |a| <= j {
        assert a[i] in a && b[j - |a|] in b;
      }
    }
  }

  lemma {:induction false} StartedUnder(was: map<string, Account>, now: map<string, Account>, list: seq<string>, w: World,
                                        name: string, n: string)
    requires Distinct(list) && SameFold(n, name) && forall x :: x in list ==> x in now
    ensures Under(KinStarted(was, now, list, w, name), n) ==
              if n in list && !(n in was && was[n] == now[n]) && w.build(n, now[n]) then [Running(n, now[n])] else []
  {
    if list != [] {
      var before, last := list[..|list| - 1], list[|list| - 1];
      StartedUnder(was, now, before, w, name, n);
      UnderBoth(KinStarted(was, now, before, w, name), [Running(last, now[last])], n);
      assert [Running(last, now[last])][1..] == [];
      assert list == before + [last] && last !in before;
    }
  }

  lemma {:induction false} UnderKin(others: seq<Running>, name: string, n: string)
    requires SameFold(n, name)
    ensures Under(Kin(others, name), n) == Under(others, n)
  {
    if others != [] {
      UnderKin(others[1..], name, n);
    }
  }

  lemma {:induction false} KinNamesFold(others: seq<Running>, name: string)
    ensures forall i :: 0 <= i < |Kin(others, name)| ==> SameFold(Kin(others, name)[i].name, name)
  {
    if others != [] {
      KinNamesFold(others[1..], name);
    }
  }

  lemma {:induction false} UnderAt(kin: seq<Running>, i: nat, n: string)
    requires i < |kin| && kin[i].name == n
    ensures |Under(kin, n)| >= 1 && |Under(kin, n)| > |Under(kin[i + 1..], n)| && (|Under(kin, n)| == 1 ==> Under(kin, n) == [kin[i]])
  {
    assert kin == kin[..i] + kin[i..] && kin[i..] == [kin[i]] + kin[i + 1..];
    UnderBoth(kin[..i], kin[i..], n);
  }

  /** The kin of a daemon that runs what its file says: each name of the file once. */
  lemma {:induction false} KinOfFile(s: State, was: map<string, Account>, name: string)
    requires RunsAsWritten(s, was)
    ensures var kin := Kin(s.others, name);
            && (forall i, j :: 0 <= i < j < |kin| ==> kin[i].name != kin[j].name)
            && (forall i :: 0 <= i < |kin| ==> kin[i].name in was && kin[i] == Running(kin[i].name, was[kin[i].name]))
            && (forall n :: n in was && SameFold(n, name) ==> n in NamesOf(kin))
  {
    var kin := Kin(s.others, name);
    KinNamesFold(s.others, name);
    forall n: string | SameFold(n, name)
      ensures Under(kin, n) == if n in was then [Running(n, was[n])] else []
    {
      UnderKin(s.others, name, n);
      assert RunsIt(s, was, n);
    }
    forall i | 0 <= i < |kin| ensures kin[i].name in was && kin[i] == Running(kin[i].name, was[kin[i].name]) {
      UnderAt(kin, i, kin[i].name);
    }
    forall i, j | 0 <= i < j < |kin| ensures kin[i].name != kin[j].name {
      UnderAt(kin, i, kin[i].name);
      UnderAt(kin[i + 1..], j - i - 1, kin[j].name);
    }
    forall n | n in was && SameFold(n, name) ensures n in NamesOf(kin) {
      NoneUnder(kin, n);
    }
  }

  /** What is left of the kin after a reload. */
  lemma {:induction false} ReloadedKin(s: State, was: map<string, Account>, now: map<string, Account>,
                                       wasNames: seq<string>, nowNames: seq<string>, w: World, name: string)
    requires Lists(wasNames, was.Keys) && Lists(nowNames, now.Keys) && RunsAsWritten(s, was)
    ensures var kin, r := Kin(s.others, name), |Stopped(was, now, wasNames, nowNames, w, name)|;
            r <= |kin| && Kin(Reloaded(s, was, now, wasNames, nowNames, w).others, name) == kin[r..] + KinStarted(was, now, nowNames, w, name)
  {
    StoppedAre(was, now, wasNames, nowNames, w, name);
    assert |Stopped(was, now, wasNames, nowNames, w, name)| <= |Kin(s.others, name)| by {
      KinOfFile(s, was, name);
      EnoughKin(Stopped(was, now, wasNames, nowNames, w, name), Kin(s.others, name));
    }
    var kin, edited, gone := Kin(s.others, name), KinEdited(was, now, nowNames, name), KinGone(now, wasNames, w, name);
    BringAllKin(s, was, now, nowNames, w, name);
    DropAllKin(BringAll(s, was, now, nowNames, w), now, wasNames, w, name);
    CutTwice(kin, |edited|, KinStarted(was, now, nowNames, w, name), |gone|);
  }

  lemma {:induction false} CutTwice(kin: seq<Running>, i: nat, started: seq<Running>, j: nat)
    requires i + j <= |kin|
    ensures (kin[i..] + started)[j..] == kin[i + j..] + started
  {
  }

  lemma {:induction false} LeftUnder(kin: seq<Running>, r: nat, n: string)
    requires r <= |kin| && forall i, j :: 0 <= i < j < |kin| ==> kin[i].name != kin[j].name
    ensures Under(kin[r..], n) == if n in NamesOf(kin[..r]) then [] else Under(kin, n)
  {
    assert kin == kin[..r] + kin[r..];
    UnderBoth(kin[..r], kin[r..], n);
    NoneUnder(kin[..r], n);
    NoneUnder(kin[r..], n);
    if n in NamesOf(kin[..r]) {
      var i :| 0 <= i < r && kin[..r][i].name == n;
      assert kin[i].name == n;
    } else {
      forall k | 0 <= k < r ensures kin[..r][k].name != n {
        assert kin[..r][k] in kin[..r];
      }
    }
  }

  /** What a reload leaves running under one of the names. */
  lemma {:induction false} ReloadedUnder(s: State, was: map<string, Account>, now: map<string, Account>,
                                         wasNames: seq<string>, nowNames: seq<string>, w: World, name: string, n: string)
    requires Lists(wasNames, was.Keys) && Lists(nowNames, now.Keys) && RunsAsWritten(s, was) && SameFold(n, name)
    ensures var kin, r := Kin(s.others, name), |Stopped(was, now, wasNames, nowNames, w, name)|;
            r <= |kin| && EntryOf(Reloaded(s, was, now, wasNames, nowNames, w), n).running ==
              Left(was, n in NamesOf(kin[..r]), n) + StartedAs(was, now, w, n)
  {
    var kin, r := Kin(s.others, name), |Stopped(was, now, wasNames, nowNames, w, name)|;
    var after := Reloaded(s, was, now, wasNames, nowNames, w);
    ReloadedKin(s, was, now, wasNames, nowNames, w, name);
    KinOfFile(s, was, name);
    LeftUnder(kin, r, n);
    StartedUnder(was, now, nowNames, w, name, n);
    UnderBoth(kin[r..], KinStarted(was, now, nowNames, w, name), n);
    UnderKin(after.others, name, n);
    UnderKin(s.others, name, n);
    assert RunsIt(s, was, n);
  }

  lemma {:induction false} TwinHasItsFateIff(s: State, was: map<string, Account>, now: map<string, Account>,
                                             wasNames: seq<string>, nowNames: seq<string>, w: World, name: string, n: string)
    requires Lists(wasNames, was.Keys) && Lists(nowNames, now.Keys) && RunsAsWritten(s, was) && SameFold(n, name)
    requires |Stopped(was, now, wasNames, nowNames, w, name)| <= |Kin(s.others, name)|
    ensures var first := NamesOf(Kin(s.others, name)[..|Stopped(was, now, wasNames, nowNames, w, name)|]);
            EntryOf(Reloaded(s, was, now, wasNames, nowNames, w), n) == Fate(was, now, w, n, EntryOf(s, n))
            <==> (n in was ==> (n in first <==> IsStopped(was, now, w, n)))
  {
    var e, after := EntryOf(s, n), EntryOf(Reloaded(s, was, now, wasNames, nowNames, w), n);
    var first := NamesOf(Kin(s.others, name)[..|Stopped(was, now, wasNames, nowNames, w, name)|]);
    assert after.problem == Fate(was, now, w, n, e).problem by {
      ProblemsAreTheirOwn(s, was, now, wasNames, nowNames, w, n);
    }
    assert e.running == if n in was then [Running(n, was[n])] else [] by {
      assert RunsIt(s, was, n);
    }
    assert after.running == Left(was, n in first, n) + StartedAs(was, now, w, n) by {
      ReloadedUnder(s, was, now, wasNames, nowNames, w, name, n);
    }
    FateRunning(was, now, w, n, e);
    var own, left := Left(was, IsStopped(was, now, w, n), n), Left(was, n in first, n);
    assert |left + StartedAs(was, now, w, n)| == |left| + |StartedAs(was, now, w, n)|;
  }

  function Left(was: map<string, Account>, stopped: bool, n: string): seq<Running> {
    if n in was && !stopped then [Running(n, was[n])] else []
  }

  function StartedAs(was: map<string, Account>, now: map<string, Account>, w: World, n: string): seq<Running> {
    if n in now && !(n in was && was[n] == now[n]) && w.build(n, now[n]) then [Running(n, now[n])] else []
  }

  lemma {:induction false} FateRunning(was: map<string, Account>, now: map<string, Account>, w: World, n: string, e: Entry)
    requires e.running == if n in was then [Running(n, was[n])] else []
    ensures Fate(was, now, w, n, e).running == Left(was, IsStopped(was, now, w, n), n) + StartedAs(was, now, w, n)
  {
  }

  /** A daemon that runs what its file says gives every account of a folded name its
      own fate exactly when those to be stopped are the first running among them. */
  lemma {:induction false} TwinsHaveTheirFatesIff(s: State, was: map<string, Account>, now: map<string, Account>,
                                                  wasNames: seq<string>, nowNames: seq<string>, w: World, name: string)
    requires Lists(wasNames, was.Keys) && Lists(nowNames, now.Keys) && RunsAsWritten(s, was)
    ensures (forall n :: SameFold(n, name) ==>
               EntryOf(Reloaded(s, was, now, wasNames, nowNames, w), n) == Fate(was, now, w, n, EntryOf(s, n)))
       <==> StoppedStandFirst(s, was, now, wasNames, nowNames, w, name)
  {
    var kin, stopped := Kin(s.others, name), Stopped(was, now, wasNames, nowNames, w, name);
    ReloadedKin(s, was, now, wasNames, nowNames, w, name);
    StoppedAre(was, now, wasNames, nowNames, w, name);
    FirstAreStoppedIff(s, was, stopped, name);
    forall n: string | SameFold(n, name)
      ensures EntryOf(Reloaded(s, was, now, wasNames, nowNames, w), n) == Fate(was, now, w, n, EntryOf(s, n))
         <==> (n in was ==> (n in NamesOf(kin[..|stopped|]) <==> n in stopped))
    {
      TwinHasItsFateIff(s, was, now, wasNames, nowNames, w, name, n);
    }
  }

  lemma {:induction false} FirstAreStoppedIff(s: State, was: map<string, Account>, stopped: seq<string>, name: string)
    requires RunsAsWritten(s, was) && Distinct(stopped) && |stopped| <= |Kin(s.others, name)|
    requires forall n :: n in stopped ==> n in was && SameFold(n, name)
    ensures var kin := Kin(s.others, name);
            (forall i :: 0 <= i < |stopped| ==> kin[i].name in stopped) <==>
            (forall n :: SameFold(n, name) ==> n in was ==> (n in NamesOf(kin[..|stopped|]) <==> n in stopped))
  {
    var kin := Kin(s.others, name);
    var first := NamesOf(kin[..|stopped|]);
    KinOfFile(s, was, name);
    FirstAreAllIff(stopped, kin);
    FirstAreOfFile(s, was, name, |stopped|);
    if forall n :: SameFold(n, name) ==> n in was ==> (n in first <==> n in stopped) {
      assert forall n :: n in first <==> n in Listed(stopped);
    }
  }

  lemma {:induction false} FirstAreOfFile(s: State, was: map<string, Account>, name: string, r: nat)
    requires RunsAsWritten(s, was) && r <= |Kin(s.others, name)|
    ensures forall n :: n in NamesOf(Kin(s.others, name)[..r]) ==> n in was && SameFold(n, name)
  {
    KinOfFile(s, was, name);
    KinNamesFold(s.others, name);
  }

  /** A daemon that runs what the old file said runs what the new one says exactly
      when nothing declined and, of names that differ only in case, those to be
      stopped are the first running. */
  lemma {:induction false} RunsTheNewFileIff(s: State, was: map<string, Account>, now: map<string, Account>,
                                             wasNames: seq<string>, nowNames: seq<string>, w: World)
    requires Lists(wasNames, was.Keys) && Lists(nowNames, now.Keys) && RunsAsWritten(s, was)
    ensures RunsAsWritten(Reloaded(s, was, now, wasNames, nowNames, w), now)
       <==> NothingDeclines(was, now, w) && forall name :: StoppedStandFirst(s, was, now, wasNames, nowNames, w, name)
  {
    var after := Reloaded(s, was, now, wasNames, nowNames, w);
    if forall name :: StoppedStandFirst(s, was, now, wasNames, nowNames, w, name) {
      forall name: string ensures RunsIt(after, now, name) <==> Agrees(was, now, w, name) {
        TwinsHaveTheirFatesIff(s, was, now, wasNames, nowNames, w, name);
        FoldsToItself(name);
        assert RunsIt(s, was, name);
        RunsItIff(was, now, w, name, EntryOf(s, name));
      }
    } else {
      var name :| !StoppedStandFirst(s, was, now, wasNames, nowNames, w, name);
      var n := StillThere(s, was, now, wasNames, nowNames, w, name);
      assert !RunsIt(after, now, n);
    }
  }

  /** If they are not, one of those to be stopped is not. */
  lemma {:induction false} StillThere(s: State, was: map<string, Account>, now: map<string, Account>,
                                      wasNames: seq<string>, nowNames: seq<string>, w: World, name: string) returns (n: string)
    requires Lists(wasNames, was.Keys) && Lists(nowNames, now.Keys) && RunsAsWritten(s, was)
    requires !StoppedStandFirst(s, was, now, wasNames, nowNames, w, name)
    ensures !RunsIt(Reloaded(s, was, now, wasNames, nowNames, w), now, n)
  {
    var kin, stopped := Kin(s.others, name), Stopped(was, now, wasNames, nowNames, w, name);
    ReloadedKin(s, was, now, wasNames, nowNames, w, name);
    var first := NamesOf(kin[..|stopped|]);
    StoppedAre(was, now, wasNames, nowNames, w, name);
    KinOfFile(s, was, name);
    FirstAreAllIff(stopped, kin);
    DistinctCount(stopped);
    NamesOfCount(kin[..|stopped|]);
    if Listed(stopped) <= first {
      Smaller(Listed(stopped), first);
    }
    n :| n in Listed(stopped) && n !in first;
    assert n in stopped;
    NotAsWritten(s, was, now, wasNames, nowNames, w, name, n);
  }

  lemma {:induction false} NotAsWritten(s: State, was: map<string, Account>, now: map<string, Account>,
                                        wasNames: seq<string>, nowNames: seq<string>, w: World, name: string, n: string)
    requires Lists(wasNames, was.Keys) && Lists(nowNames, now.Keys) && RunsAsWritten(s, was) && SameFold(n, name)
    requires |Stopped(was, now, wasNames, nowNames, w, name)| <= |Kin(s.others, name)| && IsStopped(was, now, w, n)
    requires n !in NamesOf(Kin(s.others, name)[..|Stopped(was, now, wasNames, nowNames, w, name)|])
    ensures !RunsIt(Reloaded(s, was, now, wasNames, nowNames, w), now, n)
  {
    ReloadedUnder(s, was, now, wasNames, nowNames, w, name, n);
    var running := EntryOf(Reloaded(s, was, now, wasNames, nowNames, w), n).running;
    assert running[0] == Running(n, was[n]);
  }
}
