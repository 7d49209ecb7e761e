/** Reconcile as it runs, and what is then true of every account. */
module Reconcile {
  import opened Basics
  import opened Text
  import opened Accounts

  /** A map's keys in some order, each once; the program's is alphabetical. */
  ghost predicate Lists(names: seq<string>, keys: set<string>) {
    && (forall n :: n in names <==> n in keys)
    && forall i, j :: 0 <= i < j < |names| ==> names[i] != names[j]
  }

  class Daemon {
    var others: seq<Running>
    var problems: map<string, Problem>
    var exclude: seq<string>
    var colors: map<string, string>
    var taskList: string
    var addressBook: string
    const dav: bool

    ghost function Held(): State
      reads this
    {
      State(others, problems)
    }

    constructor (c: Config, dav: bool)
      ensures others == [] && problems == map[] && this.dav == dav
      ensures exclude == c.exclude && colors == c.colors && taskList == c.account.taskList && addressBook == c.account.addressBook
    {
      others, problems := [], map[];
      exclude, colors, taskList, addressBook := c.exclude, c.colors, c.account.taskList, c.account.addressBook;
      this.dav := dav;
    }

    method StopAccount(name: string) returns (found: bool)
      modifies this`others
      ensures others == Stop(old(others), name)
      ensures found <==> exists i :: 0 <= i < |old(others)| && SameFold(old(others)[i].name, name)
    {
      StopsNothingBefore(others, name, 0);
      for i := 0 to |others|
        invariant others == old(others)
        invariant forall k :: 0 <= k < i ==> !SameFold(others[k].name, name)
      {
        if SameFold(others[i].name, name) {
          StopsNothingBefore(others, name, i);
          others := others[..i] + others[i + 1..];
          return true;
        }
      }
      StopsNothingBefore(others, name, |others|);
      return false;
    }

    method SetProblem(name: string, p: Option<Problem>)
      modifies this`problems
      ensures problems == Accounts.SetProblem(old(problems), name, p)
    {
      problems := if p.Some? then problems[name := p.value] else problems - {name};
    }

    method StartAccount(r: Running)
      modifies this`others
      ensures others == old(others) + [r]
    {
      others := others + [r];
    }

    /** A Microsoft 365 account that was added, removed or changed, if any. */
    method FindGraphChange(was: map<string, Account>, now: map<string, Account>, wasNames: seq<string>, nowNames: seq<string>)
      returns (name: Option<string>)
      requires Lists(wasNames, was.Keys) && Lists(nowNames, now.Keys)
      ensures name.Some? <==> GraphChanged(was, now)
      ensures name.Some? ==> GraphChangedAt(was, now, name.value)
    {
      for i := 0 to |nowNames|
        invariant forall k :: 0 <= k < i ==> !GraphChangedAt(was, now, nowNames[k])
      {
        var n := nowNames[i];
        assert n in nowNames;
        if (now[n].graph || (n in was && was[n].graph)) && !(n in was && was[n] == now[n]) {
          assert n in was.Keys + now.Keys && GraphChangedAt(was, now, n);
          return Some(n);
        }
      }
      for i := 0 to |wasNames|
        invariant forall k :: 0 <= k < i ==> wasNames[k] in now || !GraphChangedAt(was, now, wasNames[k])
      {
        var n := wasNames[i];
        assert n in wasNames;
        if n !in now && was[n].graph {
          assert n in was.Keys + now.Keys && GraphChangedAt(was, now, n);
          return Some(n);
        }
      }
      forall n | n in was.Keys + now.Keys ensures !GraphChangedAt(was, now, n) {
        if n in now {
          assert n in nowNames;
        } else {
          assert n in wasNames;
        }
      }
      return None;
    }

    method BringOne(was: map<string, Account>, name: string, account: Account, w: World) returns (change: Option<Change>)
      modifies this`others, this`problems
      ensures Held() == Bring(old(Held()), was, name, account, w)
      ensures change == if name in was && was[name] == account then None
                        else Some(if w.build(name, account) then Up(name) else Failed(name))
    {
      if name in was && was[name] == account {
        return None;
      }
      if name in was {
        var found := StopAccount(name);
      }
      if !w.build(name, account) {
        SetProblem(name, Some(BuildFailed));
        return Some(Failed(name));
      }
      SetProblem(name, None);
      StartAccount(Running(name, account));
      return Some(Up(name));
    }

    method DropOne(name: string, w: World) returns (change: Change)
      modifies this`others, this`problems
      ensures Held() == Drop(old(Held()), name, w)
      ensures change == if w.inFlight(name) == Some(0) then Gone(name) else Kept(name)
    {
      var held := w.inFlight(name);
      if held.None? {
        SetProblem(name, Some(Unchecked));
        return Kept(name);
      }
      if held.value > 0 {
        SetProblem(name, Some(InOutbox(held.value)));
        return Kept(name);
      }
      var found := StopAccount(name);
      SetProblem(name, None);
      return Gone(name);
    }

    /** The loop over the new config. */
    method BringEach(was: map<string, Account>, now: map<string, Account>, names: seq<string>, w: World)
      returns (changes: seq<Change>)
      requires forall n :: n in names ==> n in now
      modifies this`others, this`problems
      ensures Held() == BringAll(old(Held()), was, now, names, w) && changes == Brought(was, now, names, w)
    {
      changes := [];
      for i := 0 to |names|
        invariant Held() == BringAll(old(Held()), was, now, names[..i], w) && changes == Brought(was, now, names[..i], w)
      {
        assert names[..i + 1][..i] == names[..i];
        var change := BringOne(was, names[i], now[names[i]], w);
        if change.Some? {
          changes := changes + [change.value];
        }
      }
      assert names[..|names|] == names;
    }

    /** The loop over the old one. */
    method DropEach(now: map<string, Account>, names: seq<string>, w: World) returns (changes: seq<Change>)
      modifies this`others, this`problems
      ensures Held() == DropAll(old(Held()), now, names, w) && changes == Dropped(now, names, w)
    {
      changes := [];
      for i := 0 to |names|
        invariant Held() == DropAll(old(Held()), now, names[..i], w) && changes == Dropped(now, names[..i], w)
      {
        assert names[..i + 1][..i] == names[..i];
        if names[i] in now {
          continue;
        }
        var change := DropOne(names[i], w);
        changes := changes + [change];
      }
      assert names[..|names|] == names;
    }

    /** Why the daemon has to exit, or the empty string. */
    method RestartReason(was: Config, now: Config, wasNames: seq<string>, nowNames: seq<string>) returns (reason: string)
      requires Lists(wasNames, was.secondary.Keys) && Lists(nowNames, now.secondary.Keys)
      ensures reason != "" <==> NeedsRestart(was, now)
    {
      reason := PrimaryDiffers(was.account, now.account);
      if reason != "" {
        PrimaryIsNotInPlace(was, now);
        return reason;
      }
      if was.calDav != now.calDav {
        assert NotInPlace(was).calDav != NotInPlace(now).calDav;
        return "the hand-configured calendars changed";
      }
      var graph := FindGraphChange(was.secondary, now.secondary, wasNames, nowNames);
      if graph.Some? {
        return "the microsoft 365 account " + graph.value + " changed";
      }
      return if NotInPlace(was) != NotInPlace(now) then "the config changed" else "";
    }

    ghost predicate SettingsFollow(was: Config, now: Config, oldExclude: seq<string>, oldColors: map<string, string>,
                                   oldTaskList: string, oldAddressBook: string)
      reads this
    {
      && (if CollectionsChanged in Settings(was, now, dav) then exclude == now.exclude && colors == now.colors
          else exclude == oldExclude && colors == oldColors)
      && (if DefaultsChanged in Settings(was, now, dav)
          then taskList == now.account.taskList && addressBook == now.account.addressBook
          else taskList == oldTaskList && addressBook == oldAddressBook)
    }

    method ApplySettings(was: Config, now: Config) returns (changes: seq<Change>)
      modifies this`exclude, this`colors, this`taskList, this`addressBook
      ensures changes == Settings(was, now, dav)
      ensures SettingsFollow(was, now, old(exclude), old(colors), old(taskList), old(addressBook))
    {
      changes := [];
      if dav && (was.exclude != now.exclude || was.colors.Keys != now.colors.Keys) {
        exclude, colors := now.exclude, now.colors;
        changes := changes + [CollectionsChanged];
      }
      if was.account.taskList != now.account.taskList || was.account.addressBook != now.account.addressBook {
        taskList, addressBook := now.account.taskList, now.account.addressBook;
        changes := changes + [DefaultsChanged];
      }
    }

    /** What of the file is applied in place, but for colours, is in use. */
    ghost predicate Follows(c: Config)
      reads this
    {
      && (dav ==> exclude == c.exclude)
      && taskList == c.account.taskList && addressBook == c.account.addressBook
    }

    /** The whole of what can be applied in place; anything else is an exit, and then
        nothing has been done. */
    method Reconcile(was: Config, now: Config, wasNames: seq<string>, nowNames: seq<string>, w: World)
      returns (reason: string, changes: seq<Change>)
      requires Lists(wasNames, was.secondary.Keys) && Lists(nowNames, now.secondary.Keys)
      modifies this
      ensures reason != "" <==> NeedsRestart(was, now)
      ensures reason != "" ==> unchanged(this) && changes == []
      ensures reason == "" ==>
                && Held() == DropAll(BringAll(old(Held()), was.secondary, now.secondary, nowNames, w), now.secondary, wasNames, w)
                && changes == Brought(was.secondary, now.secondary, nowNames, w) + Dropped(now.secondary, wasNames, w) +
                              Settings(was, now, dav)
                && SettingsFollow(was, now, old(exclude), old(colors), old(taskList), old(addressBook))
      ensures reason == "" && old(Follows(was)) ==> Follows(now)
    {
      reason := RestartReason(was, now, wasNames, nowNames);
      if reason != "" {
        return reason, [];
      }
      changes := BringEach(was.secondary, now.secondary, nowNames, w);
      var gone := DropEach(now.secondary, wasNames, w);
      var settings := ApplySettings(was, now);
      return "", changes + gone + settings;
    }
  }

  lemma {:induction false} StopsNothingBefore(others: seq<Running>, name: string, i: nat)
    requires i <= |others| && forall k :: 0 <= k < i ==> !SameFold(others[k].name, name)
    ensures Stop(others, name) == others[..i] + Stop(others[i..], name)
    decreases i
  {
    if i > 0 {
      StopsNothingBefore(others[1..], name, i - 1);
      assert others[..i] == [others[0]] + others[1..][..i - 1];
      assert others[i..] == others[1..][i - 1..];
    } else {
      assert others[0..] == others;
    }
  }

  lemma {:induction false} PrimaryIsNotInPlace(was: Config, now: Config)
    requires PrimaryDiffers(was.account, now.account) != ""
    ensures NotInPlace(was) != NotInPlace(now)
  {
  }
}
