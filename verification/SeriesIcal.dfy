/** A repeating event rewritten as one calendar object, and the expansion that
    reads it back into instances. Instants are whole seconds in UTC; a rule is
    the set of instants it generates. */
module SeriesIcal {
  import opened Basics

  /** A repeating event as Graph has it. repeats is false when its recurrence has
      no RRULE; the event is then written as a single entry. */
  datatype Series = Series(start: int, end: int, summary: string, location: string, allDay: bool,
                           repeats: bool, rule: int -> bool)

  /** One instance as the server lists it; original is where the rule put it. */
  datatype Instance = Instance(original: Option<int>, exception: bool, cancelled: bool,
                               start: int, end: int, summary: string, location: string)

  /** A VEVENT with a RECURRENCE-ID. */
  datatype Override = Override(at: int, start: int, end: int, summary: string, location: string, cancelled: bool)

  datatype Occurrence = Occurrence(start: int, end: int, summary: string, location: string)

  /** How long each instance is; one that would end before it starts has no length. */
  function Duration(s: Series): (d: nat)
    ensures s.start <= s.end ==> s.start + d == s.end
    ensures s.end < s.start ==> d == 0
  {
    if s.end < s.start then 0 else s.end - s.start
  }

  predicate TakesUp(start: int, end: int, t: int) {
    start <= t < end || t == start
  }

  /** An entry is in the window [from, until) when it takes up some instant of it; one
      without length takes up the instant it starts at. Of a window that holds no
      instant, and of an entry that ends before it starts, only the ends are looked
      at. */
  ghost predicate InWindow(start: int, end: int, from: int, until: int) {
    if from < until && start <= end
    then exists t :: from <= t < until && TakesUp(start, end, t)
    else start < until && from < end
  }

  predicate Overlaps(start: int, end: int, from: int, until: int): (within: bool)
    ensures within <==> InWindow(start, end, from, until)
  {
    assert start <= end && from < until && start < until && (from <= start || from < end) ==>
           TakesUp(start, end, if start < from then from else start);
    start < until && if end == start then from <= start else from < end
  }

  /** The instants a rule generates in [from, until], both ends included. */
  function Between(rule: int -> bool, from: int, until: int): (starts: seq<int>)
    ensures forall o :: o in starts <==> from <= o <= until && rule(o)
    ensures forall i, j :: 0 <= i < j < |starts| ==> starts[i] < starts[j]
    decreases until - from
  {
    if from > until then [] else
      var rest := Between(rule, from + 1, until);
      assert forall j :: 0 <= j < |rest| ==> rest[j] in rest;
      if rule(from) then [from] + rest else rest
  }

  // ---------- writing ----------

  function Originals(instances: seq<Instance>): set<int> {
    if instances == [] then {}
    else
      var before := Originals(instances[..|instances| - 1]);
      var last := instances[|instances| - 1];
      if last.original.Some? then before + {last.original.value} else before
  }

  predicate IsWritten(i: Instance) {
    i.original.Some? && (i.exception || i.cancelled)
  }

  function OverrideOf(i: Instance): Override
    requires i.original.Some?
  {
    Override(i.original.value, i.start, i.end, i.summary, i.location, i.cancelled)
  }

  function FromInstances(instances: seq<Instance>): seq<Override> {
    if instances == [] then []
    else
      var before := FromInstances(instances[..|instances| - 1]);
      var last := instances[|instances| - 1];
      if IsWritten(last) then before + [OverrideOf(last)] else before
  }

  function Cancelled(at: int): Override {
    Override(at, at, at, "", "", true)
  }

  function FromMissing(starts: seq<int>, have: set<int>): seq<Override> {
    if starts == [] then []
    else
      var before := FromMissing(starts[..|starts| - 1], have);
      var at := starts[|starts| - 1];
      if at in have then before else before + [Cancelled(at)]
  }

  /** The overrides written beside the master, for the window the instances were
      read in. */
  function Overrides(s: Series, instances: seq<Instance>, from: int, until: int): seq<Override> {
    FromInstances(instances) +
    if s.repeats && !s.allDay then FromMissing(Between(s.rule, from, until), Originals(instances)) else []
  }

  method WriteSeries(s: Series, instances: seq<Instance>, from: int, until: int) returns (children: seq<Override>)
    ensures children == Overrides(s, instances, from, until)
  {
    children := [];
    var have: set<int> := {};
    for i := 0 to |instances|
      invariant children == FromInstances(instances[..i])
      invariant have == Originals(instances[..i])
    {
      assert instances[..i + 1][..i] == instances[..i];
      var one := instances[i];
      if one.original.None? {
        continue;
      }
      have := have + {one.original.value};
      if !one.exception && !one.cancelled {
        continue;
      }
      children := children + [OverrideOf(one)];
    }
    assert instances[..|instances|] == instances;
    if s.repeats && !s.allDay {
      var starts := Between(s.rule, from, until);
      for i := 0 to |starts|
        invariant children == FromInstances(instances) + FromMissing(starts[..i], have)
      {
        assert starts[..i + 1][..i] == starts[..i];
        if starts[i] in have {
          continue;
        }
        children := children + [Cancelled(starts[i])];
      }
      assert starts[..|starts|] == starts;
    }
  }

  // ---------- reading ----------

  /** Overrides by the start they replace; a later one replaces an earlier one. */
  function ByStart(children: seq<Override>): map<int, Override> {
    if children == [] then map[]
    else
      var last := children[|children| - 1];
      ByStart(children[..|children| - 1])[last.at := last]
  }

  /** The instance an object shows for the start key, in the window [from, until).
      The key None is the entry itself, when it does not repeat. */
  ghost function Shown(s: Series, overrides: map<int, Override>, key: Option<int>, from: int, until: int): Option<Occurrence> {
    match key
    case None =>
      if !s.repeats && InWindow(s.start, s.start + Duration(s), from, until)
      then Some(Occurrence(s.start, s.start + Duration(s), s.summary, s.location)) else None
    case Some(at) =>
      if at in overrides then
        var o := overrides[at];
        if !o.cancelled && InWindow(o.start, o.end, from, until)
        then Some(Occurrence(o.start, o.end, o.summary, o.location)) else None
      else if s.repeats && s.rule(at) && InWindow(at, at + Duration(s), from, until)
      then Some(Occurrence(at, at + Duration(s), s.summary, s.location)) else None
  }

  /** The list is exactly the instances shown for some key, each key once. */
  ghost predicate Expands(s: Series, overrides: map<int, Override>, from: int, until: int,
                          out: seq<Occurrence>, keys: seq<Option<int>>)
  {
    && |keys| == |out|
    && (forall i :: 0 <= i < |out| ==> Shown(s, overrides, keys[i], from, until) == Some(out[i]))
    && (forall i, j :: 0 <= i < j < |keys| ==> keys[i] != keys[j])
    && (forall key :: Shown(s, overrides, key, from, until).Some? ==> key in keys)
  }

  method OverridesOf(children: seq<Override>) returns (overrides: map<int, Override>)
    ensures overrides == ByStart(children)
  {
    overrides := map[];
    for i := 0 to |children|
      invariant overrides == ByStart(children[..i])
    {
      assert children[..i + 1][..i] == children[..i];
      overrides := overrides[children[i].at := children[i]];
    }
    assert children[..|children|] == children;
  }

  /** What has been listed after some of the keys: those in done that are shown. */
  ghost predicate Listed(s: Series, overrides: map<int, Override>, from: int, until: int,
                         out: seq<Occurrence>, keys: seq<Option<int>>, done: set<Option<int>>)
  {
    && |keys| == |out|
    && (forall i :: 0 <= i < |out| ==> Shown(s, overrides, keys[i], from, until) == Some(out[i]))
    && (forall i, j :: 0 <= i < j < |keys| ==> keys[i] != keys[j])
    && (forall key :: key in keys <==> key in done && Shown(s, overrides, key, from, until).Some?)
  }

  lemma {:induction false} ListNext(s: Series, overrides: map<int, Override>, from: int, until: int,
                                    out: seq<Occurrence>, keys: seq<Option<int>>, done: set<Option<int>>, key: Option<int>)
    requires Listed(s, overrides, from, until, out, keys, done) && key !in done
    ensures var shown := Shown(s, overrides, key, from, until);
            if shown.Some? then Listed(s, overrides, from, until, out + [shown.value], keys + [key], done + {key})
            else Listed(s, overrides, from, until, out, keys, done + {key})
  {
  }

  /** Every key that can be shown has been looked at. */
  lemma {:induction false} ListedAll(s: Series, children: seq<Override>, from: int, until: int,
                                     out: seq<Occurrence>, keys: seq<Option<int>>, done: set<Option<int>>)
    requires Listed(s, ByStart(children), from, until, out, keys, done)
    requires !s.repeats ==> None in done
    requires s.repeats ==> forall at :: at in Between(s.rule, from - Duration(s) - 1, until) ==> Some(at) in done
    requires forall at :: at in ByStart(children) ==> Some(at) in done
    ensures Expands(s, ByStart(children), from, until, out, keys)
  {
  }

  /** The overrides not yet met by the rule: one that was met and is still there
      is a cancelled one. */
  ghost predicate Unmet(all: map<int, Override>, left: map<int, Override>, done: set<Option<int>>) {
    && (forall at :: at in left ==> at in all && left[at] == all[at] && (Some(at) in done ==> all[at].cancelled))
    && (forall at :: at in all && at !in left ==> Some(at) in done)
  }

  lemma {:induction false} MeetNext(all: map<int, Override>, left: map<int, Override>, done: set<Option<int>>, at: int)
    requires Unmet(all, left, done)
    ensures Unmet(all, if at in left && !left[at].cancelled then left - {at} else left, done + {Some(at)})
  {
  }

  /** One start the rule makes, with the override there is for it, which is then
      spent unless it is a cancelled one. */
  method OneStart(s: Series, left: map<int, Override>, at: int, from: int, until: int)
    returns (o: Option<Occurrence>, rest: map<int, Override>)
    requires s.repeats && s.rule(at)
    ensures o == Shown(s, left, Some(at), from, until)
    ensures rest == if at in left && !left[at].cancelled then left - {at} else left
  {
    var one := Occurrence(at, at + Duration(s), s.summary, s.location);
    rest := left;
    if at in left {
      if left[at].cancelled {
        return None, rest;
      }
      one := Occurrence(left[at].start, left[at].end, left[at].summary, left[at].location);
      rest := left - {at};
    }
    return if Overlaps(one.start, one.end, from, until) then Some(one) else None, rest;
  }

  /** The starts the rule makes, each with its override applied. */
  method ExpandRule(s: Series, all: map<int, Override>, from: int, until: int)
    returns (out: seq<Occurrence>, left: map<int, Override>, ghost keys: seq<Option<int>>, ghost done: set<Option<int>>)
    requires s.repeats
    ensures Listed(s, all, from, until, out, keys, done) && Unmet(all, left, done)
    ensures forall at :: at in Between(s.rule, from - Duration(s) - 1, until) ==> Some(at) in done
  {
    var duration := Duration(s);
    out, keys, done, left := [], [], {}, all;
    var starts := Between(s.rule, from - duration - 1, until);
    for i := 0 to |starts|
      invariant Listed(s, all, from, until, out, keys, done) && Unmet(all, left, done)
      invariant forall k :: 0 <= k < i ==> Some(starts[k]) in done
      invariant forall k :: i <= k < |starts| ==> Some(starts[k]) !in done
    {
      var at := starts[i];
      assert at in starts;
      ListNext(s, all, from, until, out, keys, done, Some(at));
      MeetNext(all, left, done, at);
      assert Shown(s, left, Some(at), from, until) == Shown(s, all, Some(at), from, until);
      done := done + {Some(at)};
      var o;
      o, left := OneStart(s, left, at, from, until);
      if o.Some? {
        out, keys := out + [o.value], keys + [Some(at)];
      }
    }
  }

  /** The instances of an object that fall in [from, until). An instance that began
      before the window may still be running in it, so the rule is expanded from
      one duration earlier; and an override that moved an instance into the window
      is in it, though the rule never lands there. keys records which start each
      listed instance stands for. */
  method Occurrences(s: Series, children: seq<Override>, from: int, until: int)
    returns (out: seq<Occurrence>, ghost keys: seq<Option<int>>)
    ensures Expands(s, ByStart(children), from, until, out, keys)
    ensures ShowsAll(s, ByStart(children), from, until, out)
  {
    var overrides := OverridesOf(children);
    ghost var all := overrides;
    ghost var done: set<Option<int>> := {};
    out, keys := [], [];
    if s.repeats {
      out, overrides, keys, done := ExpandRule(s, overrides, from, until);
    } else {
      ListNext(s, all, from, until, out, keys, done, None);
      done := {None};
      if Overlaps(s.start, s.start + Duration(s), from, until) {
        out, keys := [Occurrence(s.start, s.start + Duration(s), s.summary, s.location)], [None];
      }
    }
    var left := overrides.Items;
    while left != {}
      invariant Listed(s, all, from, until, out, keys, done)
      invariant left <= overrides.Items
      invariant forall at :: at in overrides && (at, overrides[at]) in left && Some(at) in done ==> all[at].cancelled
      invariant forall at :: at in all && (at, all[at]) !in left ==> Some(at) in done
      invariant s.repeats ==> forall at :: at in Between(s.rule, from - Duration(s) - 1, until) ==> Some(at) in done
      invariant !s.repeats ==> None in done
      decreases left
    {
      var item :| item in left;
      var (at, o) := item;
      left := left - {item};
      if Some(at) !in done {
        ListNext(s, all, from, until, out, keys, done, Some(at));
        done := done + {Some(at)};
      }
      if !o.cancelled && Overlaps(o.start, o.end, from, until) {
        out, keys := out + [Occurrence(o.start, o.end, o.summary, o.location)], keys + [Some(at)];
      }
    }
    ListedAll(s, children, from, until, out, keys, done);
    ExpansionShowsAll(s, all, from, until, out, keys);
  }

  /** What is listed is what is shown for some start, and all of it. */
  ghost predicate ShowsAll(s: Series, overrides: map<int, Override>, from: int, until: int, out: seq<Occurrence>) {
    forall o :: o in out <==> exists key :: Shown(s, overrides, key, from, until) == Some(o)
  }

  lemma {:induction false} ExpansionShowsAll(s: Series, overrides: map<int, Override>, from: int, until: int,
                                             out: seq<Occurrence>, keys: seq<Option<int>>)
    requires Expands(s, overrides, from, until, out, keys)
    ensures ShowsAll(s, overrides, from, until, out)
  {
    forall o ensures o in out <==> exists key :: Shown(s, overrides, key, from, until) == Some(o) {
      if o in out {
        var i :| 0 <= i < |out| && out[i] == o;
        assert Shown(s, overrides, keys[i], from, until) == Some(o);
      }
      if key :| Shown(s, overrides, key, from, until) == Some(o) {
        assert key in keys;
        var i :| 0 <= i < |keys| && keys[i] == key;
      }
    }
  }

  // ---------- what the rewriting keeps ----------

  /** The server's own list, by original start. */
  function Serving(instances: seq<Instance>): map<int, Instance> {
    if instances == [] then map[]
    else
      var last := instances[|instances| - 1];
      var before := Serving(instances[..|instances| - 1]);
      if last.original.Some? then before[last.original.value := last] else before
  }

  /** The instance a calendar showing the server's list has for an original start. */
  ghost function Served(instances: seq<Instance>, at: int, from: int, until: int): Option<Occurrence> {
    if at !in Serving(instances) then None
    else
      var i := Serving(instances)[at];
      if !i.cancelled && InWindow(i.start, i.end, from, until)
      then Some(Occurrence(i.start, i.end, i.summary, i.location)) else None
  }

  /** What Graph's list of instances is: every one says where the rule put it, no
      two the same, and one that is neither an exception nor cancelled is where
      the rule put it, as long and as named as the series. */
  ghost predicate Truthful(s: Series, instances: seq<Instance>) {
    && (forall i :: 0 <= i < |instances| ==> instances[i].original.Some?)
    && (forall i, j :: 0 <= i < j < |instances| ==> instances[i].original != instances[j].original)
    && forall i :: 0 <= i < |instances| && !IsWritten(instances[i]) ==> Plain(s, instances[i])
  }

  predicate Plain(s: Series, i: Instance) {
    i.original.Some? && var at := i.original.value;
    s.rule(at) && i.start == at && i.end == at + Duration(s) && i.summary == s.summary && i.location == s.location
  }

  /** What the list says of a start, and what was written for it. */
  ghost predicate WrittenFor(s: Series, instances: seq<Instance>, at: int) {
    var served, written := Serving(instances), ByStart(FromInstances(instances));
    && (at in served <==> at in Originals(instances))
    && (at in served ==> served[at].original == Some(at) && (IsWritten(served[at]) || Plain(s, served[at])))
    && (at in written <==> at in served && IsWritten(served[at]))
    && (at in written ==> written[at] == OverrideOf(served[at]))
  }

  lemma {:induction false} WrittenNext(s: Series, before: seq<Instance>, last: Instance, at: int)
    requires WrittenFor(s, before, at) && last.original.Some? && last.original.value !in Originals(before)
    requires IsWritten(last) || Plain(s, last)
    ensures WrittenFor(s, before + [last], at)
  {
  }

  lemma {:induction false} WrittenByStart(s: Series, instances: seq<Instance>, at: int)
    requires Truthful(s, instances)
    ensures WrittenFor(s, instances, at)
  {
    if instances != [] {
      var n := |instances| - 1;
      WrittenByStart(s, instances[..n], at);
      NotBefore(instances, n, n);
      WrittenNext(s, instances[..n], instances[n], at);
      assert instances[..n] + [instances[n]] == instances;
    }
  }

  lemma {:induction false} NotBefore(instances: seq<Instance>, n: nat, k: nat)
    requires n < |instances| && k <= n && forall i :: 0 <= i < |instances| ==> instances[i].original.Some?
    requires forall i, j :: 0 <= i < j < |instances| ==> instances[i].original != instances[j].original
    ensures instances[n].original.value !in Originals(instances[..k])
  {
    if k > 0 {
      NotBefore(instances, n, k - 1);
      assert instances[..k][..k - 1] == instances[..k - 1];
    }
  }

  lemma {:induction false} MissingByStart(starts: seq<int>, have: set<int>, at: int)
    ensures at in ByStart(FromMissing(starts, have)) <==> at in starts && at !in have
    ensures at in ByStart(FromMissing(starts, have)) ==> ByStart(FromMissing(starts, have))[at] == Cancelled(at)
  {
    if starts != [] {
      var before, last := starts[..|starts| - 1], starts[|starts| - 1];
      MissingByStart(before, have, at);
      assert starts == before + [last];
      if last !in have {
        var was := FromMissing(before, have);
        assert (was + [Cancelled(last)])[..|was|] == was;
      }
    }
  }

  lemma {:induction false} ByStartOfBoth(first: seq<Override>, second: seq<Override>)
    ensures ByStart(first + second) == ByStart(first) + ByStart(second)
  {
    if second == [] {
      assert first + second == first;
    } else {
      var n := |second| - 1;
      ByStartOfBoth(first, second[..n]);
      assert (first + second)[..|first + second| - 1] == first + second[..n];
    }
  }

  /** The override an object of the server's list has for a start. */
  lemma {:induction false} OverrideAt(s: Series, instances: seq<Instance>, from: int, until: int, at: int)
    requires Truthful(s, instances)
    ensures var overrides, served := ByStart(Overrides(s, instances, from, until)), Serving(instances);
            if at in served then
              if IsWritten(served[at]) then at in overrides && overrides[at] == OverrideOf(served[at])
              else at !in overrides && Plain(s, served[at]) && served[at].original == Some(at)
            else if s.repeats && !s.allDay && s.rule(at) && from <= at <= until then
              at in overrides && overrides[at].cancelled
            else at !in overrides
  {
    WrittenByStart(s, instances, at);
    var missing := if s.repeats && !s.allDay then FromMissing(Between(s.rule, from, until), Originals(instances)) else [];
    MissingByStart(Between(s.rule, from, until), Originals(instances), at);
    ByStartOfBoth(FromInstances(instances), missing);
  }

  /** A start the rule makes and the server does not list, and which the object
      nevertheless shows in the window [first, last). */
  ghost predicate Ghost(s: Series, instances: seq<Instance>, from: int, until: int, at: int, first: int, last: int) {
    && at !in Serving(instances) && s.rule(at) && InWindow(at, at + Duration(s), first, last)
    && (s.allDay || at < from || until < at)
  }

  /** Start by start, the object shows exactly what the server lists, whether the
      instance stayed, was moved, came from outside the window or was cancelled;
      and besides that, exactly the ghosts. */
  lemma {:induction false} StartShown(s: Series, instances: seq<Instance>, from: int, until: int, at: int, first: int, last: int)
    requires Truthful(s, instances) && s.repeats
    ensures Shown(s, ByStart(Overrides(s, instances, from, until)), Some(at), first, last)
         == if Ghost(s, instances, from, until, at, first, last)
            then Some(Occurrence(at, at + Duration(s), s.summary, s.location))
            else Served(instances, at, first, last)
  {
    OverrideAt(s, instances, from, until, at);
  }

  /** In UTC, where an all-day start is read at the instant the server lists for it.
      An object made for the window [from, until] and read in [first, last) shows
      the server's instances, no more and no fewer, exactly when no start is a
      ghost: an all-day series never writes off a deleted instance, and a timed
      one only those that began inside the window it was made for. */
  lemma {:induction false} ShowsTheServersIff(s: Series, instances: seq<Instance>, from: int, until: int, first: int, last: int)
    requires Truthful(s, instances) && s.repeats
    ensures (forall at :: Shown(s, ByStart(Overrides(s, instances, from, until)), Some(at), first, last)
                       == Served(instances, at, first, last))
       <==> (forall at :: !Ghost(s, instances, from, until, at, first, last))
  {
    forall at: int
      ensures Shown(s, ByStart(Overrides(s, instances, from, until)), Some(at), first, last) == Served(instances, at, first, last)
         <==> !Ghost(s, instances, from, until, at, first, last)
    {
      StartShown(s, instances, from, until, at, first, last);
    }
  }

  /** A timed series read at least one duration after its window opens, and not
      past its end, is exactly the server's. */
  lemma {:induction false} TimedSeriesAreExact(s: Series, instances: seq<Instance>, from: int, until: int,
                                               first: int, last: int, at: int)
    requires Truthful(s, instances) && s.repeats && !s.allDay
    requires from + Duration(s) <= first && last <= until + 1
    ensures Shown(s, ByStart(Overrides(s, instances, from, until)), Some(at), first, last) == Served(instances, at, first, last)
  {
    StartShown(s, instances, from, until, at, first, last);
  }

  /** Daily, all day, its second day deleted: the deleted day is still shown. */
  lemma {:induction false} AllDayDeletionExample(s: Series, kept: Instance)
    requires s.repeats && s.allDay && s.start == 0 && s.end == 86400 && s.rule(86400) && s.rule(0)
    requires kept == Instance(Some(0), false, false, 0, 86400, s.summary, s.location)
    ensures Truthful(s, [kept])
    ensures Shown(s, ByStart(Overrides(s, [kept], 0, 172800)), Some(86400), 0, 172800).Some?
    ensures Served([kept], 86400, 0, 172800).None?
  {
    assert Truthful(s, [kept]);
    assert [kept][..0] == [];
    assert Serving([kept]) == map[0 := kept];
    assert TakesUp(86400, 172800, 86400);
    StartShown(s, [kept], 0, 172800, 86400, 0, 172800);
  }

  /** An all-day start is read at local midnight, and RECURRENCE-ID names the one in
      UTC. Where the two differ an exception does not replace the day it stands for:
      both are shown. */
  lemma {:induction false} AllDayExceptionIsShownTwice(s: Series, i: Instance, offset: int, from: int, until: int, first: int, last: int)
    requires s.repeats && s.allDay && offset != 0 && i.original.Some? && i.exception && !i.cancelled
    requires s.rule(i.original.value - offset)
    requires InWindow(i.start, i.end, first, last)
    requires InWindow(i.original.value - offset, i.original.value - offset + Duration(s), first, last)
    ensures var overrides, midnight := ByStart(Overrides(s, [i], from, until)), i.original.value - offset;
            && Shown(s, overrides, i.original, first, last) == Some(Occurrence(i.start, i.end, i.summary, i.location))
            && Shown(s, overrides, Some(midnight), first, last) == Some(Occurrence(midnight, midnight + Duration(s), s.summary, s.location))
  {
    var midnight := i.original.value - offset;
    assert Truthful(s, [i]);
    assert [i][..0] == [] && Serving([i]) == map[i.original.value := i];
    OverrideAt(s, [i], from, until, i.original.value);
    OverrideAt(s, [i], from, until, midnight);
  }
}
