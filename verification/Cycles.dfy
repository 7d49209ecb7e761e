/** How an account's cycles are asked for: a channel that holds one request, and a
    loop that takes it and runs a cycle. Whoever asks never waits. */
module Cycles {
  import opened Basics

  /** pending is what the channel holds, running the request of the cycle under way. */
  datatype Loop = Loop(pending: Option<string>, running: Option<string>)

  datatype Event = Kick(reason: string) | Begin | End

  predicate Enabled(l: Loop, e: Event) {
    match e
    case Kick(_) => true
    case Begin => l.running.None? && l.pending.Some?
    case End => l.running.Some?
  }

  /** A full channel drops the request. */
  function Next(l: Loop, e: Event): Loop
    requires Enabled(l, e)
  {
    match e
    case Kick(reason) => if l.pending.None? then l.(pending := Some(reason)) else l
    case Begin => Loop(None, l.pending)
    case End => l.(running := None)
  }

  ghost predicate IsRun(loops: seq<Loop>, events: seq<Event>) {
    && |loops| == |events| + 1 && loops[0] == Loop(None, None)
    && forall k :: 0 <= k < |events| ==> Enabled(loops[k], events[k]) && loops[k + 1] == Next(loops[k], events[k])
  }

  class Account {
    var pending: Option<string>
    var running: Option<string>

    ghost function State(): Loop
      reads this
    {
      Loop(pending, running)
    }

    constructor ()
      ensures State() == Loop(None, None)
    {
      pending, running := None, None;
    }

    method KickAccount(reason: string)
      modifies this
      ensures State() == Next(old(State()), Kick(reason))
    {
      if pending.None? {
        pending := Some(reason);
      }
    }

    /** The loop takes a request, when it has no cycle under way. */
    method Take() returns (reason: string)
      requires Enabled(State(), Begin)
      modifies this
      ensures State() == Next(old(State()), Begin) && Some(reason) == old(pending)
    {
      reason := pending.value;
      pending, running := None, pending;
    }
  }

  /** No request is lost, though most are dropped: once nothing is pending, a cycle
      has begun after every one of them. */
  lemma {:induction false} EveryKickIsAnswered(loops: seq<Loop>, events: seq<Event>, k: nat, n: nat) returns (j: nat)
    requires IsRun(loops, events) && k < n < |loops| && events[k].Kick? && loops[n].pending.None?
    ensures k < j < n && events[j] == Begin
    decreases n
  {
    j := n - 1;
    if events[j] != Begin {
      assert loops[n] == Next(loops[j], events[j]);
      j := EveryKickIsAnswered(loops, events, k, n - 1);
    }
  }

  function Kicks(events: seq<Event>): nat {
    if events == [] then 0 else Kicks(events[..|events| - 1]) + if events[|events| - 1].Kick? then 1 else 0
  }

  function Begun(events: seq<Event>): nat {
    if events == [] then 0 else Begun(events[..|events| - 1]) + if events[|events| - 1].Begin? then 1 else 0
  }

  function Finished(events: seq<Event>): nat {
    if events == [] then 0 else Finished(events[..|events| - 1]) + if events[|events| - 1].End? then 1 else 0
  }

  /** No cycle begins unasked, and none before the last has ended. */
  lemma {:induction false} CyclesAreAskedForAndApart(loops: seq<Loop>, events: seq<Event>, n: nat)
    requires IsRun(loops, events) && n < |loops|
    ensures Begun(events[..n]) + (if loops[n].pending.Some? then 1 else 0) <= Kicks(events[..n])
    ensures Begun(events[..n]) == Finished(events[..n]) + if loops[n].running.Some? then 1 else 0
  {
    if n > 0 {
      CyclesAreAskedForAndApart(loops, events, n - 1);
      assert events[..n][..n - 1] == events[..n - 1];
      assert loops[n] == Next(loops[n - 1], events[n - 1]);
    }
  }
}
