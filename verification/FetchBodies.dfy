/** Bodies fetched several at a time: the loop that starts workers, the workers
    that finish in any order, and what is collected when all have. */
module FetchBodies {
  import opened Basics

  const WORKERS: nat := 4

  /** What fetching one message comes to. */
  datatype Answer = Body(content: string) | Vanished | Failed(error: string)

  datatype Result = Bodies(list: seq<(nat, string)>) | Error(error: string)

  /** The slots the workers write to, one each: an error, or a body under its uid,
      or nothing for a message that has gone. */
  datatype Slot = Slot(uid: nat, content: string, error: Option<string>)

  /** tokens is how many are in the channel that bounds the workers; held, that the
      loop has put one in for a worker it has not started yet. started is how many
      messages have been given to a worker, running the ones still being fetched,
      returning the ones whose worker has yet to take its token out again. */
  datatype Pool = Pool(started: nat, held: bool, tokens: nat, running: set<nat>, returning: set<nat>, slots: map<nat, Slot>)

  datatype Step = Take | Start | Finish(i: nat) | Return(i: nat)

  function Filled(uid: nat, a: Answer): Slot {
    match a
    case Body(content) => Slot(uid, content, None)
    case Vanished => Slot(0, "", None)
    case Failed(error) => Slot(0, "", Some(error))
  }

  /** Sending to the channel waits while it is full. */
  predicate Enabled(p: Pool, s: Step, n: nat) {
    match s
    case Take => p.started < n && !p.held && p.tokens < WORKERS
    case Start => p.started < n && p.held
    case Finish(i) => i in p.running
    case Return(i) => i in p.returning
  }

  function Next(p: Pool, s: Step, uids: seq<nat>, answers: seq<Answer>): Pool
    requires |answers| == |uids| && Enabled(p, s, |uids|) && (s.Finish? ==> s.i < |uids|)
  {
    match s
    case Take => p.(held := true, tokens := p.tokens + 1)
    case Start => p.(started := p.started + 1, held := false, running := p.running + {p.started})
    case Finish(i) =>
      p.(running := p.running - {i}, returning := p.returning + {i}, slots := p.slots[i := Filled(uids[i], answers[i])])
    case Return(i) => p.(tokens := if p.tokens > 0 then p.tokens - 1 else 0, returning := p.returning - {i})
  }

  /** Every token is a worker's, or the one the loop holds. */
  ghost predicate Orderly(p: Pool, uids: seq<nat>, answers: seq<Answer>)
    requires |answers| == |uids|
  {
    && p.started <= |uids| && p.tokens <= WORKERS && p.running !! p.returning
    && p.tokens == |p.running| + |p.returning| + (if p.held then 1 else 0)
    && (forall i :: i in p.running || i in p.returning || i in p.slots ==> i < p.started)
    && (forall i :: 0 <= i < p.started && i !in p.running ==> i in p.slots && p.slots[i] == Filled(uids[i], answers[i]))
  }

  ghost predicate IsRun(pools: seq<Pool>, steps: seq<Step>, uids: seq<nat>, answers: seq<Answer>)
    requires |answers| == |uids|
  {
    && |pools| == |steps| + 1 && pools[0] == Pool(0, false, 0, {}, {}, map[])
    && forall k :: 0 <= k < |steps| ==>
         Enabled(pools[k], steps[k], |uids|) && (steps[k].Finish? ==> steps[k].i < |uids|) &&
         pools[k + 1] == Next(pools[k], steps[k], uids, answers)
  }

  lemma {:induction false} NextStaysOrderly(p: Pool, s: Step, uids: seq<nat>, answers: seq<Answer>)
    requires |answers| == |uids| && Orderly(p, uids, answers) && Enabled(p, s, |uids|)
    ensures (s.Finish? ==> s.i < |uids|) && Orderly(Next(p, s, uids, answers), uids, answers)
  {
  }

  lemma {:induction false} RunsStayOrderly(pools: seq<Pool>, steps: seq<Step>, uids: seq<nat>, answers: seq<Answer>, k: nat)
    requires |answers| == |uids| && IsRun(pools, steps, uids, answers) && k < |pools|
    ensures Orderly(pools[k], uids, answers)
  {
    if k > 0 {
      RunsStayOrderly(pools, steps, uids, answers, k - 1);
      NextStaysOrderly(pools[k - 1], steps[k - 1], uids, answers);
    }
  }

  /** In no interleaving are more than four fetches in flight, for each has a token in
      a channel of four; and while the loop holds one for the next, no more than three. */
  lemma {:induction false} NeverMoreThanFour(pools: seq<Pool>, steps: seq<Step>, uids: seq<nat>, answers: seq<Answer>, k: nat)
    requires |answers| == |uids| && IsRun(pools, steps, uids, answers) && k < |pools|
    ensures |pools[k].running| <= if pools[k].held then 3 else 4
  {
    RunsStayOrderly(pools, steps, uids, answers, k);
  }

  /** The slots, read in the order of the request. */
  function Collect(slots: seq<Slot>): Result {
    if slots == [] then Bodies([])
    else
      var before := Collect(slots[..|slots| - 1]);
      var last := slots[|slots| - 1];
      if before.Error? then before
      else if last.error.Some? then Error(last.error.value)
      else if last.uid != 0 then Bodies(before.list + [(last.uid, last.content)])
      else before
  }

  method CollectSlots(slots: seq<Slot>) returns (r: Result)
    ensures r == Collect(slots)
  {
    var list: seq<(nat, string)> := [];
    for i := 0 to |slots|
      invariant Collect(slots[..i]) == Bodies(list)
    {
      assert slots[..i + 1][..i] == slots[..i];
      if slots[i].error.Some? {
        FirstErrorWins(slots, i + 1);
        return Error(slots[i].error.value);
      }
      if slots[i].uid != 0 {
        list := list + [(slots[i].uid, slots[i].content)];
      }
    }
    assert slots[..|slots|] == slots;
    return Bodies(list);
  }

  lemma {:induction false} FirstErrorWins(slots: seq<Slot>, n: nat)
    requires n <= |slots| && Collect(slots[..n]).Error?
    ensures Collect(slots) == Collect(slots[..n])
    decreases |slots| - n
  {
    if n < |slots| {
      assert slots[..n + 1][..n] == slots[..n];
      FirstErrorWins(slots, n + 1);
    } else {
      assert slots[..n] == slots;
    }
  }

  /** One message after the other, stopping at the first error. */
  function OneByOne(uids: seq<nat>, answers: seq<Answer>): Result
    requires |answers| == |uids|
  {
    if uids == [] then Bodies([])
    else
      match answers[0]
      case Failed(error) => Error(error)
      case Vanished => OneByOne(uids[1..], answers[1..])
      case Body(content) =>
        var rest := OneByOne(uids[1..], answers[1..]);
        if rest.Error? then rest else Bodies([(uids[0], content)] + rest.list)
  }

  function SlotsOf(uids: seq<nat>, answers: seq<Answer>): seq<Slot>
    requires |answers| == |uids|
  {
    seq(|uids|, i requires 0 <= i < |uids| => Filled(uids[i], answers[i]))
  }

  /** Reading slots from the front. */
  lemma {:induction false} CollectFromFront(first: Slot, rest: seq<Slot>)
    ensures Collect([first] + rest) ==
              if first.error.Some? then Error(first.error.value)
              else if Collect(rest).Error? then Collect(rest)
              else if first.uid != 0 then Bodies([(first.uid, first.content)] + Collect(rest).list)
              else Collect(rest)
  {
    var all := [first] + rest;
    if rest == [] {
      assert all[..0] == [];
    } else {
      CollectFromFront(first, rest[..|rest| - 1]);
      assert all[..|all| - 1] == [first] + rest[..|rest| - 1];
    }
  }

  lemma {:induction false} CollectIsOneByOne(uids: seq<nat>, answers: seq<Answer>)
    requires |answers| == |uids| && forall i :: 0 <= i < |uids| ==> uids[i] != 0
    ensures Collect(SlotsOf(uids, answers)) == OneByOne(uids, answers)
  {
    if uids != [] {
      CollectIsOneByOne(uids[1..], answers[1..]);
      CollectFromFront(Filled(uids[0], answers[0]), SlotsOf(uids[1..], answers[1..]));
      assert SlotsOf(uids, answers) == [Filled(uids[0], answers[0])] + SlotsOf(uids[1..], answers[1..]);
    }
  }

  /** When all workers have finished, whatever their order, what is collected is
      what fetching the messages one after the other would have returned: bodies in
      the order asked for, vanished messages left out, and of several errors the
      first message's. */
  lemma {:induction false} WorkersAgreeWithOneByOne(pools: seq<Pool>, steps: seq<Step>, uids: seq<nat>, answers: seq<Answer>)
    requires |answers| == |uids| && IsRun(pools, steps, uids, answers)
    requires forall i :: 0 <= i < |uids| ==> uids[i] != 0
    requires var last := pools[|steps|]; last.started == |uids| && last.running == {} && last.returning == {}
    ensures var slots := pools[|steps|].slots;
            (forall i :: 0 <= i < |uids| ==> i in slots) &&
            Collect(seq(|uids|, i requires 0 <= i < |uids| => if i in slots then slots[i] else Slot(0, "", None)))
            == OneByOne(uids, answers)
  {
    RunsStayOrderly(pools, steps, uids, answers, |steps|);
    var slots := pools[|steps|].slots;
    assert forall i :: 0 <= i < |uids| ==> i in slots && slots[i] == Filled(uids[i], answers[i]);
    assert seq(|uids|, i requires 0 <= i < |uids| => if i in slots then slots[i] else Slot(0, "", None)) == SlotsOf(uids, answers);
    CollectIsOneByOne(uids, answers);
  }
}
