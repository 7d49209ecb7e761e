/** SetRules and deleteRules, proved over every state the server passes through. */
module RuleProtocol {
  import opened Basics
  import opened RuleTables
  import opened RuleSync

  type Rules = seq<ServerRule>

  /** s is start with some of the rules with these ids taken away. */
  ghost predicate Thinner(start: Rules, s: Rules, ids: set<RuleId>) {
    Keep(s, ids) == Keep(start, ids) && forall x :: x in s ==> x in start
  }

  ghost predicate AllOld(before: Rules, s: Rules) {
    forall x :: x in before ==> x in s
  }

  ghost predicate AllNew(before: Rules, s: Rules, built: seq<GraphRule>) {
    forall i :: 0 <= i < |built| ==> HasNew(before, s, built[i])
  }

  ghost predicate HasNew(before: Rules, s: Rules, g: GraphRule) {
    exists x :: x in s && x !in before && x.rule == g
  }

  /** What the server may be seen holding while the Routing is written: every rule
      we had or every rule we want, a human's rules as they were and in their
      order, and nothing else. */
  ghost predicate Safe(before: Rules, s: Rules, built: seq<GraphRule>) {
    && (AllOld(before, s) || AllNew(before, s, built))
    && Foreign(s) == Foreign(before)
    && forall x :: x in s ==> x in before || x.rule in built
  }

  predicate Named(built: seq<GraphRule>) {
    forall i :: 0 <= i < |built| ==> IsOurs(built[i].name)
  }

  /** What was created: the first rules of built, in order, under these new ids. */
  ghost predicate Created(added: Rules, made: seq<RuleId>, built: seq<GraphRule>, before: Rules) {
    && |added| == |made| <= |built|
    && (forall i :: 0 <= i < |added| ==> added[i] == ServerRule(made[i], built[i]))
    && forall i, x :: 0 <= i < |made| && x in before ==> x.id != made[i]
  }

  function Ids(made: seq<RuleId>): set<RuleId> {
    set i | i in made
  }

  // ---------- the three phases ----------

  lemma {:induction false} ForeignOfOurs(added: Rules)
    requires forall x :: x in added ==> Ours(x)
    ensures Foreign(added) == []
  {
    if added != [] {
      ForeignOfOurs(added[1..]);
    }
  }

  lemma {:induction false} ForeignIdempotent(rules: Rules)
    ensures Foreign(Foreign(rules)) == Foreign(rules)
    ensures forall x :: x in Foreign(rules) <==> x in rules && !Ours(x)
  {
    if rules != [] {
      ForeignIdempotent(rules[1..]);
      assert rules == [rules[0]] + rules[1..];
    }
  }

  /** The rules that are not ours, and are kept as they are and in their order, are
      those whose name does not begin with the program's. */
  lemma {:induction false} ForeignAreTheOthers(rules: Rules, x: ServerRule)
    ensures x in Foreign(rules) <==> x in rules && !("mailbox:" <= x.rule.name)
  {
    ForeignIdempotent(rules);
  }

  lemma {:induction false} WhileCreating(before: Rules, added: Rules, built: seq<GraphRule>)
    requires Named(built) && forall x :: x in added ==> x.rule in built
    ensures Safe(before, before + added, built)
  {
    ForeignConcat(before, added);
    assert forall x :: x in added ==> Ours(x);
    ForeignOfOurs(added);
  }

  lemma {:induction false} AddedAreOurs(added: Rules, built: seq<GraphRule>)
    requires Named(built) && forall x :: x in added ==> x.rule in built
    ensures Foreign(added) == [] && forall x :: x in added ==> Ours(x)
  {
    assert forall x :: x in added ==> Ours(x);
    ForeignOfOurs(added);
  }

  lemma {:induction false} RollbackTakesBack(before: Rules, added: Rules, made: seq<RuleId>, lost: Rules, built: seq<GraphRule>)
    requires Created(added, made, built, before)
    requires forall x :: x in lost ==> x.id !in made
    ensures Keep(before + added + lost, Ids(made)) == before + lost
  {
    var ids := Ids(made);
    KeepConcat(before + added, lost, ids);
    KeepConcat(before, added, ids);
    KeepAll(before, ids);
    KeepNone(added, ids);
    KeepAll(lost, ids);
    assert before + [] == before;
  }

  /** What is left of start on the way, when only our rules are taken away. */
  lemma {:induction false} ThinnerForeign(start: Rules, s: Rules, ids: set<RuleId>)
    requires Thinner(start, s, ids)
    requires forall x :: x in start && x.id in ids ==> Ours(x)
    ensures Foreign(s) == Foreign(Keep(start, ids))
    ensures forall x :: x in Keep(start, ids) ==> x in s
  {
    ForeignOfKeep(s, ids);
    KeepFacts(s, ids);
  }

  lemma {:induction false} OnlyMadeAreTaken(before: Rules, added: Rules, made: seq<RuleId>, lost: Rules, built: seq<GraphRule>)
    requires Named(built) && Created(added, made, built, before)
    requires forall x :: x in lost ==> x.id !in made
    ensures forall x :: x in before + added + lost && x.id in Ids(made) ==> Ours(x)
  {
  }

  /** lost is the rule whose create was carried out but answered with an error. */
  lemma {:induction false} WhileRollingBack(before: Rules, added: Rules, made: seq<RuleId>, lost: Rules, built: seq<GraphRule>, s: Rules)
    requires Named(built) && Created(added, made, built, before)
    requires forall x :: x in lost ==> x.rule in built && x.id !in made
    requires Thinner(before + added + lost, s, Ids(made))
    ensures Safe(before, s, built) && AllOld(before, s)
  {
    RollbackTakesBack(before, added, made, lost, built);
    OnlyMadeAreTaken(before, added, made, lost, built);
    ThinnerForeign(before + added + lost, s, Ids(made));
    assert Foreign(before + lost) == Foreign(before) by {
      AddedAreOurs(lost, built);
      ForeignConcat(before, lost);
    }
    assert AllOld(before, s);
  }

  lemma {:induction false} DeletesLeave(before: Rules, added: Rules, made: seq<RuleId>, built: seq<GraphRule>, olds: set<RuleId>)
    requires Created(added, made, built, before)
    requires forall x :: x in before ==> (x.id in olds <==> Ours(x))
    requires forall i :: 0 <= i < |made| ==> made[i] !in olds
    ensures Keep(before + added, olds) == Foreign(before) + added
  {
    KeepConcat(before, added, olds);
    ForeignIsKeep(before, olds);
    KeepAll(added, olds);
  }

  lemma {:induction false} AddedMeansAllNew(before: Rules, added: Rules, made: seq<RuleId>, built: seq<GraphRule>, s: Rules)
    requires Created(added, made, built, before) && |added| == |built|
    requires forall x :: x in added ==> x in s
    ensures AllNew(before, s, built)
  {
  }

  lemma {:induction false} WhileDeleting(before: Rules, added: Rules, made: seq<RuleId>, built: seq<GraphRule>, olds: set<RuleId>, s: Rules)
    requires Named(built) && Created(added, made, built, before) && |added| == |built|
    requires forall x :: x in before ==> (x.id in olds <==> Ours(x))
    requires forall i :: 0 <= i < |made| ==> made[i] !in olds
    requires Thinner(before + added, s, olds)
    ensures Safe(before, s, built) && AllNew(before, s, built)
  {
    DeletesLeave(before, added, made, built, olds);
    ThinnerForeign(before + added, s, olds);
    assert AllNew(before, s, built) by {
      assert forall x :: x in added ==> x in Keep(before + added, olds);
      AddedMeansAllNew(before, added, made, built, s);
    }
    assert Foreign(Foreign(before) + added) == Foreign(before) by {
      AddedAreOurs(added, built);
      ForeignConcat(Foreign(before), added);
      ForeignIdempotent(before);
    }
  }

  // ---------- the calls ----------

  /** No call with a number from lo below hi was carried out with its answer lost. */
  ghost predicate NoneLost(answers: nat -> Answer, lo: nat, hi: nat) {
    forall c: nat :: lo <= c < hi ==> answers(c) != Lost
  }

  lemma {:induction false} ThinnerKeep(start: Rules, gone: set<RuleId>, ids: set<RuleId>)
    requires gone <= ids
    ensures Thinner(start, Keep(start, gone), ids)
  {
    KeepTwice(start, gone, ids);
    KeepFacts(start, gone);
    assert gone + ids == ids;
  }

  /** Every state seen since the trace was `since` long is a thinning of start. */
  ghost predicate ThinTrace(trace: seq<Rules>, since: nat, start: Rules, ids: set<RuleId>) {
    forall k :: since <= k < |trace| ==> Thinner(start, trace[k], ids)
  }

  lemma {:induction false} ThinTraceGrows(trace: seq<Rules>, since: nat, start: Rules, ids: set<RuleId>, now: Rules)
    requires ThinTrace(trace, since, start, ids) && Thinner(start, now, ids)
    ensures ThinTrace(trace + [now], since, start, ids)
  {
  }

  /** One more delete among ids, carried out or refused. */
  lemma {:induction false} OneMoreGone(start: Rules, gone: set<RuleId>, id: RuleId, ids: set<RuleId>)
    requires gone <= ids && id in ids
    ensures Keep(Keep(start, gone), {id}) == Keep(start, gone + {id})
    ensures Thinner(start, Keep(start, gone), ids) && Thinner(start, Keep(start, gone + {id}), ids)
  {
    KeepTwice(start, gone, {id});
    ThinnerKeep(start, gone, ids);
    ThinnerKeep(start, gone + {id}, ids);
  }

  /** Deletes every id it can; ok when each was deleted or already gone. */
  method DeleteRules(server: RuleServer, ids: seq<RuleId>) returns (ok: bool)
    requires server.Valid()
    modifies server
    ensures server.Valid() && server.nextId == old(server.nextId) && server.calls == old(server.calls) + |ids|
    ensures old(server.trace) <= server.trace
    ensures ThinTrace(server.trace, |old(server.trace)|, old(server.rules), Ids(ids))
    ensures Thinner(old(server.rules), server.rules, Ids(ids))
    ensures ok ==> server.rules == Keep(old(server.rules), Ids(ids))
    ensures ok <==> AllDone(server.answers, old(server.calls), server.calls)
  {
    ok := true;
    ghost var start, gone := server.rules, {};
    KeepAll(start, {});
    for i := 0 to |ids|
      invariant server.Valid() && server.nextId == old(server.nextId) && server.calls == old(server.calls) + i
      invariant server.rules == Keep(start, gone) && gone <= Ids(ids)
      invariant old(server.trace) <= server.trace
      invariant ThinTrace(server.trace, |old(server.trace)|, start, Ids(ids))
      invariant ok ==> gone == Ids(ids[..i])
      invariant ok <==> AllDone(server.answers, old(server.calls), server.calls)
    {
      ghost var refused, trace := server.answers(server.calls) == Refused, server.trace;
      OneMoreGone(start, gone, ids[i], Ids(ids));
      var deleted := server.Delete(ids[i]);
      gone := if refused then gone else gone + {ids[i]};
      ThinTraceGrows(trace, |old(server.trace)|, start, Ids(ids), server.rules);
      assert ids[..i + 1] == ids[..i] + [ids[i]] && Ids(ids[..i + 1]) == Ids(ids[..i]) + {ids[i]};
      ok := ok && deleted;
    }
    assert ids[..|ids|] == ids;
    ThinnerKeep(start, gone, Ids(ids));
  }

  // ---------- the write ----------

  datatype Outcome = NotBuilt | CreateFailed(rolledBack: bool) | DeleteFailed | Written

  predicate AllPrefixed(want: seq<Rule>) {
    forall i :: 0 <= i < |want| ==> IsOurs(want[i].name)
  }

  ghost predicate SafeTrace(trace: seq<Rules>, since: nat, before: Rules, built: seq<GraphRule>) {
    forall k :: since <= k < |trace| ==> Safe(before, trace[k], built)
  }

  /** The highest sequence number in use, or nought. */
  function MaxSequence(rules: Rules): int {
    if rules == [] then 0
    else
      var m := MaxSequence(rules[..|rules| - 1]);
      if rules[|rules| - 1].rule.sequence > m then rules[|rules| - 1].rule.sequence else m
  }

  lemma {:induction false} BuiltAreNamed(want: seq<Rule>, built: seq<GraphRule>, first: int, folders: FolderMap)
    requires IsBuilt(built, want, first, folders) && AllPrefixed(want)
    ensures Named(built)
  {
  }

  /** The ids of the rules that carry our prefix. */
  function OursOf(rules: Rules): seq<RuleId> {
    if rules == [] then []
    else if Ours(rules[0]) then [rules[0].id] + OursOf(rules[1..]) else OursOf(rules[1..])
  }

  lemma {:induction false} OursOfIds(rules: Rules)
    ensures forall id :: id in OursOf(rules) <==> exists x :: x in rules && x.id == id && Ours(x)
  {
    if rules != [] {
      OursOfIds(rules[1..]);
      assert rules == [rules[0]] + rules[1..];
    }
  }

  lemma {:induction false} OursOfUnique(rules: Rules)
    requires UniqueIds(rules)
    ensures forall x :: x in rules ==> (x.id in Ids(OursOf(rules)) <==> Ours(x))
  {
    OursOfIds(rules);
    forall x, y | x in rules && y in rules && x.id == y.id ensures x == y {
      var i :| 0 <= i < |rules| && rules[i] == x;
      var j :| 0 <= j < |rules| && rules[j] == y;
    }
  }

  /** What a write that went through leaves: a human's rules as they were, and
      behind them the wanted ones in order. */
  ghost predicate Replaced(before: Rules, after: Rules, built: seq<GraphRule>) {
    var kept := Foreign(before);
    && |after| == |kept| + |built|
    && after[..|kept|] == kept
    && forall i :: 0 <= i < |built| ==> after[|kept| + i].rule == built[i]
  }

  lemma {:induction false} RollbackIsSafe(trace: seq<Rules>, since: nat, half: nat, now: Rules,
                       before: Rules, added: Rules, made: seq<RuleId>, lost: Rules, built: seq<GraphRule>)
    requires Named(built) && Created(added, made, built, before)
    requires forall x :: x in lost ==> x.rule in built && x.id !in made
    requires half <= |trace| && SafeTrace(trace[..half], since, before, built)
    requires ThinTrace(trace, half, before + added + lost, Ids(made))
    requires Thinner(before + added + lost, now, Ids(made))
    ensures SafeTrace(trace, since, before, built)
    ensures AllOld(before, now) && Foreign(now) == Foreign(before)
  {
    WhileRollingBack(before, added, made, lost, built, now);
    forall k | since <= k < |trace| ensures Safe(before, trace[k], built) {
      if k < half {
        assert trace[k] == trace[..half][k];
      } else {
        WhileRollingBack(before, added, made, lost, built, trace[k]);
      }
    }
  }

  lemma {:induction false} DeletingIsSafe(trace: seq<Rules>, since: nat, half: nat, now: Rules,
                       before: Rules, added: Rules, made: seq<RuleId>, built: seq<GraphRule>, olds: set<RuleId>)
    requires Named(built) && Created(added, made, built, before) && |added| == |built|
    requires forall x :: x in before ==> (x.id in olds <==> Ours(x))
    requires forall i :: 0 <= i < |made| ==> made[i] !in olds
    requires half <= |trace| && SafeTrace(trace[..half], since, before, built)
    requires ThinTrace(trace, half, before + added, olds)
    requires Thinner(before + added, now, olds)
    ensures SafeTrace(trace, since, before, built)
    ensures AllNew(before, now, built) && Foreign(now) == Foreign(before)
  {
    WhileDeleting(before, added, made, built, olds, now);
    forall k | since <= k < |trace| ensures Safe(before, trace[k], built) {
      if k < half {
        assert trace[k] == trace[..half][k];
      } else {
        WhileDeleting(before, added, made, built, olds, trace[k]);
      }
    }
  }

  /** Every rule has its folder. */
  predicate Buildable(before: Rules, want: seq<Rule>, folders: FolderMap) {
    forall i :: 0 <= i < |want| ==> Build(want[i], MaxSequence(before) + 1 + i, folders).Some?
  }

  /** The rules as they will be sent, resolved before anything is. */
  method BuildRules(before: Rules, want: seq<Rule>, folders: FolderMap) returns (built: Option<seq<GraphRule>>)
    ensures built.Some? <==> Buildable(before, want, folders)
    ensures built.Some? ==> IsBuilt(built.value, want, MaxSequence(before) + 1, folders)
    ensures built.Some? && AllPrefixed(want) ==> Named(built.value)
  {
    var sequence := 0;
    for i := 0 to |before|
      invariant sequence == MaxSequence(before[..i])
    {
      assert before[..i + 1][..i] == before[..i];
      if before[i].rule.sequence > sequence {
        sequence := before[i].rule.sequence;
      }
    }
    assert before[..|before|] == before;
    var out: seq<GraphRule> := [];
    for i := 0 to |want|
      invariant sequence == MaxSequence(before) + i
      invariant IsBuilt(out, want[..i], MaxSequence(before) + 1, folders)
    {
      sequence := sequence + 1;
      var g := Build(want[i], sequence, folders);
      if g.None? {
        return None;
      }
      out := out + [g.value];
    }
    assert want[..|want|] == want;
    if AllPrefixed(want) { BuiltAreNamed(want, out, MaxSequence(before) + 1, folders); }
    return Some(out);
  }

  lemma {:induction false} CreatedGrows(added: Rules, made: seq<RuleId>, built: seq<GraphRule>, before: Rules, id: RuleId)
    requires Created(added, made, built, before) && |made| < |built|
    requires forall x :: x in before ==> x.id != id
    ensures Created(added + [ServerRule(id, built[|made|])], made + [id], built, before)
  {
  }

  /** The states seen while rules were created: one more of them after every call. */
  ghost predicate CreateTrace(trace: seq<Rules>, since: nat, before: Rules, added: Rules) {
    |trace| >= since + |added| && forall k :: since <= k < since + |added| ==> trace[k] == before + added[..k - since + 1]
  }

  lemma {:induction false} CreateTraceGrows(trace: seq<Rules>, since: nat, before: Rules, added: Rules, x: ServerRule)
    requires CreateTrace(trace, since, before, added) && |trace| == since + |added|
    ensures CreateTrace(trace + [before + added + [x]], since, before, added + [x])
  {
  }

  lemma {:induction false} CreatingIsSafe(trace: seq<Rules>, since: nat, before: Rules, added: Rules, made: seq<RuleId>,
                       lost: Rules, built: seq<GraphRule>)
    requires Named(built) && Created(added, made, built, before)
    requires forall x :: x in lost ==> x.rule in built
    requires CreateTrace(trace, since, before, added) && |trace| <= since + |added| + 1
    requires |trace| == since + |added| + 1 ==> trace[since + |added|] == before + added + lost
    ensures SafeTrace(trace, since, before, built)
  {
    assert forall x :: x in added ==> x.rule in built;
    forall k | since <= k < |trace| ensures Safe(before, trace[k], built) {
      if k < since + |added| {
        WhileCreating(before, added[..k - since + 1], built);
      } else {
        assert before + added + lost == before + (added + lost);
        WhileCreating(before, added + lost, built);
      }
    }
  }

  /** Creates the rules one after another. On an error, lost is the rule that may
      have been created all the same. */
  method CreateRules(server: RuleServer, built: seq<GraphRule>)
    returns (made: seq<RuleId>, ok: bool, ghost added: Rules, ghost lost: Rules)
    requires server.Valid()
    modifies server
    ensures server.Valid() && old(server.trace) <= server.trace && old(server.calls) <= server.calls
    ensures server.rules == old(server.rules) + added + lost
    ensures Created(added, made, built, old(server.rules))
    ensures forall x :: x in lost ==> x.rule in built && x.id !in made
    ensures ok ==> |added| == |built| && lost == []
    ensures ok <==> AllDone(server.answers, old(server.calls), server.calls)
    ensures NoneLost(server.answers, old(server.calls), server.calls) ==> lost == []
    ensures CreateTrace(server.trace, |old(server.trace)|, old(server.rules), added)
    ensures |server.trace| == |old(server.trace)| + |added| + (if ok then 0 else 1)
    ensures !ok ==> server.trace[|server.trace| - 1] == server.rules
  {
    ghost var before := server.rules;
    made, added, lost := [], [], [];
    for i := 0 to |built|
      invariant server.Valid() && old(server.trace) <= server.trace && server.calls == old(server.calls) + i
      invariant server.rules == before + added && |made| == i
      invariant Created(added, made, built, before)
      invariant forall k :: 0 <= k < |made| ==> made[k] < server.nextId
      invariant forall x :: x in before ==> x.id < server.nextId
      invariant AllDone(server.answers, old(server.calls), server.calls)
      invariant CreateTrace(server.trace, |old(server.trace)|, before, added)
      invariant |server.trace| == |old(server.trace)| + |added|
    {
      ghost var latest, trace := ServerRule(server.nextId, built[i]), server.trace;
      var id := server.Post(built[i]);
      assert before + added + [latest] == before + (added + [latest]);
      if id.None? {
        lost := if server.answers(server.calls - 1) == Lost then [latest] else [];
        assert before + added + [] == before + added;
        return made, false, added, lost;
      }
      CreatedGrows(added, made, built, before, id.value);
      CreateTraceGrows(trace, |old(server.trace)|, before, added, latest);
      made, added := made + [id.value], added + [latest];
    }
    assert before + added + [] == before + added;
    return made, true, added, lost;
  }

  /** The create half: all of them, or a rollback of those that were made. */
  method Install(server: RuleServer, built: seq<GraphRule>)
    returns (ok: bool, rolledBack: bool, ghost made: seq<RuleId>, ghost added: Rules)
    requires server.Valid()
    modifies server
    ensures server.Valid() && old(server.trace) <= server.trace && old(server.calls) <= server.calls
    ensures Named(built) ==> SafeTrace(server.trace, |old(server.trace)|, old(server.rules), built)
    ensures Created(added, made, built, old(server.rules))
    ensures ok ==> server.rules == old(server.rules) + added && |added| == |built|
    ensures ok <==> AllDone(server.answers, old(server.calls), server.calls)
    ensures !ok && Named(built) ==> AllOld(old(server.rules), server.rules) && Foreign(server.rules) == Foreign(old(server.rules))
    ensures !ok && rolledBack && NoneLost(server.answers, old(server.calls), server.calls) ==> server.rules == old(server.rules)
  {
    ghost var before, lost := server.rules, [];
    var ids: seq<RuleId>;
    ids, ok, added, lost := CreateRules(server, built);
    made, rolledBack := ids, true;
    assert before + added + [] == before + added;
    if Named(built) {
      CreatingIsSafe(server.trace, |old(server.trace)|, before, added, ids, lost, built);
    }
    if !ok {
      ghost var half := |server.trace|;
      rolledBack := DeleteRules(server, ids);
      RollbackTakesBack(before, added, ids, lost, built);
      if Named(built) {
        RollbackIsSafe(server.trace, |old(server.trace)|, half, server.rules, before, added, ids, lost, built);
      }
      assert before + [] == before;
    }
  }

  /** The delete half, once the new set is whole. */
  method Retire(server: RuleServer, olds: seq<RuleId>, ghost before: Rules,
                ghost made: seq<RuleId>, ghost added: Rules, ghost built: seq<GraphRule>)
    returns (cleared: bool)
    requires server.Valid() && server.rules == before + added
    requires Created(added, made, built, before) && |added| == |built|
    requires forall x :: x in before ==> (x.id in Ids(olds) <==> Ours(x))
    requires forall i :: 0 <= i < |made| ==> made[i] !in Ids(olds)
    modifies server
    ensures server.Valid() && old(server.trace) <= server.trace && old(server.calls) <= server.calls
    ensures Named(built) ==> SafeTrace(server.trace, |old(server.trace)|, before, built)
    ensures Named(built) ==> AllNew(before, server.rules, built) && Foreign(server.rules) == Foreign(before)
    ensures cleared ==> Replaced(before, server.rules, built)
    ensures cleared <==> AllDone(server.answers, old(server.calls), server.calls)
  {
    cleared := DeleteRules(server, olds);
    DeletesLeave(before, added, made, built, Ids(olds));
    if Named(built) {
      DeletingIsSafe(server.trace, |old(server.trace)|, |old(server.trace)|, server.rules, before, added, made, built, Ids(olds));
    }
  }

  /** What a write promises about the rules it sends, whatever became of it. */
  ghost predicate Kept(r: Outcome, before: Rules, after: Rules, built: seq<GraphRule>, noneLost: bool) {
    && (Named(built) ==> Foreign(after) == Foreign(before))
    && (r.CreateFailed? && Named(built) ==> AllOld(before, after))
    && (r == CreateFailed(true) && noneLost ==> after == before)
    && (r.DeleteFailed? && Named(built) ==> AllNew(before, after, built))
    && (r.Written? ==> Replaced(before, after, built))
  }

  /** The calls of a write, once the rules are built. */
  method Replace(server: RuleServer, built: seq<GraphRule>) returns (r: Outcome)
    requires server.Valid()
    modifies server
    ensures server.Valid() && old(server.trace) <= server.trace && old(server.calls) <= server.calls
    ensures !r.NotBuilt?
    ensures Named(built) ==> SafeTrace(server.trace, |old(server.trace)|, old(server.rules), built)
    ensures Kept(r, old(server.rules), server.rules, built, NoneLost(server.answers, old(server.calls), server.calls))
    ensures r.Written? <==> AllDone(server.answers, old(server.calls), server.calls)
  {
    ghost var before := server.rules;
    var olds := OursOf(server.rules);
    OursOfUnique(before);
    OursOfIds(before);
    var ok, rolledBack, made, added := Install(server, built);
    if !ok {
      return CreateFailed(rolledBack);
    }
    ghost var half := server.trace;
    var cleared := Retire(server, olds, before, made, added, built);
    assert forall k :: 0 <= k < |half| ==> server.trace[k] == half[k];
    return if cleared then Written else DeleteFailed;
  }

  /** Replaces our rules with these. Whatever fails on the way, every state the
      server is seen in is safe; a refused create that could be rolled back leaves
      what was there; and the write reports success exactly when the rules are
      replaced and every call said so. */
  method SetRules(server: RuleServer, folders: FolderMap, want: seq<Rule>)
    returns (r: Outcome, ghost built: seq<GraphRule>)
    requires server.Valid()
    modifies server
    ensures server.Valid() && old(server.trace) <= server.trace && old(server.calls) <= server.calls
    ensures r.NotBuilt? <==> !Buildable(old(server.rules), want, folders)
    ensures r.NotBuilt? ==> server.rules == old(server.rules) && server.trace == old(server.trace)
    ensures !r.NotBuilt? ==> IsBuilt(built, want, MaxSequence(old(server.rules)) + 1, folders)
    ensures AllPrefixed(want) ==> Named(built)
    ensures Named(built) ==> SafeTrace(server.trace, |old(server.trace)|, old(server.rules), built)
    ensures Kept(r, old(server.rules), server.rules, built, NoneLost(server.answers, old(server.calls), server.calls))
    ensures r.Written? <==> !r.NotBuilt? && AllDone(server.answers, old(server.calls), server.calls)
  {
    built := [];
    var maybe := BuildRules(server.rules, want, folders);
    if maybe.None? {
      return NotBuilt, built;
    }
    built := maybe.value;
    r := Replace(server, maybe.value);
  }
}
