/** Writing the Routing: every new rule is created, and only then is every old one
    deleted; a refused create takes back what was created. Any call may be
    refused, and any call may be carried out with its answer lost. */
module RuleSync {
  import opened Basics
  import opened RuleTables

  type RuleId = nat

  datatype ServerRule = ServerRule(id: RuleId, rule: GraphRule)

  predicate Ours(x: ServerRule) {
    IsOurs(x.rule.name)
  }

  function Foreign(rules: seq<ServerRule>): seq<ServerRule> {
    if rules == [] then []
    else if Ours(rules[0]) then Foreign(rules[1..]) else [rules[0]] + Foreign(rules[1..])
  }

  /** The rules with none of these ids, in their order. */
  function Keep(rules: seq<ServerRule>, ids: set<RuleId>): seq<ServerRule> {
    if rules == [] then []
    else if rules[0].id in ids then Keep(rules[1..], ids) else [rules[0]] + Keep(rules[1..], ids)
  }

  ghost predicate UniqueIds(rules: seq<ServerRule>) {
    forall i, j :: 0 <= i < j < |rules| ==> rules[i].id != rules[j].id
  }

  /** The inbox rules as the server holds them, in its own order. answers decides
      what becomes of the n-th call, and trace is every state it passes through. */
  class RuleServer {
    var rules: seq<ServerRule>
    var nextId: RuleId
    var calls: nat
    const answers: nat -> Answer
    ghost var trace: seq<seq<ServerRule>>

    ghost predicate Valid()
      reads this
    {
      UniqueIds(rules) && forall x :: x in rules ==> x.id < nextId
    }

    constructor (rules: seq<ServerRule>, nextId: RuleId, answers: nat -> Answer)
      requires UniqueIds(rules) && forall x :: x in rules ==> x.id < nextId
      ensures Valid() && this.rules == rules && this.trace == []
    {
      this.rules, this.nextId, this.answers, this.calls := rules, nextId, answers, 0;
      this.trace := [];
    }

    /** Creates a rule; None is an error, after which the rule may be there. */
    method Post(g: GraphRule) returns (id: Option<RuleId>)
      requires Valid()
      modifies this
      ensures Valid() && calls == old(calls) + 1
      ensures trace == old(trace) + [rules]
      ensures match answers(old(calls))
        case Done => id == Some(old(nextId)) && rules == old(rules) + [ServerRule(old(nextId), g)] && nextId == old(nextId) + 1
        case Refused => id == None && rules == old(rules) && nextId == old(nextId)
        case Lost => id == None && rules == old(rules) + [ServerRule(old(nextId), g)] && nextId == old(nextId) + 1
    {
      var answer := answers(calls);
      calls := calls + 1;
      if answer == Refused {
        id := None;
      } else {
        id := if answer == Done then Some(nextId) else None;
        rules := rules + [ServerRule(nextId, g)];
        nextId := nextId + 1;
      }
      trace := trace + [rules];
    }

    /** Deletes a rule; one that is already gone is fine. */
    method Delete(id: RuleId) returns (ok: bool)
      requires Valid()
      modifies this
      ensures Valid() && calls == old(calls) + 1 && nextId == old(nextId)
      ensures trace == old(trace) + [rules]
      ensures ok <==> answers(old(calls)) == Done
      ensures rules == if answers(old(calls)) == Refused then old(rules) else Keep(old(rules), {id})
    {
      var answer := answers(calls);
      calls := calls + 1;
      ok := answer == Done;
      if answer != Refused {
        KeepFacts(rules, {id});
        rules := Keep(rules, {id});
      }
      trace := trace + [rules];
    }
  }

  lemma {:induction false} KeepFacts(rules: seq<ServerRule>, ids: set<RuleId>)
    ensures forall x :: x in Keep(rules, ids) <==> x in rules && x.id !in ids
    ensures UniqueIds(rules) ==> UniqueIds(Keep(rules, ids))
  {
    if rules != [] {
      KeepFacts(rules[1..], ids);
      assert rules == [rules[0]] + rules[1..];
    }
  }

  lemma {:induction false} KeepTwice(rules: seq<ServerRule>, a: set<RuleId>, b: set<RuleId>)
    ensures Keep(Keep(rules, a), b) == Keep(rules, a + b)
  {
    if rules != [] {
      KeepTwice(rules[1..], a, b);
    }
  }

  lemma {:induction false} KeepAll(rules: seq<ServerRule>, ids: set<RuleId>)
    requires forall x :: x in rules ==> x.id !in ids
    ensures Keep(rules, ids) == rules
  {
    if rules != [] {
      KeepAll(rules[1..], ids);
    }
  }

  lemma {:induction false} KeepNone(rules: seq<ServerRule>, ids: set<RuleId>)
    requires forall x :: x in rules ==> x.id in ids
    ensures Keep(rules, ids) == []
  {
    if rules != [] {
      KeepNone(rules[1..], ids);
    }
  }

  lemma {:induction false} KeepConcat(a: seq<ServerRule>, b: seq<ServerRule>, ids: set<RuleId>)
    ensures Keep(a + b, ids) == Keep(a, ids) + Keep(b, ids)
  {
    if a != [] {
      KeepConcat(a[1..], b, ids);
      assert (a + b)[1..] == a[1..] + b;
    } else {
      assert a + b == b;
    }
  }

  lemma {:induction false} ForeignConcat(a: seq<ServerRule>, b: seq<ServerRule>)
    ensures Foreign(a + b) == Foreign(a) + Foreign(b)
  {
    if a != [] {
      ForeignConcat(a[1..], b);
      assert (a + b)[1..] == a[1..] + b;
    } else {
      assert a + b == b;
    }
  }

  /** Taking only our rules away leaves a human's rules as they were. */
  lemma {:induction false} ForeignOfKeep(rules: seq<ServerRule>, ids: set<RuleId>)
    requires forall x :: x in rules && x.id in ids ==> Ours(x)
    ensures Foreign(Keep(rules, ids)) == Foreign(rules)
  {
    if rules != [] {
      ForeignOfKeep(rules[1..], ids);
    }
  }

  lemma {:induction false} ForeignIsKeep(rules: seq<ServerRule>, ids: set<RuleId>)
    requires forall x :: x in rules ==> (x.id in ids <==> Ours(x))
    ensures Keep(rules, ids) == Foreign(rules)
  {
    if rules != [] {
      ForeignIsKeep(rules[1..], ids);
    }
  }
}
