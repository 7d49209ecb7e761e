/** GETs sent together and asked again while the server is too busy: a round sends
    every message still wanted, and what comes back settles some of them. */
module MailBatch {
  import opened Basics

  datatype Answer = Found(body: string) | Missing | Busy | Refused

  /** The answers of a round, by message; one may have none. */
  type Answers = map<string, Answer>

  datatype State = Asking(pending: set<string>, out: map<string, string>) | Broken

  const PATIENCE: nat := 3

  predicate Breaks(a: Answer, attempt: nat) {
    a.Refused? || (a.Busy? && attempt >= PATIENCE)
  }

  /** A refusal, or a server still busy at the last attempt, breaks it off. */
  predicate BreaksOff(answers: Answers, attempt: nat) {
    exists id :: id in answers && Breaks(answers[id], attempt)
  }

  function Round(s: State, answers: Answers, attempt: nat): State
    requires s.Asking?
  {
    if BreaksOff(answers, attempt) then Broken
    else
      Asking(set id | id in s.pending && (id !in answers || answers[id].Busy?),
             map id | id in s.out.Keys + answers.Keys && (id in s.out || answers[id].Found?) ::
               if id in answers && answers[id].Found? then answers[id].body else s.out[id])
  }

  /** After some rounds. The loop stops asking when nothing is pending. */
  function After(wanted: set<string>, rounds: seq<Answers>): State {
    if rounds == [] then Asking(wanted, map[])
    else
      var before := After(wanted, rounds[..|rounds| - 1]);
      if before.Broken? || before.pending == {} then before else Round(before, rounds[|rounds| - 1], |rounds| - 1)
  }

  predicate Over(s: State) {
    s.Broken? || s.pending == {}
  }

  lemma {:induction false} NextRound(wanted: set<string>, rounds: seq<Answers>, k: nat)
    requires k < |rounds|
    ensures var s := After(wanted, rounds[..k]);
            After(wanted, rounds[..k + 1]) == if Over(s) then s else Round(s, rounds[k], k)
  {
    assert rounds[..k + 1][..k] == rounds[..k];
  }

  lemma {:induction false} OverStaysOver(wanted: set<string>, rounds: seq<Answers>, k: nat)
    requires k <= |rounds| && Over(After(wanted, rounds[..k]))
    ensures After(wanted, rounds) == After(wanted, rounds[..k])
    decreases |rounds| - k
  {
    if k == |rounds| {
      assert rounds[..k] == rounds;
    } else {
      NextRound(wanted, rounds, k);
      OverStaysOver(wanted, rounds, k + 1);
    }
  }

  /** A server that answers for every message it was asked about is asked four times
      at the most. */
  lemma {:induction false} FourRoundsAreEnough(wanted: set<string>, rounds: seq<Answers>)
    requires |rounds| >= 4
    requires var s := After(wanted, rounds[..3]); s.Asking? ==> s.pending <= rounds[3].Keys
    ensures Over(After(wanted, rounds))
  {
    NextRound(wanted, rounds, 3);
    var s := After(wanted, rounds[..3]);
    if !Over(s) && !Round(s, rounds[3], 3).Broken? {
      forall id | id in s.pending ensures !rounds[3][id].Busy? {
        assert !Breaks(rounds[3][id], 3);
      }
      assert Round(s, rounds[3], 3).pending == {};
    }
    OverStaysOver(wanted, rounds, 4);
  }

  /** One that leaves a message out of its answers, and refuses nothing, is asked
      for it again without end: no number of rounds is enough. */
  lemma {:induction false} LeftOutIsAskedForever(wanted: set<string>, rounds: seq<Answers>, id: string)
    requires id in wanted && forall k :: 0 <= k < |rounds| ==> id !in rounds[k]
    requires forall k :: 0 <= k < |rounds| ==> !BreaksOff(rounds[k], k)
    ensures var s := After(wanted, rounds); s.Asking? && id in s.pending
  {
    if rounds != [] {
      LeftOutIsAskedForever(wanted, rounds[..|rounds| - 1], id);
    }
  }

  /** The first answer for a message other than that the server is busy. */
  function Settled(rounds: seq<Answers>, id: string): Option<Answer> {
    if rounds == [] then None
    else if id in rounds[0] && !rounds[0][id].Busy? then Some(rounds[0][id])
    else Settled(rounds[1..], id)
  }

  lemma {:induction false} SettledEarlier(rounds: seq<Answers>, n: nat, id: string)
    requires n <= |rounds|
    ensures Settled(rounds[..n], id).Some? ==> Settled(rounds, id) == Settled(rounds[..n], id)
    ensures Settled(rounds[..n], id).None? && n < |rounds| && id in rounds[n] && !rounds[n][id].Busy? ==>
              Settled(rounds[..n + 1], id) == Some(rounds[n][id])
    ensures Settled(rounds[..n], id).None? && n < |rounds| && (id !in rounds[n] || rounds[n][id].Busy?) ==>
              Settled(rounds[..n + 1], id).None?
  {
    if n > 0 {
      SettledEarlier(rounds[1..], n - 1, id);
      assert rounds[..n][1..] == rounds[1..][..n - 1];
      if n < |rounds| {
        assert rounds[..n + 1][1..] == rounds[1..][..n];
      }
    } else if |rounds| > 0 {
      assert rounds[..1] == [rounds[0]] && [rounds[0]][1..] == [];
    }
  }

  /** Answers only for what was asked. */
  ghost predicate Answering(wanted: set<string>, rounds: seq<Answers>) {
    forall k :: 0 <= k < |rounds| ==>
      var s := After(wanted, rounds[..k]); s.Asking? ==> rounds[k].Keys <= s.pending
  }

  lemma {:induction false} StateOf(wanted: set<string>, rounds: seq<Answers>, n: nat, id: string)
    requires n <= |rounds| && Answering(wanted, rounds) && id in wanted && After(wanted, rounds[..n]).Asking?
    ensures var s := After(wanted, rounds[..n]); var a := Settled(rounds[..n], id);
            (id in s.pending <==> a.None?) && (id in s.out <==> a.Some? && a.value.Found?) &&
            (id in s.out ==> s.out[id] == a.value.body)
  {
    if n > 0 {
      NextRound(wanted, rounds, n - 1);
      StateOf(wanted, rounds, n - 1, id);
      SettledEarlier(rounds, n - 1, id);
      SettledEarlier(rounds[..n], n - 1, id);
      assert rounds[..n][..n - 1] == rounds[..n - 1];
      assert After(wanted, rounds[..n - 1]).Asking? ==> rounds[n - 1].Keys <= After(wanted, rounds[..n - 1]).pending;
      if After(wanted, rounds[..n - 1]).pending == {} {
        assert rounds[n - 1].Keys == {};
      }
    }
  }

  lemma {:induction false} BrokenBySome(wanted: set<string>, rounds: seq<Answers>)
    requires After(wanted, rounds).Broken?
    ensures exists k :: 0 <= k < |rounds| && BreaksOff(rounds[k], k)
  {
    var n := |rounds| - 1;
    if After(wanted, rounds[..n]).Broken? {
      BrokenBySome(wanted, rounds[..n]);
      var k :| 0 <= k < n && BreaksOff(rounds[..n][k], k);
      assert BreaksOff(rounds[k], k);
    } else {
      assert BreaksOff(rounds[n], n);
    }
  }

  /** It ends exactly when a round breaks it off or every message has had an answer
      other than that the server is busy. A server that leaves one out, and refuses
      nothing, is asked without end. */
  lemma {:induction false} OverIff(wanted: set<string>, rounds: seq<Answers>)
    requires Answering(wanted, rounds)
    ensures Over(After(wanted, rounds)) <==>
            || (exists k :: 0 <= k < |rounds| && BreaksOff(rounds[k], k))
            || (forall id :: id in wanted ==> Settled(rounds, id).Some?)
  {
    var s := After(wanted, rounds);
    assert rounds[..|rounds|] == rounds;
    if k :| 0 <= k < |rounds| && BreaksOff(rounds[k], k) {
      NextRound(wanted, rounds, k);
      OverStaysOver(wanted, rounds, k + 1);
    } else if s.Broken? {
      BrokenBySome(wanted, rounds);
    } else {
      forall id | id in wanted ensures id in s.pending <==> Settled(rounds, id).None? {
        StateOf(wanted, rounds, |rounds|, id);
      }
      PendingAreWanted(wanted, rounds);
    }
  }

  /** An answer that ends the batch with an error: a refusal in any round, or from the
      fourth round on a server still too busy. */
  ghost predicate GivesUp(answers: Answers, round: nat) {
    exists id :: id in answers && (answers[id] == Answer.Refused || (answers[id] == Busy && round >= 3))
  }

  /** The batch was still going in round k, and it gave up. */
  ghost predicate FailsIn(wanted: set<string>, rounds: seq<Answers>, k: nat) {
    k < |rounds| && !Over(After(wanted, rounds[..k])) && GivesUp(rounds[k], k)
  }

  lemma {:induction false} FailsEarlier(wanted: set<string>, rounds: seq<Answers>, n: nat, k: nat)
    requires k < n <= |rounds|
    ensures FailsIn(wanted, rounds[..n], k) <==> FailsIn(wanted, rounds, k)
  {
    assert rounds[..n][..k] == rounds[..k];
  }

  lemma {:induction false} GivesUpBreaks(answers: Answers, round: nat)
    ensures GivesUp(answers, round) <==> BreaksOff(answers, round)
  {
  }

  /** A batch fails exactly when one of the rounds it was sent gives up. */
  lemma {:induction false} FailsIff(wanted: set<string>, rounds: seq<Answers>)
    ensures After(wanted, rounds).Broken? <==> exists k :: 0 <= k < |rounds| && FailsIn(wanted, rounds, k)
  {
    if rounds != [] {
      var n := |rounds| - 1;
      FailsIff(wanted, rounds[..n]);
      forall k | 0 <= k < n ensures FailsIn(wanted, rounds[..n], k) <==> FailsIn(wanted, rounds, k) {
        FailsEarlier(wanted, rounds, n, k);
      }
      GivesUpBreaks(rounds[n], n);
      assert After(wanted, rounds).Broken? <==> After(wanted, rounds[..n]).Broken? || FailsIn(wanted, rounds, n);
    }
  }

  lemma {:induction false} PendingAreWanted(wanted: set<string>, rounds: seq<Answers>)
    requires After(wanted, rounds).Asking?
    ensures After(wanted, rounds).pending <= wanted
  {
    if rounds != [] {
      PendingAreWanted(wanted, rounds[..|rounds| - 1]);
    }
  }

  /** When it ends well, what is returned is every message the server found, each
      with the first answer it gave that was not that it was busy, and no other. */
  lemma {:induction false} EveryFoundMessageIsReturned(wanted: set<string>, rounds: seq<Answers>, id: string)
    requires Answering(wanted, rounds) && id in wanted
    requires var s := After(wanted, rounds); s.Asking? && s.pending == {}
    ensures var s := After(wanted, rounds); var a := Settled(rounds, id);
            a.Some? && (id in s.out <==> a.value.Found?) && (id in s.out ==> s.out[id] == a.value.body)
  {
    assert rounds[..|rounds|] == rounds;
    StateOf(wanted, rounds, |rounds|, id);
  }

  /** The loop, given the answers in the order they come. */
  method Batch(wanted: set<string>, rounds: seq<seq<(string, Answer)>>) returns (s: State, n: nat)
    requires forall k :: 0 <= k < |rounds| ==> Named(rounds[k])
    ensures n <= |rounds| && s == After(wanted, Maps(rounds)[..n]) && (n < |rounds| ==> Over(s))
  {
    var pending, out := wanted, map[];
    n := 0;
    assert Maps(rounds)[..0] == [];
    while n < |rounds| && pending != {}
      invariant 0 <= n <= |rounds| && After(wanted, Maps(rounds)[..n]) == Asking(pending, out)
      decreases |rounds| - n
    {
      NextRound(wanted, Maps(rounds), n);
      var broken;
      broken, pending, out := TakeAnswers(pending, out, rounds[n], n);
      n := n + 1;
      if broken {
        return Broken, n;
      }
    }
    return Asking(pending, out), n;
  }

  /** One round's answers, until one that breaks it off. */
  method TakeAnswers(wanted: set<string>, had: map<string, string>, answers: seq<(string, Answer)>, attempt: nat)
    returns (broken: bool, pending: set<string>, out: map<string, string>)
    requires Named(answers)
    ensures Round(Asking(wanted, had), AsMap(answers), attempt) == if broken then Broken else Asking(pending, out)
  {
    pending, out := wanted, had;
    for i := 0 to |answers|
      invariant Round(Asking(wanted, had), AsMap(answers[..i]), attempt) == Asking(pending, out)
    {
      assert answers[..i + 1][..i] == answers[..i];
      var (id, a) := answers[i];
      if Breaks(a, attempt) {
        BreaksAll(answers, i, attempt);
        return true, pending, out;
      }
      NotYetNamed(answers, i);
      RoundGrows(Asking(wanted, had), AsMap(answers[..i]), id, a, attempt);
      if a.Found? {
        out, pending := out[id := a.body], pending - {id};
      } else if a.Missing? {
        pending := pending - {id};
      }
    }
    assert answers[..|answers|] == answers;
    broken := false;
  }

  lemma {:induction false} RoundGrows(s: State, answers: Answers, id: string, a: Answer, attempt: nat)
    requires s.Asking? && id !in answers && !Breaks(a, attempt) && Round(s, answers, attempt).Asking?
    ensures var r := Round(s, answers, attempt);
            Round(s, answers[id := a], attempt) ==
              if a.Found? then Asking(r.pending - {id}, r.out[id := a.body])
              else if a.Missing? then Asking(r.pending - {id}, r.out)
              else r
  {
    assert !BreaksOff(answers[id := a], attempt);
    var r, now := Round(s, answers, attempt), Round(s, answers[id := a], attempt);
    assert now.pending == if a.Busy? then r.pending else r.pending - {id};
    assert now.out == if a.Found? then r.out[id := a.body] else r.out;
  }

  /** No message answered for twice in a round. */
  ghost predicate Named(answers: seq<(string, Answer)>) {
    forall i, j :: 0 <= i < j < |answers| ==> answers[i].0 != answers[j].0
  }

  function AsMap(answers: seq<(string, Answer)>): Answers {
    if answers == [] then map[]
    else AsMap(answers[..|answers| - 1])[answers[|answers| - 1].0 := answers[|answers| - 1].1]
  }

  function Maps(rounds: seq<seq<(string, Answer)>>): seq<Answers> {
    seq(|rounds|, k requires 0 <= k < |rounds| => AsMap(rounds[k]))
  }

  lemma {:induction false} NotYetNamed(answers: seq<(string, Answer)>, i: nat)
    requires Named(answers) && i < |answers|
    ensures answers[i].0 !in AsMap(answers[..i])
  {
    NamesAre(answers[..i], answers[i].0);
  }

  lemma {:induction false} NamesAre(answers: seq<(string, Answer)>, id: string)
    requires forall j :: 0 <= j < |answers| ==> answers[j].0 != id
    ensures id !in AsMap(answers)
  {
    if answers != [] {
      NamesAre(answers[..|answers| - 1], id);
    }
  }

  lemma {:induction false} AnswerIs(answers: seq<(string, Answer)>, i: nat)
    requires Named(answers) && i < |answers|
    ensures answers[i].0 in AsMap(answers) && AsMap(answers)[answers[i].0] == answers[i].1
  {
    if i < |answers| - 1 {
      AnswerIs(answers[..|answers| - 1], i);
      assert answers[..|answers| - 1][i] == answers[i];
    }
  }

  lemma {:induction false} BreaksAll(answers: seq<(string, Answer)>, i: nat, attempt: nat)
    requires Named(answers) && i < |answers| && Breaks(answers[i].1, attempt)
    ensures BreaksOff(AsMap(answers), attempt)
  {
    AnswerIs(answers, i);
  }
}
