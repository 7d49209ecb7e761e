/** bringBack as one daemon runs it with nobody in its way: store, store, …, move,
    move, …, first on the placements its mirror still has. Any call may be refused,
    and any call may be carried out with its answer lost; either ends it. */
module BubbleDaemon {
  import opened Basics
  import opened BubbleServer

  /** answers decides what becomes of the n-th call; a server that keeps no keywords
      of its users' own carries out a STORE and adds none. */
  class Account {
    var server: Server
    var mirror: map<Loc, set<Flag>>
    var calls: nat
    const answers: nat -> Answer
    const keeps: bool

    constructor (server: Server, mirror: map<Loc, set<Flag>>, answers: nat -> Answer, keeps: bool)
      ensures this.server == server && this.mirror == mirror && this.calls == 0
      ensures this.answers == answers && this.keeps == keeps
    {
      this.server, this.mirror, this.calls := server, mirror, 0;
      this.answers, this.keeps := answers, keeps;
    }

    /** The first return keyword the mirror shows on a placement. */
    method FindKeyword(l: Loc) returns (keyword: Option<Flag>)
      requires l in mirror
      ensures KeywordOf(mirror[l], keyword)
    {
      var found := Bubbles(mirror[l]);
      if found == {} {
        return None;
      }
      var kw :| kw in found;
      return Some(kw);
    }

    method StoreFlags(l: Loc, add: set<Flag>, remove: set<Flag>) returns (ok: bool)
      modifies this
      ensures calls == old(calls) + 1 && (ok <==> answers(old(calls)) == Done)
      ensures server == if answers(old(calls)) == Refused then old(server) else Store(old(server), l, Kept(add, keeps), remove)
      ensures mirror == if ok && l in old(server).at then old(mirror)[l := server.at[l].flags] else old(mirror)
    {
      var answer := answers(calls);
      calls := calls + 1;
      ok := answer == Done;
      if answer != Refused {
        server := Store(server, l, Kept(add, keeps), remove);
      }
      if ok && l in server.at {
        mirror := mirror[l := server.at[l].flags];
      }
    }

    method MoveMail(l: Loc, landed: Loc) returns (ok: bool)
      requires landed !in server.used
      modifies this
      ensures calls == old(calls) + 1 && (ok <==> answers(old(calls)) == Done)
      ensures server == if answers(old(calls)) == Refused then old(server) else Move(old(server), l, landed)
    {
      var answer := answers(calls);
      calls := calls + 1;
      ok := answer == Done;
      var moved := l in server.at;
      if answer != Refused {
        server := Move(server, l, landed);
      }
      if ok && moved && l in mirror {
        mirror := (mirror - {l})[landed := mirror[l]];
      } else if ok {
        mirror := mirror - {l};
      }
    }

    /** The STORE of a return: the keyword the mirror shows is looked up and taken
        off. */
    method MarkOne(ghost before: Server, ghost shown: map<Loc, set<Flag>>, refs: seq<Loc>, i: nat) returns (ok: bool)
      requires Unlike(refs) && i < |refs| && refs[i] in mirror
      requires Marked(before, shown, server, refs[..i], keeps) && AsShown(shown, mirror, refs, i)
      modifies this
      ensures calls == old(calls) + 1 && (ok <==> answers(old(calls)) == Done)
      ensures ok ==> Marked(before, shown, server, refs[..i + 1], keeps) && AsShown(shown, mirror, refs, i + 1)
      ensures !ok ==> MarkedUpTo(before, shown, server, refs, false, keeps)
    {
      var keyword := FindKeyword(refs[i]);
      MarkNext(before, shown, server, refs, i, keyword, keeps);
      ghost var was := mirror;
      ok := StoreFlags(refs[i], {Returned}, Stripped(keyword));
      AsShownNext(shown, was, mirror, refs, i);
    }

    /** The first loop: each placement stored in turn, until one the mirror has
        lost or a call that fails; the ones not in the Inbox are to be moved. */
    method MarkAll(refs: seq<Loc>) returns (ok: bool, move: seq<Loc>)
      requires Unlike(refs)
      modifies this
      ensures old(calls) <= calls
      ensures ok <==> (forall i :: 0 <= i < |refs| ==> refs[i] in old(mirror)) && AllDone(answers, old(calls), calls)
      ensures MarkedUpTo(old(server), old(mirror), server, refs, ok, keeps)
      ensures ok ==> move == Sifted(refs, false)
    {
      ghost var before, shown := server, mirror;
      move := [];
      AsItWas(server, mirror, keeps);
      for i := 0 to |refs|
        invariant Marked(before, shown, server, refs[..i], keeps) && move == Sifted(refs[..i], false)
        invariant forall k :: 0 <= k < i ==> refs[k] in shown
        invariant AsShown(shown, mirror, refs, i)
        invariant old(calls) <= calls && AllDone(answers, old(calls), calls)
      {
        if refs[i] !in mirror {
          assert refs[i] !in shown;
          return false, move;
        }
        ok := MarkOne(before, shown, refs, i);
        if !ok {
          return;
        }
        assert refs[..i + 1][..i] == refs[..i];
        if refs[i].box != Inbox {
          move := move + [refs[i]];
        }
      }
      assert refs[..|refs|] == refs;
      return true, move;
    }

    /** One MOVE, mail by mail, to the box the arrivals are in, until a call fails. */
    method MoveAll(move: seq<Loc>, arrivals: seq<Loc>, box: Box) returns (ok: bool)
      requires |move| <= |arrivals| && Unlike(move) && Unlike(arrivals)
      requires forall i :: 0 <= i < |arrivals| ==> arrivals[i].box == box && arrivals[i] !in server.used
      modifies this
      ensures old(calls) <= calls && (ok <==> AllDone(answers, old(calls), calls))
      ensures MovedUpTo(old(server), server, move, ok, box)
    {
      ghost var marked := server;
      for j := 0 to |move|
        invariant forall k :: j <= k < |arrivals| ==> arrivals[k] !in server.used
        invariant marked.used <= server.used && AllMoved(marked, server, move[..j], box)
        invariant old(calls) <= calls && AllDone(answers, old(calls), calls)
      {
        NotYet(move, j);
        MoveNext(marked, server, move, j, arrivals[j], box);
        ghost var n := calls;
        ok := MoveMail(move[j], arrivals[j]);
        if !ok {
          assert answers(n) != Done;
          assert AllMoved(old(server), server, move[..if answers(n) == Refused then j else j + 1], box);
          return;
        }
      }
      assert move[..|move|] == move;
      ok := true;
    }

    /** Every mail of the thread is marked as returned and unread, and the ones that
        are not in the Inbox are moved there; arrivals are the uids the server will
        give them. Nothing else is touched. A placement the mirror has lost, or a call
        that fails, ends it, and no mail moves before all are marked. */
    method BringBack(refs: seq<Loc>, arrivals: seq<Loc>) returns (ok: bool)
      requires |arrivals| == |refs| && Unlike(refs) && Unlike(arrivals)
      requires forall i :: 0 <= i < |arrivals| ==> arrivals[i].box == Inbox && arrivals[i] !in server.used
      modifies this
      ensures old(calls) <= calls
      ensures ok <==> (forall i :: 0 <= i < |refs| ==> refs[i] in old(mirror)) && AllDone(answers, old(calls), calls)
      ensures forall m :: m in old(server).place ==>
                m in server.place && Fate(old(server), old(mirror), server, m, refs, ok, keeps)
      ensures (exists m :: m in old(server).place && server.place[m] != old(server).place[m]) ==>
                forall m :: m in old(server).place && old(server).place[m] in refs ==>
                  MarkedMail(old(server), old(mirror), server, m, keeps)
    {
      ghost var before, shown := server, mirror;
      var move;
      ok, move := MarkAll(refs);
      if !ok {
        FatesOfMarked(before, shown, server, refs, keeps);
        return false;
      }
      assert refs[..|refs|] == refs;
      SiftedIs(refs, false);
      ghost var marked := server;
      ok := MoveAll(move, arrivals, Inbox);
      FatesOfMoved(before, shown, marked, server, refs, move, ok, keeps);
    }
  }

  /** The flags a STORE adds: without keywords of its users' own, only \Seen. */
  function Kept(add: set<Flag>, keeps: bool): set<Flag> {
    if keeps then add else add * {Seen}
  }

  lemma {:induction false} NotYet(refs: seq<Loc>, i: nat)
    requires Unlike(refs) && i < |refs|
    ensures refs[i] !in refs[..i]
  {
  }

  /** The mirror still shows what it did of the placements to come. */
  ghost predicate AsShown(shown: map<Loc, set<Flag>>, mirror: map<Loc, set<Flag>>, refs: seq<Loc>, i: nat) {
    forall k :: i <= k < |refs| ==>
      (refs[k] in mirror <==> refs[k] in shown) && (refs[k] in shown ==> mirror[refs[k]] == shown[refs[k]])
  }

  lemma {:induction false} AsShownNext(shown: map<Loc, set<Flag>>, mirror: map<Loc, set<Flag>>, now: map<Loc, set<Flag>>,
                                       refs: seq<Loc>, i: nat)
    requires Unlike(refs) && i < |refs| && AsShown(shown, mirror, refs, i)
    requires now == mirror || (refs[i] in now && now == mirror[refs[i] := now[refs[i]]])
    ensures AsShown(shown, now, refs, i + 1)
  {
  }

  /** After the stores: those done are marked, the others as they were, and all
      where they were. */
  ghost predicate Marked(before: Server, mirror: map<Loc, set<Flag>>, after: Server, done: seq<Loc>, keeps: bool) {
    && after.place == before.place && after.used == before.used
    && (forall l :: l in before.at && l !in done ==> l in after.at && after.at[l] == before.at[l])
    && (forall l :: l in before.at && l in done ==>
         l in after.at && l in mirror && MarkedAs(before.at[l].flags, after.at[l].flags, mirror[l], keeps))
  }

  /** Some of the stores done, all of them if ok. */
  ghost predicate MarkedUpTo(before: Server, mirror: map<Loc, set<Flag>>, after: Server, refs: seq<Loc>, ok: bool, keeps: bool) {
    exists n :: 0 <= n <= |refs| && (ok ==> n == |refs|) && Marked(before, mirror, after, refs[..n], keeps)
  }

  /** Unread and, if the server keeps keywords, marked as returned, labels kept; and
      no return keyword is left if the mirror showed every one there was and at most
      one. */
  ghost predicate MarkedAs(was: set<Flag>, now: set<Flag>, shown: set<Flag>, keeps: bool) {
    && Seen !in now && (keeps ==> Stamped(now)) && Bubbles(now) <= Bubbles(was)
    && (forall name :: Label(name) in now <==> Label(name) in was)
    && (Bubbles(was) <= Bubbles(shown) && OneKeyword(shown) ==> Bubbles(now) == {})
  }

  ghost predicate OneKeyword(flags: set<Flag>) {
    forall f, g :: f in Bubbles(flags) && g in Bubbles(flags) ==> f == g
  }

  lemma {:induction false} StoreMarks(was: set<Flag>, shown: set<Flag>, keyword: Option<Flag>, keeps: bool)
    requires KeywordOf(shown, keyword)
    ensures MarkedAs(was, was - Stripped(keyword) + Kept({Returned}, keeps), shown, keeps)
  {
  }

  lemma {:induction false} AsItWas(s: Server, mirror: map<Loc, set<Flag>>, keeps: bool)
    ensures Marked(s, mirror, s, [], keeps)
  {
  }

  lemma {:induction false} MarkNext(before: Server, mirror: map<Loc, set<Flag>>, s: Server, refs: seq<Loc>, i: nat,
                                    keyword: Option<Flag>, keeps: bool)
    requires Unlike(refs) && i < |refs| && Marked(before, mirror, s, refs[..i], keeps)
    requires refs[i] in mirror && KeywordOf(mirror[refs[i]], keyword)
    ensures Marked(before, mirror, Store(s, refs[i], Kept({Returned}, keeps), Stripped(keyword)), refs[..i + 1], keeps)
  {
    NotYet(refs, i);
    if refs[i] in before.at {
      StoreMarks(before.at[refs[i]].flags, mirror[refs[i]], keyword, keeps);
    }
    assert refs[..i + 1] == refs[..i] + [refs[i]];
  }

  /** The placements of a thread that are in the Inbox, or those that are not. */
  function Sifted(refs: seq<Loc>, inInbox: bool): seq<Loc> {
    if refs == [] then []
    else
      var before := Sifted(refs[..|refs| - 1], inInbox);
      if (refs[|refs| - 1].box == Inbox) == inInbox then before + [refs[|refs| - 1]] else before
  }

  lemma {:induction false} SiftedIs(refs: seq<Loc>, inInbox: bool)
    ensures forall l :: l in Sifted(refs, inInbox) <==> l in refs && (l.box == Inbox) == inInbox
    ensures |Sifted(refs, inInbox)| <= |refs| && (Unlike(refs) ==> Unlike(Sifted(refs, inInbox)))
  {
    if refs != [] {
      var before := refs[..|refs| - 1];
      SiftedIs(before, inInbox);
      assert refs == before + [refs[|refs| - 1]];
      if Unlike(refs) {
        NotYet(refs, |refs| - 1);
        assert forall k :: 0 <= k < |Sifted(before, inInbox)| ==> Sifted(before, inInbox)[k] in before;
      }
    }
  }

  /** After the moves: those done are in the box, the others where they were, all
      with the flags they had. */
  ghost predicate AllMoved(marked: Server, after: Server, moved: seq<Loc>, box: Box) {
    forall m :: m in marked.place ==> m in after.place && MovedOr(marked, after, m, moved, box)
  }

  ghost predicate MovedUpTo(marked: Server, after: Server, move: seq<Loc>, ok: bool, box: Box) {
    exists n :: 0 <= n <= |move| && (ok ==> n == |move|) && AllMoved(marked, after, move[..n], box)
  }

  ghost predicate MovedOr(marked: Server, after: Server, m: nat, moved: seq<Loc>, box: Box)
    requires m in marked.place && m in after.place
  {
    var l, p := marked.place[m], after.place[m];
    after.at[p] == marked.at[l] && if l in moved then p.box == box else p == l
  }

  lemma {:induction false} MoveNext(marked: Server, s: Server, move: seq<Loc>, j: nat, landed: Loc, box: Box)
    requires j < |move| && AllMoved(marked, s, move[..j], box) && marked.used <= s.used
    requires landed.box == box && landed !in s.used && move[j] !in move[..j]
    ensures AllMoved(marked, Move(s, move[j], landed), move[..j + 1], box)
  {
  }

  ghost predicate MarkedMail(before: Server, mirror: map<Loc, set<Flag>>, after: Server, m: nat, keeps: bool)
    requires m in before.place && m in after.place
  {
    var l := before.place[m];
    l in mirror && MarkedAs(before.at[l].flags, after.at[after.place[m]].flags, mirror[l], keeps)
  }

  /** What has become of a mail. */
  ghost predicate Fate(before: Server, mirror: map<Loc, set<Flag>>, after: Server, m: nat, refs: seq<Loc>, ok: bool, keeps: bool)
    requires m in before.place && m in after.place
  {
    var l, p := before.place[m], after.place[m];
    if l !in refs then p == l && after.at[p] == before.at[l]
    else if ok then p.box == Inbox && (l.box == Inbox ==> p == l) && MarkedMail(before, mirror, after, m, keeps)
    else
      || (p == l && after.at[p] == before.at[l])
      || ((p == l || (p.box == Inbox && l.box != Inbox)) && MarkedMail(before, mirror, after, m, keeps))
  }

  lemma {:induction false} FatesOfMarked(before: Server, mirror: map<Loc, set<Flag>>, after: Server, refs: seq<Loc>, keeps: bool)
    requires MarkedUpTo(before, mirror, after, refs, false, keeps)
    ensures forall m :: m in before.place ==> m in after.place && Fate(before, mirror, after, m, refs, false, keeps)
    ensures after.place == before.place
  {
  }

  lemma {:induction false} FatesOfMoved(before: Server, mirror: map<Loc, set<Flag>>, marked: Server, after: Server,
                                        refs: seq<Loc>, move: seq<Loc>, ok: bool, keeps: bool)
    requires Marked(before, mirror, marked, refs, keeps) && (forall l :: l in move <==> l in refs && l.box != Inbox)
    requires MovedUpTo(marked, after, move, ok, Inbox)
    ensures forall m :: m in before.place ==> m in after.place && Fate(before, mirror, after, m, refs, ok, keeps)
    ensures forall m :: m in before.place && before.place[m] in refs ==> MarkedMail(before, mirror, after, m, keeps)
  {
    var n :| 0 <= n <= |move| && (ok ==> n == |move|) && AllMoved(marked, after, move[..n], Inbox);
    assert ok ==> move[..n] == move;
    forall m | m in before.place
      ensures m in after.place && Fate(before, mirror, after, m, refs, ok, keeps)
      ensures before.place[m] in refs ==> MarkedMail(before, mirror, after, m, keeps)
    {
      assert MovedOr(marked, after, m, move[..n], Inbox);
      assert before.place[m] in move[..n] ==> before.place[m] in move;
    }
  }
}
