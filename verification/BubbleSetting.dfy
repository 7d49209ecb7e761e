/** setBubble on one account: the old return keywords off, the new one on, and what
    is still in the Inbox set aside, unless a call fails or the server turns out to
    keep no keyword. */
module BubbleSetting {
  import opened Basics
  import opened BubbleServer
  import opened BubbleDaemon

  /** The keyword the mirror showed on each placement. */
  type Showing = map<Loc, Option<Flag>>

  ghost predicate Shows(mirror: map<Loc, set<Flag>>, shown: Showing) {
    forall l :: l in shown ==> l in mirror && KeywordOf(mirror[l], shown[l])
  }

  /** A server on which some mails have other flags, and nothing else has changed. */
  ghost function Rewritten(s: Server, flags: map<Loc, set<Flag>>): Server {
    s.(at := map l | l in s.at :: if l in flags then Mail(s.at[l].id, flags[l]) else s.at[l])
  }

  ghost function ClearedAt(s: Server, shown: Showing, kw: Flag): map<Loc, set<Flag>> {
    map l | l in s.at && l in shown :: Cleared(s.at[l].flags, shown[l], kw)
  }

  ghost function WithKeyword(s: Server, stored: set<Loc>, kw: Flag, keeps: bool): map<Loc, set<Flag>> {
    map l | l in s.at && l in stored :: s.at[l].flags + Kept({kw}, keeps)
  }

  /** What is taken off: the keyword shown, unless it is the new one. */
  function Off(keyword: Option<Flag>, kw: Flag): set<Flag> {
    if keyword.Some? && keyword.value != kw then {keyword.value} else {}
  }

  lemma {:induction false} DropNext(s: Server, shown: Showing, l: Loc, keyword: Option<Flag>, kw: Flag)
    requires l !in shown
    ensures Store(Rewritten(s, ClearedAt(s, shown, kw)), l, {}, Off(keyword, kw)) ==
              Rewritten(s, ClearedAt(s, shown[l := keyword], kw))
  {
    var was, now := ClearedAt(s, shown, kw), ClearedAt(s, shown[l := keyword], kw);
    if l in s.at {
      assert Cleared(s.at[l].flags, keyword, kw) == s.at[l].flags - Off(keyword, kw) + {};
    }
    assert Store(Rewritten(s, was), l, {}, Off(keyword, kw)).at == Rewritten(s, now).at;
  }

  lemma {:induction false} AddNext(s: Server, stored: set<Loc>, l: Loc, kw: Flag, keeps: bool)
    requires l !in stored
    ensures Store(Rewritten(s, WithKeyword(s, stored, kw, keeps)), l, Kept({kw}, keeps), {}) ==
              Rewritten(s, WithKeyword(s, stored + {l}, kw, keeps))
  {
    var was, now := WithKeyword(s, stored, kw, keeps), WithKeyword(s, stored + {l}, kw, keeps);
    if l in s.at {
      assert s.at[l].flags + Kept({kw}, keeps) == s.at[l].flags - {} + Kept({kw}, keeps);
    }
    assert Store(Rewritten(s, was), l, Kept({kw}, keeps), {}).at == Rewritten(s, now).at;
  }

  lemma {:induction false} NothingRewritten(s: Server)
    ensures Rewritten(s, map[]) == s
  {
    assert Rewritten(s, map[]).at == s.at;
  }

  lemma {:induction false} NothingOff(s: Server, l: Loc)
    ensures Store(s, l, {}, {}) == s
  {
    if l in s.at {
      assert s.at[l].flags - {} + {} == s.at[l].flags;
      assert Store(s, l, {}, {}).at == s.at;
    }
  }

  /** One of them: looked up, and taken off by a STORE if there is one to take. */
  method DropOne(a: Account, l: Loc, kw: Flag, ghost before: Server, ghost shown: Showing)
    returns (ok: bool, ghost now: Showing)
    requires l in a.mirror && l !in shown && a.server == Rewritten(before, ClearedAt(before, shown, kw))
    modifies a
    ensures old(a.calls) <= a.calls && (ok <==> AllDone(a.answers, old(a.calls), a.calls))
    ensures now == shown || (l in now && now == shown[l := now[l]] && KeywordOf(old(a.mirror)[l], now[l]))
    ensures ok ==> l in now
    ensures a.server == Rewritten(before, ClearedAt(before, now, kw))
    ensures a.mirror == old(a.mirror) || (l in a.mirror && a.mirror == old(a.mirror)[l := a.mirror[l]])
  {
    var keyword := a.FindKeyword(l);
    var off := Off(keyword, kw);
    ghost var next := Rewritten(before, ClearedAt(before, shown[l := keyword], kw));
    assert Store(a.server, l, {}, off) == next by {
      DropNext(before, shown, l, keyword, kw);
    }
    if off == {} {
      NothingOff(a.server, l);
      return true, shown[l := keyword];
    }
    assert Kept({}, a.keeps) == {};
    ok := a.StoreFlags(l, {}, off);
    if a.answers(a.calls - 1) == Refused {
      now := shown;
    } else {
      now := shown[l := keyword];
      assert a.server == next;
    }
  }

  /** The loop that takes the old keywords off, each as the mirror shows it, until a
      call fails; shown is what it looked up before each STORE carried out. */
  method DropKeywords(a: Account, refs: seq<Loc>, kw: Flag) returns (ok: bool, ghost shown: Showing)
    requires Unlike(refs) && forall k :: 0 <= k < |refs| ==> refs[k] in a.mirror
    modifies a
    ensures old(a.calls) <= a.calls && (ok <==> AllDone(a.answers, old(a.calls), a.calls))
    ensures Shows(old(a.mirror), shown)
    ensures shown.Keys <= Listed(refs) && (ok ==> shown.Keys == Listed(refs))
    ensures a.server == Rewritten(old(a.server), ClearedAt(old(a.server), shown, kw))
  {
    ghost var before, had := a.server, a.mirror;
    shown := map[];
    NothingRewritten(before);
    for i := 0 to |refs|
      invariant shown.Keys == Listed(refs[..i]) && Shows(had, shown) && AsShown(had, a.mirror, refs, i)
      invariant a.server == Rewritten(before, ClearedAt(before, shown, kw))
      invariant old(a.calls) <= a.calls && AllDone(a.answers, old(a.calls), a.calls)
    {
      NotYet(refs, i);
      ListedNext(refs, i);
      ghost var mirror := a.mirror;
      ok, shown := DropOne(a, refs[i], kw, before, shown);
      if !ok {
        return;
      }
      AsShownNext(had, mirror, a.mirror, refs, i);
    }
    assert refs[..|refs|] == refs;
    ok := true;
  }

  ghost function Listed(refs: seq<Loc>): set<Loc> {
    set l | l in refs
  }

  lemma {:induction false} ListedNext(refs: seq<Loc>, i: nat)
    requires i < |refs|
    ensures Listed(refs[..i + 1]) == Listed(refs[..i]) + {refs[i]} <= Listed(refs)
  {
    assert refs[..i + 1] == refs[..i] + [refs[i]];
  }

  ghost predicate AlreadyOn(s: Server, refs: seq<Loc>, kw: Flag) {
    forall k :: 0 <= k < |refs| && refs[k] in s.at ==> kw in s.at[refs[k]].flags
  }

  /** The STORE that puts the new one on. */
  method AddKeyword(a: Account, refs: seq<Loc>, kw: Flag) returns (ok: bool, ghost stored: set<Loc>)
    requires Unlike(refs)
    modifies a
    ensures old(a.calls) <= a.calls && (ok <==> AllDone(a.answers, old(a.calls), a.calls))
    ensures stored <= Listed(refs) && (ok ==> stored == Listed(refs))
    ensures a.server == Rewritten(old(a.server), WithKeyword(old(a.server), stored, kw, a.keeps))
  {
    ghost var before := a.server;
    stored := {};
    NothingRewritten(before);
    for i := 0 to |refs|
      invariant stored == Listed(refs[..i])
      invariant a.server == Rewritten(before, WithKeyword(before, stored, kw, a.keeps))
      invariant old(a.calls) <= a.calls && AllDone(a.answers, old(a.calls), a.calls)
    {
      NotYet(refs, i);
      ListedNext(refs, i);
      AddNext(before, stored, refs[i], kw, a.keeps);
      ok := a.StoreFlags(refs[i], {kw}, {});
      if a.answers(a.calls - 1) != Refused {
        stored := stored + {refs[i]};
      }
      if !ok {
        return;
      }
    }
    assert refs[..|refs|] == refs;
    ok := true;
  }

  /** Whether what the server answered has the keyword on every mail. */
  method HasKept(a: Account, refs: seq<Loc>, kw: Flag) returns (kept: bool)
    ensures kept <==> AlreadyOn(a.server, refs, kw)
  {
    for i := 0 to |refs|
      invariant forall k :: 0 <= k < i && refs[k] in a.server.at ==> kw in a.server.at[refs[k]].flags
    {
      if refs[i] in a.server.at && kw !in a.server.at[refs[i]].flags {
        return false;
      }
    }
    kept := true;
  }

  /** What has become of a mail: its old keyword, as the mirror showed it, replaced
      by the new one, and set aside if it was in the Inbox. */
  ghost predicate Set(before: Server, after: Server, m: nat, refs: seq<Loc>, shown: Showing, kw: Flag, aside: Option<Box>)
    requires m in before.place && m in after.place
  {
    var l, p := before.place[m], after.place[m];
    if l !in refs then p == l && after.at[p] == before.at[l]
    else
      && l in shown && after.at[p].flags == Retimed(before.at[l].flags, shown[l], kw)
      && if l.box == Inbox then aside == Some(p.box) else p == l
  }

  /** What may have become of it when a call failed or the keyword was not kept: some
      of that, and set aside only with the keyword on it. */
  ghost predicate PartlySet(before: Server, after: Server, m: nat, refs: seq<Loc>, shown: Showing, kw: Flag, aside: Option<Box>)
    requires m in before.place && m in after.place
  {
    var l, p := before.place[m], after.place[m];
    var was, now := before.at[l].flags, after.at[p].flags;
    if l !in refs then p == l && now == was
    else
      && (p == l || (l.box == Inbox && aside == Some(p.box) && kw in now))
      && (now == was || (l in shown && (now == Cleared(was, shown[l], kw) || now == Retimed(was, shown[l], kw))))
  }

  /** Refused, before anything is written, when a placement is not in the mirror or
      there is no box to set an Inbox mail aside in; and before anything is moved,
      when the server has not kept the keyword. */
  method SetBubble(a: Account, refs: seq<Loc>, kw: Flag, aside: Option<Box>, arrivals: seq<Loc>)
    returns (ok: bool, ghost shown: Showing)
    requires kw.Bubble? && Unlike(refs) && Unlike(arrivals) && |arrivals| == |refs|
    requires forall i :: 0 <= i < |arrivals| ==> arrivals[i] !in a.server.used && (aside.Some? ==> arrivals[i].box == aside.value)
    modifies a
    ensures old(a.calls) <= a.calls
    ensures ok <==> && (forall k :: 0 <= k < |refs| ==> refs[k] in old(a.mirror)) && (Sifted(refs, true) == [] || aside.Some?)
                    && AllDone(a.answers, old(a.calls), a.calls) && (a.keeps || AlreadyOn(old(a.server), refs, kw))
    ensures !((forall k :: 0 <= k < |refs| ==> refs[k] in old(a.mirror)) && (Sifted(refs, true) == [] || aside.Some?)) ==>
              a.server == old(a.server) && a.mirror == old(a.mirror)
    ensures Shows(old(a.mirror), shown)
    ensures forall m :: m in old(a.server).place ==>
              && m in a.server.place && (ok ==> Set(old(a.server), a.server, m, refs, shown, kw, aside))
              && (!ok ==> PartlySet(old(a.server), a.server, m, refs, shown, kw, aside))
  {
    ok, shown := false, map[];
    var toAside := Sifted(refs, true);
    SiftedIs(refs, true);
    if toAside != [] && aside.None? {
      return;
    }
    for i := 0 to |refs|
      invariant forall k :: 0 <= k < i ==> refs[k] in a.mirror
      invariant a.server == old(a.server) && a.mirror == old(a.mirror) && a.calls == old(a.calls) && !ok && shown == map[]
    {
      if refs[i] !in a.mirror {
        return;
      }
    }
    ghost var before := a.server;
    ok, shown := DropKeywords(a, refs, kw);
    ghost var cleared := a.server;
    if !ok {
      DroppedSome(before, refs, shown, kw, aside);
      return;
    }
    ghost var stored;
    ok, stored := AddKeyword(a, refs, kw);
    ghost var marked := a.server;
    var kept := HasKept(a, refs, kw);
    AddedSome(before, refs, shown, stored, kw, aside, a.keeps);
    if !ok {
      return;
    }
    KeptIff(before, refs, shown, kw, a.keeps);
    if !kept {
      return false, shown;
    }
    if toAside != [] {
      ok := a.MoveAll(toAside, arrivals, aside.value);
    }
    SetsThem(before, marked, a.server, refs, shown, kw, aside, ok, a.keeps);
  }

  ghost function Marked(s: Server, refs: seq<Loc>, shown: Showing, stored: set<Loc>, kw: Flag, keeps: bool): Server {
    var cleared := Rewritten(s, ClearedAt(s, shown, kw));
    Rewritten(cleared, WithKeyword(cleared, stored, kw, keeps))
  }

  lemma {:induction false} DroppedSome(s: Server, refs: seq<Loc>, shown: Showing, kw: Flag, aside: Option<Box>)
    requires shown.Keys <= Listed(refs)
    ensures var after := Rewritten(s, ClearedAt(s, shown, kw));
            forall m :: m in s.place ==> m in after.place && PartlySet(s, after, m, refs, shown, kw, aside)
  {
  }

  lemma {:induction false} AddedSome(s: Server, refs: seq<Loc>, shown: Showing, stored: set<Loc>, kw: Flag, aside: Option<Box>, keeps: bool)
    requires kw.Bubble? && shown.Keys == Listed(refs) && stored <= Listed(refs)
    ensures var after := Marked(s, refs, shown, stored, kw, keeps);
            forall m :: m in s.place ==> m in after.place && PartlySet(s, after, m, refs, shown, kw, aside)
  {
    KeptKeyword(kw, keeps);
  }

  lemma {:induction false} KeptKeyword(kw: Flag, keeps: bool)
    requires kw.Bubble?
    ensures Kept({kw}, keeps) == if keeps then {kw} else {}
  {
  }

  /** Whether the keyword is on every mail after the STORE. */
  lemma {:induction false} KeptIff(s: Server, refs: seq<Loc>, shown: Showing, kw: Flag, keeps: bool)
    requires kw.Bubble? && shown.Keys == Listed(refs)
    ensures AlreadyOn(Marked(s, refs, shown, Listed(refs), kw, keeps), refs, kw) <==> keeps || AlreadyOn(s, refs, kw)
  {
    KeptKeyword(kw, keeps);
    var after := Marked(s, refs, shown, Listed(refs), kw, keeps);
    forall k | 0 <= k < |refs| && refs[k] in s.at
      ensures kw in after.at[refs[k]].flags <==> keeps || kw in s.at[refs[k]].flags
    {
      assert refs[k] in Listed(refs);
    }
  }

  lemma {:induction false} MarkedMail(s: Server, refs: seq<Loc>, shown: Showing, kw: Flag, keeps: bool, l: Loc)
    requires kw.Bubble? && shown.Keys == Listed(refs) && l in refs && l in s.at
    requires AlreadyOn(Marked(s, refs, shown, Listed(refs), kw, keeps), refs, kw)
    ensures Marked(s, refs, shown, Listed(refs), kw, keeps).at[l].flags == Retimed(s.at[l].flags, shown[l], kw)
  {
    KeptKeyword(kw, keeps);
  }

  lemma {:induction false} SetsThem(before: Server, marked: Server, after: Server, refs: seq<Loc>,
                                    shown: Showing, kw: Flag, aside: Option<Box>, ok: bool, keeps: bool)
    requires kw.Bubble? && shown.Keys == Listed(refs)
    requires marked == Marked(before, refs, shown, Listed(refs), kw, keeps) && AlreadyOn(marked, refs, kw)
    requires forall l :: l in Sifted(refs, true) <==> l in refs && l.box == Inbox
    requires Sifted(refs, true) == [] ==> after == marked && ok
    requires Sifted(refs, true) != [] ==> aside.Some? && MovedUpTo(marked, after, Sifted(refs, true), ok, aside.value)
    ensures forall m :: m in before.place ==>
              && m in after.place && (ok ==> Set(before, after, m, refs, shown, kw, aside))
              && (!ok ==> PartlySet(before, after, m, refs, shown, kw, aside))
  {
    var inbox := Sifted(refs, true);
    forall m | m in before.place
      ensures m in after.place && (ok ==> Set(before, after, m, refs, shown, kw, aside))
      ensures !ok ==> PartlySet(before, after, m, refs, shown, kw, aside)
    {
      var l := before.place[m];
      if l in refs {
        MarkedMail(before, refs, shown, kw, keeps, l);
      }
      if inbox != [] {
        var n :| 0 <= n <= |inbox| && (ok ==> n == |inbox|) && AllMoved(marked, after, inbox[..n], aside.value);
        assert ok ==> inbox[..n] == inbox;
        assert MovedOr(marked, after, m, inbox[..n], aside.value);
        assert l in inbox[..n] ==> l in inbox;
      }
    }
  }
}
