/** Two daemons over one mailbox, each with a mirror of its own that may show
    anything, both bringing due mail back to the Inbox, with no word between them.
    Every STORE and every mail of a MOVE is a step, interleaved with the other
    daemon's and with everything the owner does; a call that is refused is a thread
    given up, and one carried out may have its answer lost. */
module BubbleReturn {
  import opened Basics
  import opened BubbleServer

  /** A daemon: what its mirror shows, the placements its last scan found due, the
      ones of the thread in hand still to be stored, and those to be moved. */
  datatype Daemon = Daemon(mirror: map<Loc, set<Flag>>, due: set<Loc>, todo: seq<Loc>, moving: set<Loc>)

  datatype System = System(server: Server, home: Daemon, vps: Daemon)

  datatype Who = Home | Vps

  datatype Event =
    // the daemons
    | Scan(who: Who, now: int, found: set<Loc>)
    | Begin(who: Who, refs: seq<Loc>)
    | StoreNext(who: Who, keyword: Option<Flag>, heard: bool)
    | MoveOne(who: Who, ref: Loc, landed: Loc, heard: bool)
    | GiveUp(who: Who)
    | Crash(who: Who)
    | Refresh(who: Who, loc: Loc)
    // the owner
    | Reflag(loc: Loc, add: set<Flag>, remove: set<Flag>)
    | Refile(loc: Loc, landed: Loc)
    | Delete(loc: Loc)
    | Arrive(id: nat, flags: set<Flag>, landed: Loc)

  function Of(s: System, who: Who): Daemon {
    if who.Home? then s.home else s.vps
  }

  function With(s: System, who: Who, d: Daemon, server: Server): System {
    if who.Home? then System(server, d, s.vps) else System(server, s.home, d)
  }

  /** The most a scan by wall clock can find: every placement that shows a return
      time at or before now and is not in the Inbox already. */
  ghost function Due(mirror: map<Loc, set<Flag>>, now: int): set<Loc> {
    set l | l in mirror && l.box != Inbox && exists f :: f in Bubbles(mirror[l]) && f.at <= now
  }

  /** A placement goes by one of the return keywords it shows, the first; where the
      others name other times a scan may find it or not. */
  ghost predicate Finds(mirror: map<Loc, set<Flag>>, now: int, found: set<Loc>) {
    && found <= Due(mirror, now)
    && forall l :: l in Due(mirror, now) && (forall f :: f in Bubbles(mirror[l]) ==> f.at <= now) ==> l in found
  }

  ghost predicate Idle(d: Daemon) {
    d.todo == [] && d.moving == {}
  }

  ghost predicate Enabled(s: System, e: Event) {
    match e
    case Scan(who, now, found) => Idle(Of(s, who)) && Finds(Of(s, who).mirror, now, found)
    case Begin(who, refs) =>
      Idle(Of(s, who)) && Unlike(refs) && forall i :: 0 <= i < |refs| ==> refs[i] in Of(s, who).due
    case StoreNext(who, keyword, _) =>
      var d := Of(s, who);
      d.todo != [] && (d.todo[0] in d.mirror ==> KeywordOf(d.mirror[d.todo[0]], keyword))
    case MoveOne(who, ref, landed, _) =>
      Of(s, who).todo == [] && ref in Of(s, who).moving && landed.box == Inbox && landed !in s.server.used
    case GiveUp(_) => true
    case Crash(_) => true
    case Refresh(_, _) => true
    case Reflag(_, _, _) => true
    case Refile(_, landed) => landed !in s.server.used
    case Delete(_) => true
    case Arrive(id, _, landed) => landed !in s.server.used && id !in s.server.place
  }

  function Mirrored(server: Server, mirror: map<Loc, set<Flag>>, l: Loc): map<Loc, set<Flag>> {
    if l in server.at then mirror[l := server.at[l].flags] else mirror - {l}
  }

  /** A STORE of the thread in hand: a placement its mirror has lost ends the
      thread, and so does an answer that is lost; the flags the server answers with
      go in the mirror. */
  ghost function Stored(s: System, who: Who, keyword: Option<Flag>, heard: bool): System
    requires Of(s, who).todo != []
  {
    var d := Of(s, who);
    var l := d.todo[0];
    if l !in d.mirror then With(s, who, d.(todo := [], moving := {}), s.server)
    else
      var server := Store(s.server, l, {Returned}, Stripped(keyword));
      if !heard then With(s, who, d.(todo := [], moving := {}), server)
      else
        var mirror := if l in server.at then d.mirror[l := server.at[l].flags] else d.mirror;
        With(s, who, d.(mirror := mirror, todo := d.todo[1..], moving := d.moving + {l}), server)
  }

  ghost function Moved(s: System, who: Who, ref: Loc, landed: Loc, heard: bool): System
    requires landed !in s.server.used
  {
    var d := Of(s, who);
    var server := Move(s.server, ref, landed);
    var gone := d.mirror - {ref};
    var mirror := if !heard then d.mirror
                  else if ref in s.server.at && ref in d.mirror then gone[landed := d.mirror[ref]] else gone;
    With(s, who, d.(mirror := mirror, moving := d.moving - {ref}), server)
  }

  ghost function Next(s: System, e: Event): System
    requires Enabled(s, e)
  {
    match e
    case Scan(who, _, found) => With(s, who, Of(s, who).(due := found), s.server)
    case Begin(who, refs) =>
      With(s, who, Of(s, who).(due := (set l | l in Of(s, who).due && l !in refs), todo := refs), s.server)
    case StoreNext(who, keyword, heard) => Stored(s, who, keyword, heard)
    case MoveOne(who, ref, landed, heard) => Moved(s, who, ref, landed, heard)
    case GiveUp(who) => With(s, who, Of(s, who).(todo := [], moving := {}), s.server)
    case Crash(who) => With(s, who, Of(s, who).(due := {}, todo := [], moving := {}), s.server)
    case Refresh(who, loc) => With(s, who, Of(s, who).(mirror := Mirrored(s.server, Of(s, who).mirror, loc)), s.server)
    case Reflag(loc, add, remove) => s.(server := Store(s.server, loc, add, remove))
    case Refile(loc, landed) => s.(server := Move(s.server, loc, landed))
    case Delete(loc) => s.(server := Expunge(s.server, loc))
    case Arrive(id, flags, landed) => s.(server := Deliver(s.server, id, flags, landed))
  }

  ghost predicate IsRun(states: seq<System>, events: seq<Event>) {
    && |states| == |events| + 1
    && forall k :: 0 <= k < |events| ==> Enabled(states[k], events[k]) && states[k + 1] == Next(states[k], events[k])
  }

  /** The owner's own hand on a placement. */
  predicate Handles(e: Event, l: Loc) {
    (e.Reflag? || e.Refile? || e.Delete?) && e.loc == l
  }

  // ---------- daemons keep their hands off the Inbox ----------

  /** What a daemon has in hand is out of the Inbox, and in hand only once. */
  ghost predicate AwayFromInbox(d: Daemon) {
    && (forall l :: l in d.due ==> l.box != Inbox && l !in d.todo && l !in d.moving)
    && (forall l :: l in d.todo ==> l.box != Inbox && l !in d.moving)
    && (forall l :: l in d.moving ==> l.box != Inbox)
    && Unlike(d.todo)
  }

  ghost predicate Tidy(s: System) {
    AwayFromInbox(s.home) && AwayFromInbox(s.vps)
  }

  lemma {:induction false} StoreKeepsTidy(s: System, who: Who, keyword: Option<Flag>, heard: bool)
    requires Tidy(s) && Enabled(s, StoreNext(who, keyword, heard))
    ensures Tidy(Stored(s, who, keyword, heard))
  {
    var d := Of(s, who);
    assert d.todo[0] in d.todo;
    assert forall l :: l in d.todo[1..] ==> l in d.todo;
    assert d.todo[0] !in d.todo[1..];
  }

  lemma {:induction false} NextKeepsTidy(s: System, e: Event)
    requires Tidy(s) && Enabled(s, e)
    ensures Tidy(Next(s, e))
  {
    match e
    case StoreNext(who, keyword, heard) => StoreKeepsTidy(s, who, keyword, heard);
    case _ =>
  }

  lemma {:induction false} RunsStayTidy(states: seq<System>, events: seq<Event>, n: nat)
    requires IsRun(states, events) && n < |states| && Tidy(states[0])
    ensures Tidy(states[n])
  {
    if n > 0 {
      RunsStayTidy(states, events, n - 1);
      NextKeepsTidy(states[n - 1], events[n - 1]);
    }
  }

  predicate Holds(s: System, l: Loc, mail: Mail) {
    l in s.server.at && s.server.at[l] == mail
  }

  lemma {:induction false} StoreLeavesInbox(s: System, who: Who, keyword: Option<Flag>, heard: bool, l: Loc, mail: Mail)
    requires Tidy(s) && Enabled(s, StoreNext(who, keyword, heard)) && l.box == Inbox && Holds(s, l, mail)
    ensures Holds(Stored(s, who, keyword, heard), l, mail)
  {
    assert Of(s, who).todo[0] in Of(s, who).todo;
  }

  lemma {:induction false} NextLeavesInbox(s: System, e: Event, l: Loc, mail: Mail)
    requires Tidy(s) && Enabled(s, e) && l.box == Inbox && Holds(s, l, mail) && !Handles(e, l)
    ensures Holds(Next(s, e), l, mail)
  {
    match e
    case StoreNext(who, keyword, heard) => StoreLeavesInbox(s, who, keyword, heard, l, mail);
    case _ =>
  }

  /** From the moment a mail is in the Inbox, whatever the daemons do, and however
      stale their mirrors, it stays there under its uid with the flags it has,
      until its owner touches it: a mail read after its return is never made
      unread again. */
  lemma {:induction false} InboxMailIsLeftAlone(states: seq<System>, events: seq<Event>, i: nat, j: nat, l: Loc, mail: Mail)
    requires IsRun(states, events) && i <= j < |states| && Tidy(states[0])
    requires l.box == Inbox && Holds(states[i], l, mail)
    requires forall k :: i <= k < j ==> !Handles(events[k], l)
    ensures Holds(states[j], l, mail)
    decreases j - i
  {
    if i < j {
      InboxMailIsLeftAlone(states, events, i, j - 1, l, mail);
      RunsStayTidy(states, events, j - 1);
      NextLeavesInbox(states[j - 1], events[j - 1], l, mail);
    }
  }

  // ---------- a uid given up is never filled again ----------

  lemma {:induction false} UidsAreUsedOnce(states: seq<System>, events: seq<Event>, i: nat, j: nat, l: Loc)
    requires IsRun(states, events) && i <= j < |states|
    requires l in states[i].server.used && l !in states[i].server.at
    ensures l in states[j].server.used && l !in states[j].server.at
    decreases j - i
  {
    if i < j {
      UidsAreUsedOnce(states, events, i, j - 1, l);
      VacatedStaysVacant(states[j - 1], events[j - 1], l);
    }
  }

  lemma {:induction false} VacatedStaysVacant(s: System, e: Event, l: Loc)
    requires Enabled(s, e) && l in s.server.used && l !in s.server.at
    ensures l in Next(s, e).server.used && l !in Next(s, e).server.at
  {
  }

  // ---------- one return, whoever gets there first ----------

  /** A placement about to be moved has been stamped. */
  ghost predicate Readied(d: Daemon, l: Loc, flags: set<Flag>) {
    l in d.moving ==> Stamped(flags)
  }

  /** Where the mail m is in the course of its return from l: still there, or in
      the Inbox, unread and marked as returned. Nothing is asked of the mirrors. */
  ghost predicate OnItsWay(s: System, m: nat, l: Loc) {
    m in s.server.place && var p := s.server.place[m]; var flags := s.server.at[p].flags;
    if p == l then Readied(s.home, l, flags) && Readied(s.vps, l, flags)
    else p.box == Inbox && Stamped(flags) && l in s.server.used
  }

  /** The return keywords a mail has on the server. */
  ghost function KeywordsOn(s: System, m: nat): set<Flag>
    requires m in s.server.place
  {
    Bubbles(s.server.at[s.server.place[m]].flags)
  }

  /** The return keyword an event takes off a mail: the one the mirror of the daemon
      storing it shows there. */
  ghost function Takes(s: System, e: Event, m: nat): set<Flag>
    requires Enabled(s, e) && m in s.server.place
  {
    if e.StoreNext? && var d := Of(s, e.who); d.todo[0] in d.mirror && d.todo[0] == s.server.place[m] && e.keyword.Some?
    then {e.keyword.value} else {}
  }

  lemma {:induction false} StoreKeepsWay(s: System, m: nat, l: Loc, who: Who, keyword: Option<Flag>, heard: bool)
    requires Tidy(s) && OnItsWay(s, m, l) && Enabled(s, StoreNext(who, keyword, heard)) && s.server.place[m] == l
    ensures var after := Stored(s, who, keyword, heard);
            OnItsWay(after, m, l) && KeywordsOn(after, m) == KeywordsOn(s, m) - Takes(s, StoreNext(who, keyword, heard), m)
  {
    assert Of(s, who).todo[0] in Of(s, who).todo;
  }

  lemma {:induction false} MoveKeepsWay(s: System, m: nat, l: Loc, who: Who, ref: Loc, landed: Loc, heard: bool)
    requires OnItsWay(s, m, l) && Enabled(s, MoveOne(who, ref, landed, heard)) && s.server.place[m] == l
    ensures var after := Moved(s, who, ref, landed, heard);
            OnItsWay(after, m, l) && KeywordsOn(after, m) == KeywordsOn(s, m)
  {
  }

  lemma {:induction false} DaemonKeepsWay(s: System, e: Event, m: nat, l: Loc)
    requires Tidy(s) && OnItsWay(s, m, l) && Enabled(s, e) && s.server.place[m] == l
    requires e.Scan? || e.Begin? || e.StoreNext? || e.MoveOne? || e.GiveUp? || e.Crash? || e.Refresh?
    ensures OnItsWay(Next(s, e), m, l) && KeywordsOn(Next(s, e), m) == KeywordsOn(s, m) - Takes(s, e, m)
  {
    match e
    case StoreNext(who, keyword, heard) => StoreKeepsWay(s, m, l, who, keyword, heard);
    case MoveOne(who, ref, landed, heard) => MoveKeepsWay(s, m, l, who, ref, landed, heard);
    case _ =>
  }

  lemma {:induction false} OwnerKeepsWay(s: System, e: Event, m: nat, l: Loc)
    requires OnItsWay(s, m, l) && Enabled(s, e) && s.server.place[m] == l && !Handles(e, l)
    requires e.Reflag? || e.Refile? || e.Delete? || e.Arrive?
    ensures OnItsWay(Next(s, e), m, l) && KeywordsOn(Next(s, e), m) == KeywordsOn(s, m)
  {
  }

  lemma {:induction false} NextKeepsWay(s: System, e: Event, m: nat, l: Loc)
    requires Tidy(s) && OnItsWay(s, m, l) && Enabled(s, e) && !Handles(e, s.server.place[m])
    ensures OnItsWay(Next(s, e), m, l) && KeywordsOn(Next(s, e), m) == KeywordsOn(s, m) - Takes(s, e, m)
  {
    var p := s.server.place[m];
    if p == l {
      if e.Reflag? || e.Refile? || e.Delete? || e.Arrive? {
        OwnerKeepsWay(s, e, m, l);
      } else {
        DaemonKeepsWay(s, e, m, l);
      }
    } else {
      NextLeavesInbox(s, e, p, s.server.at[p]);
      UsedStaysUsed(s, e, l);
      HeldThere(Next(s, e), p);
      if e.StoreNext? {
        assert Of(s, e.who).todo[0] in Of(s, e.who).todo;
      }
    }
  }

  lemma {:induction false} HeldThere(s: System, l: Loc)
    requires l in s.server.at
    ensures s.server.at[l].id in s.server.place && s.server.place[s.server.at[l].id] == l
  {
  }

  lemma {:induction false} UsedStaysUsed(s: System, e: Event, l: Loc)
    requires Enabled(s, e) && l in s.server.used
    ensures l in Next(s, e).server.used
  {
  }

  ghost predicate LeftToDaemons(states: seq<System>, events: seq<Event>, m: nat, n: nat)
    requires |states| == |events| + 1 && n < |states|
  {
    forall k :: 0 <= k < n ==> m in states[k].server.place ==> !Handles(events[k], states[k].server.place[m])
  }

  /** The return keywords the daemons take off a mail in the first n steps of a run. */
  ghost function Taken(states: seq<System>, events: seq<Event>, m: nat, n: nat): set<Flag>
    requires IsRun(states, events) && n < |states|
  {
    if n == 0 then {}
    else Taken(states, events, m, n - 1) +
         if m in states[n - 1].server.place then Takes(states[n - 1], events[n - 1], m) else {}
  }

  /** Over every interleaving of the two daemons, whatever their mirrors show, a mail
      its owner leaves alone is at every moment where it was or in the Inbox, unread
      and marked as returned, with exactly the return keywords no STORE has named. */
  lemma {:induction false} BubbledMailIsOnItsWay(states: seq<System>, events: seq<Event>, n: nat, m: nat, l: Loc)
    requires IsRun(states, events) && n < |states| && Tidy(states[0])
    requires OnItsWay(states[0], m, l) && LeftToDaemons(states, events, m, n)
    ensures OnItsWay(states[n], m, l)
    ensures KeywordsOn(states[n], m) == KeywordsOn(states[0], m) - Taken(states, events, m, n)
  {
    if n > 0 {
      BubbledMailIsOnItsWay(states, events, n - 1, m, l);
      RunsStayTidy(states, events, n - 1);
      NextKeepsWay(states[n - 1], events[n - 1], m, l);
    }
  }

  lemma {:induction false} TakenGrows(states: seq<System>, events: seq<Event>, m: nat, i: nat, j: nat)
    requires IsRun(states, events) && i <= j < |states|
    ensures Taken(states, events, m, i) <= Taken(states, events, m, j)
    decreases j - i
  {
    if i < j {
      TakenGrows(states, events, m, i, j - 1);
    }
  }

  /** The keyword a daemon's STORE names, the one its scan went by unless its mirror
      has changed since, is off the mail from then on. */
  lemma {:induction false} NamedKeywordStaysOff(states: seq<System>, events: seq<Event>, k: nat, n: nat, m: nat, l: Loc, kw: Flag)
    requires IsRun(states, events) && k < n < |states| && Tidy(states[0])
    requires OnItsWay(states[0], m, l) && LeftToDaemons(states, events, m, n)
    requires m in states[k].server.place && kw in Takes(states[k], events[k], m)
    ensures m in states[n].server.place && kw !in KeywordsOn(states[n], m)
  {
    BubbledMailIsOnItsWay(states, events, n, m, l);
    TakenGrows(states, events, m, k + 1, n);
  }

  /** And it comes back once: as soon as either daemon has moved it, it is in the
      Inbox, unread and marked, and every later STORE and MOVE of either, on the uid
      it had or any other, leaves it where it is and as it is. */
  lemma {:induction false} BubbledMailComesBackOnce(states: seq<System>, events: seq<Event>, k: nat, n: nat, m: nat, l: Loc)
    requires IsRun(states, events) && k < n < |states| && Tidy(states[0])
    requires OnItsWay(states[0], m, l) && LeftToDaemons(states, events, m, n)
    requires events[k].MoveOne? && events[k].ref == l
    ensures m in states[k + 1].server.place
    ensures var p := states[k + 1].server.place[m]; var mail := states[k + 1].server.at[p];
            p.box == Inbox && Stamped(mail.flags) && Holds(states[n], p, mail)
  {
    BubbledMailIsOnItsWay(states, events, k, m, l);
    BubbledMailIsOnItsWay(states, events, k + 1, m, l);
    RunsStayTidy(states, events, k);
    MoveVacates(states[k], events[k].who, l, events[k].landed, events[k].heard);
    assert states[k + 1] == Moved(states[k], events[k].who, l, events[k].landed, events[k].heard);
    var p := states[k + 1].server.place[m];
    RestsInInbox(states, events, k + 1, n, m, p, states[k + 1].server.at[p]);
  }

  lemma {:induction false} MoveVacates(s: System, who: Who, l: Loc, landed: Loc, heard: bool)
    requires Tidy(s) && Enabled(s, MoveOne(who, l, landed, heard))
    ensures l !in Moved(s, who, l, landed, heard).server.at
  {
  }

  lemma {:induction false} RestsInInbox(states: seq<System>, events: seq<Event>, i: nat, j: nat, m: nat, p: Loc, mail: Mail)
    requires IsRun(states, events) && i <= j < |states| && Tidy(states[0])
    requires p.box == Inbox && Holds(states[i], p, mail) && mail.id == m && LeftToDaemons(states, events, m, j)
    ensures Holds(states[j], p, mail)
    decreases j - i
  {
    if i < j {
      RestsInInbox(states, events, i, j - 1, m, p, mail);
      RunsStayTidy(states, events, j - 1);
      HeldThere(states[j - 1], p);
      NextLeavesInbox(states[j - 1], events[j - 1], p, mail);
    }
  }

  /** One MOVE at most ever finds it. */
  lemma {:induction false} OneMoveFindsIt(states: seq<System>, events: seq<Event>, k: nat, n: nat, m: nat, l: Loc)
    requires IsRun(states, events) && k < n < |events| && Tidy(states[0])
    requires OnItsWay(states[0], m, l) && LeftToDaemons(states, events, m, n)
    requires events[k].MoveOne? && events[k].ref == l && events[n].MoveOne?
    ensures m in states[n].server.place && states[n].server.place[m] != events[n].ref
  {
    BubbledMailComesBackOnce(states, events, k, n, m, l);
    RunsStayTidy(states, events, n);
    HeldThere(states[n], states[k + 1].server.place[m]);
  }

  // ---------- when no keyword is left ----------

  /** What a daemon knows of a mail with the keyword kw: its mirror shows no other
      there, and shows it if the mail is in hand. A mirror that has not heard of the
      keyword yet may show none. */
  ghost predicate KnownTo(d: Daemon, l: Loc, flags: set<Flag>, kw: Flag) {
    && (l in d.mirror ==> Bubbles(d.mirror[l]) <= {kw})
    && (l in d.mirror && (l in d.due || l in d.todo) ==> Bubbles(flags) <= Bubbles(d.mirror[l]))
    && (l in d.moving ==> Bubbles(flags) == {})
  }

  ghost predicate Understood(s: System, m: nat, l: Loc, kw: Flag) {
    m in s.server.place && var p := s.server.place[m]; var flags := s.server.at[p].flags;
    if p == l then Bubbles(flags) <= {kw} && KnownTo(s.home, l, flags, kw) && KnownTo(s.vps, l, flags, kw)
    else Bubbles(flags) == {}
  }

  /** A STORE of the placement leaves no keyword for any daemon to know. */
  lemma {:induction false} BareIsKnown(d: Daemon, l: Loc, kw: Flag)
    requires l in d.mirror ==> Bubbles(d.mirror[l]) <= {kw}
    ensures forall flags :: Bubbles(flags) == {} ==> KnownTo(d, l, flags, kw)
  {
  }

  lemma {:induction false} StoreKeepsUnderstood(s: System, who: Who, keyword: Option<Flag>, heard: bool, m: nat, l: Loc, kw: Flag)
    requires Tidy(s) && Understood(s, m, l, kw) && s.server.place[m] == l && Enabled(s, StoreNext(who, keyword, heard))
    ensures Understood(Stored(s, who, keyword, heard), m, l, kw)
  {
    var d, after := Of(s, who), Stored(s, who, keyword, heard);
    assert d.todo[0] in d.todo && forall x :: x in d.todo[1..] ==> x in d.todo;
    if d.todo[0] == l && l in d.mirror {
      ReturnStripsIff(s.server, l, keyword);
      assert after.server.at[l].flags == Store(s.server, l, {Returned}, Stripped(keyword)).at[l].flags;
      BareIsKnown(after.home, l, kw);
      BareIsKnown(after.vps, l, kw);
    }
  }

  lemma {:induction false} NextKeepsUnderstood(s: System, e: Event, m: nat, l: Loc, kw: Flag)
    requires Tidy(s) && OnItsWay(s, m, l) && Understood(s, m, l, kw) && Enabled(s, e) && !Handles(e, s.server.place[m])
    ensures Understood(Next(s, e), m, l, kw)
  {
    if s.server.place[m] != l {
      NextKeepsWay(s, e, m, l);
      VacantStaysVacant(s, e, m, l);
    } else if e.StoreNext? {
      StoreKeepsUnderstood(s, e.who, e.keyword, e.heard, m, l, kw);
    } else if e.MoveOne? {
      MoveKeepsWay(s, m, l, e.who, e.ref, e.landed, e.heard);
    } else if e.Reflag? || e.Refile? || e.Delete? || e.Arrive? {
      OwnerKeepsUnderstood(s, e, m, l, kw);
    } else {
      QuietKeepsUnderstood(s, e, m, l, kw);
    }
  }

  lemma {:induction false} OwnerKeepsUnderstood(s: System, e: Event, m: nat, l: Loc, kw: Flag)
    requires Understood(s, m, l, kw) && s.server.place[m] == l && Enabled(s, e) && !Handles(e, l)
    requires e.Reflag? || e.Refile? || e.Delete? || e.Arrive?
    ensures Understood(Next(s, e), m, l, kw)
  {
  }

  lemma {:induction false} QuietKeepsUnderstood(s: System, e: Event, m: nat, l: Loc, kw: Flag)
    requires Understood(s, m, l, kw) && s.server.place[m] == l && Enabled(s, e)
    requires e.Scan? || e.Begin? || e.GiveUp? || e.Crash? || e.Refresh?
    ensures Understood(Next(s, e), m, l, kw)
  {
  }

  lemma {:induction false} VacantStaysVacant(s: System, e: Event, m: nat, l: Loc)
    requires Tidy(s) && OnItsWay(s, m, l) && Enabled(s, e) && s.server.place[m] != l && !Handles(e, s.server.place[m])
    ensures m in Next(s, e).server.place && Next(s, e).server.place[m] != l
  {
    var p := s.server.place[m];
    NextLeavesInbox(s, e, p, s.server.at[p]);
    HeldThere(Next(s, e), p);
  }

  /** A mail with one keyword, in mirrors that show no other, is brought back without
      it: what is in the Inbox has none. */
  lemma {:induction false} NoKeywordIsLeft(states: seq<System>, events: seq<Event>, n: nat, m: nat, l: Loc, kw: Flag)
    requires IsRun(states, events) && n < |states| && Tidy(states[0])
    requires OnItsWay(states[0], m, l) && Understood(states[0], m, l, kw) && LeftToDaemons(states, events, m, n)
    ensures OnItsWay(states[n], m, l) && Understood(states[n], m, l, kw)
    ensures states[n].server.place[m] != l ==> KeywordsOn(states[n], m) == {}
  {
    BubbledMailIsOnItsWay(states, events, n, m, l);
    if n > 0 {
      NoKeywordIsLeft(states, events, n - 1, m, l, kw);
      RunsStayTidy(states, events, n - 1);
      NextKeepsUnderstood(states[n - 1], events[n - 1], m, l, kw);
    }
  }

  // ---------- given up between the STORE and the MOVE ----------

  /** Not in hand, and no return time to be found by. */
  ghost predicate Unaware(d: Daemon, l: Loc) {
    l !in d.due && l !in d.todo && l !in d.moving && (l in d.mirror ==> Bubbles(d.mirror[l]) == {})
  }

  /** A mail out of the Inbox that no daemon has any reason to bring back. */
  ghost predicate Stranded(s: System, l: Loc) {
    l.box != Inbox && l in s.server.at && Bubbles(s.server.at[l].flags) == {} && Unaware(s.home, l) && Unaware(s.vps, l)
  }

  lemma {:induction false} NextKeepsUnaware(s: System, e: Event, l: Loc, who: Who)
    requires Stranded(s, l) && Enabled(s, e) && !Handles(e, l)
    ensures Unaware(Of(Next(s, e), who), l)
  {
    match e
    case StoreNext(actor, _, _) =>
      var d := Of(s, actor);
      assert d.todo[0] in d.todo && forall x :: x in d.todo[1..] ==> x in d.todo;
    case _ =>
  }

  lemma {:induction false} NextKeepsBare(s: System, e: Event, l: Loc)
    requires Stranded(s, l) && Enabled(s, e) && !Handles(e, l)
    ensures l in Next(s, e).server.at && Bubbles(Next(s, e).server.at[l].flags) == {}
  {
    if e.StoreNext? {
      assert Of(s, e.who).todo[0] in Of(s, e.who).todo;
    }
  }

  lemma {:induction false} StrandedMailStays(states: seq<System>, events: seq<Event>, n: nat, l: Loc)
    requires IsRun(states, events) && n < |states| && Stranded(states[0], l)
    requires forall k :: 0 <= k < n ==> !Handles(events[k], l)
    ensures Stranded(states[n], l)
  {
    if n > 0 {
      StrandedMailStays(states, events, n - 1, l);
      NextKeepsUnaware(states[n - 1], events[n - 1], l, Home);
      NextKeepsUnaware(states[n - 1], events[n - 1], l, Vps);
      NextKeepsBare(states[n - 1], events[n - 1], l);
    }
  }

  function Other(who: Who): Who {
    if who.Home? then Vps else Home
  }

  /** Ways a thread is left off with mail of it stored and not moved: the daemon
      dies, a call of it fails, its next placement is one the mirror has lost, or the
      answer to its next STORE is. */
  ghost predicate LeavesOff(s: System, e: Event, who: Who)
    requires Enabled(s, e)
  {
    || e == Crash(who) || e == GiveUp(who)
    || (e.StoreNext? && e.who == who && (!e.heard || Of(s, who).todo[0] !in Of(s, who).mirror))
  }

  /** A thread left off after its STORE of l and before its MOVE leaves the mail
      stranded exactly when it has no return keyword on the server, the daemon's own
      mirror shows none, and the other daemon neither shows one nor has it in hand.
      Nothing has to die for that. */
  lemma {:induction false} LeavingOffStrandsIff(s: System, e: Event, who: Who, l: Loc)
    requires Tidy(s) && Enabled(s, e) && LeavesOff(s, e, who) && l in Of(s, who).moving && l in s.server.at
    ensures Stranded(Next(s, e), l)
       <==> && Bubbles(s.server.at[l].flags) == {} && (l in Of(s, who).mirror ==> Bubbles(Of(s, who).mirror[l]) == {})
            && Unaware(Of(s, Other(who)), l)
  {
    if e.StoreNext? {
      assert Of(s, who).todo[0] in Of(s, who).todo;
    }
  }

  /** In particular, left off by whatever comes next after a STORE that was answered:
      stranded exactly when the server had no keyword but the one the mirror showed,
      and the other daemon does not know of the mail. */
  lemma {:induction false} StoredAndLeftStrandsIff(s: System, who: Who, keyword: Option<Flag>, e: Event)
    requires Tidy(s) && Enabled(s, StoreNext(who, keyword, true))
    requires var l := Of(s, who).todo[0]; l in Of(s, who).mirror && l in s.server.at
    requires var after := Stored(s, who, keyword, true); Enabled(after, e) && LeavesOff(after, e, who)
    ensures var l := Of(s, who).todo[0];
            Stranded(Next(Stored(s, who, keyword, true), e), l)
            <==> && Bubbles(s.server.at[l].flags) <= (if keyword.Some? then {keyword.value} else {})
                 && Unaware(Of(s, Other(who)), l)
  {
    var l := Of(s, who).todo[0];
    StoreKeepsTidy(s, who, keyword, true);
    ReturnStripsIff(s.server, l, keyword);
    LeavingOffStrandsIff(Stored(s, who, keyword, true), e, who, l);
  }

  /** A STORE whose answer is lost strands nothing it found by a keyword: the mirror
      still shows it, and the next scan may find the mail again, and does once every
      return time shown there has come. */
  lemma {:induction false} UnheardStoreIsTriedAgain(s: System, who: Who, kw: Flag, now: int)
    requires Tidy(s) && kw.Bubble? && kw.at <= now && Enabled(s, StoreNext(who, Some(kw), false))
    requires Of(s, who).todo[0] in Of(s, who).mirror
    ensures var after := Stored(s, who, Some(kw), false); var l := Of(s, who).todo[0];
            && !Stranded(after, l)
            && (var due := Due(Of(after, who).mirror, now); Enabled(after, Scan(who, now, due)) && l in due)
            && ((forall f :: f in Bubbles(Of(after, who).mirror[l]) ==> f.at <= now) ==>
                 forall found :: Enabled(after, Scan(who, now, found)) ==> l in Of(Next(after, Scan(who, now, found)), who).due)
  {
    assert Of(s, who).todo[0] in Of(s, who).todo;
    assert kw in Bubbles(Of(s, who).mirror[Of(s, who).todo[0]]);
  }

  // ---------- what a daemon's own calls leave in its mirror ----------

  /** The mirror shows at a placement what is there. */
  ghost predicate Shows(d: Daemon, server: Server, l: Loc) {
    (l in d.mirror <==> l in server.at) && (l in d.mirror ==> d.mirror[l] == server.at[l].flags)
  }

  /** Every call of a daemon that is answered leaves its mirror right where it was
      right, a mail's new uid included; and reading a placement sets it right. */
  lemma {:induction false} AnsweredCallsAreMirrored(s: System, e: Event, l: Loc)
    requires Enabled(s, e) && (((e.StoreNext? || e.MoveOne?) && e.heard) || e.Refresh?)
    requires Shows(Of(s, e.who), s.server, l) || (e.Refresh? && e.loc == l)
    requires e.MoveOne? && e.landed == l ==> Shows(Of(s, e.who), s.server, e.ref)
    ensures Shows(Of(Next(s, e), e.who), Next(s, e).server, l)
  {
  }
}
