/** Bubbles and the clock: no mail is touched before a return time some scan saw
    come, and the scan by texts is the scan by minutes. */
module BubbleClock {
  import opened Basics
  import opened BubbleServer
  import opened BubbleReturn
  import opened BubbleKeyword
  import opened CivilCalendar

  // ---------- nothing before its time ----------

  /** Step i is a scan of that daemon, and its mirror shows on the placement, out of
      the Inbox, a return time not after the scan's clock. */
  ghost predicate SawItDue(states: seq<System>, events: seq<Event>, i: nat, who: Who, l: Loc)
    requires |states| == |events| + 1 && i < |events|
  {
    && events[i].Scan? && events[i].who == who
    && l.box != Inbox && l in Of(states[i], who).mirror
    && exists at :: Bubble(at) in Of(states[i], who).mirror[l] && at <= events[i].now
  }

  ghost predicate FoundBefore(states: seq<System>, events: seq<Event>, n: nat, who: Who, l: Loc)
    requires |states| == |events| + 1 && n <= |events|
  {
    exists i :: 0 <= i < n && SawItDue(states, events, i, who, l)
  }

  /** A daemon just started. */
  predicate Fresh(d: Daemon) {
    d.due == {} && d.todo == [] && d.moving == {}
  }

  predicate InHand(d: Daemon, l: Loc) {
    l in d.due || l in d.todo || l in d.moving
  }

  lemma {:induction false} HeadIsInHand(todo: seq<Loc>, l: Loc)
    requires todo != []
    ensures todo[0] in todo && (l in todo[1..] ==> l in todo)
  {
  }

  /** Nothing comes into hand but by a scan that sees it due. */
  lemma {:induction false} NextInHand(s: System, e: Event, who: Who, l: Loc)
    requires Enabled(s, e) && InHand(Of(Next(s, e), who), l) && !InHand(Of(s, who), l)
    ensures e.Scan? && e.who == who && l.box != Inbox && l in Of(s, who).mirror
    ensures exists at :: Bubble(at) in Of(s, who).mirror[l] && at <= e.now
  {
    if e.StoreNext? && Of(s, e.who).todo != [] {
      HeadIsInHand(Of(s, e.who).todo, l);
    }
    if e.Scan? && e.who == who {
      assert l in Due(Of(s, who).mirror, e.now);
      var f :| f in Bubbles(Of(s, who).mirror[l]) && f.at <= e.now;
      assert f == Bubble(f.at);
    }
  }

  lemma {:induction false} InHandWasFound(states: seq<System>, events: seq<Event>, n: nat, who: Who, l: Loc)
    requires IsRun(states, events) && n < |states| && Fresh(states[0].home) && Fresh(states[0].vps)
    requires InHand(Of(states[n], who), l)
    ensures FoundBefore(states, events, n, who, l)
  {
    var k := n - 1;
    assert n > 0;
    if InHand(Of(states[k], who), l) {
      InHandWasFound(states, events, k, who, l);
    } else {
      NextInHand(states[k], events[k], who, l);
      assert SawItDue(states, events, k, who, l);
    }
  }

  /** Over any run of two daemons just started, every placement a STORE of the return
      names and every one a MOVE names was found by an earlier scan of that daemon,
      when its mirror showed there a return time at or before the scan's clock. */
  lemma {:induction false} OnlyDueMailIsTouched(states: seq<System>, events: seq<Event>, k: nat)
    requires IsRun(states, events) && k < |events| && Fresh(states[0].home) && Fresh(states[0].vps)
    ensures events[k].StoreNext? ==> FoundBefore(states, events, k, events[k].who, Of(states[k], events[k].who).todo[0])
    ensures events[k].MoveOne? ==> FoundBefore(states, events, k, events[k].who, events[k].ref)
  {
    if events[k].StoreNext? {
      assert Of(states[k], events[k].who).todo[0] in Of(states[k], events[k].who).todo;
      InHandWasFound(states, events, k, events[k].who, Of(states[k], events[k].who).todo[0]);
    } else if events[k].MoveOne? {
      InHandWasFound(states, events, k, events[k].who, events[k].ref);
    }
  }

  /** The step is no scan whose clock has come to a return time its mirror shows on the
      placement. */
  ghost predicate ClockIsBefore(s: System, e: Event, l: Loc) {
    e.Scan? && l in Of(s, e.who).mirror ==> forall at :: Bubble(at) in Of(s, e.who).mirror[l] ==> e.now < at
  }

  ghost predicate ClocksStayBefore(states: seq<System>, events: seq<Event>, n: nat, l: Loc)
    requires |states| == |events| + 1 && n <= |events|
  {
    forall k :: 0 <= k < n ==> ClockIsBefore(states[k], events[k], l)
  }

  lemma {:induction false} NeverFound(states: seq<System>, events: seq<Event>, n: nat, who: Who, l: Loc)
    requires |states| == |events| + 1 && n <= |events| && ClocksStayBefore(states, events, n, l)
    ensures !FoundBefore(states, events, n, who, l)
  {
    forall i | 0 <= i < n ensures !SawItDue(states, events, i, who, l) {
      assert ClockIsBefore(states[i], events[i], l);
    }
  }

  lemma {:induction false} UntouchedStays(s: System, e: Event, l: Loc, mail: Mail)
    requires Enabled(s, e) && Holds(s, l, mail) && !Handles(e, l)
    requires !InHand(s.home, l) && !InHand(s.vps, l)
    ensures Holds(Next(s, e), l, mail)
  {
    if e.StoreNext? {
      assert Of(s, e.who).todo[0] in Of(s, e.who).todo;
    }
  }

  /** While every clock stays before the times shown on a mail it is left where it is,
      as it is, whatever the daemons do, until its owner touches it. */
  lemma {:induction false} NoMailComesEarly(states: seq<System>, events: seq<Event>, n: nat, l: Loc, mail: Mail)
    requires IsRun(states, events) && n < |states| && Fresh(states[0].home) && Fresh(states[0].vps)
    requires Holds(states[0], l, mail) && ClocksStayBefore(states, events, n, l)
    requires forall k :: 0 <= k < n ==> !Handles(events[k], l)
    ensures Holds(states[n], l, mail)
  {
    if n > 0 {
      var k := n - 1;
      NoMailComesEarly(states, events, k, l, mail);
      forall who ensures !InHand(Of(states[k], who), l) {
        if InHand(Of(states[k], who), l) {
          InHandWasFound(states, events, k, who, l);
          NeverFound(states, events, k, who, l);
        }
      }
      assert states[k].home == Of(states[k], Home) && states[k].vps == Of(states[k], Vps);
      UntouchedStays(states[k], events[k], l, mail);
    }
  }

  // ---------- minutes ----------

  function MonthAt(t: Moment): int {
    12 * t.year + t.month - 1
  }

  /** The minute a moment is, counted through the calendar. */
  function MinuteOf(t: Moment): int {
    (MonthStart(MonthAt(t)) + t.day - 1) * 1440 + t.hour * 60 + t.minute
  }

  lemma {:induction false} DaysOfMonth(t: Moment)
    requires 1 <= t.month <= 12
    ensures Length(MonthAt(t)) == DaysIn(t.month, t.year)
  {
    assert MonthAt(t) / 12 == t.year && MonthAt(t) % 12 == t.month - 1;
  }

  lemma {:induction false} EarlierMonth(a: Moment, b: Moment)
    requires Valid(a) && Valid(b) && MonthAt(a) < MonthAt(b)
    ensures MonthStart(MonthAt(a)) + a.day - 1 < MonthStart(MonthAt(b)) + b.day - 1
  {
    DaysOfMonth(a);
    MonthsLast(MonthAt(a));
    MonthsGrow(MonthAt(a) + 1, MonthAt(b));
  }

  /** Minutes count on as moments do. */
  lemma {:induction false} MinutesKeepOrder(a: Moment, b: Moment)
    requires Valid(a) && Valid(b)
    ensures MinuteOf(a) < MinuteOf(b) <==> Earlier(a, b)
  {
    assert MonthAt(a) < MonthAt(b) <==> a.year < b.year || (a.year == b.year && a.month < b.month);
    if MonthAt(a) < MonthAt(b) {
      EarlierMonth(a, b);
    } else if MonthAt(b) < MonthAt(a) {
      EarlierMonth(b, a);
    }
  }

  // ---------- the mirror's texts ----------

  /** A flag by its text. */
  function FlagOf(text: string): Flag {
    if text == "\\Seen" then Seen
    else if text == "$bubbled" then Returned
    else if Parse(text).Some? then Bubble(MinuteOf(Parse(text).value))
    else Label(text)
  }

  function FlagsOf(texts: seq<string>): set<Flag> {
    set text | text in texts :: FlagOf(text)
  }

  function Shown(mirror: map<Loc, seq<string>>): map<Loc, set<Flag>> {
    map l | l in mirror :: FlagsOf(mirror[l])
  }

  lemma {:induction false} FlagOfReturnTime(text: string)
    ensures FlagOf(text).Bubble? <==> Parse(text).Some?
    ensures Parse(text).Some? ==> FlagOf(text) == Bubble(MinuteOf(Parse(text).value))
  {
    if text == "\\Seen" || text == "$bubbled" {
      NotAReturnTime(text);
    }
  }

  /** The mail's column is the time of its first return keyword. */
  lemma {:induction false} ColumnIsTheFirst(texts: seq<string>)
    ensures OfFlags(texts).Some? <==> exists text :: text in texts && Parse(text).Some?
    ensures OfFlags(texts).Some? ==> exists text :: text in texts && Parse(text) == OfFlags(texts)
  {
    if texts != [] {
      assert texts[0] in texts && forall text :: text in texts <==> text == texts[0] || text in texts[1..];
      ColumnIsTheFirst(texts[1..]);
    }
  }

  lemma {:induction false} BubbleHasText(texts: seq<string>, f: Flag) returns (text: string)
    requires f in Bubbles(FlagsOf(texts))
    ensures text in texts && Parse(text).Some?
  {
    text :| text in texts && FlagOf(text) == f;
    FlagOfReturnTime(text);
  }

  lemma {:induction false} TextHasBubble(texts: seq<string>, text: string)
    requires text in texts && Parse(text).Some?
    ensures Bubble(MinuteOf(Parse(text).value)) in Bubbles(FlagsOf(texts))
  {
    FlagOfReturnTime(text);
    assert FlagOf(text) in FlagsOf(texts);
  }

  lemma {:induction false} ColumnIsOfAKeyword(texts: seq<string>)
    ensures OfFlags(texts).Some? <==> Bubbles(FlagsOf(texts)) != {}
    ensures OfFlags(texts).Some? ==> Bubble(MinuteOf(OfFlags(texts).value)) in Bubbles(FlagsOf(texts))
  {
    ColumnIsTheFirst(texts);
    if OfFlags(texts).Some? {
      var text :| text in texts && Parse(text) == OfFlags(texts);
      TextHasBubble(texts, text);
    } else if f :| f in Bubbles(FlagsOf(texts)) {
      var text := BubbleHasText(texts, f);
    }
  }

  lemma {:induction false} NotAReturnTime(text: string)
    requires text == "\\Seen" || text == "$bubbled"
    ensures Parse(text).None?
  {
    assert |PREFIX| == 8 && |"\\Seen"| == 5 && |"$bubbled"| == 8;
    assert "$bubbled"[7] != PREFIX[7];
  }

  /** The scan as it is made, by comparing texts, is a scan by minutes of the flags
      those texts are. */
  lemma {:induction false} TextScanIsAScan(mirror: map<Loc, seq<string>>, now: Moment)
    requires Valid(now)
    ensures Finds(Shown(mirror), MinuteOf(now), set l | l in mirror && l.box != Inbox && DueByText(mirror[l], now))
  {
    forall l | l in mirror
      ensures DueByText(mirror[l], now) ==> exists f :: f in Bubbles(FlagsOf(mirror[l])) && f.at <= MinuteOf(now)
      ensures Bubbles(FlagsOf(mirror[l])) != {} && (forall f :: f in Bubbles(FlagsOf(mirror[l])) ==> f.at <= MinuteOf(now)) ==>
                DueByText(mirror[l], now)
    {
      ColumnIsOfAKeyword(mirror[l]);
      DueByTextIsDue(mirror[l], now);
      OfFlagsIsValid(mirror[l]);
      if OfFlags(mirror[l]).Some? {
        var at := OfFlags(mirror[l]).value;
        MinutesKeepOrder(now, at);
      }
    }
  }
}
