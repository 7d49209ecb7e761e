/** A rule's occurrences and a recurrence's, COUNT, UNTIL and the end of the range
    included: what the translation keeps of them in either direction. An occurrence
    is a day; every one begins at the same local time of day, and the zone is a fixed
    offset. */
module OccurrencesKept {
  import opened Basics
  import opened Text
  import opened Recurrence
  import opened CivilCalendar
  import opened RuleMeaning
  import opened RecurrenceMeaning
  import opened MonthlyMeaning
  import opened YearlyMeaning

  /** The time of day, in seconds, and the zone's offset. */
  datatype Clock = Clock(time: nat, offset: int)

  /** COUNT takes the first so many days; UNTIL is the last instant one may begin. */
  ghost predicate RuleOccurs(o: Options, start: LocalDate, c: Clock, day: int) {
    && RuleDay(o, start, day)
    && (o.count > 0 ==> HowMany(RuleDays(o, start), start.day, day) < o.count)
    && (o.until.Some? ==> day * DAY + c.time - c.offset <= o.until.value)
  }

  ghost predicate RecurrenceOccurs(r: Recurrence, start: int, day: int)
    requires r.pattern.interval >= 1
  {
    PatternDay(r.pattern, start, day) &&
    match r.range.kind
    case EndDate => r.range.endDate.Some? && day <= r.range.endDate.value
    case Numbered => HowMany(PatternDays(r.pattern, start), start, day) < r.range.occurrences
    case _ => true
  }

  // ---------- how long, in reading ----------

  /** The end date is the day UNTIL falls on, so that an occurrence later that day is
      let in; and a COUNT puts UNTIL out of force. */
  ghost predicate RangeIdle(o: Options, start: LocalDate, c: Clock) {
    o.until.Some? ==>
      var last := o.until.value + c.offset;
      if o.count > 0 then
        forall day :: RuleDay(o, start, day) && HowMany(RuleDays(o, start), start.day, day) < o.count ==> day * DAY + c.time <= last
      else RuleDay(o, start, last / DAY) ==> c.time <= last % DAY
  }

  ghost predicate OccursAlike(o: Options, start: LocalDate, c: Clock, zone: string, day: int)
    requires PatternOf(o, start).Some?
  {
    RuleOccurs(o, start, c, day) <==>
    RecurrenceOccurs(Recurrence(ReadAs(o, start), RangeOf(o, start, c.offset, zone)), start.day, day)
  }

  ghost predicate OccurrencesKept(o: Options, start: LocalDate, c: Clock, zone: string)
    requires PatternOf(o, start).Some?
  {
    forall day: int :: OccursAlike(o, start, c, zone, day)
  }

  lemma {:induction false} CountAlike(f: int -> bool, g: int -> bool, lo: int, hi: int)
    requires forall x: int :: f(x) == g(x)
    ensures HowMany(f, lo, hi) == HowMany(g, lo, hi)
  {
    CountFewer(f, g, lo, hi);
    CountFewer(g, f, lo, hi);
  }

  lemma {:induction false} KeptCounts(o: Options, start: LocalDate, hi: int)
    requires PatternOf(o, start).Some? && Kept(o, start)
    ensures HowMany(RuleDays(o, start), start.day, hi) == HowMany(PatternDays(ReadAs(o, start), start.day), start.day, hi)
  {
    forall x: int ensures RuleDays(o, start)(x) == PatternDays(ReadAs(o, start), start.day)(x) {
      assert Same(o, start, x);
    }
    CountAlike(RuleDays(o, start), PatternDays(ReadAs(o, start), start.day), start.day, hi);
  }

  lemma {:induction false} OnOrBefore(day: int, time: nat, last: int)
    requires time < DAY
    ensures day * DAY + time <= last <==> day < last / DAY || (day == last / DAY && time <= last % DAY)
  {
    assert last == DAY * (last / DAY) + last % DAY;
  }

  /** When the pattern keeps the days of a rule, the range keeps the same ones of them
      exactly when UNTIL leaves out none of its own day that the rule has, or, beside
      a COUNT, none at all. */
  lemma {:induction false} RangeKeptIff(o: Options, start: LocalDate, c: Clock, zone: string)
    requires PatternOf(o, start).Some? && Kept(o, start) && c.time < DAY
    ensures OccurrencesKept(o, start, c, zone) <==> RangeIdle(o, start, c)
  {
    NoneCutShortIff(o, start, c);
    if NoneCutShort(o, start, c) {
      forall day: int ensures OccursAlike(o, start, c, zone, day) {
        RangeKeptAt(o, start, c, zone, day);
      }
    } else {
      var day: int :| CutShort(o, start, c, day);
      RangeKeptAt(o, start, c, zone, day);
      assert !OccursAlike(o, start, c, zone, day);
    }
  }

  ghost predicate NoneCutShort(o: Options, start: LocalDate, c: Clock) {
    forall day: int :: !CutShort(o, start, c, day)
  }

  lemma {:induction false} NoneCutShortIff(o: Options, start: LocalDate, c: Clock)
    ensures NoneCutShort(o, start, c) <==> RangeIdle(o, start, c)
  {
    if o.until.Some? {
      var last := o.until.value + c.offset;
      if o.count <= 0 {
        assert CutShort(o, start, c, last / DAY) <==> RuleDay(o, start, last / DAY) && c.time > last % DAY;
      } else if NoneCutShort(o, start, c) {
        forall day | RuleDay(o, start, day) && HowMany(RuleDays(o, start), start.day, day) < o.count ensures day * DAY + c.time <= last {
          assert !CutShort(o, start, c, day);
        }
      }
    }
  }

  /** A day the rule ends before and the recurrence does not. */
  ghost predicate CutShort(o: Options, start: LocalDate, c: Clock, day: int) {
    o.until.Some? && RuleDay(o, start, day) &&
    var last := o.until.value + c.offset;
    if o.count > 0 then HowMany(RuleDays(o, start), start.day, day) < o.count && day * DAY + c.time > last
    else day == last / DAY && c.time > last % DAY
  }

  lemma {:induction false} RangeKeptAt(o: Options, start: LocalDate, c: Clock, zone: string, day: int)
    requires PatternOf(o, start).Some? && Kept(o, start) && c.time < DAY
    ensures OccursAlike(o, start, c, zone, day) <==> !CutShort(o, start, c, day)
  {
    assert Same(o, start, day);
    KeptCounts(o, start, day);
    if o.until.Some? {
      OnOrBefore(day, c.time, o.until.value + c.offset);
    }
  }

  /** A rule without end keeps its occurrences exactly when the pattern keeps its days. */
  lemma {:induction false} EndlessKeptIff(o: Options, start: LocalDate, c: Clock, zone: string)
    requires PatternOf(o, start).Some? && o.until.None? && o.count <= 0
    ensures OccurrencesKept(o, start, c, zone) <==> Kept(o, start)
  {
    forall day: int ensures OccursAlike(o, start, c, zone, day) <==> Same(o, start, day) {
    }
    if Kept(o, start) {
      forall day: int ensures OccursAlike(o, start, c, zone, day) {
        assert Same(o, start, day);
      }
    }
    if OccurrencesKept(o, start, c, zone) {
      forall day: int ensures Same(o, start, day) {
        assert OccursAlike(o, start, c, zone, day);
      }
    }
  }

  // ---------- in writing ----------

  /** A recurrence as Outlook has them. */
  ghost predicate Sound(r: Recurrence) {
    var p := r.pattern;
    && p.interval >= 1 && (r.range.kind.Numbered? ==> r.range.occurrences >= 1)
    && match p.kind
       case Daily => true
       case Weekly => p.days != []
       case AbsoluteMonthly => p.dayOfMonth >= 1
       case AbsoluteYearly => p.dayOfMonth >= 1
       case OtherPattern(_) => true
       case _ => p.days != [] && IndexCode(p.index).Some?
  }

  lemma {:induction false} DayPartsAreTheDays(days: seq<string>, day: nat)
    requires DayParts(days).Some?
    ensures Has(DayParts(days).value, day) <==> HasName(days, day)
  {
    if days != [] {
      var n := |days| - 1;
      DayPartsAreTheDays(days[..n], day);
      HasGrows(DayParts(days[..n]).value, WeekdayNum(DayCode(Lower(days[n])).value, 0), day);
      HasNameGrows(days[..n], days[n], day);
      assert days[..n] + [days[n]] == days;
    }
  }

  lemma {:induction false} HasGrows(days: seq<WeekdayNum>, last: WeekdayNum, day: nat)
    ensures Has(days + [last], day) <==> Has(days, day) || last.day == day
  {
  }

  lemma {:induction false} HasNameGrows(days: seq<string>, last: string, day: nat)
    ensures HasName(days + [last], day) <==> HasName(days, day) || DayCode(Lower(last)) == Some(day)
  {
  }

  lemma {:induction false} PlainDayParts(days: seq<string>)
    requires DayParts(days).Some?
    ensures |DayParts(days).value| == |days| && forall d :: d in DayParts(days).value ==> d.day < 7 && d.n == 0
  {
    if days != [] {
      PlainDayParts(days[..|days| - 1]);
    }
  }

  lemma {:induction false} NamedAlike(days: seq<string>, y: int)
    requires DayParts(days).Some?
    ensures NamedBy(Names(DayParts(days).value))(y) == NamedBy(days)(y)
  {
    PlainDayParts(days);
    NamesDenote(DayParts(days).value, Weekday(y));
    DayPartsAreTheDays(days, Weekday(y));
  }

  /** What is written for a pattern, with its interval. */
  ghost predicate WrittenFor(o: Options, p: Pattern) {
    && PatternParts(p).Some? && p.interval >= 1
    && o == PatternOptions(p).(interval := if p.interval > 1 then p.interval else 0, until := o.until, count := o.count)
  }

  lemma {:induction false} WrittenWeekday(o: Options, days: seq<string>, start: LocalDate, x: int)
    requires o.freq == WEEKLY && DayParts(days).Some? && o.byDay == DayParts(days).value && days != []
    ensures PassesDay(o, start, x) <==> HasName(days, Weekday(x))
  {
    PlainDayParts(days);
    DayPartsAreTheDays(days, Weekday(x));
    if d :| d in o.byDay && d.day == Weekday(x) {
      assert IsNamed(o, d, x);
    }
  }

  /** Where no week is skipped it does not matter when they begin. */
  lemma {:induction false} WrittenWeek(x: int, start: int, first: nat, wkst: nat, n: int)
    requires n >= 1 && (n == 1 || first == wkst)
    ensures (WeekOf(x, first) - WeekOf(start, first)) % n == 0 <==> (WeekOf(x, wkst) - WeekOf(start, wkst)) % n == 0
  {
  }

  lemma {:induction false} WeeklyParts(o: Options, p: Pattern)
    requires WrittenFor(o, p) && p.kind.Weekly?
    ensures o.freq == WEEKLY && o.byMonth == [] && o.byMonthDay == [] && o.bySetPos == [] && AtLeastOne(o.interval) == p.interval
    ensures DayParts(p.days).Some? && o.byDay == DayParts(p.days).value && (p.interval == 1 || o.wkst == FirstDay(p))
  {
  }

  lemma {:induction false} PlainWeeklyRule(o: Options, start: LocalDate, x: int, turn: bool)
    requires o.freq == WEEKLY && o.byMonth == [] && o.byMonthDay == [] && o.bySetPos == []
    requires turn <==> (WeekOf(x, o.wkst) - WeekOf(start.day, o.wkst)) % AtLeastOne(o.interval) == 0
    ensures RuleDay(o, start, x) <==> x >= start.day && turn && PassesDay(o, start, x)
  {
    RuleDayIs(o, start, x, turn, PassesDay(o, start, x));
  }

  lemma {:induction false} WeeklyPattern(p: Pattern, start: int, x: int, turn: bool)
    requires p.kind.Weekly? && p.interval >= 1
    requires turn <==> (WeekOf(x, FirstDay(p)) - WeekOf(start, FirstDay(p))) % p.interval == 0
    ensures PatternDay(p, start, x) <==> x >= start && turn && HasName(p.days, Weekday(x))
  {
  }

  lemma {:induction false} WrittenWeekly(o: Options, p: Pattern, start: LocalDate, x: int)
    requires WrittenFor(o, p) && p.kind.Weekly? && p.days != []
    ensures RuleDay(o, start, x) <==> PatternDay(p, start.day, x)
  {
    WeeklyParts(o, p);
    WrittenWeekday(o, p.days, start, x);
    WrittenWeek(x, start.day, FirstDay(p), o.wkst, p.interval);
    var turn := (WeekOf(x, FirstDay(p)) - WeekOf(start.day, FirstDay(p))) % p.interval == 0;
    PlainWeeklyRule(o, start, x, turn);
    WeeklyPattern(p, start.day, x, turn);
  }

  lemma {:induction false} WrittenAbsolute(o: Options, p: Pattern, start: LocalDate, x: int)
    requires WrittenFor(o, p) && (p.kind.AbsoluteMonthly? || p.kind.AbsoluteYearly?) && p.dayOfMonth >= 1
    ensures RuleDay(o, start, x) <==> PatternDay(p, start.day, x)
  {
    assert o.byMonthDay == [p.dayOfMonth];
    assert p.dayOfMonth in o.byMonthDay;
    assert p.kind.AbsoluteYearly? ==> p.month in o.byMonth;
  }

  /** The rule's nth weekday is the pattern's. */
  lemma {:induction false} WrittenIndex(o: Options, p: Pattern, x: int)
    requires WrittenFor(o, p) && (p.kind.RelativeMonthly? || p.kind.RelativeYearly?) && p.days != [] && IndexCode(p.index).Some?
    ensures Indexed(o) && (NthNamed(o, x) <==> OnNamedDay(p, x))
  {
    PlainDayParts(p.days);
    assert o.bySetPos == [IndexCode(p.index).value];
    forall y: int ensures NamedBy(Names(o.byDay))(y) == NamedBy(p.days)(y) {
      NamedAlike(p.days, y);
    }
    SamePosition(NamedBy(Names(o.byDay)), NamedBy(p.days), MonthStart(MonthOf(x)), MonthStart(MonthOf(x) + 1), x, IndexOf(o));
  }

  lemma {:induction false} WrittenRelativeMonthly(o: Options, p: Pattern, start: LocalDate, x: int)
    requires WrittenFor(o, p) && p.kind.RelativeMonthly? && p.days != [] && IndexCode(p.index).Some?
    ensures RuleDay(o, start, x) <==> PatternDay(p, start.day, x)
  {
    var turn := (MonthOf(x) - MonthOf(start.day)) % p.interval == 0;
    WrittenIndex(o, p, x);
    assert o.freq == MONTHLY && o.byMonth == [] && AtLeastOne(o.interval) == p.interval;
    RuleIndex(o, start, x, turn);
    RelativePattern(p, start.day, x, turn);
  }

  lemma {:induction false} WrittenRelativeYearly(o: Options, p: Pattern, start: LocalDate, x: int)
    requires WrittenFor(o, p) && p.kind.RelativeYearly? && p.days != [] && IndexCode(p.index).Some?
    ensures RuleDay(o, start, x) <==> PatternDay(p, start.day, x)
  {
    WrittenIndex(o, p, x);
    var turn := (YearOf(x) - YearOf(start.day)) % p.interval == 0;
    assert o.freq == YEARLY && o.byMonth == [p.month] && AtLeastOne(o.interval) == p.interval;
    OneNamedMonth(o, start, x, turn);
    YearlyPattern(p, start.day, x, turn);
  }

  lemma {:induction false} OneNamedMonth(o: Options, start: LocalDate, x: int, turn: bool)
    requires Indexed(o) && o.freq == YEARLY && |o.byMonth| == 1
    requires turn <==> (YearOf(x) - YearOf(start.day)) % AtLeastOne(o.interval) == 0
    ensures RuleDay(o, start, x) <==> x >= start.day && turn && Month(x) == o.byMonth[0] && NthNamed(o, x)
  {
    assert o.byMonth == [o.byMonth[0]] && o.byMonth[0] in o.byMonth;
    if Month(x) == o.byMonth[0] {
      NamedMonthIndex(o, start, x);
    }
    RuleDayIs(o, start, x, turn, Month(x) == o.byMonth[0] && NthNamed(o, x));
  }

  lemma {:induction false} YearlyPattern(p: Pattern, start: int, x: int, turn: bool)
    requires p.kind.RelativeYearly? && p.interval >= 1
    requires turn <==> (YearOf(x) - YearOf(start)) % p.interval == 0
    ensures PatternDay(p, start, x) <==> x >= start && turn && Month(x) == p.month && OnNamedDay(p, x)
  {
  }

  lemma {:induction false} WrittenDay(o: Options, p: Pattern, start: LocalDate, x: int)
    requires WrittenFor(o, p) && Sound(Recurrence(p, Range(NoEnd, 0, None, 0, "")))
    ensures RuleDay(o, start, x) <==> PatternDay(p, start.day, x)
  {
    match p.kind
    case Daily => DailyRuleIs(o, start, x);
    case Weekly => WrittenWeekly(o, p, start, x);
    case AbsoluteMonthly => WrittenAbsolute(o, p, start, x);
    case AbsoluteYearly => WrittenAbsolute(o, p, start, x);
    case RelativeMonthly => WrittenRelativeMonthly(o, p, start, x);
    case RelativeYearly => WrittenRelativeYearly(o, p, start, x);
  }

  /** The rule written for a recurrence of Outlook's has exactly its occurrences, for
      every type of pattern and of range, at any time of day and in any zone. */
  lemma {:induction false} WrittenRuleKeeps(r: Recurrence, start: LocalDate, c: Clock, day: int)
    requires Sound(r) && RuleOf(r, c.offset).Some? && c.time < DAY
    ensures RuleOccurs(Read(RuleOf(r, c.offset).value), start, c, day) <==> RecurrenceOccurs(r, start.day, day)
  {
    var o, p := Read(RuleOf(r, c.offset).value), r.pattern;
    ReadRule(r, c.offset);
    assert WrittenFor(o, p);
    forall x: int ensures RuleDays(o, start)(x) == PatternDays(p, start.day)(x) {
      WrittenDay(o, p, start, x);
    }
    WrittenDay(o, p, start, day);
    CountAlike(RuleDays(o, start), PatternDays(p, start.day), start.day, day);
    if r.range.kind.EndDate? {
      UpToTheDay(day, c.time, r.range.endDate.value);
    }
  }

  /** UNTIL as it is written for an end date: an instance may start at any time on
      that day, wherever the zone puts it, and at none after. */
  lemma {:induction false} UpToTheDay(day: int, time: nat, last: int)
    requires time < DAY
    ensures day * DAY + time <= (last + 1) * DAY - 1 <==> day <= last
  {
  }
}
