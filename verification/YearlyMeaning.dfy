/** The same for yearly rules. */
module YearlyMeaning {
  import opened Basics
  import opened Text
  import opened Recurrence
  import opened CivilCalendar
  import opened RuleMeaning
  import opened RecurrenceMeaning
  import opened MonthlyMeaning

  lemma {:induction false} SameMonthOfYear(x: int, y: int)
    requires YearOf(x) == YearOf(y) && Month(x) == Month(y)
    ensures MonthOf(x) == MonthOf(y)
  {
    assert MonthOf(x) == 12 * (MonthOf(x) / 12) + MonthOf(x) % 12;
    assert MonthOf(y) == 12 * (MonthOf(y) / 12) + MonthOf(y) % 12;
  }

  lemma {:induction false} MonthWithinYear(day: int)
    ensures MonthStart(12 * YearOf(day)) <= MonthStart(MonthOf(day))
    ensures MonthStart(MonthOf(day) + 1) <= MonthStart(12 * YearOf(day) + 12)
  {
    MonthsGrow(12 * YearOf(day), MonthOf(day));
    MonthsGrow(MonthOf(day) + 1, 12 * YearOf(day) + 12);
  }

  // ---------- absolute ----------

  /** A yearly rule that settles on one day of one month. */
  ghost predicate OneDate(o: Options) {
    o.freq == YEARLY && o.byDay == [] && |o.byMonth| <= 1 && |o.byMonthDay| <= 1 && |o.bySetPos| <= 1
    && (o.byMonth != [] || o.byMonthDay == [])
  }

  lemma {:induction false} PassesOneDate(o: Options, start: LocalDate, x: int)
    requires OneDate(o)
    ensures Passes(o, start, x) <==>
              && Month(x) == (if o.byMonth != [] then o.byMonth[0] else start.month)
              && (if o.byMonthDay != [] then IsMonthDay(x, o.byMonthDay[0]) else DayOfMonth(x) == start.dayOfMonth)
  {
    if o.byMonth != [] {
      assert o.byMonth == [o.byMonth[0]];
    }
    if o.byMonthDay != [] {
      assert o.byMonthDay == [o.byMonthDay[0]];
      assert o.byMonthDay[0] in o.byMonthDay;
    }
  }

  lemma {:induction false} OneDayAYear(o: Options, start: LocalDate, day: int)
    requires OneDate(o) && Passes(o, start, day)
    ensures Chosen(o, start, day) <==> o.bySetPos == [] || o.bySetPos[0] in {1, -1}
  {
    InItsPeriod(o, day);
    PassesOneDate(o, start, day);
    forall x | From(o, day) <= x < UpTo(o, day) && Passing(o, start)(x) ensures x == day {
      InSpanSameYear(day, x);
      PassesOneDate(o, start, x);
      SameMonthOfYear(x, day);
      if o.byMonthDay != [] {
        OneMonthDay(x, day, o.byMonthDay[0]);
      }
    }
    if o.bySetPos != [] {
      AlonePosition(Passing(o, start), From(o, day), UpTo(o, day), day, o.bySetPos[0]);
    }
  }

  lemma {:induction false} PatternOneDate(o: Options, start: LocalDate, x: int)
    requires Accepted(o, start) && OneDate(o)
    ensures PatternDay(ReadAs(o, start), start.day, x) <==>
              && x >= start.day && (YearOf(x) - YearOf(start.day)) % AtLeastOne(o.interval) == 0
              && Month(x) == (if o.byMonth != [] then o.byMonth[0] else start.month)
              && DayOfMonth(x) == if o.byMonthDay != [] then o.byMonthDay[0] else start.dayOfMonth
  {
  }

  lemma {:induction false} RuleOneDate(o: Options, start: LocalDate, x: int)
    requires OneDate(o) && (o.byMonthDay == [] || o.byMonthDay[0] >= 1) && (o.bySetPos == [] || o.bySetPos[0] in {1, -1})
    ensures RuleDay(o, start, x) <==>
              && x >= start.day && (YearOf(x) - YearOf(start.day)) % AtLeastOne(o.interval) == 0
              && Month(x) == (if o.byMonth != [] then o.byMonth[0] else start.month)
              && DayOfMonth(x) == if o.byMonthDay != [] then o.byMonthDay[0] else start.dayOfMonth
  {
    PassesOneDate(o, start, x);
    if Passes(o, start, x) {
      OneDayAYear(o, start, x);
    }
  }

  lemma {:induction false} OneDateKept(o: Options, start: LocalDate, x: int)
    requires Synchronised(o, start) && OneDate(o) && (o.byMonthDay == [] || o.byMonthDay[0] >= 1)
    ensures Same(o, start, x)
  {
    OneDayAYear(o, start, start.day);
    PatternOneDate(o, start, x);
    RuleOneDate(o, start, x);
  }

  /** A day of the month in every month of the year is more than the pattern has. */
  lemma {:induction false} EveryMonthIsLost(o: Options, start: LocalDate)
    requires Synchronised(o, start) && o.freq == YEARLY && o.byDay == []
    requires o.byMonth == [] && o.byMonthDay != [] && o.bySetPos == []
    ensures !Kept(o, start)
  {
    var d, n := o.byMonthDay[0], AtLeastOne(o.interval);
    assert o.byMonthDay == [d];
    MonthDayIsWithin(start.day, d);
    var month := if start.month == 1 then 2 else 0;
    var i := 12 * (YearOf(start.day) + n) + month;
    assert i / 12 == YearOf(start.day) + n && i % 12 == month;
    var x := MonthDayIn(i, d);
    assert d in o.byMonthDay;
    LaterMonth(start.day, x);
    MultipleOf(1, n);
    assert RuleDay(o, start, x);
    assert !Same(o, start, x);
  }

  /** An absolute yearly rule keeps its days exactly when it names no day of the month
      or one not counted from the end, in a month it names too. */
  lemma {:induction false} AbsoluteYearlyKeptIff(o: Options, start: LocalDate)
    requires Synchronised(o, start) && o.freq == YEARLY && o.byDay == []
    requires o.byMonth != [] || o.byMonthDay == [] || o.bySetPos == []
    ensures Kept(o, start) <==> o.byMonthDay == [] || (o.byMonth != [] && o.byMonthDay[0] >= 1)
  {
    if o.byMonth == [] && o.byMonthDay != [] {
      EveryMonthIsLost(o, start);
    } else if o.byMonthDay == [] || o.byMonthDay[0] >= 1 {
      forall x: int ensures Same(o, start, x) {
        OneDateKept(o, start, x);
      }
    } else {
      assert !Same(o, start, start.day);
    }
  }

  // ---------- relative ----------

  /** In the month the rule names. */
  lemma {:induction false} NamedMonthIndex(o: Options, start: LocalDate, x: int)
    requires Indexed(o) && o.freq == YEARLY && o.byMonth != [] && Month(x) == o.byMonth[0]
    ensures PassesDay(o, start, x) && Chosen(o, start, x) <==> NthNamed(o, x)
  {
    if o.bySetPos != [] {
      assert o.bySetPos == [IndexOf(o)] && o.byMonth == [Month(x)];
      NamedMonthPosition(o, start, x);
      PlainDays(o, start, x);
    } else {
      NumberedDay(o, start, x);
    }
  }

  lemma {:induction false} NamedMonthPosition(o: Options, start: LocalDate, x: int)
    requires Indexed(o) && o.freq == YEARLY && o.byMonth == [Month(x)] && o.bySetPos != []
    ensures AtPosition(Passing(o, start), From(o, x), UpTo(o, x), x, IndexOf(o)) <==> NthNamed(o, x)
  {
    var named, lo, hi := NamedBy(Names(o.byDay)), MonthStart(MonthOf(x)), MonthStart(MonthOf(x) + 1);
    MonthWithinYear(x);
    forall y | From(o, x) <= y < lo || hi <= y < UpTo(o, x) ensures !Passing(o, start)(y) {
      OutsideMonth(x, y);
    }
    NarrowerSpan(Passing(o, start), From(o, x), lo, hi, UpTo(o, x), x, IndexOf(o));
    forall y | lo <= y < hi ensures Passing(o, start)(y) == named(y) {
      InSpanSameMonth(x, y);
      PlainDays(o, start, y);
    }
    SamePosition(Passing(o, start), named, lo, hi, x, IndexOf(o));
  }

  lemma {:induction false} OutsideMonth(x: int, y: int)
    requires MonthStart(12 * YearOf(x)) <= y < MonthStart(12 * YearOf(x) + 12)
    requires y < MonthStart(MonthOf(x)) || MonthStart(MonthOf(x) + 1) <= y
    ensures Month(y) != Month(x)
  {
    InSpanSameYear(x, y);
    if Month(y) == Month(x) {
      SameMonthOfYear(x, y);
    }
  }

  /** In the year, when it names none. */
  lemma {:induction false} YearIndex(o: Options, start: LocalDate, x: int)
    requires Indexed(o) && o.freq == YEARLY && o.byMonth == []
    ensures Passes(o, start, x) && Chosen(o, start, x) <==>
              AtPosition(NamedBy(Names(o.byDay)), MonthStart(12 * YearOf(x)), MonthStart(12 * YearOf(x) + 12), x, IndexOf(o))
  {
    MonthWithinYear(x);
    if o.bySetPos != [] {
      assert o.bySetPos == [IndexOf(o)];
      forall y | From(o, x) <= y < UpTo(o, x) ensures Passing(o, start)(y) == NamedBy(Names(o.byDay))(y) {
        PlainDays(o, start, y);
      }
      SamePosition(Passing(o, start), NamedBy(Names(o.byDay)), From(o, x), UpTo(o, x), x, IndexOf(o));
      PlainDays(o, start, x);
    } else {
      NumberedDay(o, start, x);
    }
  }

  /** The month the first four or the last of some weekdays of a year are in. */
  function EndMonth(n: int): int {
    if n > 0 then 1 else 12
  }

  lemma {:induction false} NotSoLate(days: seq<string>, lo: int, hi: int, x: int, n: int)
    requires AtPosition(NamedBy(days), lo, hi, x, n) && n in {1, 2, 3, 4, -1}
    ensures if n > 0 then x < lo + 28 else hi - 7 <= x
  {
    var named, w, only := NamedBy(days), Weekday(x), y => Weekday(y) == Weekday(x);
    if n > 0 {
      CountWeekday(only, w, lo, x);
      CountFewer(only, named, lo, x);
    } else {
      CountWeekdayAfter(only, w, x, hi);
      CountFewer(only, named, x + 1, hi);
    }
  }

  lemma {:induction false} EndsOfYear(x: int)
    ensures x < MonthStart(12 * YearOf(x)) + 28 ==> Month(x) == 1
    ensures MonthStart(12 * YearOf(x) + 12) - 7 <= x ==> Month(x) == 12
    ensures Month(x) == 1 ==> MonthOf(x) == 12 * YearOf(x)
    ensures Month(x) == 12 ==> MonthOf(x) + 1 == 12 * YearOf(x) + 12
  {
    var y := YearOf(x);
    MonthsLast(12 * y);
    MonthsLast(12 * y + 11);
    MonthWithinYear(x);
    if x < MonthStart(12 * y) + 28 {
      MonthIs(x, 12 * y);
    }
    if MonthStart(12 * y + 12) - 7 <= x {
      MonthIs(x, 12 * y + 11);
    }
  }

  /** Of a year is of its first or last month. */
  lemma {:induction false} YearOrMonth(days: seq<string>, x: int, n: int)
    requires n in {1, 2, 3, 4, -1}
    ensures AtPosition(NamedBy(days), MonthStart(12 * YearOf(x)), MonthStart(12 * YearOf(x) + 12), x, n) <==>
              Month(x) == EndMonth(n) && AtPosition(NamedBy(days), MonthStart(MonthOf(x)), MonthStart(MonthOf(x) + 1), x, n)
  {
    EndsOfYear(x);
    MonthWithinYear(x);
    if AtPosition(NamedBy(days), MonthStart(12 * YearOf(x)), MonthStart(12 * YearOf(x) + 12), x, n) {
      NotSoLate(days, MonthStart(12 * YearOf(x)), MonthStart(12 * YearOf(x) + 12), x, n);
    }
  }

  /** A relative yearly rule that Outlook has words for keeps its days always: the nth
      of a year, for the numbers there are words for, is in the month of the first. */
  lemma {:induction false} RelativeYearlyKept(o: Options, start: LocalDate)
    requires Synchronised(o, start) && o.freq == YEARLY && OneIndex(o)
    ensures Kept(o, start)
  {
    forall x: int ensures Same(o, start, x) {
      if o.byMonth != [] {
        InNamedMonth(o, start, x);
      } else {
        InEndMonth(o, start, x);
      }
    }
  }

  lemma {:induction false} SameYearly(o: Options, start: LocalDate, x: int)
    requires Accepted(o, start) && o.freq == YEARLY && OneIndex(o)
    requires Passes(o, start, x) && Chosen(o, start, x) <==>
               Month(x) == (if o.byMonth != [] then o.byMonth[0] else start.month) && NthNamed(o, x)
    ensures Same(o, start, x)
  {
    NamedDayIs(o, start, x);
    IndexIs(o, start);
  }

  lemma {:induction false} InNamedMonth(o: Options, start: LocalDate, x: int)
    requires Accepted(o, start) && o.freq == YEARLY && OneIndex(o) && o.byMonth != []
    ensures Same(o, start, x)
  {
    NamedDayIs(o, start, x);
    assert Passes(o, start, x) ==> Month(x) == o.byMonth[0];
    if Month(x) == o.byMonth[0] {
      NamedMonthIndex(o, start, x);
      assert o.byMonth[0] in o.byMonth;
    }
    SameYearly(o, start, x);
  }

  /** The first occurrence is in that month. */
  lemma {:induction false} StartsInEndMonth(o: Options, start: LocalDate)
    requires Indexed(o) && o.freq == YEARLY && o.byMonth == [] && Passes(o, start, start.day) && Chosen(o, start, start.day)
    ensures Month(start.day) == EndMonth(IndexOf(o))
  {
    YearIndex(o, start, start.day);
    YearOrMonth(Names(o.byDay), start.day, IndexOf(o));
  }

  lemma {:induction false} InEndMonth(o: Options, start: LocalDate, x: int)
    requires Synchronised(o, start) && o.freq == YEARLY && OneIndex(o) && o.byMonth == []
    ensures Same(o, start, x)
  {
    NamedDayIs(o, start, x);
    StartsInEndMonth(o, start);
    YearIndex(o, start, x);
    YearOrMonth(Names(o.byDay), x, IndexOf(o));
    SameYearly(o, start, x);
  }
}
