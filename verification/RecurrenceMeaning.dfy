/** What reading a daily or a weekly rule as a Graph pattern keeps of its days. Both
    drop what the pattern has no place for: BYMONTH, BYMONTHDAY and BYSETPOS, the
    days of a daily rule and the first day of the week of a weekly one. */
module RecurrenceMeaning {
  import opened Basics
  import opened Text
  import opened Recurrence
  import opened CivilCalendar
  import opened RuleMeaning

  ghost predicate Has(days: seq<WeekdayNum>, day: nat) {
    exists d :: d in days && d.day == day
  }

  // ---------- daily ----------

  /** The days a daily rule steps on, from the first. */
  lemma {:induction false} StepOf(start: int, n: int, day: int) returns (k: nat)
    requires n >= 1 && day >= start && (day - start) % n == 0
    ensures day == start + k * n
  {
    k := (day - start) / n;
  }

  lemma {:induction false} MultipleOf(k: nat, n: int)
    requires n >= 1
    ensures k * n >= 0 && (k * n) % n == 0
  {
    DivMod(k * n, n, k, 0);
  }

  lemma {:induction false} DailyRuleIs(o: Options, start: LocalDate, day: int)
    requires o.freq == DAILY && |o.bySetPos| <= 1
    ensures RuleDay(o, start, day) <==>
              && day >= start.day && (day - start.day) % AtLeastOne(o.interval) == 0 && Passes(o, start, day)
              && (o.bySetPos == [] || o.bySetPos[0] in {1, -1})
  {
    if o.bySetPos != [] && Passes(o, start, day) {
      AlonePosition(Passing(o, start), day, day + 1, day, o.bySetPos[0]);
    }
  }

  ghost predicate DailyDaysIdle(o: Options, start: int) {
    o.byDay == [] || if AtLeastOne(o.interval) % 7 == 0 then Has(o.byDay, Weekday(start))
                     else forall d :: 0 <= d < 7 ==> Has(o.byDay, d)
  }

  ghost predicate DailyMonthIdle(o: Options, start: int) {
    o.byMonth == [] || (AtLeastOne(o.interval) % ERA == 0 && Month(start) == o.byMonth[0])
  }

  ghost predicate DailyMonthDayIdle(o: Options, start: int) {
    o.byMonthDay == [] ||
    var n := AtLeastOne(o.interval);
    n % THIRD == 0 && forall j :: 0 <= j < 3 ==> IsMonthDay(start + j * n, o.byMonthDay[0])
  }

  /** A part of a daily rule that is dropped loses nothing exactly when it lets every
      day of the rule through: BYDAY when it names all seven weekdays, or the one a
      rule of whole weeks starts on; BYMONTH only when the rule goes by whole cycles
      of 400 years; BYMONTHDAY only by thirds of one, and then if three steps have
      that day; BYSETPOS when it takes the only day there is. */
  ghost predicate DailyKeeps(o: Options, start: int) {
    && (o.bySetPos == [] || o.bySetPos[0] in {1, -1})
    && DailyDaysIdle(o, start) && DailyMonthIdle(o, start) && DailyMonthDayIdle(o, start)
  }

  lemma {:induction false} DailyKeptIff(o: Options, start: LocalDate)
    requires Accepted(o, start) && o.freq == DAILY
    ensures Kept(o, start) <==> DailyKeeps(o, start.day)
  {
    assert Kept(o, start) <==> EveryStep(o, start) by {
      if Kept(o, start) {
        forall k: nat ensures RuleDay(o, start, start.day + k * AtLeastOne(o.interval)) {
          MultipleOf(k, AtLeastOne(o.interval));
          assert Same(o, start, start.day + k * AtLeastOne(o.interval));
        }
      }
      if EveryStep(o, start) {
        forall day: int ensures Same(o, start, day) {
          EveryStepIsKept(o, start, day);
        }
      }
    }
    EveryStepIff(o, start);
  }

  /** The rule has every day its steps come to. */
  ghost predicate EveryStep(o: Options, start: LocalDate) {
    forall k: nat :: RuleDay(o, start, start.day + k * AtLeastOne(o.interval))
  }

  lemma {:induction false} EveryStepIsKept(o: Options, start: LocalDate, day: int)
    requires Accepted(o, start) && o.freq == DAILY && EveryStep(o, start)
    ensures Same(o, start, day)
  {
    DailyRuleIs(o, start, day);
    if day >= start.day && (day - start.day) % AtLeastOne(o.interval) == 0 {
      var k := StepOf(start.day, AtLeastOne(o.interval), day);
      assert RuleDay(o, start, start.day + k * AtLeastOne(o.interval));
    }
  }

  ghost predicate Daily(o: Options) {
    o.freq == DAILY && |o.bySetPos| <= 1 && |o.byMonth| <= 1 && |o.byMonthDay| <= 1
  }

  lemma {:induction false} EveryStepIff(o: Options, start: LocalDate)
    requires Daily(o)
    ensures EveryStep(o, start) <==> DailyKeeps(o, start.day)
  {
    if EveryStep(o, start) {
      StepPasses(o, start, 0);
      DaysOfKept(o, start);
      MonthOfKept(o, start);
      MonthDayOfKept(o, start);
    }
    if DailyKeeps(o, start.day) {
      forall k: nat ensures RuleDay(o, start, start.day + k * AtLeastOne(o.interval)) {
        MultipleOf(k, AtLeastOne(o.interval));
        IdlePasses(o, start, k);
        DailyRuleIs(o, start, start.day + k * AtLeastOne(o.interval));
      }
    }
  }

  lemma {:induction false} StepPasses(o: Options, start: LocalDate, k: nat)
    requires Daily(o) && EveryStep(o, start)
    ensures Passes(o, start, start.day + k * AtLeastOne(o.interval)) && (o.bySetPos == [] || o.bySetPos[0] in {1, -1})
  {
    DailyRuleIs(o, start, start.day + k * AtLeastOne(o.interval));
  }

  lemma {:induction false} DaysOfKept(o: Options, start: LocalDate)
    requires Daily(o) && EveryStep(o, start)
    ensures DailyDaysIdle(o, start.day)
  {
    var n := AtLeastOne(o.interval);
    if o.byDay != [] {
      forall d | 0 <= d < 7 && (n % 7 == 0 ==> d == Weekday(start.day)) ensures Has(o.byDay, d) {
        var k := 0;
        if n % 7 != 0 {
          k := ReachesWeekday(start.day, n, d);
        }
        StepPasses(o, start, k);
      }
    }
  }

  /** Steps that are all in one month of the year. */
  lemma {:induction false} AllInMonth(start: int, n: int, month: int)
    requires forall k: nat :: Month(start + k * n) == month
    ensures n % ERA == 0 && Month(start) == month
  {
    assert Month(start + 0 * n) == month;
    if n % ERA != 0 {
      var k := LeavesMonth(start, n);
    }
  }

  lemma {:induction false} AllOnMonthDay(start: int, n: int, d: int)
    requires forall k: nat :: IsMonthDay(start + k * n, d)
    ensures n % THIRD == 0 && forall j :: 0 <= j < 3 ==> IsMonthDay(start + j * n, d)
  {
    if n % THIRD != 0 {
      var k := LeavesMonthDay(start, n, d);
    }
  }

  lemma {:induction false} InItsMonth(o: Options, start: LocalDate, day: int)
    requires |o.byMonth| == 1 && Passes(o, start, day)
    ensures Month(day) == o.byMonth[0]
  {
  }

  lemma {:induction false} OnItsMonthDay(o: Options, start: LocalDate, day: int)
    requires |o.byMonthDay| == 1 && Passes(o, start, day)
    ensures IsMonthDay(day, o.byMonthDay[0])
  {
  }

  lemma {:induction false} StepInMonth(o: Options, start: LocalDate, k: nat)
    requires Daily(o) && EveryStep(o, start) && o.byMonth != []
    ensures Month(start.day + k * AtLeastOne(o.interval)) == o.byMonth[0]
  {
    StepPasses(o, start, k);
    InItsMonth(o, start, start.day + k * AtLeastOne(o.interval));
  }

  lemma {:induction false} StepOnMonthDay(o: Options, start: LocalDate, k: nat)
    requires Daily(o) && EveryStep(o, start) && o.byMonthDay != []
    ensures IsMonthDay(start.day + k * AtLeastOne(o.interval), o.byMonthDay[0])
  {
    StepPasses(o, start, k);
    OnItsMonthDay(o, start, start.day + k * AtLeastOne(o.interval));
  }

  lemma {:induction false} MonthOfKept(o: Options, start: LocalDate)
    requires Daily(o) && EveryStep(o, start)
    ensures DailyMonthIdle(o, start.day)
  {
    if o.byMonth != [] {
      forall k: nat ensures Month(start.day + k * AtLeastOne(o.interval)) == o.byMonth[0] {
        StepInMonth(o, start, k);
      }
      AllInMonth(start.day, AtLeastOne(o.interval), o.byMonth[0]);
    }
  }

  lemma {:induction false} MonthDayOfKept(o: Options, start: LocalDate)
    requires Daily(o) && EveryStep(o, start)
    ensures DailyMonthDayIdle(o, start.day)
  {
    if o.byMonthDay != [] {
      forall k: nat ensures IsMonthDay(start.day + k * AtLeastOne(o.interval), o.byMonthDay[0]) {
        StepOnMonthDay(o, start, k);
      }
      AllOnMonthDay(start.day, AtLeastOne(o.interval), o.byMonthDay[0]);
    }
  }

  lemma {:induction false} IdleDays(o: Options, start: LocalDate, k: nat)
    requires Daily(o) && DailyDaysIdle(o, start.day)
    ensures PassesDay(o, start, start.day + k * AtLeastOne(o.interval))
  {
    var n := AtLeastOne(o.interval);
    var day := start.day + k * n;
    if o.byDay != [] {
      MultipleOf(k, n);
      if n % 7 == 0 {
        WholeWeeks(start.day, day, n);
      }
      assert Has(o.byDay, Weekday(day));
      var d :| d in o.byDay && d.day == Weekday(day);
      assert IsNamed(o, d, day);
    }
  }

  lemma {:induction false} IdleMonth(start: int, n: int, k: nat)
    requires n % ERA == 0
    ensures Month(start + k * n) == Month(start)
  {
    WholeCycles(k, n, ERA);
    DaysOn(start, k * (n / ERA));
  }

  lemma {:induction false} IdlePasses(o: Options, start: LocalDate, k: nat)
    requires Daily(o) && DailyKeeps(o, start.day)
    ensures Passes(o, start, start.day + k * AtLeastOne(o.interval))
  {
    IdleDays(o, start, k);
    if o.byMonth != [] {
      IdleMonth(start.day, AtLeastOne(o.interval), k);
    }
    if o.byMonthDay != [] {
      ThirdsOfCycles(start.day, AtLeastOne(o.interval), k, o.byMonthDay[0]);
    }
  }

  lemma {:induction false} WholeCycles(k: nat, n: int, m: int)
    requires m >= 1 && n % m == 0
    ensures k * n == m * (k * (n / m))
  {
    assert n == m * (n / m);
  }

  /** Three steps of a third of a cycle come to a whole number of cycles. */
  lemma {:induction false} ThirdsOfCycles(start: int, n: int, k: nat, d: int)
    requires n % THIRD == 0 && forall j :: 0 <= j < 3 ==> IsMonthDay(start + j * n, d)
    ensures IsMonthDay(start + k * n, d)
  {
    var a, j, c := k / 3, k % 3, n / THIRD;
    assert n == THIRD * c && k == 3 * a + j;
    Thirds(a, j, c);
    assert start + k * n == (start + j * n) + ERA * (a * c);
    MonthDayOn(start + j * n, a * c, d);
  }

  lemma {:induction false} Thirds(a: int, j: int, c: int)
    ensures (3 * a + j) * (THIRD * c) == j * (THIRD * c) + ERA * (a * c)
  {
  }

  lemma {:induction false} WholeWeeks(start: int, day: int, n: int)
    requires n >= 1 && n % 7 == 0 && (day - start) % n == 0
    ensures Weekday(day) == Weekday(start)
  {
    var q, m := (day - start) / n, n / 7;
    assert day - start == q * n;
    SevenTimes(q, m);
  }

  lemma {:induction false} SevenTimes(q: int, m: int)
    ensures q * (7 * m) == 7 * (q * m) == 7 * (m * q)
  {
  }

  lemma {:induction false} StepsOn(start: int, n: int, k: nat)
    ensures Weekday(start + k * n) == (Weekday(start) + k * (n % 7)) % 7
  {
    var a, b, x := n / 7, (start + 3) / 7, Weekday(start) + k * (n % 7);
    Distribute(k, a, n % 7);
    DivMod(start + k * n + 3, 7, b + k * a + x / 7, x % 7);
  }

  lemma {:induction false} Distribute(k: int, a: int, m: int)
    ensures k * (7 * a + m) == 7 * (k * a) + k * m
  {
  }

  /** The inverse of m modulo seven. */
  function Inverse(m: nat): nat {
    match m
    case 1 => 1
    case 2 => 4
    case 3 => 5
    case 4 => 2
    case 5 => 3
    case _ => 6
  }

  lemma {:induction false} Unfolded(e: int, inverse: int, t: int, m: int, c: int)
    requires inverse * m == 7 * c + 1
    ensures (e * inverse - 7 * t) * m == (e * c - t * m) * 7 + e
  {
  }

  lemma {:induction false} InverseReaches(m: nat, e: nat)
    requires 0 < m < 7 && e < 7
    ensures (e * Inverse(m) % 7) * m % 7 == e
  {
    var product, c := e * Inverse(m), Inverse(m) * m / 7;
    assert Inverse(m) * m == 7 * c + 1 by {
      match m case 1 => case 2 => case 3 => case 4 => case 5 => case 6 =>
    }
    var t := product / 7;
    assert product % 7 == product - 7 * t;
    Unfolded(e, Inverse(m), t, m, c);
    DivMod((product % 7) * m, 7, e * c - t * m, e);
  }

  /** Seven is prime: steps of n days, n not a multiple of it, reach every weekday. */
  lemma {:induction false} ReachesWeekday(start: int, n: int, d: nat) returns (k: nat)
    requires n >= 1 && n % 7 != 0 && d < 7
    ensures Weekday(start + k * n) == d
  {
    var m, s := n % 7, Weekday(start);
    var e := (d + 7 - s) % 7;
    k := e * Inverse(m) % 7;
    InverseReaches(m, e);
    StepsOn(start, n, k);
    Shift(s, k * m, d);
  }

  lemma {:induction false} Shift(s: nat, x: int, d: nat)
    requires s < 7 && d < 7 && x % 7 == (d + 7 - s) % 7
    ensures (s + x) % 7 == d
  {
  }

  // ---------- weekly: the days of the pattern ----------

  ghost predicate InWeek(day: int, start: int, first: nat, n: int)
    requires n >= 1
  {
    (WeekOf(day, first) - WeekOf(start, first)) % n == 0
  }

  lemma {:induction false} WeekFromMonday(day: int, first: nat)
    requires first < 7
    ensures WeekOf(day, first) == WeekOf(day, 0) - if Weekday(day) < first then 1 else 0
  {
  }

  lemma {:induction false} NamesDenote(days: seq<WeekdayNum>, day: nat)
    requires forall d :: d in days ==> d.day < 7
    ensures HasName(Names(days), day) <==> Has(days, day)
  {
    if d :| d in Names(days) && DayCode(Lower(d)) == Some(day) {
      var i :| 0 <= i < |days| && Names(days)[i] == d;
      assert days[i] in days;
      DayNamesReadBack(days[i].day);
    }
    if d :| d in days && d.day == day {
      var i :| 0 <= i < |days| && days[i] == d;
      DayNamesReadBack(d.day);
      assert Names(days)[i] in Names(days);
    }
  }

  /** A weekly pattern has the rule's weekdays, in weeks from Monday. */
  ghost predicate FromMonday(o: Options, start: LocalDate, day: int) {
    day >= start.day && PassesDay(o, start, day) && InWeek(day, start.day, 0, AtLeastOne(o.interval))
  }

  lemma {:induction false} WeeklyPatternIs(o: Options, start: LocalDate, day: int)
    requires Accepted(o, start) && o.freq == WEEKLY
    ensures PatternDay(ReadAs(o, start), start.day, day) <==> FromMonday(o, start, day)
  {
    var p := ReadAs(o, start);
    DayNamesReadBack(0);
    if o.byDay == [] {
      DayNamesReadBack(Weekday(start.day));
      assert p.days == [DayName(Weekday(start.day))];
      assert p.days[0] in p.days;
    } else {
      NamesDenote(o.byDay, Weekday(day));
      assert Has(o.byDay, Weekday(day)) <==> PassesDay(o, start, day) by {
        if d :| d in o.byDay && d.day == Weekday(day) {
          assert IsNamed(o, d, day);
        }
      }
    }
  }

  ghost predicate Weekly(o: Options) {
    && o.freq == WEEKLY && |o.bySetPos| <= 1 && |o.byMonth| <= 1 && |o.byMonthDay| <= 1
    && o.wkst < 7 && forall d :: d in o.byDay ==> d.day < 7
  }

  /** The rule has just the days of the pattern. */
  ghost predicate AsFromMonday(o: Options, start: LocalDate) {
    forall day: int :: RuleDay(o, start, day) <==> FromMonday(o, start, day)
  }

  lemma {:induction false} TurnsOfWeeks(day: int, first: nat, n: int, k: int)
    ensures Weekday(day + k * (7 * n)) == Weekday(day) && WeekOf(day + k * (7 * n), first) == WeekOf(day, first) + n * k
  {
    SevenTimes(k, n);
    WholeWeeksOn(day, first, n * k);
  }

  /** The pattern comes round with every turn of its interval. */
  lemma {:induction false} PatternTurns(o: Options, start: LocalDate, day: int, k: int)
    requires Weekly(o)
    requires var later := day + k * (7 * AtLeastOne(o.interval)); day >= start.day && later >= start.day
    ensures FromMonday(o, start, day + k * (7 * AtLeastOne(o.interval)))
       <==> FromMonday(o, start, day)
  {
    var n := AtLeastOne(o.interval);
    TurnsOfWeeks(day, 0, n, k);
    ModShift(WeekOf(day, 0) - WeekOf(start.day, 0), n, k);
    SameWeekdayPasses(o, start, day, day + k * (7 * n));
  }

  lemma {:induction false} SameWeekdayPasses(o: Options, start: LocalDate, x: int, y: int)
    requires !Monthly(o) && Weekday(x) == Weekday(y)
    ensures PassesDay(o, start, x) <==> PassesDay(o, start, y)
  {
    forall d ensures IsNamed(o, d, x) <==> IsNamed(o, d, y) {
    }
  }

  /** The day of a weekday, some weeks on. */
  lemma {:induction false} WeeksOn(start: int, weeks: nat, first: nat, d: nat) returns (day: int)
    requires weeks >= 1 && d < 7 && first < 7
    ensures day >= start && Weekday(day) == d && WeekOf(day, first) == WeekOf(start, first) + weeks
  {
    day := 7 * (WeekOf(start, first) + weeks) + (if d < first then d + 7 else d) - 3;
  }

  lemma {:induction false} OneOfItsDays(o: Options, start: LocalDate) returns (d: nat)
    requires Weekly(o)
    ensures d < 7 && forall day :: Weekday(day) == d ==> PassesDay(o, start, day)
  {
    if o.byDay == [] {
      d := Weekday(start.day);
    } else {
      d := o.byDay[0].day;
      forall day | Weekday(day) == d ensures PassesDay(o, start, day) {
        assert IsNamed(o, o.byDay[0], day);
      }
    }
  }

  lemma {:induction false} SomePatternDay(o: Options, start: LocalDate) returns (day: int)
    requires Weekly(o)
    ensures day >= start.day && FromMonday(o, start, day)
  {
    var n := AtLeastOne(o.interval);
    var d := OneOfItsDays(o, start);
    day := WeeksOn(start.day, n, 0, d);
    MultipleOf(1, n);
  }

  // ---------- weekly: when the pattern keeps them ----------

  /** Starting weeks elsewhere matters to a rule only if it skips weeks and its
      days lie on both sides of the change from the first occurrence. */
  ghost predicate WeekStartIdle(o: Options, start: int) {
    AtLeastOne(o.interval) == 1 || forall d :: d in o.byDay ==> (d.day < o.wkst <==> Weekday(start) < o.wkst)
  }

  ghost predicate OneWeekday(o: Options) {
    forall d, e :: d in o.byDay && e in o.byDay ==> d.day == e.day
  }

  ghost predicate WeeklyPositionIdle(o: Options) {
    o.bySetPos == [] || (OneWeekday(o) && o.bySetPos[0] in {1, -1})
  }

  /** BYMONTH lets every day through only if the turns are whole cycles and the days
      of the first are in the month. */
  ghost predicate WeeklyMonthIdle(o: Options, start: LocalDate)
  {
    o.byMonth == [] ||
    var turn := 7 * AtLeastOne(o.interval);
    && turn % ERA == 0
    && forall day :: start.day <= day < start.day + turn && FromMonday(o, start, day) ==> Month(day) == o.byMonth[0]
  }

  ghost predicate WeeklyMonthDayIdle(o: Options, start: LocalDate)
  {
    o.byMonthDay == [] ||
    var turn := 7 * AtLeastOne(o.interval);
    && turn % THIRD == 0
    && forall day :: start.day <= day < start.day + 3 * turn && FromMonday(o, start, day) ==>
         IsMonthDay(day, o.byMonthDay[0])
  }

  ghost predicate WeeklyKeeps(o: Options, start: LocalDate)
  {
    WeekStartIdle(o, start.day) && WeeklyPositionIdle(o) && WeeklyMonthIdle(o, start) && WeeklyMonthDayIdle(o, start)
  }

  /** Reading a weekly rule as a pattern, whose weeks are then said to start on
      Monday, keeps its days exactly when its own week start is idle and so is every
      part that is dropped. */
  lemma {:induction false} WeeklyKeptIff(o: Options, start: LocalDate)
    requires Accepted(o, start) && o.freq == WEEKLY
    ensures Kept(o, start) <==> WeeklyKeeps(o, start)
  {
    forall day: int ensures Same(o, start, day) <==> (RuleDay(o, start, day) <==> FromMonday(o, start, day)) {
      WeeklyPatternIs(o, start, day);
    }
    assert Kept(o, start) <==> AsFromMonday(o, start) by {
      if AsFromMonday(o, start) {
        assert forall day: int :: Same(o, start, day);
      }
      if Kept(o, start) {
        forall day: int ensures RuleDay(o, start, day) <==> FromMonday(o, start, day) {
          assert Same(o, start, day);
        }
      }
    }
    FromMondayIff(o, start);
  }

  lemma {:induction false} FromMondayIff(o: Options, start: LocalDate)
    requires Weekly(o)
    ensures AsFromMonday(o, start) <==> WeeklyKeeps(o, start)
  {
    if AsFromMonday(o, start) {
      WeekStartOfKept(o, start);
      PositionOfKept(o, start);
      WeeklyMonthOfKept(o, start);
      WeeklyMonthDayOfKept(o, start);
    }
    if WeeklyKeeps(o, start) {
      forall day: int ensures RuleDay(o, start, day) <==> FromMonday(o, start, day) {
        WeeklyIdle(o, start, day);
      }
    }
  }

  /** The weekdays of a rule in its own weeks, less what its other parts take away. */
  ghost predicate InItsWeeks(o: Options, start: LocalDate, day: int) {
    day >= start.day && PassesDay(o, start, day) && InWeek(day, start.day, o.wkst, AtLeastOne(o.interval))
  }

  lemma {:induction false} IdleWeeks(o: Options, start: LocalDate, day: int)
    requires Weekly(o) && WeekStartIdle(o, start.day)
    ensures FromMonday(o, start, day) <==> InItsWeeks(o, start, day)
  {
    WeekFromMonday(day, o.wkst);
    WeekFromMonday(start.day, o.wkst);
  }

  /** The day of that name one interval of weeks on is in the pattern and not in
      the rule. */
  lemma {:induction false} WeekStartOfKept(o: Options, start: LocalDate)
    requires Weekly(o) && AsFromMonday(o, start)
    ensures WeekStartIdle(o, start.day)
  {
    var n := AtLeastOne(o.interval);
    if d :| n > 1 && d in o.byDay && !(d.day < o.wkst <==> Weekday(start.day) < o.wkst) {
      var day := WeeksOn(start.day, n, 0, d.day);
      assert (RuleDay(o, start, day) <==> FromMonday(o, start, day)) && IsNamed(o, d, day);
        OneOff(n);
      WeekFromMonday(day, o.wkst);
      WeekFromMonday(start.day, o.wkst);
    }
  }

  lemma {:induction false} OneOff(n: int)
    requires n >= 2
    ensures n % n == 0 && (n + 1) % n == 1 && (n - 1) % n == n - 1
  {
  }

  lemma {:induction false} SameWeekSameDay(x: int, y: int, first: nat)
    requires WeekOf(x, first) == WeekOf(y, first) && Weekday(x) == Weekday(y)
    ensures x == y
  {
  }

  lemma {:induction false} InSpanSameWeek(o: Options, day: int, x: int)
    requires o.freq == WEEKLY && From(o, day) <= x < UpTo(o, day)
    ensures WeekOf(x, o.wkst) == WeekOf(day, o.wkst)
  {
  }

  /** With one weekday there is one day a week to choose. */
  lemma {:induction false} OnlyDayOfWeek(o: Options, start: LocalDate, day: int, n: int)
    requires Weekly(o) && OneWeekday(o) && Passes(o, start, day)
    ensures AtPosition(Passing(o, start), From(o, day), UpTo(o, day), day, n) <==> n in {1, -1}
  {
    InItsPeriod(o, day);
    forall x | From(o, day) <= x < UpTo(o, day) && Passing(o, start)(x) ensures x == day {
      InSpanSameWeek(o, day, x);
      assert Weekday(x) == Weekday(day);
      SameWeekSameDay(x, day, o.wkst);
    }
    AlonePosition(Passing(o, start), From(o, day), UpTo(o, day), day, n);
  }

  lemma {:induction false} AtItsPosition(o: Options, start: LocalDate, day: int)
    requires Weekly(o) && o.bySetPos != [] && RuleDay(o, start, day)
    ensures Passes(o, start, day) && AtPosition(Passing(o, start), From(o, day), UpTo(o, day), day, o.bySetPos[0])
  {
  }

  lemma {:induction false} OneDayPosition(o: Options, start: LocalDate, day: int)
    requires Weekly(o) && OneWeekday(o) && o.bySetPos != [] && RuleDay(o, start, day)
    ensures o.bySetPos[0] in {1, -1}
  {
    AtItsPosition(o, start, day);
    OnlyDayOfWeek(o, start, day, o.bySetPos[0]);
  }

  lemma {:induction false} PositionOfKept(o: Options, start: LocalDate)
    requires Weekly(o) && AsFromMonday(o, start)
    ensures WeeklyPositionIdle(o)
  {
    if o.bySetPos != [] {
      if OneWeekday(o) {
        var day := SomePatternDay(o, start);
        OneDayPosition(o, start, day);
      } else {
        var d, e :| d in o.byDay && e in o.byDay && d.day != e.day;
        TwoDaysAWeek(o, start, d, e);
      }
    }
  }

  lemma {:induction false} SameWeekSameSpan(o: Options, x: int, y: int)
    requires o.freq == WEEKLY && WeekOf(x, o.wkst) == WeekOf(y, o.wkst)
    ensures From(o, x) == From(o, y) && UpTo(o, x) == UpTo(o, y)
  {
  }

  /** A rule with a position has one day a week. */
  lemma {:induction false} OneChosenAWeek(o: Options, start: LocalDate, x: int, y: int)
    requires Weekly(o) && o.bySetPos != []
    requires RuleDay(o, start, x) && RuleDay(o, start, y) && WeekOf(x, o.wkst) == WeekOf(y, o.wkst)
    ensures x == y
  {
    AtItsPosition(o, start, x);
    AtItsPosition(o, start, y);
    SameWeekSameSpan(o, x, y);
    OnePosition(Passing(o, start), From(o, x), UpTo(o, x), x, y, o.bySetPos[0]);
  }

  lemma {:induction false} ADayOfKept(o: Options, start: LocalDate, d: WeekdayNum) returns (x: int)
    requires Weekly(o) && AsFromMonday(o, start) && WeekStartIdle(o, start.day) && d in o.byDay
    ensures Weekday(x) == d.day && WeekOf(x, o.wkst) == WeekOf(start.day, o.wkst) + AtLeastOne(o.interval) && RuleDay(o, start, x)
  {
    x := WeeksOn(start.day, AtLeastOne(o.interval), o.wkst, d.day);
    assert IsNamed(o, d, x);
    MultipleOf(1, AtLeastOne(o.interval));
    IdleWeeks(o, start, x);
  }

  /** Two weekdays in one of the rule's weeks cannot both be at its position. */
  lemma {:induction false} TwoDaysAWeek(o: Options, start: LocalDate, d: WeekdayNum, e: WeekdayNum)
    requires Weekly(o) && o.bySetPos != []
    requires d in o.byDay && e in o.byDay && d.day != e.day
    ensures !AsFromMonday(o, start)
  {
    if AsFromMonday(o, start) {
      WeekStartOfKept(o, start);
      var x := ADayOfKept(o, start, d);
      var y := ADayOfKept(o, start, e);
      OneChosenAWeek(o, start, x, y);
    }
  }

  lemma {:induction false} TurnPasses(o: Options, start: LocalDate, x: int, k: nat)
    requires Weekly(o) && AsFromMonday(o, start) && FromMonday(o, start, x)
    ensures Passes(o, start, x + k * (7 * AtLeastOne(o.interval)))
  {
    MultipleOf(k, 7 * AtLeastOne(o.interval));
    PatternTurns(o, start, x, k);
  }

  lemma {:induction false} MondayPasses(o: Options, start: LocalDate, day: int)
    requires Weekly(o) && AsFromMonday(o, start) && FromMonday(o, start, day)
    ensures Passes(o, start, day)
  {
    assert RuleDay(o, start, day);
  }

  lemma {:induction false} TurnInMonth(o: Options, start: LocalDate, x: int, k: nat)
    requires Weekly(o) && AsFromMonday(o, start) && FromMonday(o, start, x) && o.byMonth != []
    ensures Month(x + k * (7 * AtLeastOne(o.interval))) == o.byMonth[0]
  {
    TurnPasses(o, start, x, k);
    InItsMonth(o, start, x + k * (7 * AtLeastOne(o.interval)));
  }

  lemma {:induction false} TurnOnMonthDay(o: Options, start: LocalDate, x: int, k: nat)
    requires Weekly(o) && AsFromMonday(o, start) && FromMonday(o, start, x) && o.byMonthDay != []
    ensures IsMonthDay(x + k * (7 * AtLeastOne(o.interval)), o.byMonthDay[0])
  {
    TurnPasses(o, start, x, k);
    OnItsMonthDay(o, start, x + k * (7 * AtLeastOne(o.interval)));
  }

  lemma {:induction false} WeeklyMonthOfKept(o: Options, start: LocalDate)
    requires Weekly(o) && AsFromMonday(o, start)
    ensures WeeklyMonthIdle(o, start)
  {
    if o.byMonth != [] {
      var x := SomePatternDay(o, start);
      forall k: nat ensures Month(x + k * (7 * AtLeastOne(o.interval))) == o.byMonth[0] {
        TurnInMonth(o, start, x, k);
      }
      AllInMonth(x, 7 * AtLeastOne(o.interval), o.byMonth[0]);
      forall day | FromMonday(o, start, day) ensures Month(day) == o.byMonth[0] {
        MondayPasses(o, start, day);
        InItsMonth(o, start, day);
      }
    }
  }

  lemma {:induction false} WeeklyMonthDayOfKept(o: Options, start: LocalDate)
    requires Weekly(o) && AsFromMonday(o, start)
    ensures WeeklyMonthDayIdle(o, start)
  {
    if o.byMonthDay != [] {
      var x := SomePatternDay(o, start);
      forall k: nat ensures IsMonthDay(x + k * (7 * AtLeastOne(o.interval)), o.byMonthDay[0]) {
        TurnOnMonthDay(o, start, x, k);
      }
      AllOnMonthDay(x, 7 * AtLeastOne(o.interval), o.byMonthDay[0]);
      forall day | FromMonday(o, start, day) ensures IsMonthDay(day, o.byMonthDay[0]) {
        MondayPasses(o, start, day);
        OnItsMonthDay(o, start, day);
      }
    }
  }

  lemma {:induction false} Remainder(since: nat, cycle: int) returns (k: nat)
    requires cycle >= 1
    ensures 0 <= since - k * cycle < cycle
  {
    k := since / cycle;
    assert since == cycle * k + since % cycle;
  }

  /** A day of the pattern and the day it comes round from, some turns before. */
  lemma {:induction false} TurnedFrom(o: Options, start: LocalDate, day: int, turns: nat, cycle: int) returns (x: int, k: nat)
    requires Weekly(o) && FromMonday(o, start, day)
    requires cycle == turns * (7 * AtLeastOne(o.interval)) >= 1
    ensures start.day <= x < start.day + cycle && FromMonday(o, start, x) && day == x + k * cycle
  {
    k := Remainder(day - start.day, cycle);
    x := day - k * cycle;
    Regroup(k, turns, 7 * AtLeastOne(o.interval));
    PatternTurns(o, start, x, k * turns);
  }

  lemma {:induction false} Regroup(a: int, b: int, c: int)
    ensures a * (b * c) == (a * b) * c
  {
  }

  lemma {:induction false} WeeklyIdle(o: Options, start: LocalDate, day: int)
    requires Weekly(o) && WeeklyKeeps(o, start)
    ensures RuleDay(o, start, day) <==> FromMonday(o, start, day)
  {
    IdleWeeks(o, start, day);
    if FromMonday(o, start, day) {
      assert PassesMonth(o, start, day) && PassesMonthDay(o, start, day) by {
        WeeklyPartsPass(o, start, day);
      }
      assert Chosen(o, start, day) by {
        WeeklyChosen(o, start, day);
      }
    }
    WeeklyRuleDay(o, start, day);
  }

  lemma {:induction false} WeeklyRuleDay(o: Options, start: LocalDate, day: int)
    requires Weekly(o)
    ensures RuleDay(o, start, day) <==>
              InItsWeeks(o, start, day) && PassesMonth(o, start, day) && PassesMonthDay(o, start, day) && Chosen(o, start, day)
  {
    var turn := InWeek(day, start.day, o.wkst, AtLeastOne(o.interval));
    RuleDayIs(o, start, day, turn, Passes(o, start, day) && Chosen(o, start, day));
  }

  lemma {:induction false} WeeklyPartsPass(o: Options, start: LocalDate, day: int)
    requires Weekly(o) && WeeklyKeeps(o, start) && FromMonday(o, start, day)
    ensures PassesMonth(o, start, day) && PassesMonthDay(o, start, day)
  {
    if o.byMonth != [] {
      WeeklyMonthPasses(o, start, day);
    }
    if o.byMonthDay != [] {
      WeeklyMonthDayPasses(o, start, day);
    }
  }

  lemma {:induction false} WeeklyChosen(o: Options, start: LocalDate, day: int)
    requires Weekly(o) && WeeklyPositionIdle(o)
    requires PassesMonth(o, start, day) && PassesMonthDay(o, start, day) && PassesDay(o, start, day)
    ensures Chosen(o, start, day)
  {
    if o.bySetPos != [] {
      OnlyDayOfWeek(o, start, day, o.bySetPos[0]);
    }
  }

  lemma {:induction false} WeeklyMonthPasses(o: Options, start: LocalDate, day: int)
    requires Weekly(o) && WeeklyMonthIdle(o, start) && o.byMonth != []
    requires FromMonday(o, start, day)
    ensures Month(day) == o.byMonth[0]
  {
    var turn := 7 * AtLeastOne(o.interval);
    var x, k := TurnedFrom(o, start, day, 1, turn);
    IdleMonth(x, turn, k);
  }

  lemma {:induction false} ThreeThirds(turn: int)
    requires turn % THIRD == 0
    ensures (3 * turn) % ERA == 0
  {
    assert turn == THIRD * (turn / THIRD);
    assert 3 * turn == ERA * (turn / THIRD);
  }

  lemma {:induction false} CyclesLater(x: int, turn: int, k: nat, d: int, day: int)
    requires turn % THIRD == 0 && day == x + k * (3 * turn) && IsMonthDay(x, d)
    ensures IsMonthDay(day, d)
  {
    ThreeThirds(turn);
    WholeCycles(k, 3 * turn, ERA);
    MonthDayOn(x, k * ((3 * turn) / ERA), d);
  }

  lemma {:induction false} WeeklyMonthDayPasses(o: Options, start: LocalDate, day: int)
    requires Weekly(o) && WeeklyMonthDayIdle(o, start) && o.byMonthDay != [] && FromMonday(o, start, day)
    ensures IsMonthDay(day, o.byMonthDay[0])
  {
    var turn := 7 * AtLeastOne(o.interval);
    var x, k := TurnedFrom(o, start, day, 3, 3 * turn);
    CyclesLater(x, turn, k, o.byMonthDay[0], day);
  }
}
