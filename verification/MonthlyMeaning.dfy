/** What reading a monthly or yearly rule as a Graph pattern keeps of its days, for
    a rule whose first occurrence is one of its days: by section 3.8.5.3 of RFC 5545
    no other has a meaning. `RuleMeaning.OneCycleDecides` takes in the rest. */
module MonthlyMeaning {
  import opened Basics
  import opened Text
  import opened Recurrence
  import opened CivilCalendar
  import opened RuleMeaning
  import opened RecurrenceMeaning

  // ---------- days of a month ----------

  lemma {:induction false} DayIn(i: int, d: int) returns (day: int)
    requires 1 <= d <= Length(i)
    ensures MonthOf(day) == i && DayOfMonth(day) == d
  {
    day := MonthStart(i) + d - 1;
    MonthsLast(i);
    MonthIs(day, i);
  }

  lemma {:induction false} WithinLength(day: int)
    ensures DayOfMonth(day) <= Length(MonthOf(day))
  {
    MonthsLast(MonthOf(day));
  }

  /** The nth day of a month that has one, from the end if n is negative. */
  lemma {:induction false} MonthDayIn(i: int, n: int) returns (day: int)
    requires 1 <= n <= Length(i) || 1 <= -n <= Length(i)
    ensures MonthOf(day) == i && IsMonthDay(day, n)
  {
    MonthsLast(i);
    if n > 0 {
      day := DayIn(i, n);
    } else {
      day := MonthStart(i + 1) + n;
      MonthIs(day, i);
    }
  }

  lemma {:induction false} OneMonthDay(x: int, y: int, n: int)
    requires MonthOf(x) == MonthOf(y) && IsMonthDay(x, n) && IsMonthDay(y, n)
    ensures x == y
  {
  }

  lemma {:induction false} MonthDayIsWithin(day: int, n: int)
    requires IsMonthDay(day, n)
    ensures n != 0 && -31 <= n <= 31 && (n > 0 ==> DayOfMonth(day) == n)
  {
    MonthsLast(MonthOf(day));
  }

  lemma {:induction false} LaterMonth(x: int, y: int)
    requires MonthOf(x) < MonthOf(y)
    ensures x < y
  {
    MonthsGrow(MonthOf(x) + 1, MonthOf(y));
  }

  lemma {:induction false} InSpanSameMonth(day: int, x: int)
    requires MonthStart(MonthOf(day)) <= x < MonthStart(MonthOf(day) + 1)
    ensures MonthOf(x) == MonthOf(day)
  {
    MonthIs(x, MonthOf(day));
  }

  lemma {:induction false} InSpanSameYear(day: int, x: int)
    requires MonthStart(12 * YearOf(day)) <= x < MonthStart(12 * YearOf(day) + 12)
    ensures YearOf(x) == YearOf(day)
  {
    var y, i := YearOf(day), MonthOf(x);
    if i < 12 * y {
      MonthsGrow(i + 1, 12 * y);
    } else if i >= 12 * y + 12 {
      MonthsGrow(12 * y + 12, i);
    }
  }

  // ---------- absolute and monthly ----------

  ghost predicate Synchronised(o: Options, start: LocalDate) {
    Accepted(o, start) && RuleDay(o, start, start.day)
  }

  lemma {:induction false} AloneInMonth(pass: int -> bool, day: int, n: int)
    requires pass(day) && forall x: int :: MonthOf(x) == MonthOf(day) && pass(x) ==> x == day
    ensures AtPosition(pass, MonthStart(MonthOf(day)), MonthStart(MonthOf(day) + 1), day, n) <==> n in {1, -1}
  {
    forall x | MonthStart(MonthOf(day)) <= x < MonthStart(MonthOf(day) + 1) && pass(x) ensures x == day {
      InSpanSameMonth(day, x);
    }
    AlonePosition(pass, MonthStart(MonthOf(day)), MonthStart(MonthOf(day) + 1), day, n);
  }

  lemma {:induction false} SameNumber(x: int, y: int)
    requires MonthOf(x) == MonthOf(y) && DayOfMonth(x) == DayOfMonth(y)
    ensures x == y
  {
  }

  lemma {:induction false} PassesAlone(o: Options, start: LocalDate, day: int, x: int)
    requires o.freq == MONTHLY && o.byDay == [] && |o.byMonthDay| <= 1
    requires Passes(o, start, day) && Passes(o, start, x) && MonthOf(x) == MonthOf(day)
    ensures x == day
  {
    if o.byMonthDay != [] {
      OneMonthDay(x, day, o.byMonthDay[0]);
    } else {
      SameNumber(x, day);
    }
  }

  /** One day a month passes, so a position can only be first or last. */
  lemma {:induction false} OneDayAMonth(o: Options, start: LocalDate, day: int)
    requires o.freq == MONTHLY && o.byDay == [] && |o.byMonthDay| <= 1 && |o.bySetPos| <= 1 && Passes(o, start, day)
    ensures Chosen(o, start, day) <==> o.bySetPos == [] || o.bySetPos[0] in {1, -1}
  {
    if o.bySetPos != [] {
      forall x: int | MonthOf(x) == MonthOf(day) && Passing(o, start)(x) ensures x == day {
        PassesAlone(o, start, day, x);
      }
      AloneInMonth(Passing(o, start), day, o.bySetPos[0]);
      assert o.bySetPos == [o.bySetPos[0]];
    }
  }

  /** A month some way on from a month of the year is another, and can have the day:
      29 in February counts. */
  predicate AnotherAt(month: int, dayOfMonth: int, months: int) {
    var m := (month - 1 + months) % 12;
    m != month - 1 && MonthLength(m, true) >= dayOfMonth
  }

  predicate AnotherAfter(month: int, dayOfMonth: int, n: int, steps: int) {
    AnotherAt(month, dayOfMonth, steps * n)
  }

  /** The months a rule comes to, other than the one it starts in, never have the day. */
  predicate NoOtherMonth(month: int, dayOfMonth: int, n: int) {
    forall j :: 0 <= j < 12 ==> !AnotherAfter(month, dayOfMonth, n, j)
  }

  lemma {:induction false} CivilMonth(start: LocalDate)
    requires Civil(start)
    ensures 1 <= start.month <= 12 && start.month - 1 == MonthOf(start.day) % 12
  {
  }

  /** An absolute monthly rule keeps its days exactly when its day is not counted from
      the end, and its month, if it names one, is the only one it comes to. */
  lemma {:induction false} AbsoluteMonthlyKeptIff(o: Options, start: LocalDate)
    requires Synchronised(o, start) && o.freq == MONTHLY && o.byDay == []
    ensures Kept(o, start) <==>
              && (o.byMonthDay == [] || o.byMonthDay[0] >= 1)
              && (o.byMonth == [] || NoOtherMonth(start.month, start.dayOfMonth, AtLeastOne(o.interval)))
  {
    CivilMonth(start);
    OneDayAMonth(o, start, start.day);
    if o.byMonthDay != [] {
      MonthDayIsWithin(start.day, o.byMonthDay[0]);
    }
    if o.byMonthDay != [] && o.byMonthDay[0] < 1 {
      assert !Same(o, start, start.day);
    } else {
      assert Kept(o, start) <==> MonthsAllPass(o, start) by {
        forall day: int ensures Same(o, start, day) <==> (OnStep(o, start, day) ==> PassesMonth(o, start, day)) {
          AbsoluteDay(o, start, day);
        }
        if MonthsAllPass(o, start) {
          assert forall day: int :: Same(o, start, day);
        }
        if Kept(o, start) {
          forall day: int | OnStep(o, start, day) ensures PassesMonth(o, start, day) {
            assert Same(o, start, day);
          }
        }
      }
      if o.byMonth != [] {
        MonthsAllPassIff(o, start);
      }
    }
  }

  /** The days of the absolute monthly pattern. */
  ghost predicate OnStep(o: Options, start: LocalDate, day: int) {
    && day >= start.day && (MonthOf(day) - MonthOf(start.day)) % AtLeastOne(o.interval) == 0
    && DayOfMonth(day) == start.dayOfMonth
  }

  ghost predicate MonthsAllPass(o: Options, start: LocalDate) {
    forall day: int :: OnStep(o, start, day) ==> PassesMonth(o, start, day)
  }

  lemma {:induction false} AbsoluteDay(o: Options, start: LocalDate, day: int)
    requires Synchronised(o, start) && o.freq == MONTHLY && o.byDay == []
    requires o.byMonthDay == [] || o.byMonthDay[0] == start.dayOfMonth
    requires o.bySetPos == [] || o.bySetPos[0] in {1, -1}
    ensures RuleDay(o, start, day) <==> OnStep(o, start, day) && PassesMonth(o, start, day)
    ensures PatternDay(ReadAs(o, start), start.day, day) <==> OnStep(o, start, day)
  {
    AbsoluteRuleDay(o, start, day);
    var turn := (MonthOf(day) - MonthOf(start.day)) % AtLeastOne(o.interval) == 0;
    AbsolutePattern(ReadAs(o, start), start.day, day, turn);
  }

  lemma {:induction false} AbsoluteRuleDay(o: Options, start: LocalDate, day: int)
    requires o.freq == MONTHLY && o.byDay == [] && start.dayOfMonth >= 1 && |o.bySetPos| <= 1
    requires o.byMonthDay == [] || o.byMonthDay == [start.dayOfMonth]
    requires o.bySetPos == [] || o.bySetPos[0] in {1, -1}
    ensures RuleDay(o, start, day) <==> OnStep(o, start, day) && PassesMonth(o, start, day)
  {
    var turn := (MonthOf(day) - MonthOf(start.day)) % AtLeastOne(o.interval) == 0;
    var chosen := PassesMonth(o, start, day) && DayOfMonth(day) == start.dayOfMonth;
    assert chosen <==> Passes(o, start, day) && Chosen(o, start, day) by {
      OnThatDay(o, start, day);
      if Passes(o, start, day) {
        OneDayAMonth(o, start, day);
      }
    }
    RuleDayIs(o, start, day, turn, chosen);
  }

  lemma {:induction false} OnThatDay(o: Options, start: LocalDate, day: int)
    requires o.freq == MONTHLY && o.byDay == [] && start.dayOfMonth >= 1
    requires o.byMonthDay == [] || o.byMonthDay == [start.dayOfMonth]
    ensures Passes(o, start, day) <==> PassesMonth(o, start, day) && DayOfMonth(day) == start.dayOfMonth
  {
    if o.byMonthDay != [] {
      assert start.dayOfMonth in o.byMonthDay;
    }
  }

  lemma {:induction false} AbsolutePattern(p: Pattern, start: int, x: int, turn: bool)
    requires p.kind.AbsoluteMonthly? && p.interval >= 1
    requires turn <==> (MonthOf(x) - MonthOf(start)) % p.interval == 0
    ensures PatternDay(p, start, x) <==> x >= start && turn && DayOfMonth(x) == p.dayOfMonth
  {
  }

  lemma {:induction false} StepsToMonth(a: int, n: int, i: int) returns (k: nat)
    requires n >= 1 && i >= a && (i - a) % n == 0
    ensures i == a + k * n && i % 12 == (a % 12 + (k % 12) * n) % 12
  {
    k := (i - a) / n;
    assert i - a == n * k && n * k == k * n;
    TwelveSteps(a, n, k);
  }

  lemma {:induction false} TwelveSteps(a: int, n: int, k: nat)
    ensures (a + k * n) % 12 == (a % 12 + (k % 12) * n) % 12
  {
    var q, r := k / 12, k % 12;
    Distribute(n, q, r);
    assert k == 12 * q + r;
    assert k * n == 12 * (q * n) + r * n by { Twelve(q, r, n); }
    assert a + k * n == (a % 12 + r * n) + 12 * (a / 12 + q * n);
    ModShift(a % 12 + r * n, 12, a / 12 + q * n);
  }

  lemma {:induction false} Twelve(q: int, r: int, n: int)
    ensures (12 * q + r) * n == 12 * (q * n) + r * n
  {
  }

  lemma {:induction false} MonthsAllPassIff(o: Options, start: LocalDate)
    requires Synchronised(o, start) && o.freq == MONTHLY && o.byDay == [] && o.byMonth != [] && 1 <= start.month <= 12
    ensures MonthsAllPass(o, start) <==> NoOtherMonth(start.month, start.dayOfMonth, AtLeastOne(o.interval))
  {
    var n := AtLeastOne(o.interval);
    assert o.byMonth == [start.month] by { assert Month(start.day) in o.byMonth; }
    if NoOtherMonth(start.month, start.dayOfMonth, n) {
      forall day: int | OnStep(o, start, day) ensures PassesMonth(o, start, day) {
        OnlyMonth(start, n, day);
      }
    } else {
      var day := AnotherMonth(start, n);
      assert OnStep(o, start, day);
    }
  }

  lemma {:induction false} AnotherMonth(start: LocalDate, n: int) returns (day: int)
    requires n >= 1 && Civil(start) && 1 <= start.month <= 12 && !NoOtherMonth(start.month, start.dayOfMonth, n)
    ensures day >= start.day && (MonthOf(day) - MonthOf(start.day)) % n == 0 && DayOfMonth(day) == start.dayOfMonth
    ensures Month(day) != start.month
  {
    var j :| 0 <= j < 12 && AnotherAfter(start.month, start.dayOfMonth, n, j);
    day := FarEnough(start, n, j, j * n);
  }

  lemma {:induction false} FarEnough(start: LocalDate, n: int, j: nat, c: nat) returns (day: int)
    requires n >= 1 && c == j * n && Civil(start) && 1 <= start.month <= 12 && AnotherAt(start.month, start.dayOfMonth, c)
    ensures day >= start.day && (MonthOf(day) - MonthOf(start.day)) % n == 0 && DayOfMonth(day) == start.dayOfMonth
    ensures Month(day) != start.month
  {
    MonthsFromStart(MonthOf(start.day), c);
    var m := RoomyMonth(MonthOf(start.day), start.dayOfMonth, c);
    day := ThatDayAfter(start, n, m, j);
  }

  lemma {:induction false} ThatDayAfter(start: LocalDate, n: int, m: nat, j: nat) returns (day: int)
    requires n >= 1 && Civil(start)
    requires m * (j * n) >= 1 && (MonthOf(start.day) + m * (j * n)) % 12 != MonthOf(start.day) % 12
    requires Length(MonthOf(start.day) + m * (j * n)) >= start.dayOfMonth
    ensures day >= start.day && (MonthOf(day) - MonthOf(start.day)) % n == 0 && DayOfMonth(day) == start.dayOfMonth
    ensures Month(day) != start.month
  {
    TimesAsFar(m, j, n);
    day := DayAfter(start.day, n, m * j);
  }

  /** The same day of the month, some steps on. */
  lemma {:induction false} DayAfter(start: int, n: int, k: nat) returns (day: int)
    requires n >= 1 && k * n >= 1 && (MonthOf(start) + k * n) % 12 != MonthOf(start) % 12
    requires Length(MonthOf(start) + k * n) >= DayOfMonth(start)
    ensures day >= start && (MonthOf(day) - MonthOf(start)) % n == 0 && DayOfMonth(day) == DayOfMonth(start)
    ensures Month(day) != Month(start)
  {
    day := DayIn(MonthOf(start) + k * n, DayOfMonth(start));
    LaterMonth(start, day);
    MultipleOf(k, n);
  }

  lemma {:induction false} MonthsFromStart(a: int, c: int)
    ensures (a % 12 + c) % 12 == (a + c) % 12
  {
    ModShift(a % 12 + c, 12, a / 12);
  }

  lemma {:induction false} OnlyMonth(start: LocalDate, n: int, day: int)
    requires n >= 1 && Civil(start) && NoOtherMonth(start.month, start.dayOfMonth, n)
    requires day >= start.day && (MonthOf(day) - MonthOf(start.day)) % n == 0 && DayOfMonth(day) == start.dayOfMonth
    ensures Month(day) == start.month
  {
    if MonthOf(day) < MonthOf(start.day) {
      LaterMonth(day, start.day);
    }
    var k := StepsToMonth(MonthOf(start.day), n, MonthOf(day));
    WithinLength(day);
    LongestLength(MonthOf(day));
    assert !AnotherAfter(start.month, start.dayOfMonth, n, k % 12);
  }

  lemma {:induction false} LongestLength(i: int)
    ensures Length(i) <= MonthLength(i % 12, true)
  {
  }

  /** If a month some way on could have the day, one that way or some times as far on
      does: that one, or one twice as far, or a February of a leap year. */
  lemma {:induction false} RoomyMonth(a: int, d: int, c: nat) returns (m: nat)
    requires (a + c) % 12 != a % 12 && MonthLength((a + c) % 12, true) >= d
    ensures m * c >= 1 && (a + m * c) % 12 != a % 12 && Length(a + m * c) >= d
  {
    assert c >= 1;
    if (a + c) % 12 != 1 || d <= 28 {
      m := 1;
      RoomEnough(a + c, d);
    } else if (2 * c) % 12 != 0 {
      m := 2;
      TwiceAsFar(a, c);
      RoomEnough(a + 2 * c, d);
    } else {
      NotWholeYears(a, c);
      var t := LeapFebruary(a, c);
      m := 1 + 2 * t;
      Thrice(c, t);
    }
  }

  lemma {:induction false} NotWholeYears(a: int, c: int)
    requires (a + c) % 12 != a % 12
    ensures c % 12 != 0
  {
    Twelfths(a, c);
  }

  lemma {:induction false} TwiceAsFar(a: int, c: int)
    requires (a + c) % 12 == 1 && a % 12 != 1 && (2 * c) % 12 != 0 && c >= 0
    ensures (a + 2 * c) % 12 != a % 12 && (a + 2 * c) % 12 != 1 && 2 * c >= 1
  {
    Twelfths(a, c);
    Twelfths(c, c);
    Twelfths(a, 2 * c);
    SmallTwelfths(a % 12, c % 12);
  }

  lemma {:induction false} Twelfths(a: int, c: int)
    ensures (a + c) % 12 == (a % 12 + c % 12) % 12
  {
    ModShift(a % 12 + c % 12, 12, a / 12 + c / 12);
  }

  lemma {:induction false} SmallTwelfths(s: nat, r: nat)
    requires s < 12 && r < 12
    ensures (s + r) % 12 != s <==> r != 0
    ensures (s + r) % 12 == 1 && r != 0 && (r + r) % 12 != 0 ==> (s + (r + r) % 12) % 12 !in {s, 1}
  {
  }

  lemma {:induction false} RoomEnough(i: int, d: int)
    requires i % 12 != 1 || d <= 28
    ensures MonthLength(i % 12, true) >= d || (i % 12 != 1 && d <= 29) ==> Length(i) >= d
  {
  }

  lemma {:induction false} Thrice(c: int, t: int)
    ensures (1 + 2 * t) * c == c + 2 * c * t
  {
  }

  lemma {:induction false} TimesAsFar(m: int, j: int, n: int)
    ensures (m * j) * n == m * (j * n)
  {
  }

  lemma {:induction false} LeapFebruary(a: int, c: int) returns (t: nat)
    requires c >= 1 && c % 12 != 0 && (2 * c) % 12 == 0 && (a + c) % 12 == 1
    ensures (a + (c + 2 * c * t)) % 12 == 1 && c + 2 * c * t >= 1 && Length(a + (c + 2 * c * t)) == 29
  {
    var q, y := c / 6, (a + c) / 12;
    HalfYears(c);
    t := LeapAhead(y, q);
    SixTimes(q, t);
    assert a + c == 12 * y + 1;
    assert a + (c + 2 * c * t) == 12 * (y + q * t) + 1;
    FebruaryOf(y + q * t);
    MultipleOf(t, q);
    assert q * t == t * q;
  }

  lemma {:induction false} HalfYears(c: int)
    requires c >= 1 && c % 12 != 0 && (2 * c) % 12 == 0
    ensures c == 6 * (c / 6) && (c / 6) % 2 == 1 && c / 6 >= 1
  {
    assert 2 * c == 12 * ((2 * c) / 12);
    assert c == 6 * ((2 * c) / 12);
  }

  lemma {:induction false} FebruaryOf(year: int)
    requires IsLeap(year)
    ensures (12 * year + 1) % 12 == 1 && Length(12 * year + 1) == 29
  {
    assert (12 * year + 1) / 12 == year && (12 * year + 1) % 12 == 1;
  }

  lemma {:induction false} SixTimes(q: int, t: int)
    ensures 2 * (6 * q) * t == 12 * (q * t)
  {
  }

  /** Steps of an odd number of years come to a leap year. */
  lemma {:induction false} LeapAhead(y: int, q: int) returns (t: nat)
    requires q >= 1 && q % 2 == 1
    ensures IsLeap(y + q * t)
  {
    var t0 := FourthYear(y, q);
    var z := y + q * t0;
    if z % 100 != 0 {
      t := t0;
    } else if (4 * q) % 100 != 0 {
      t := t0 + 4;
      Distribute4(q, t0, 1);
      NotACentury(z, 4 * q);
    } else {
      OddCenturies(q);
      var s := FourthYear(z / 100, (4 * q) / 100);
      t := t0 + 4 * s;
      CenturyYears(z, q, s);
      Distribute4(q, t0, s);
      FourHundredth(z + 4 * q * s);
    }
  }

  lemma {:induction false} NotACentury(z: int, c: int)
    requires z % 100 == 0 && c % 4 == 0 && c % 100 != 0
    ensures IsLeap(z + c)
  {
    ModShift(c, 100, z / 100);
    ModShift(c, 4, 25 * (z / 100));
  }

  lemma {:induction false} FourHundredth(z: int)
    requires z % 400 == 0
    ensures IsLeap(z)
  {
  }

  lemma {:induction false} OddCenturies(q: int)
    requires q % 2 == 1 && (4 * q) % 100 == 0
    ensures ((4 * q) / 100) % 2 == 1
  {
    assert q == 25 * ((4 * q) / 100);
  }

  lemma {:induction false} Distribute4(q: int, t0: int, s: int)
    ensures q * (t0 + 4 * s) == q * t0 + 4 * q * s
  {
  }

  lemma {:induction false} FourthYear(y: int, q: int) returns (t: nat)
    requires q % 2 == 1
    ensures t < 4 && (y + q * t) % 4 == 0
  {
    t := if y % 4 == 0 then 0 else if (y + q) % 4 == 0 then 1 else if (y + 2 * q) % 4 == 0 then 2 else 3;
  }

  lemma {:induction false} CenturyYears(z: int, q: int, s: nat)
    requires z % 100 == 0 && (4 * q) % 100 == 0 && q % 2 == 1 && (z / 100 + (4 * q) / 100 * s) % 4 == 0
    ensures (z + 4 * q * s) % 400 == 0
  {
    var w, r := z / 100, (4 * q) / 100;
    assert z == 100 * w && 4 * q == 100 * r;
    assert 4 * q * s == 100 * (r * s) by { Hundred(r, s); }
    assert z + 4 * q * s == 400 * ((w + r * s) / 4);
  }

  lemma {:induction false} Hundred(r: int, s: int)
    ensures (100 * r) * s == 100 * (r * s)
  {
  }

  // ---------- the nth such weekday ----------

  lemma {:induction false} NoneBetween(pass: int -> bool, w: nat, day: int, lo: int, hi: int)
    requires Weekday(day) == w && forall y: int :: pass(y) <==> Weekday(y) == w
    requires day - 7 < lo <= hi <= day || day < lo <= hi <= day + 7
    ensures HowMany(pass, lo, hi) == 0
  {
    forall x | lo <= x < hi ensures !pass(x) {
      assert (x + 3) % 7 != (day + 3) % 7;
    }
    CountNone(pass, lo, hi);
  }

  lemma {:induction false} OneInSeven(pass: int -> bool, w: nat, day: int)
    requires Weekday(day) == w && forall y: int :: pass(y) <==> Weekday(y) == w
    ensures HowMany(pass, day, day + 7) == 1 && HowMany(pass, day + 1, day + 8) == 1
  {
    CountSplits(pass, day, day + 1, day + 7);
    NoneBetween(pass, w, day, day + 1, day + 7);
    CountSplits(pass, day + 1, day + 7, day + 8);
    assert Weekday(day + 7) == w;
  }

  lemma {:induction false} CountWeekday(pass: int -> bool, w: nat, lo: int, day: int)
    requires lo <= day && Weekday(day) == w && forall y: int :: pass(y) <==> Weekday(y) == w
    ensures HowMany(pass, lo, day) == (day - lo) / 7
    decreases day - lo
  {
    if day - lo < 7 {
      NoneBetween(pass, w, day, lo, day);
    } else {
      assert Weekday(day - 7) == w;
      CountWeekday(pass, w, lo, day - 7);
      CountSplits(pass, lo, day - 7, day);
      OneInSeven(pass, w, day - 7);
    }
  }

  lemma {:induction false} CountWeekdayAfter(pass: int -> bool, w: nat, day: int, hi: int)
    requires day < hi && Weekday(day) == w && forall y: int :: pass(y) <==> Weekday(y) == w
    ensures HowMany(pass, day + 1, hi) == (hi - 1 - day) / 7
    decreases hi - day
  {
    if hi - 1 - day < 7 {
      NoneBetween(pass, w, day, day + 1, hi);
    } else {
      assert Weekday(day + 7) == w;
      CountWeekdayAfter(pass, w, day + 7, hi);
      CountSplits(pass, day + 1, day + 8, hi);
      OneInSeven(pass, w, day);
    }
  }

  /** The nth Monday is the one at position n among the Mondays. */
  lemma {:induction false} NthIsPosition(pass: int -> bool, w: nat, lo: int, hi: int, x: int, n: int)
    requires lo <= x < hi && forall y: int :: pass(y) <==> Weekday(y) == w
    ensures AtPosition(pass, lo, hi, x, n) <==> Weekday(x) == w && NthWeekday(x, lo, hi, n)
  {
    if Weekday(x) == w {
      CountWeekday(pass, w, lo, x);
      CountWeekdayAfter(pass, w, x, hi);
    }
  }

  /** Days that do not pass at either end of a span make no difference. */
  lemma {:induction false} NarrowerSpan(pass: int -> bool, lo: int, from: int, upTo: int, hi: int, x: int, n: int)
    requires lo <= from <= x < upTo <= hi
    requires forall y :: lo <= y < from || upTo <= y < hi ==> !pass(y)
    ensures AtPosition(pass, lo, hi, x, n) <==> AtPosition(pass, from, upTo, x, n)
  {
    CountSplits(pass, lo, from, x);
    CountNone(pass, lo, from);
    CountSplits(pass, x + 1, upTo, hi);
    CountNone(pass, upTo, hi);
  }

  /** A rule Outlook has words for: plain days with one position among them, or a
      single numbered day, and no day of the month besides. */
  ghost predicate OneIndex(o: Options) {
    && o.byDay != [] && o.byMonthDay == []
    && if o.bySetPos != [] then |o.bySetPos| == 1 && forall d :: d in o.byDay ==> d.n == 0 else |o.byDay| == 1
  }

  function IndexOf(o: Options): int
    requires o.byDay != []
  {
    if o.bySetPos != [] then o.bySetPos[0] else o.byDay[0].n
  }

  lemma {:induction false} IndexIs(o: Options, start: LocalDate)
    requires Accepted(o, start) && (o.freq == MONTHLY || o.freq == YEARLY) && OneIndex(o)
    ensures var p := ReadAs(o, start);
            && IndexOf(o) in {1, 2, 3, 4, -1} && IndexCode(p.index) == Some(IndexOf(o)) && p.days == Names(o.byDay)
            && p.kind == if o.freq == MONTHLY then RelativeMonthly else RelativeYearly
  {
    IndexNamesReadBack(IndexOf(o));
    if o.bySetPos == [] {
      assert o.byDay[..0] == [];
      assert IndexOfDays(o.byDay) == if o.byDay[0].n != 0 then IndexName(o.byDay[0].n) else "";
    }
  }

  lemma {:induction false} PlainDays(o: Options, start: LocalDate, y: int)
    requires o.byDay != [] && forall d :: d in o.byDay ==> d.n == 0 && d.day < 7
    ensures PassesDay(o, start, y) <==> NamedBy(Names(o.byDay))(y)
  {
    NamesDenote(o.byDay, Weekday(y));
    if d :| d in o.byDay && d.day == Weekday(y) {
      assert IsNamed(o, d, y);
    }
  }

  lemma {:induction false} NumberedDay(o: Options, start: LocalDate, x: int)
    requires (o.freq == MONTHLY || o.freq == YEARLY) && |o.byDay| == 1 && o.byDay[0].n != 0 && o.byDay[0].day < 7
    requires NumberedFrom(o, x) <= x < NumberedTo(o, x)
    ensures PassesDay(o, start, x) <==> AtPosition(NamedBy(Names(o.byDay)), NumberedFrom(o, x), NumberedTo(o, x), x, o.byDay[0].n)
  {
    var d := o.byDay[0];
    assert o.byDay == [d];
    forall y: int ensures NamedBy(Names(o.byDay))(y) <==> Weekday(y) == d.day {
      NamesDenote(o.byDay, Weekday(y));
      assert d in o.byDay;
    }
    NthIsPosition(NamedBy(Names(o.byDay)), d.day, NumberedFrom(o, x), NumberedTo(o, x), x, d.n);
    assert PassesDay(o, start, x) <==> IsNamed(o, d, x);
  }

  /** Such a rule as the translation accepts it. */
  ghost predicate Indexed(o: Options) {
    && Monthly(o) && o.freq != FINER && OneIndex(o) && IndexOf(o) in {1, 2, 3, 4, -1} && |o.byMonth| <= 1
    && forall d :: d in o.byDay ==> d.day < 7
  }

  /** The day of a month that is the nth of the rule's weekdays. */
  ghost predicate NthNamed(o: Options, x: int)
    requires o.byDay != []
  {
    AtPosition(NamedBy(Names(o.byDay)), MonthStart(MonthOf(x)), MonthStart(MonthOf(x) + 1), x, IndexOf(o))
  }

  lemma {:induction false} NamedDayIs(o: Options, start: LocalDate, x: int)
    requires Accepted(o, start) && Monthly(o) && OneIndex(o)
    ensures Indexed(o) && (OnNamedDay(ReadAs(o, start), x) <==> NthNamed(o, x))
  {
    IndexIs(o, start);
  }

  /** In a month the rule names, or does not rule out, its day is the pattern's. */
  lemma {:induction false} MonthlyIndex(o: Options, start: LocalDate, x: int)
    requires Indexed(o) && o.freq == MONTHLY && PassesMonth(o, start, x)
    ensures PassesDay(o, start, x) && Chosen(o, start, x) <==> NthNamed(o, x)
  {
    var named, lo, hi := NamedBy(Names(o.byDay)), MonthStart(MonthOf(x)), MonthStart(MonthOf(x) + 1);
    if o.bySetPos != [] {
      assert o.bySetPos == [IndexOf(o)];
      forall y | lo <= y < hi ensures Passing(o, start)(y) == named(y) {
        InSpanSameMonth(x, y);
        PlainDays(o, start, y);
      }
      SamePosition(Passing(o, start), named, lo, hi, x, IndexOf(o));
      PlainDays(o, start, x);
    } else {
      NumberedDay(o, start, x);
    }
  }

  lemma {:induction false} RelativeDay(o: Options, start: LocalDate, x: int)
    requires Accepted(o, start) && o.freq == MONTHLY && OneIndex(o)
    ensures RuleDay(o, start, x) <==> PatternDay(ReadAs(o, start), start.day, x) && PassesMonth(o, start, x)
  {
    var turn := (MonthOf(x) - MonthOf(start.day)) % AtLeastOne(o.interval) == 0;
    NamedDayIs(o, start, x);
    IndexIs(o, start);
    RelativePattern(ReadAs(o, start), start.day, x, turn);
    RuleIndex(o, start, x, turn);
  }

  lemma {:induction false} RuleIndex(o: Options, start: LocalDate, x: int, turn: bool)
    requires Indexed(o) && o.freq == MONTHLY
    requires turn <==> (MonthOf(x) - MonthOf(start.day)) % AtLeastOne(o.interval) == 0
    ensures RuleDay(o, start, x) <==> x >= start.day && turn && PassesMonth(o, start, x) && NthNamed(o, x)
  {
    if PassesMonth(o, start, x) {
      MonthlyIndex(o, start, x);
    }
    RuleDayIs(o, start, x, turn, PassesMonth(o, start, x) && NthNamed(o, x));
  }

  lemma {:induction false} RelativePattern(p: Pattern, start: int, x: int, turn: bool)
    requires p.kind.RelativeMonthly? && p.interval >= 1
    requires turn <==> (MonthOf(x) - MonthOf(start)) % p.interval == 0
    ensures PatternDay(p, start, x) <==> x >= start && turn && OnNamedDay(p, x)
  {
  }

  lemma {:induction false} PositionExists(pass: int -> bool, lo: int, hi: int, n: int) returns (x: int)
    requires 1 <= n <= HowMany(pass, lo, hi)
    ensures AtPosition(pass, lo, hi, x, n)
    decreases hi - lo
  {
    if pass(hi - 1) && HowMany(pass, lo, hi) == n {
      x := hi - 1;
    } else {
      x := PositionExists(pass, lo, hi - 1, n);
    }
  }

  lemma {:induction false} LastExists(pass: int -> bool, lo: int, hi: int, end: int) returns (x: int)
    requires 1 <= HowMany(pass, lo, hi) && hi <= end && forall y :: hi <= y < end ==> !pass(y)
    ensures AtPosition(pass, lo, end, x, -1)
    decreases hi - lo
  {
    if pass(hi - 1) {
      x := hi - 1;
      CountNone(pass, hi, end);
    } else {
      x := LastExists(pass, lo, hi - 1, end);
    }
  }

  /** Four weeks have each weekday four times. */
  lemma {:induction false} FourOfThem(pass: int -> bool, w: nat, lo: int, hi: int)
    requires w < 7 && lo + 28 <= hi && forall y: int :: Weekday(y) == w ==> pass(y)
    ensures HowMany(pass, lo, hi) >= 4
  {
    var only := y => Weekday(y) == w;
    var last := lo + (w + 7 - Weekday(lo)) % 7 + 21;
    assert Weekday(last) == w;
    CountWeekday(only, w, lo, last);
    CountSome(only, last, last, hi);
    CountSplits(only, lo, last, hi);
    CountFewer(only, pass, lo, hi);
  }

  lemma {:induction false} SomeNamedDay(o: Options, i: int) returns (x: int)
    requires Indexed(o)
    ensures MonthOf(x) == i && NthNamed(o, x)
  {
    var named, w, n := NamedBy(Names(o.byDay)), o.byDay[0].day, IndexOf(o);
    forall y: int | Weekday(y) == w ensures named(y) {
      NamesDenote(o.byDay, Weekday(y));
      assert o.byDay[0] in o.byDay;
    }
    MonthsLast(i);
    FourOfThem(named, w, MonthStart(i), MonthStart(i + 1));
    if n > 0 {
      x := PositionExists(named, MonthStart(i), MonthStart(i + 1), n);
    } else {
      x := LastExists(named, MonthStart(i), MonthStart(i + 1), MonthStart(i + 1));
    }
    MonthIs(x, i);
  }

  ghost predicate PatternInMonth(o: Options, start: LocalDate)
    requires PatternOf(o, start).Some?
  {
    forall x: int :: PatternDay(ReadAs(o, start), start.day, x) ==> PassesMonth(o, start, x)
  }

  lemma {:induction false} KeptInMonthIff(o: Options, start: LocalDate)
    requires Accepted(o, start) && o.freq == MONTHLY && OneIndex(o)
    ensures Kept(o, start) <==> PatternInMonth(o, start)
  {
    if PatternInMonth(o, start) {
      forall x: int ensures Same(o, start, x) {
        RelativeDay(o, start, x);
      }
    } else {
      var x: int :| PatternDay(ReadAs(o, start), start.day, x) && !PassesMonth(o, start, x);
      RelativeDay(o, start, x);
      assert !Same(o, start, x);
    }
  }

  /** A relative monthly rule that Outlook has words for keeps its days exactly when it
      names no month, or comes to no other. */
  lemma {:induction false} RelativeMonthlyKeptIff(o: Options, start: LocalDate)
    requires Synchronised(o, start) && o.freq == MONTHLY && OneIndex(o)
    ensures Kept(o, start) <==> o.byMonth == [] || AtLeastOne(o.interval) % 12 == 0
  {
    KeptInMonthIff(o, start);
    if o.byMonth != [] {
      if AtLeastOne(o.interval) % 12 == 0 {
        forall x: int | PatternDay(ReadAs(o, start), start.day, x) ensures PassesMonth(o, start, x) {
          StaysInMonth(o, start, x);
        }
      } else {
        var x := MonthAfter(o, start);
      }
    }
  }

  lemma {:induction false} StaysInMonth(o: Options, start: LocalDate, x: int)
    requires Synchronised(o, start) && o.freq == MONTHLY && OneIndex(o) && AtLeastOne(o.interval) % 12 == 0
    requires PatternDay(ReadAs(o, start), start.day, x)
    ensures PassesMonth(o, start, x)
  {
    IndexIs(o, start);
    WholeYears(MonthOf(start.day), MonthOf(x), AtLeastOne(o.interval));
  }

  lemma {:induction false} WholeYears(a: int, b: int, n: int)
    requires n >= 1 && n % 12 == 0 && (b - a) % n == 0
    ensures b % 12 == a % 12
  {
    var q, m := (b - a) / n, n / 12;
    assert b - a == n * q && n == 12 * m;
    assert n * q == 12 * (m * q) by { Twelve(m, 0, q); }
    ModShift(a, 12, m * q);
  }

  lemma {:induction false} OtherMonth(a: int, n: int)
    requires n % 12 != 0
    ensures (a + n) % 12 != a % 12
  {
    Twelfths(a, n);
    SmallTwelfths(a % 12, n % 12);
  }

  lemma {:induction false} OnNextTurn(o: Options, start: LocalDate, x: int)
    requires Accepted(o, start) && o.freq == MONTHLY && OneIndex(o)
    requires MonthOf(x) == MonthOf(start.day) + AtLeastOne(o.interval) && OnNamedDay(ReadAs(o, start), x)
    ensures PatternDay(ReadAs(o, start), start.day, x)
  {
    IndexIs(o, start);
    LaterMonth(start.day, x);
    MultipleOf(1, AtLeastOne(o.interval));
  }

  /** The pattern's day one interval on is in another month. */
  lemma {:induction false} MonthAfter(o: Options, start: LocalDate) returns (x: int)
    requires Synchronised(o, start) && o.freq == MONTHLY && OneIndex(o) && o.byMonth != [] && AtLeastOne(o.interval) % 12 != 0
    ensures PatternDay(ReadAs(o, start), start.day, x) && !PassesMonth(o, start, x)
  {
    NamedDayIs(o, start, start.day);
    x := SomeNamedDay(o, MonthOf(start.day) + AtLeastOne(o.interval));
    NamedDayIs(o, start, x);
    assert !PassesMonth(o, start, x) by {
      assert o.byMonth == [Month(start.day)];
      OtherMonth(MonthOf(start.day), AtLeastOne(o.interval));
    }
    OnNextTurn(o, start, x);
  }

  lemma {:induction false} OnItsNamedDay(o: Options, start: LocalDate, x: int)
    requires PatternOf(o, start).Some? && Monthly(o) && o.byDay != [] && PatternDay(ReadAs(o, start), start.day, x)
    ensures OnNamedDay(ReadAs(o, start), x)
  {
  }

  lemma {:induction false} OneNamedDay(p: Pattern, x: int, y: int)
    requires OnNamedDay(p, x) && OnNamedDay(p, y) && MonthOf(x) == MonthOf(y)
    ensures x == y
  {
    OnePosition(NamedBy(p.days), MonthStart(MonthOf(x)), MonthStart(MonthOf(x) + 1), x, y, IndexCode(p.index).value);
  }

  /** A relative pattern has one day a month: a rule of weekdays that has two in some
      month, as with several numbered ones, is never what it says. */
  lemma {:induction false} TwoDaysAMonthAreLost(o: Options, start: LocalDate, x: int, y: int)
    requires PatternOf(o, start).Some? && Monthly(o) && o.byDay != []
    requires RuleDay(o, start, x) && RuleDay(o, start, y) && MonthOf(x) == MonthOf(y) && x != y
    ensures !Kept(o, start)
  {
    if Same(o, start, x) && Same(o, start, y) {
      OnItsNamedDay(o, start, x);
      OnItsNamedDay(o, start, y);
      OneNamedDay(ReadAs(o, start), x, y);
    }
  }

  lemma {:induction false} OneWeekdayNamed(o: Options, y: int)
    requires |o.byDay| == 1 && o.byDay[0].day < 7
    ensures NamedBy(Names(o.byDay))(y) <==> Weekday(y) == o.byDay[0].day
  {
    NamesDenote(o.byDay, Weekday(y));
    assert o.byDay[0] in o.byDay;
  }

  /** A day of the month beside a weekday is dropped. Friday the 13th is read as the
      first Friday, or the second if it is numbered so: never kept when the day cannot
      be that Friday. */
  lemma {:induction false} WeekdayOnADateIsLost(o: Options, start: LocalDate)
    requires Synchronised(o, start) && o.freq == MONTHLY && OneIndex(o.(byMonthDay := [])) && |o.byDay| == 1
    requires o.byMonthDay != [] && o.byMonthDay[0] >= 1 && IndexOf(o) >= 1 && (o.byMonthDay[0] - 1) / 7 + 1 != IndexOf(o)
    ensures !Kept(o, start)
  {
    var bare, day := o.(byMonthDay := []), start.day;
    assert ReadAs(o, start) == ReadAs(bare, start);
    IndexIs(bare, start);
    if Same(o, start, day) {
      assert OnNamedDay(ReadAs(o, start), day);
      forall y: int ensures NamedBy(Names(o.byDay))(y) <==> Weekday(y) == o.byDay[0].day {
        OneWeekdayNamed(o, y);
      }
      NthIsPosition(NamedBy(Names(o.byDay)), o.byDay[0].day, MonthStart(MonthOf(day)), MonthStart(MonthOf(day) + 1), day, IndexOf(o));
      OnItsMonthDay(o, start, day);
    }
  }
}
