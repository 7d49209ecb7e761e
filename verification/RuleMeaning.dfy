/** Which days a rule and a Graph pattern denote. A rule is read by section 3.3.10 of
    RFC 5545: of the days of each period that pass its filters, the ones its
    positions choose. What that section leaves out or forbids is read as a limit: a
    number on a weekday counts only in monthly and yearly rules, and BYMONTHDAY
    limits a weekly one. A pattern's day of the month is left out of a month that
    has no such day. */
module RuleMeaning {
  import opened Basics
  import opened Text
  import opened Recurrence
  import opened CivilCalendar

  /** The date of the first occurrence. */
  ghost predicate Civil(start: LocalDate) {
    start.month == Month(start.day) && start.dayOfMonth == DayOfMonth(start.day)
  }

  function AtLeastOne(interval: int): int {
    if interval < 1 then 1 else interval
  }

  // ---------- counting and positions ----------

  ghost function HowMany(pass: int -> bool, lo: int, hi: int): nat
    decreases hi - lo
  {
    if lo >= hi then 0 else HowMany(pass, lo, hi - 1) + if pass(hi - 1) then 1 else 0
  }

  /** A day that is the nth to pass from lo up, or from hi down when n is negative. */
  ghost predicate AtPosition(pass: int -> bool, lo: int, hi: int, day: int, n: int) {
    lo <= day < hi && pass(day) && if n > 0 then HowMany(pass, lo, day) + 1 == n else HowMany(pass, day + 1, hi) + 1 == -n
  }

  // ---------- rules ----------

  predicate InWeekNumber(week: int, day: int, first: nat) {
    7 * week <= day + 3 - first < 7 * week + 7
  }

  /** The number of the week a day is in, weeks beginning on first. */
  ghost function WeekOf(day: int, first: nat): (week: int)
    ensures InWeekNumber(week, day, first)
  {
    assert InWeekNumber((day + 3 - first) / 7, day, first);
    var week :| InWeekNumber(week, day, first);
    week
  }

  /** The period of the rule a day is in: its day, week, month or year. */
  ghost function PeriodOf(o: Options, day: int): int {
    match o.freq
    case DAILY => day
    case WEEKLY => WeekOf(day, o.wkst)
    case MONTHLY => MonthOf(day)
    case _ => YearOf(day)
  }

  /** Where the period of a day begins, and the next. */
  ghost function From(o: Options, day: int): int {
    match o.freq
    case DAILY => day
    case WEEKLY => 7 * WeekOf(day, o.wkst) - 3 + o.wkst
    case MONTHLY => MonthStart(MonthOf(day))
    case _ => MonthStart(12 * YearOf(day))
  }

  ghost function UpTo(o: Options, day: int): int {
    match o.freq
    case DAILY => day + 1
    case WEEKLY => 7 * (WeekOf(day, o.wkst) + 1) - 3 + o.wkst
    case MONTHLY => MonthStart(MonthOf(day) + 1)
    case _ => MonthStart(12 * YearOf(day) + 12)
  }

  predicate Monthly(o: Options) {
    o.freq == MONTHLY || o.freq == YEARLY
  }

  /** What a weekday's number counts in: the month, or the year if the rule is yearly
      and names no month. */
  ghost function NumberedFrom(o: Options, day: int): int {
    if o.freq == MONTHLY || o.byMonth != [] then MonthStart(MonthOf(day)) else MonthStart(12 * YearOf(day))
  }

  ghost function NumberedTo(o: Options, day: int): int {
    if o.freq == MONTHLY || o.byMonth != [] then MonthStart(MonthOf(day) + 1) else MonthStart(12 * YearOf(day) + 12)
  }

  predicate NthWeekday(day: int, lo: int, hi: int, n: int) {
    if n > 0 then (day - lo) / 7 + 1 == n else (hi - 1 - day) / 7 + 1 == -n
  }

  ghost predicate IsNamed(o: Options, d: WeekdayNum, day: int) {
    d.day == Weekday(day) &&
    (d.n != 0 && Monthly(o) ==> NthWeekday(day, NumberedFrom(o, day), NumberedTo(o, day), d.n))
  }

  ghost predicate PassesMonth(o: Options, start: LocalDate, day: int) {
    if o.byMonth != [] then Month(day) in o.byMonth
    else o.freq == YEARLY && o.byMonthDay == [] && o.byDay == [] ==> Month(day) == start.month
  }

  ghost predicate PassesMonthDay(o: Options, start: LocalDate, day: int) {
    if o.byMonthDay != [] then exists n :: n in o.byMonthDay && IsMonthDay(day, n)
    else Monthly(o) && o.byDay == [] ==> DayOfMonth(day) == start.dayOfMonth
  }

  ghost predicate PassesDay(o: Options, start: LocalDate, day: int) {
    if o.byDay != [] then exists d :: d in o.byDay && IsNamed(o, d, day)
    else o.freq == WEEKLY ==> Weekday(day) == Weekday(start.day)
  }

  /** What a part leaves out is taken from the first occurrence. */
  ghost predicate Passes(o: Options, start: LocalDate, day: int) {
    PassesMonth(o, start, day) && PassesMonthDay(o, start, day) && PassesDay(o, start, day)
  }

  ghost function Passing(o: Options, start: LocalDate): int -> bool {
    day => Passes(o, start, day)
  }

  ghost predicate ChosenIn(positions: seq<int>, pass: int -> bool, lo: int, hi: int, day: int) {
    positions == [] || exists n :: n in positions && AtPosition(pass, lo, hi, day, n)
  }

  ghost predicate Chosen(o: Options, start: LocalDate, day: int) {
    ChosenIn(o.bySetPos, Passing(o, start), From(o, day), UpTo(o, day), day)
  }

  /** The days of a rule, whatever its COUNT and UNTIL. */
  ghost predicate RuleDay(o: Options, start: LocalDate, day: int) {
    && day >= start.day && (PeriodOf(o, day) - PeriodOf(o, start.day)) % AtLeastOne(o.interval) == 0
    && Passes(o, start, day) && Chosen(o, start, day)
  }

  // ---------- patterns ----------

  ghost predicate HasName(days: seq<string>, day: nat) {
    exists d :: d in days && DayCode(Lower(d)) == Some(day)
  }

  /** Day 0 was a Thursday. */
  const FROM_DAY_0: seq<string> := ["thursday", "friday", "saturday", "sunday", "monday", "tuesday", "wednesday"]

  /** A name stands for the days it is the name of, case apart. */
  lemma {:induction false} DaysByName(days: seq<string>, day: int)
    ensures HasName(days, Weekday(day)) <==> exists d :: d in days && Lower(d) == FROM_DAY_0[day % 7]
  {
    var k := Weekday(day);
    assert DayName(k) == FROM_DAY_0[day % 7];
    DayNamesReadBack(k);
  }

  /** And a word for the position it says. */
  lemma {:induction false} PositionsByName(index: string, n: int)
    ensures IndexCode(index) == Some(n) <==>
            (index, n) in [("first", 1), ("second", 2), ("third", 3), ("fourth", 4), ("last", -1)]
  {
    IndexNamesReadBack(n);
  }

  function FirstDay(p: Pattern): nat {
    var first := DayCode(Lower(p.firstDay));
    if first.Some? then first.value else 0
  }

  ghost function NamedBy(days: seq<string>): int -> bool {
    day => HasName(days, Weekday(day))
  }

  ghost predicate OnNamedDay(p: Pattern, day: int) {
    IndexCode(p.index).Some? &&
    AtPosition(NamedBy(p.days), MonthStart(MonthOf(day)), MonthStart(MonthOf(day) + 1), day, IndexCode(p.index).value)
  }

  ghost predicate PatternDay(p: Pattern, start: int, day: int)
    requires p.interval >= 1
  {
    day >= start &&
    match p.kind
    case Daily => (day - start) % p.interval == 0
    case Weekly =>
      HasName(p.days, Weekday(day)) && (WeekOf(day, FirstDay(p)) - WeekOf(start, FirstDay(p))) % p.interval == 0
    case AbsoluteMonthly => (MonthOf(day) - MonthOf(start)) % p.interval == 0 && DayOfMonth(day) == p.dayOfMonth
    case RelativeMonthly => (MonthOf(day) - MonthOf(start)) % p.interval == 0 && OnNamedDay(p, day)
    case AbsoluteYearly =>
      (YearOf(day) - YearOf(start)) % p.interval == 0 && Month(day) == p.month && DayOfMonth(day) == p.dayOfMonth
    case RelativeYearly => (YearOf(day) - YearOf(start)) % p.interval == 0 && Month(day) == p.month && OnNamedDay(p, day)
    case OtherPattern(_) => false
  }

  // ---------- a rule the translation accepts ----------

  ghost predicate Accepted(o: Options, start: LocalDate) {
    && !o.unsayable && |o.byMonthDay| <= 1 && |o.byMonth| <= 1 && |o.bySetPos| <= 1 && PatternOf(o, start).Some?
    && Civil(start) && o.wkst < 7 && forall d :: d in o.byDay ==> d.day < 7
  }

  function ReadAs(o: Options, start: LocalDate): (p: Pattern)
    requires PatternOf(o, start).Some?
    ensures p.interval == AtLeastOne(o.interval)
  {
    PatternOf(o, start).value
  }

  ghost predicate Same(o: Options, start: LocalDate, day: int)
    requires PatternOf(o, start).Some?
  {
    RuleDay(o, start, day) <==> PatternDay(ReadAs(o, start), start.day, day)
  }

  /** The pattern has the very days of the rule. */
  ghost predicate Kept(o: Options, start: LocalDate)
    requires PatternOf(o, start).Some?
  {
    forall day: int :: Same(o, start, day)
  }

  // ---------- what is left of counting ----------

  lemma {:induction false} CountSplits(pass: int -> bool, lo: int, mid: int, hi: int)
    requires lo <= mid <= hi
    ensures HowMany(pass, lo, hi) == HowMany(pass, lo, mid) + HowMany(pass, mid, hi)
    decreases hi - mid
  {
    if mid < hi {
      CountSplits(pass, lo, mid, hi - 1);
    }
  }

  lemma {:induction false} CountNone(pass: int -> bool, lo: int, hi: int)
    requires forall x :: lo <= x < hi ==> !pass(x)
    ensures HowMany(pass, lo, hi) == 0
    decreases hi - lo
  {
    if lo < hi {
      CountNone(pass, lo, hi - 1);
    }
  }

  lemma {:induction false} CountSome(pass: int -> bool, lo: int, x: int, hi: int)
    requires lo <= x < hi && pass(x)
    ensures HowMany(pass, lo, hi) >= 1
  {
    CountSplits(pass, lo, x + 1, hi);
  }

  lemma {:induction false} CountFewer(f: int -> bool, g: int -> bool, lo: int, hi: int)
    requires forall x :: lo <= x < hi && f(x) ==> g(x)
    ensures HowMany(f, lo, hi) <= HowMany(g, lo, hi)
    decreases hi - lo
  {
    if lo < hi {
      CountFewer(f, g, lo, hi - 1);
    }
  }

  lemma {:induction false} CountMoved(f: int -> bool, g: int -> bool, lo: int, hi: int, shift: int)
    requires forall x :: lo <= x < hi ==> f(x) == g(x + shift)
    ensures HowMany(f, lo, hi) == HowMany(g, lo + shift, hi + shift)
    decreases hi - lo
  {
    if lo < hi {
      CountMoved(f, g, lo, hi - 1, shift);
    }
  }

  lemma {:induction false} PositionMoved(f: int -> bool, g: int -> bool, lo: int, hi: int, shift: int, day: int, n: int)
    requires forall x :: lo <= x < hi ==> f(x) == g(x + shift)
    ensures AtPosition(f, lo, hi, day, n) <==> AtPosition(g, lo + shift, hi + shift, day + shift, n)
  {
    if lo <= day < hi {
      CountMoved(f, g, lo, day, shift);
      CountMoved(f, g, day + 1, hi, shift);
    }
  }

  /** One position is one day. */
  lemma {:induction false} OnePosition(pass: int -> bool, lo: int, hi: int, x: int, y: int, n: int)
    requires AtPosition(pass, lo, hi, x, n) && AtPosition(pass, lo, hi, y, n)
    ensures x == y
  {
    var a, b := if x < y then x else y, if x < y then y else x;
    if a < b {
      CountSplits(pass, lo, a, b);
      CountSome(pass, a, a, b);
      CountSplits(pass, a + 1, b + 1, hi);
      CountSome(pass, a + 1, b, b + 1);
    }
  }

  /** A day alone in its period is the first and the last. */
  lemma {:induction false} AlonePosition(pass: int -> bool, lo: int, hi: int, day: int, n: int)
    requires lo <= day < hi && pass(day) && forall x :: lo <= x < hi && pass(x) ==> x == day
    ensures AtPosition(pass, lo, hi, day, n) <==> n == 1 || n == -1
  {
    CountNone(pass, lo, day);
    CountNone(pass, day + 1, hi);
  }

  /** Where days pass or not alike, their positions are alike. */
  lemma {:induction false} SamePosition(f: int -> bool, g: int -> bool, lo: int, hi: int, day: int, n: int)
    requires forall x :: lo <= x < hi ==> f(x) == g(x)
    ensures AtPosition(f, lo, hi, day, n) <==> AtPosition(g, lo, hi, day, n)
  {
    PositionMoved(f, g, lo, hi, 0, day, n);
  }

  // ---------- the periods ----------

  /** A rule's days by whether its turn has come and whether they are chosen. */
  lemma {:induction false} RuleDayIs(o: Options, start: LocalDate, day: int, turn: bool, chosen: bool)
    requires turn <==> (PeriodOf(o, day) - PeriodOf(o, start.day)) % AtLeastOne(o.interval) == 0
    requires chosen <==> Passes(o, start, day) && Chosen(o, start, day)
    ensures RuleDay(o, start, day) <==> day >= start.day && turn && chosen
  {
  }

  lemma {:induction false} InItsPeriod(o: Options, day: int)
    ensures From(o, day) <= day < UpTo(o, day)
  {
    if o.freq == YEARLY || o.freq == FINER {
      var i := MonthOf(day);
      MonthsGrow(12 * (i / 12), i);
      MonthsGrow(i + 1, 12 * (i / 12) + 12);
    }
  }

  lemma {:induction false} ModShift(a: int, n: int, c: int)
    requires n >= 1
    ensures (a + n * c) % n == a % n
  {
    DivMod(a + n * c, n, a / n + c, a % n);
  }

  lemma {:induction false} DivMod(x: int, n: int, q: int, r: int)
    requires n >= 1 && 0 <= r < n && x == q * n + r
    ensures x % n == r && x / n == q
  {
    var e := q - x / n;
    assert e * n == x % n - r;
    NoMultipleWithin(e, n);
  }

  lemma {:induction false} NoMultipleWithin(e: int, n: int)
    requires n >= 1
    ensures -n < e * n < n ==> e == 0
  {
  }

  // ---------- four hundred years times the interval ----------

  lemma {:induction false} WholeWeeksOn(day: int, first: nat, weeks: int)
    ensures Weekday(day + 7 * weeks) == Weekday(day)
    ensures WeekOf(day + 7 * weeks, first) == WeekOf(day, first) + weeks
  {
  }

  lemma {:induction false} WeekOn(day: int, first: nat, k: int)
    ensures Weekday(day + ERA * k) == Weekday(day)
    ensures WeekOf(day + ERA * k, first) == WeekOf(day, first) + 20871 * k
  {
    assert ERA * k == 7 * (20871 * k);
    WholeWeeksOn(day, first, 20871 * k);
  }

  lemma {:induction false} MonthSpanOn(day: int, k: int)
    ensures MonthStart(MonthOf(day + ERA * k)) == MonthStart(MonthOf(day)) + ERA * k
    ensures MonthStart(MonthOf(day + ERA * k) + 1) == MonthStart(MonthOf(day) + 1) + ERA * k
  {
    MonthOfOn(day, k);
    MonthsOn(MonthOf(day), k);
    MonthsOn(MonthOf(day) + 1, k);
    assert MonthOf(day) + 4800 * k + 1 == MonthOf(day) + 1 + 4800 * k;
  }

  lemma {:induction false} YearSpanOn(day: int, k: int)
    ensures MonthStart(12 * YearOf(day + ERA * k)) == MonthStart(12 * YearOf(day)) + ERA * k
    ensures MonthStart(12 * YearOf(day + ERA * k) + 12) == MonthStart(12 * YearOf(day) + 12) + ERA * k
  {
    var y := YearOf(day);
    DaysOn(day, k);
    MonthsOn(12 * y, k);
    MonthsOn(12 * y + 12, k);
    assert 12 * (y + 400 * k) == 12 * y + 4800 * k;
    assert 12 * (y + 400 * k) + 12 == 12 * y + 12 + 4800 * k;
  }

  lemma {:induction false} NumberedOn(o: Options, day: int, k: int)
    ensures NumberedFrom(o, day + ERA * k) == NumberedFrom(o, day) + ERA * k
    ensures NumberedTo(o, day + ERA * k) == NumberedTo(o, day) + ERA * k
  {
    if o.freq == MONTHLY || o.byMonth != [] {
      MonthSpanOn(day, k);
    } else {
      YearSpanOn(day, k);
    }
  }

  lemma {:induction false} NamedOn(o: Options, d: WeekdayNum, day: int, k: int)
    ensures IsNamed(o, d, day + ERA * k) <==> IsNamed(o, d, day)
  {
    WeekOn(day, 0, k);
    NumberedOn(o, day, k);
  }

  lemma {:induction false} PassesOn(o: Options, start: LocalDate, day: int, k: int)
    ensures Passes(o, start, day + ERA * k) <==> Passes(o, start, day)
  {
    DaysOn(day, k);
    WeekOn(day, 0, k);
    forall n ensures IsMonthDay(day + ERA * k, n) <==> IsMonthDay(day, n) {
      MonthDayOn(day, k, n);
    }
    forall d ensures IsNamed(o, d, day + ERA * k) <==> IsNamed(o, d, day) {
      NamedOn(o, d, day, k);
    }
  }

  /** The periods in an era. */
  function Periods(o: Options): int {
    match o.freq
    case DAILY => ERA
    case WEEKLY => 20871
    case MONTHLY => 4800
    case _ => 400
  }

  lemma {:induction false} PeriodOn(o: Options, day: int, k: int)
    ensures PeriodOf(o, day + ERA * k) == PeriodOf(o, day) + Periods(o) * k
  {
    if o.freq == WEEKLY {
      WeekOn(day, o.wkst, k);
    } else if o.freq == MONTHLY {
      MonthOfOn(day, k);
    } else if o.freq != DAILY {
      DaysOn(day, k);
    }
  }

  lemma {:induction false} WeekSpanOn(week: int, k: int)
    ensures 7 * (week + 20871 * k) == 7 * week + ERA * k
  {
  }

  lemma {:induction false} SpanOn(o: Options, day: int, k: int)
    ensures From(o, day + ERA * k) == From(o, day) + ERA * k && UpTo(o, day + ERA * k) == UpTo(o, day) + ERA * k
  {
    match o.freq
    case DAILY =>
    case WEEKLY =>
      WeekOn(day, o.wkst, k);
      WeekSpanOn(WeekOf(day, o.wkst), k);
      WeekSpanOn(WeekOf(day, o.wkst) + 1, k);
    case MONTHLY => MonthSpanOn(day, k);
    case _ => YearSpanOn(day, k);
  }

  ghost predicate AlikeAt(pass: int -> bool, x: int, shift: int) {
    pass(x) == pass(x + shift)
  }

  /** Days pass alike that far apart. */
  ghost predicate Repeats(pass: int -> bool, shift: int) {
    forall x: int :: AlikeAt(pass, x, shift)
  }

  lemma {:induction false} PassingOn(o: Options, start: LocalDate, k: int)
    ensures Repeats(Passing(o, start), ERA * k)
  {
    forall x: int ensures AlikeAt(Passing(o, start), x, ERA * k) {
      PassesOn(o, start, x, k);
    }
  }

  /** Positions only look at which days pass. */
  lemma {:induction false} PositionOn(pass: int -> bool, lo: int, hi: int, shift: int, day: int, n: int)
    requires Repeats(pass, shift)
    ensures AtPosition(pass, lo, hi, day, n) <==> AtPosition(pass, lo + shift, hi + shift, day + shift, n)
  {
    forall x | lo <= x < hi ensures pass(x) == pass(x + shift) {
      assert AlikeAt(pass, x, shift);
    }
    PositionMoved(pass, pass, lo, hi, shift, day, n);
  }

  lemma {:induction false} ChosenMoved(positions: seq<int>, pass: int -> bool, lo: int, hi: int, shift: int, day: int)
    requires Repeats(pass, shift)
    ensures ChosenIn(positions, pass, lo, hi, day) <==> ChosenIn(positions, pass, lo + shift, hi + shift, day + shift)
  {
    forall n ensures AtPosition(pass, lo, hi, day, n) <==> AtPosition(pass, lo + shift, hi + shift, day + shift, n) {
      PositionOn(pass, lo, hi, shift, day, n);
    }
  }

  lemma {:induction false} ChosenIs(o: Options, start: LocalDate, day: int, lo: int, hi: int)
    requires lo == From(o, day) && hi == UpTo(o, day)
    ensures Chosen(o, start, day) <==> ChosenIn(o.bySetPos, Passing(o, start), lo, hi, day)
  {
  }

  lemma {:induction false} ChosenOn(o: Options, start: LocalDate, day: int, k: int)
    ensures Chosen(o, start, day + ERA * k) <==> Chosen(o, start, day)
  {
    var lo, hi := From(o, day), UpTo(o, day);
    SpanOn(o, day, k);
    PassingOn(o, start, k);
    ChosenIs(o, start, day, lo, hi);
    ChosenIs(o, start, day + ERA * k, lo + ERA * k, hi + ERA * k);
    ChosenMoved(o.bySetPos, Passing(o, start), lo, hi, ERA * k, day);
  }

  lemma {:induction false} TurnOn(o: Options, start: LocalDate, day: int)
    ensures var n := AtLeastOne(o.interval);
            (PeriodOf(o, day + ERA * n) - PeriodOf(o, start.day)) % n == (PeriodOf(o, day) - PeriodOf(o, start.day)) % n
  {
    var n := AtLeastOne(o.interval);
    PeriodOn(o, day, n);
    ModShift(PeriodOf(o, day) - PeriodOf(o, start.day), n, Periods(o));
  }

  lemma {:induction false} PassesAndChosenOn(o: Options, start: LocalDate, day: int, k: int)
    ensures Passes(o, start, day + ERA * k) && Chosen(o, start, day + ERA * k) <==> Passes(o, start, day) && Chosen(o, start, day)
  {
    PassesOn(o, start, day, k);
    ChosenOn(o, start, day, k);
  }

  lemma {:induction false} RuleDayOn(o: Options, start: LocalDate, day: int)
    requires day >= start.day
    ensures RuleDay(o, start, day + ERA * AtLeastOne(o.interval)) <==> RuleDay(o, start, day)
  {
    var n := AtLeastOne(o.interval);
    var turn := (PeriodOf(o, day) - PeriodOf(o, start.day)) % n == 0;
    var chosen := Passes(o, start, day) && Chosen(o, start, day);
    TurnOn(o, start, day);
    PassesAndChosenOn(o, start, day, n);
    RuleDayIs(o, start, day, turn, chosen);
    RuleDayIs(o, start, day + ERA * n, turn, chosen);
  }

  lemma {:induction false} NamedByOn(days: seq<string>, k: int)
    ensures Repeats(NamedBy(days), ERA * k)
  {
    forall x: int ensures AlikeAt(NamedBy(days), x, ERA * k) {
      WeekOn(x, 0, k);
      NamedAlike(days, x, x + ERA * k);
    }
  }

  lemma {:induction false} NamedAlike(days: seq<string>, x: int, y: int)
    requires Weekday(x) == Weekday(y)
    ensures NamedBy(days)(x) == NamedBy(days)(y)
  {
  }

  lemma {:induction false} NamedDayIn(p: Pattern, day: int, lo: int, hi: int)
    requires lo == MonthStart(MonthOf(day)) && hi == MonthStart(MonthOf(day) + 1)
    ensures OnNamedDay(p, day) <==>
              IndexCode(p.index).Some? && AtPosition(NamedBy(p.days), lo, hi, day, IndexCode(p.index).value)
  {
  }

  lemma {:induction false} NamedDayOn(p: Pattern, day: int, k: int)
    ensures OnNamedDay(p, day + ERA * k) <==> OnNamedDay(p, day)
  {
    var lo, hi := MonthStart(MonthOf(day)), MonthStart(MonthOf(day) + 1);
    MonthSpanOn(day, k);
    NamedDayIn(p, day, lo, hi);
    NamedDayIn(p, day + ERA * k, lo + ERA * k, hi + ERA * k);
    if IndexCode(p.index).Some? {
      NamedByOn(p.days, k);
      PositionOn(NamedBy(p.days), lo, hi, ERA * k, day, IndexCode(p.index).value);
    }
  }

  lemma {:induction false} MonthTurnOn(start: int, day: int, n: int)
    requires n >= 1
    ensures (MonthOf(day + ERA * n) - MonthOf(start)) % n == (MonthOf(day) - MonthOf(start)) % n
    ensures (YearOf(day + ERA * n) - YearOf(start)) % n == (YearOf(day) - YearOf(start)) % n
  {
    MonthOfOn(day, n);
    DaysOn(day, n);
    ModShift(MonthOf(day) - MonthOf(start), n, 4800);
    ModShift(YearOf(day) - YearOf(start), n, 400);
  }

  lemma {:induction false} WeekTurnOn(start: int, day: int, first: nat, n: int)
    requires n >= 1
    ensures (WeekOf(day + ERA * n, first) - WeekOf(start, first)) % n == (WeekOf(day, first) - WeekOf(start, first)) % n
  {
    WeekOn(day, first, n);
    ModShift(WeekOf(day, first) - WeekOf(start, first), n, 20871);
  }

  lemma {:induction false} PatternDayOn(p: Pattern, start: int, day: int)
    requires p.interval >= 1 && day >= start
    ensures PatternDay(p, start, day + ERA * p.interval) <==> PatternDay(p, start, day)
  {
    var n := p.interval;
    match p.kind
    case Daily => ModShift(day - start, n, ERA);
    case Weekly =>
      WeekOn(day, FirstDay(p), n);
      WeekTurnOn(start, day, FirstDay(p), n);
    case OtherPattern(_) =>
    case _ =>
      DaysOn(day, n);
      NamedDayOn(p, day, n);
      MonthTurnOn(start, day, n);
  }

  /** Two sets of days that repeat alike are the same if they are for one turn. */
  lemma {:induction false} OneTurn(f: int -> bool, g: int -> bool, start: int, cycle: int, day: int)
    requires cycle >= 1 && forall x :: start <= x < start + cycle ==> f(x) == g(x)
    requires forall x :: x >= start ==> f(x + cycle) == f(x) && g(x + cycle) == g(x)
    requires day >= start
    ensures f(day) == g(day)
    decreases day - start
  {
    if day >= start + cycle {
      OneTurn(f, g, start, cycle, day - cycle);
      assert f(day - cycle + cycle) == f(day - cycle) && g(day - cycle + cycle) == g(day - cycle);
    }
  }

  ghost function RuleDays(o: Options, start: LocalDate): int -> bool {
    day => RuleDay(o, start, day)
  }

  ghost function PatternDays(p: Pattern, start: int): int -> bool
    requires p.interval >= 1
  {
    day => PatternDay(p, start, day)
  }

  lemma {:induction false} RuleTurns(o: Options, start: LocalDate)
    ensures forall x :: x >= start.day ==> RuleDays(o, start)(x + ERA * AtLeastOne(o.interval)) == RuleDays(o, start)(x)
  {
    forall x | x >= start.day ensures RuleDays(o, start)(x + ERA * AtLeastOne(o.interval)) == RuleDays(o, start)(x) {
      RuleDayOn(o, start, x);
    }
  }

  lemma {:induction false} PatternTurnsOn(p: Pattern, start: int)
    requires p.interval >= 1
    ensures forall x :: x >= start ==> PatternDays(p, start)(x + ERA * p.interval) == PatternDays(p, start)(x)
  {
    forall x | x >= start ensures PatternDays(p, start)(x + ERA * p.interval) == PatternDays(p, start)(x) {
      PatternDayOn(p, start, x);
    }
  }

  lemma {:induction false} SameIs(o: Options, start: LocalDate, x: int)
    requires PatternOf(o, start).Some?
    ensures Same(o, start, x) <==> RuleDays(o, start)(x) == PatternDays(ReadAs(o, start), start.day)(x)
    ensures x < start.day ==> Same(o, start, x)
  {
  }

  /** For every rule there is a pattern for: the pattern has its days for ever exactly
      when it has them for one cycle of the calendar, 400 years times the interval. */
  lemma {:induction false} OneCycleDecides(o: Options, start: LocalDate)
    requires PatternOf(o, start).Some?
    ensures Kept(o, start) <==>
            forall day :: start.day <= day < start.day + ERA * AtLeastOne(o.interval) ==> Same(o, start, day)
  {
    var cycle := ERA * AtLeastOne(o.interval);
    if forall day :: start.day <= day < start.day + cycle ==> Same(o, start, day) {
      RuleTurns(o, start);
      PatternTurnsOn(ReadAs(o, start), start.day);
      forall x | start.day <= x < start.day + cycle
        ensures RuleDays(o, start)(x) == PatternDays(ReadAs(o, start), start.day)(x)
      {
        SameIs(o, start, x);
      }
      forall day: int ensures Same(o, start, day) {
        SameIs(o, start, day);
        if day >= start.day {
          OneTurn(RuleDays(o, start), PatternDays(ReadAs(o, start), start.day), start.day, cycle, day);
        }
      }
    }
  }
}
