/** The Gregorian calendar over day numbers: day 0 is 1 January 1970, months are
    numbered on from January of year 0, and everything comes round again after 400
    years. */
module CivilCalendar {
  const ERA: int := 146097
  /** A third of it. */
  const THIRD: int := 48699

  predicate IsLeap(year: int) {
    year % 4 == 0 && (year % 100 != 0 || year % 400 == 0)
  }

  /** January being 0. */
  function MonthLength(month: nat, leap: bool): int
    requires month < 12
  {
    if month == 1 then if leap then 29 else 28
    else if month in {3, 5, 8, 10} then 30
    else 31
  }

  function Length(i: int): (n: int)
    ensures 28 <= n <= 31
  {
    MonthLength(i % 12, IsLeap(i / 12))
  }

  const JANUARY_1970: int := 23640

  /** The first day of a month, counted from that one month by month. */
  function MonthStart(i: int): int
    decreases if i < JANUARY_1970 then JANUARY_1970 - i else i - JANUARY_1970
  {
    if i == JANUARY_1970 then 0
    else MonthStart(if i > JANUARY_1970 then i - 1 else i + 1) + if i > JANUARY_1970 then Length(i - 1) else -Length(i)
  }

  lemma {:induction false} MonthsLast(i: int)
    ensures MonthStart(i + 1) == MonthStart(i) + Length(i)
  {
  }

  lemma {:induction false} MonthsGrow(i: int, j: int)
    requires i <= j
    ensures MonthStart(i) + 28 * (j - i) <= MonthStart(j)
    decreases j - i
  {
    if i < j {
      MonthsGrow(i, j - 1);
      MonthsLast(j - 1);
    }
  }

  lemma {:induction false} MonthUpFrom(day: int, i: int) returns (m: int)
    requires MonthStart(i) <= day
    ensures MonthStart(m) <= day < MonthStart(m + 1)
    decreases day - MonthStart(i)
  {
    MonthsLast(i);
    if day < MonthStart(i + 1) {
      m := i;
    } else {
      m := MonthUpFrom(day, i + 1);
    }
  }

  lemma {:induction false} MonthDownFrom(day: int, i: int) returns (m: int)
    requires day < MonthStart(i + 1)
    ensures MonthStart(m) <= day < MonthStart(m + 1)
    decreases MonthStart(i + 1) - day
  {
    MonthsLast(i);
    if MonthStart(i) <= day {
      m := i;
    } else {
      m := MonthDownFrom(day, i - 1);
    }
  }

  lemma {:induction false} MonthExists(day: int)
    ensures exists i :: MonthStart(i) <= day < MonthStart(i + 1)
  {
    var i: int;
    if MonthStart(JANUARY_1970) <= day {
      i := MonthUpFrom(day, JANUARY_1970);
    } else {
      i := MonthDownFrom(day, JANUARY_1970 - 1);
    }
  }

  /** The month a day is in. */
  ghost function MonthOf(day: int): (i: int)
    ensures MonthStart(i) <= day < MonthStart(i + 1)
  {
    MonthExists(day);
    var i :| MonthStart(i) <= day < MonthStart(i + 1);
    i
  }

  lemma {:induction false} MonthIs(day: int, i: int)
    requires MonthStart(i) <= day < MonthStart(i + 1)
    ensures MonthOf(day) == i
  {
    var m := MonthOf(day);
    if m < i {
      MonthsGrow(m + 1, i);
    } else if m > i {
      MonthsGrow(i + 1, m);
    }
  }

  ghost function YearOf(day: int): int {
    MonthOf(day) / 12
  }

  /** January is 1. */
  ghost function Month(day: int): int {
    MonthOf(day) % 12 + 1
  }

  ghost function DayOfMonth(day: int): (d: int)
    ensures 1 <= d <= 31
  {
    MonthsLast(MonthOf(day));
    day - MonthStart(MonthOf(day)) + 1
  }

  /** Whether a day is the nth of its month, counted from the end if n is negative. */
  ghost predicate IsMonthDay(day: int, n: int) {
    if n > 0 then DayOfMonth(day) == n else day == MonthStart(MonthOf(day) + 1) + n
  }

  // ---------- as a formula ----------

  function DaysBefore(month: nat, leap: bool): nat
    requires month < 12
  {
    (match month
     case 0 => 0
     case 1 => 31
     case 2 => 59
     case 3 => 90
     case 4 => 120
     case 5 => 151
     case 6 => 181
     case 7 => 212
     case 8 => 243
     case 9 => 273
     case 10 => 304
     case _ => 334) + if leap && month >= 2 then 1 else 0
  }

  /** The leap years before a year, since year 0. */
  function Leaps(year: int): int {
    (year + 3) / 4 - (year + 99) / 100 + (year + 399) / 400
  }

  lemma {:induction false} QuarterUp(year: int)
    ensures (year + 4) / 4 == (year + 3) / 4 + if year % 4 == 0 then 1 else 0
  {
  }

  lemma {:induction false} CenturyUp(year: int)
    ensures (year + 100) / 100 == (year + 99) / 100 + if year % 100 == 0 then 1 else 0
  {
  }

  lemma {:induction false} CycleUp(year: int)
    ensures (year + 400) / 400 == (year + 399) / 400 + if year % 400 == 0 then 1 else 0
  {
  }

  lemma {:induction false} Divides(year: int)
    ensures year % 400 == 0 ==> year % 100 == 0
    ensures year % 100 == 0 ==> year % 4 == 0
  {
  }

  lemma {:induction false} OneLeapMore(year: int)
    ensures Leaps(year + 1) == Leaps(year) + if IsLeap(year) then 1 else 0
  {
    QuarterUp(year);
    CenturyUp(year);
    CycleUp(year);
    Divides(year);
  }

  /** The first day of a month by its year and its number in it. */
  function Formula(year: int, month: nat): int
    requires month < 12
  {
    365 * year + Leaps(year) - 719528 + DaysBefore(month, IsLeap(year))
  }

  lemma {:induction false} WithinYear(month: nat, leap: bool)
    requires month < 12
    ensures (if month < 11 then DaysBefore(month + 1, leap) else if leap then 366 else 365)
         == DaysBefore(month, leap) + MonthLength(month, leap)
  {
  }

  lemma {:induction false} FormulaOn(i: int)
    ensures Formula((i + 1) / 12, (i + 1) % 12) == Formula(i / 12, i % 12) + Length(i)
  {
    WithinYear(i % 12, IsLeap(i / 12));
    OneLeapMore(i / 12);
    if i % 12 == 11 {
      assert (i + 1) / 12 == i / 12 + 1 && (i + 1) % 12 == 0;
    } else {
      assert (i + 1) / 12 == i / 12 && (i + 1) % 12 == i % 12 + 1;
    }
  }

  lemma {:induction false} MonthStartIs(i: int)
    ensures MonthStart(i) == Formula(i / 12, i % 12)
    decreases if i < JANUARY_1970 then JANUARY_1970 - i else i - JANUARY_1970
  {
    if i == JANUARY_1970 {
      assert Leaps(1970) == 478;
    } else if i > JANUARY_1970 {
      MonthStartIs(i - 1);
      FormulaOn(i - 1);
    } else {
      MonthStartIs(i + 1);
      FormulaOn(i);
    }
  }

  // ---------- four hundred years on ----------

  lemma {:induction false} QuotientsOn(x: int, k: int)
    ensures (x + 400 * k) / 4 == x / 4 + 100 * k && (x + 400 * k) % 4 == x % 4
  {
  }

  lemma {:induction false} CenturiesOn(x: int, k: int)
    ensures (x + 400 * k) / 100 == x / 100 + 4 * k && (x + 400 * k) % 100 == x % 100
  {
  }

  lemma {:induction false} CyclesOn(x: int, k: int)
    ensures (x + 400 * k) / 400 == x / 400 + k && (x + 400 * k) % 400 == x % 400
  {
  }

  lemma {:induction false} LeapsOn(year: int, k: int)
    ensures Leaps(year + 400 * k) == Leaps(year) + 97 * k
  {
    QuotientsOn(year + 3, k);
    CenturiesOn(year + 99, k);
    CyclesOn(year + 399, k);
  }

  lemma {:induction false} LeapOn(year: int, k: int)
    ensures IsLeap(year + 400 * k) == IsLeap(year)
  {
    QuotientsOn(year, k);
    CenturiesOn(year, k);
    CyclesOn(year, k);
  }

  lemma {:induction false} MonthsOn(i: int, k: int)
    ensures MonthStart(i + 4800 * k) == MonthStart(i) + ERA * k && Length(i + 4800 * k) == Length(i)
  {
    assert (i + 4800 * k) / 12 == i / 12 + 400 * k && (i + 4800 * k) % 12 == i % 12;
    LeapsOn(i / 12, k);
    LeapOn(i / 12, k);
    MonthStartIs(i);
    MonthStartIs(i + 4800 * k);
  }

  lemma {:induction false} MonthOfOn(day: int, k: int)
    ensures MonthOf(day + ERA * k) == MonthOf(day) + 4800 * k
  {
    MonthsOn(MonthOf(day), k);
    MonthsOn(MonthOf(day) + 1, k);
    MonthIs(day + ERA * k, MonthOf(day) + 4800 * k);
  }

  lemma {:induction false} TwelfthOn(i: int, k: int)
    ensures (i + 4800 * k) / 12 == i / 12 + 400 * k && (i + 4800 * k) % 12 == i % 12
  {
  }

  lemma {:induction false} DaysOn(day: int, k: int)
    ensures YearOf(day + ERA * k) == YearOf(day) + 400 * k && Month(day + ERA * k) == Month(day)
    ensures DayOfMonth(day + ERA * k) == DayOfMonth(day)
  {
    MonthOfOn(day, k);
    TwelfthOn(MonthOf(day), k);
    MonthsOn(MonthOf(day), k);
  }

  lemma {:induction false} MonthDayOn(day: int, k: int, n: int)
    ensures IsMonthDay(day + ERA * k, n) <==> IsMonthDay(day, n)
  {
    DaysOn(day, k);
    MonthOfOn(day, k);
    MonthsOn(MonthOf(day) + 1, k);
  }

  // ---------- where in the year a day is ----------

  /** How far a year's start is from where it would be if all years were as long,
      in four-hundredths of a day. */
  function Drift(year: int): (e: int)
    ensures -396 <= e <= 699
  {
    303 - 100 * ((year + 3) % 4) + 4 * ((year + 99) % 100) - (year + 399) % 400
  }

  lemma {:induction false} LeapsDrift(year: int)
    ensures 400 * Leaps(year) == 97 * year + Drift(year)
  {
    assert year + 3 == 4 * ((year + 3) / 4) + (year + 3) % 4;
    assert year + 99 == 100 * ((year + 99) / 100) + (year + 99) % 100;
    assert year + 399 == 400 * ((year + 399) / 400) + (year + 399) % 400;
  }

  /** Where a month starts, in four-hundredths of a day. */
  lemma {:induction false} MonthDrifts(i: int)
    ensures 400 * (MonthStart(i) + 719528) == ERA * (i / 12) + Drift(i / 12) + 400 * DaysBefore(i % 12, IsLeap(i / 12))
  {
    MonthStartIs(i);
    LeapsDrift(i / 12);
  }

  /** Two days of the same month of some years are whole years apart, give or take
      part of a month. */
  lemma {:induction false} SameMonthApart(a: int, b: int)
    requires Month(a) == Month(b)
    ensures NearWholeTurn(400 * (a - b), 13495)
  {
    var i, j := MonthOf(a), MonthOf(b);
    var m, x, y := i % 12, i / 12, j / 12;
    MonthDrifts(i);
    MonthDrifts(j);
    Sooner(m, IsLeap(x), IsLeap(y));
    var da, db := DayOfMonth(a), DayOfMonth(b);
    assert 400 * (a - b) - ERA * (x - y) ==
           Drift(x) - Drift(y) + 400 * (DaysBefore(m, IsLeap(x)) - DaysBefore(m, IsLeap(y)) + da - db);
    assert -13495 <= 400 * (a - b) - ERA * (x - y) <= 13495;
  }

  lemma {:induction false} Sooner(month: nat, a: bool, b: bool)
    requires month < 12
    ensures -1 <= DaysBefore(month, a) - DaysBefore(month, b) <= 1
    ensures -8994 <= 4800 * DaysBefore(month, a) - ERA * month <= 3030
  {
  }

  /** How far a month's start is from where it would be if all were as long, in
      1/4800 of a day. */
  lemma {:induction false} MonthStartDrifts(i: int)
    ensures -13746 <= 4800 * (MonthStart(i) + 719528) - ERA * i <= 11418
  {
    MonthDrifts(i);
    Sooner(i % 12, IsLeap(i / 12), false);
  }

  /** And two days of the same number in their months are whole months apart. */
  lemma {:induction false} SameDayApart(a: int, b: int, n: int)
    requires IsMonthDay(a, n) && IsMonthDay(b, n)
    ensures NearWholeTurn(4800 * (a - b), 25164)
  {
    var i, j := MonthOf(a), MonthOf(b);
    if n > 0 {
      MonthStartDrifts(i);
      MonthStartDrifts(j);
      assert a - b == MonthStart(i) - MonthStart(j);
    } else {
      MonthStartDrifts(i + 1);
      MonthStartDrifts(j + 1);
      assert a - b == MonthStart(i + 1) - MonthStart(j + 1);
    }
    assert -25164 <= 4800 * (a - b) - ERA * (i - j) <= 25164;
  }

  // ---------- steps that never leave a part of the circle ----------

  ghost predicate NearWholeTurn(x: int, w: int) {
    exists q: int :: -w <= x - ERA * q <= w
  }

  lemma {:induction false} StepsUp(b: int, w: int) returns (k: nat)
    requires 0 < b <= w
    ensures w < k * b <= 2 * w
  {
    k := w / b + 1;
    assert w == b * (w / b) + w % b && 0 <= w % b < b;
    assert k * b == b * (w / b) + b;
  }

  lemma {:induction false} NotNear(x: int, w: int, turns: int)
    requires 0 < 3 * w < ERA && w < x < ERA - w
    ensures !NearWholeTurn(x + ERA * turns, w)
  {
    forall q: int ensures !(-w <= x + ERA * turns - ERA * q <= w) {
      if q <= turns {
        assert ERA * turns - ERA * q >= 0;
      } else {
        assert ERA * turns - ERA * q <= -ERA;
      }
    }
  }

  lemma {:induction false} Turned(k: int, b: int, q: int)
    ensures k * (b + ERA * q) == k * b + ERA * (k * q)
  {
  }

  lemma {:induction false} TurnedBack(k: int, c: int, q: int)
    ensures k * (ERA * q - c) == ERA - k * c + ERA * (k * q - 1)
  {
  }

  lemma {:induction false} ALittleOver(b: int, q: int, w: int) returns (k: nat)
    requires 0 < b <= w && 3 * w < ERA
    ensures !NearWholeTurn(k * (b + ERA * q), w)
  {
    k := StepsUp(b, w);
    Turned(k, b, q);
    NotNear(k * b, w, k * q);
  }

  lemma {:induction false} ALittleShort(c: int, q: int, w: int) returns (k: nat)
    requires 0 < c <= w && 3 * w < ERA
    ensures !NearWholeTurn(k * (ERA * q - c), w)
  {
    k := StepsUp(c, w);
    TurnedBack(k, c, q);
    NotNear(ERA - k * c, w, k * q - 1);
  }

  /** Equal steps around the circle that are not whole turns do not all land near
      whole turns: a step a little over one, or a little short, adds up. */
  lemma {:induction false} LandsAway(u: int, w: int) returns (k: nat)
    requires 0 < 3 * w < ERA && u % ERA != 0
    ensures !NearWholeTurn(k * u, w)
  {
    var b, q := u % ERA, u / ERA;
    assert u == b + ERA * q;
    if b <= w {
      k := ALittleOver(b, q, w);
    } else if b < ERA - w {
      NotNear(b, w, q);
      k := 1;
    } else {
      k := ALittleShort(ERA - b, q + 1, w);
      assert ERA * (q + 1) - (ERA - b) == u;
    }
  }

  /** 400 and 134044 are inverse to each other modulo ERA. */
  lemma {:induction false} DivideBy400(n: int, s: int)
    requires 400 * n == ERA * s
    ensures n % ERA == 0
  {
    assert n == ERA * (134044 * s - 367 * n);
  }

  /** And so are 1600 and 33511 modulo THIRD. */
  lemma {:induction false} DivideBy1600(n: int, s: int)
    requires 1600 * n == THIRD * s
    ensures n % THIRD == 0
  {
    assert n == THIRD * (33511 * s - 1101 * n);
  }

  lemma {:induction false} Scaled(day: int, k: int, n: int, m: int)
    ensures m * (day + k * n - day) == k * (m * n)
  {
    assert m * (k * n) == k * (m * n);
  }

  /** Equal steps of days, unless they are whole eras, leave the month of the year
      they start in. */
  lemma {:induction false} LeavesMonth(day: int, n: int) returns (k: nat)
    requires n % ERA != 0
    ensures Month(day + k * n) != Month(day)
  {
    if (400 * n) % ERA == 0 {
      DivideBy400(n, 400 * n / ERA);
    }
    k := LandsAway(400 * n, 13495);
    Scaled(day, k, n, 400);
    if Month(day + k * n) == Month(day) {
      SameMonthApart(day + k * n, day);
    }
  }

  /** And unless they are whole thirds of one, the day of the month. */
  lemma {:induction false} LeavesMonthDay(day: int, n: int, d: int) returns (k: nat)
    requires n % THIRD != 0
    ensures !IsMonthDay(day + k * n, d)
  {
    if (4800 * n) % ERA == 0 {
      DivideBy1600(n, 4800 * n / ERA);
    }
    k := LandsAway(4800 * n, 25164);
    Scaled(day, k, n, 4800);
    if IsMonthDay(day + k * n, d) {
      if !IsMonthDay(day, d) {
        k := 0;
        assert day + 0 * n == day;
      } else {
        SameDayApart(day + k * n, day, d);
      }
    }
  }
}
