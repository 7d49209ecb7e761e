/** Graph recurrences and iCalendar rules, translated both ways. A rule is its
    parts in the order they are written; days are numbered from Monday, dates are
    day numbers, instants are seconds, and the zone is a fixed offset. */
module Recurrence {
  import opened Basics
  import opened Text

  datatype PatternType = Daily | Weekly | AbsoluteMonthly | RelativeMonthly | AbsoluteYearly | RelativeYearly | OtherPattern(name: string)
  datatype RangeType = EndDate | Numbered | NoEnd | OtherRange(name: string)

  datatype Pattern = Pattern(kind: PatternType, interval: int, month: int, dayOfMonth: int,
                             days: seq<string>, firstDay: string, index: string)
  /** endDate is None when it is absent or is not a date. */
  datatype Range = Range(kind: RangeType, startDate: int, endDate: Option<int>, occurrences: int, zone: string)
  datatype Recurrence = Recurrence(pattern: Pattern, range: Range)

  datatype Frequency = DAILY | WEEKLY | MONTHLY | YEARLY | FINER
  datatype WeekdayNum = WeekdayNum(day: nat, n: int)
  datatype Part =
    | Freq(freq: Frequency)
    | ByDay(days: seq<WeekdayNum>)
    | WkSt(day: nat)
    | ByMonthDay(monthDays: seq<int>)
    | ByMonth(months: seq<int>)
    | BySetPos(positions: seq<int>)
    | Interval(interval: int)
    | Until(until: int)
    | Count(count: int)
    | Unsayable

  /** The first occurrence's local date. */
  datatype LocalDate = LocalDate(day: int, month: int, dayOfMonth: int)

  const DAY: int := 86400

  // ---------- names ----------

  function DayName(day: nat): string {
    match day
    case 0 => "monday"
    case 1 => "tuesday"
    case 2 => "wednesday"
    case 3 => "thursday"
    case 4 => "friday"
    case 5 => "saturday"
    case _ => "sunday"
  }

  function DayCode(name: string): (code: Option<nat>)
    ensures code.Some? ==> code.value < 7 && DayName(code.value) == name
  {
    if name == "monday" then Some(0)
    else if name == "tuesday" then Some(1)
    else if name == "wednesday" then Some(2)
    else if name == "thursday" then Some(3)
    else if name == "friday" then Some(4)
    else if name == "saturday" then Some(5)
    else if name == "sunday" then Some(6)
    else None
  }

  function IndexCode(index: string): (code: Option<int>)
    ensures code.Some? ==> code.value in {1, 2, 3, 4, -1} && IndexName(code.value) == index
  {
    if index == "first" then Some(1)
    else if index == "second" then Some(2)
    else if index == "third" then Some(3)
    else if index == "fourth" then Some(4)
    else if index == "last" then Some(-1)
    else None
  }

  /** A position Outlook has no word for reads as the empty index. */
  function IndexName(n: int): string {
    if n == 1 then "first"
    else if n == 2 then "second"
    else if n == 3 then "third"
    else if n == 4 then "fourth"
    else if n == -1 then "last"
    else ""
  }

  lemma {:induction false} DayNamesReadBack(day: nat)
    requires day < 7
    ensures DayCode(DayName(day)) == Some(day) && Lower(DayName(day)) == DayName(day)
  {
  }

  lemma {:induction false} IndexNamesReadBack(n: int)
    ensures IndexName(n) == "" <==> n !in {1, 2, 3, 4, -1}
    ensures n in {1, 2, 3, 4, -1} ==> IndexCode(IndexName(n)) == Some(n)
  {
  }

  // ---------- Graph to iCalendar ----------

  /** BYDAY of the days, or None when one has no such name. */
  function DayParts(days: seq<string>): Option<seq<WeekdayNum>> {
    if days == [] then Some([])
    else
      var before := DayParts(days[..|days| - 1]);
      var code := DayCode(Lower(days[|days| - 1]));
      if before.None? || code.None? then None else Some(before.value + [WeekdayNum(code.value, 0)])
  }

  function ByDayPart(days: seq<WeekdayNum>): seq<Part> {
    if days == [] then [] else [ByDay(days)]
  }

  function PatternParts(p: Pattern): Option<seq<Part>> {
    match p.kind
    case Daily => Some([Freq(DAILY)])
    case Weekly =>
      var days := DayParts(p.days);
      var first := DayCode(Lower(p.firstDay));
      if days.None? then None
      else
        Some([Freq(WEEKLY)] + ByDayPart(days.value) +
             if first.Some? && first.value != 0 && p.interval > 1 then [WkSt(first.value)] else [])
    case AbsoluteMonthly => Some([Freq(MONTHLY), ByMonthDay([p.dayOfMonth])])
    case RelativeMonthly => RelativeParts([Freq(MONTHLY)], p)
    case RelativeYearly => RelativeParts([Freq(YEARLY), ByMonth([p.month])], p)
    case AbsoluteYearly => Some([Freq(YEARLY), ByMonth([p.month]), ByMonthDay([p.dayOfMonth])])
    case OtherPattern(_) => None
  }

  function RelativeParts(head: seq<Part>, p: Pattern): Option<seq<Part>> {
    var days := DayParts(p.days);
    var index := IndexCode(p.index);
    if days.None? then None
    else Some(head + ByDayPart(days.value) + if index.Some? then [BySetPos([index.value])] else [])
  }

  function RangeParts(r: Range, offset: int): Option<seq<Part>> {
    match r.kind
    case EndDate =>
      if r.endDate.None? then None else Some([Until((r.endDate.value + 1) * DAY - 1 - offset)])
    case Numbered => Some([Count(r.occurrences)])
    case NoEnd => Some([])
    case OtherRange(_) => Some([])
  }

  /** The rule of a recurrence, or None for one there is no rule for. */
  function RuleOf(r: Recurrence, offset: int): Option<seq<Part>> {
    var pattern := PatternParts(r.pattern);
    var range := RangeParts(r.range, offset);
    if pattern.None? || range.None? then None
    else Some(pattern.value + (if r.pattern.interval > 1 then [Interval(r.pattern.interval)] else []) + range.value)
  }

  // ---------- iCalendar to Graph ----------

  /** What the parts say, a later one over an earlier one. */
  datatype Options = Options(freq: Frequency, byDay: seq<WeekdayNum>, byMonthDay: seq<int>, byMonth: seq<int>,
                             bySetPos: seq<int>, wkst: nat, interval: int, until: Option<int>, count: int, unsayable: bool)

  function Plain(): Options {
    Options(YEARLY, [], [], [], [], 0, 0, None, 0, false)
  }

  function Read(parts: seq<Part>): Options {
    if parts == [] then Plain() else Take(Read(parts[..|parts| - 1]), parts[|parts| - 1])
  }

  function Take(o: Options, part: Part): Options {
    match part
    case Freq(f) => o.(freq := f)
    case ByDay(days) => o.(byDay := days)
    case WkSt(day) => o.(wkst := day)
    case ByMonthDay(days) => o.(byMonthDay := days)
    case ByMonth(months) => o.(byMonth := months)
    case BySetPos(positions) => o.(bySetPos := positions)
    case Interval(n) => o.(interval := n)
    case Until(t) => o.(until := Some(t))
    case Count(n) => o.(count := n)
    case Unsayable => o.(unsayable := true)
  }

  function Names(days: seq<WeekdayNum>): seq<string> {
    seq(|days|, i requires 0 <= i < |days| => DayName(days[i].day))
  }

  /** The word for the last numbered day. */
  function IndexOfDays(days: seq<WeekdayNum>): string {
    if days == [] then ""
    else if days[|days| - 1].n != 0 then IndexName(days[|days| - 1].n)
    else IndexOfDays(days[..|days| - 1])
  }

  /** Which weekday a day number is: day 0 was a Thursday. */
  function Weekday(day: int): nat {
    (day + 3) % 7
  }

  function PatternOf(o: Options, start: LocalDate): Option<Pattern> {
    var interval := if o.interval < 1 then 1 else o.interval;
    var index := if |o.bySetPos| == 1 then IndexName(o.bySetPos[0]) else IndexOfDays(o.byDay);
    var month := if |o.byMonth| == 1 then o.byMonth[0] else start.month;
    var dayOfMonth := if |o.byMonthDay| == 1 then o.byMonthDay[0] else start.dayOfMonth;
    match o.freq
    case DAILY => Some(Pattern(Daily, interval, 0, 0, [], "", ""))
    case WEEKLY =>
      var days := if o.byDay == [] then [DayName(Weekday(start.day))] else Names(o.byDay);
      Some(Pattern(Weekly, interval, 0, 0, days, "monday", ""))
    case FINER => None
    case _ =>
      if o.byDay != [] && index == "" then None
      else if o.freq == MONTHLY then
        Some(if o.byDay != [] then Pattern(RelativeMonthly, interval, 0, 0, Names(o.byDay), "", index)
             else Pattern(AbsoluteMonthly, interval, 0, dayOfMonth, [], "", ""))
      else
        Some(if o.byDay != [] then Pattern(RelativeYearly, interval, month, 0, Names(o.byDay), "", index)
             else Pattern(AbsoluteYearly, interval, month, dayOfMonth, [], "", ""))
  }

  function RangeOf(o: Options, start: LocalDate, offset: int, zone: string): Range {
    if o.count > 0 then Range(Numbered, start.day, None, o.count, zone)
    else if o.until.Some? then Range(EndDate, start.day, Some((o.until.value + offset) / DAY), 0, zone)
    else Range(NoEnd, start.day, None, 0, zone)
  }

  /** The recurrence of a rule, or None for one Outlook has no words for. */
  function RecurrenceOf(parts: seq<Part>, start: LocalDate, offset: int, zone: string): Option<Recurrence> {
    var o := Read(parts);
    var pattern := PatternOf(o, start);
    if o.unsayable || |o.byMonthDay| > 1 || |o.byMonth| > 1 || |o.bySetPos| > 1 || pattern.None? then None
    else Some(Recurrence(pattern.value, RangeOf(o, start, offset, zone)))
  }

  /** A word for which of the days is meant: from the one position, or else from the
      last day that has a number. */
  predicate HasWord(o: Options) {
    if |o.bySetPos| == 1 then o.bySetPos[0] in {1, 2, 3, 4, -1}
    else exists i :: 0 <= i < |o.byDay| && o.byDay[i].n in {1, 2, 3, 4, -1} && NoNumberAfter(o.byDay, i)
  }

  predicate NoNumberAfter(days: seq<WeekdayNum>, i: nat) {
    forall j :: i < j < |days| ==> days[j].n == 0
  }

  lemma {:induction false} WordOfDays(days: seq<WeekdayNum>)
    ensures IndexOfDays(days) != "" <==>
              exists i :: 0 <= i < |days| && days[i].n in {1, 2, 3, 4, -1} && NoNumberAfter(days, i)
  {
    if days != [] {
      var n := |days| - 1;
      WordOfDays(days[..n]);
      if days[n].n == 0 {
        forall i | 0 <= i < n ensures NoNumberAfter(days, i) <==> NoNumberAfter(days[..n], i) {
        }
      } else {
        assert NoNumberAfter(days, n);
        assert forall i :: 0 <= i < n ==> !NoNumberAfter(days, i);
      }
    }
  }

  lemma {:induction false} UnsayableIsKept(parts: seq<Part>)
    ensures Read(parts).unsayable <==> Unsayable in parts
  {
    if parts != [] {
      UnsayableIsKept(parts[..|parts| - 1]);
      assert parts == parts[..|parts| - 1] + [parts[|parts| - 1]];
    }
  }

  /** A rule is refused exactly when it has a part there is no field for, more than one
      day of the month, month or position, a frequency finer than a day, or weekdays in
      a month or year without a word for which of them. Every other one is written,
      whatever is dropped from it. */
  lemma {:induction false} RefusedIff(parts: seq<Part>, start: LocalDate, offset: int, zone: string)
    ensures var o := Read(parts);
            RecurrenceOf(parts, start, offset, zone).None? <==>
              || Unsayable in parts
              || |o.byMonthDay| > 1 || |o.byMonth| > 1 || |o.bySetPos| > 1
              || o.freq == FINER
              || ((o.freq == MONTHLY || o.freq == YEARLY) && o.byDay != [] && !HasWord(o))
  {
    UnsayableIsKept(parts);
    WordOfDays(Read(parts).byDay);
  }

  // ---------- as they are written, part by part ----------

  method AppendDays(days: seq<string>, head: seq<Part>) returns (parts: Option<seq<Part>>)
    ensures parts == if DayParts(days).None? then None else Some(head + ByDayPart(DayParts(days).value))
  {
    var out: seq<WeekdayNum> := [];
    for i := 0 to |days|
      invariant DayParts(days[..i]) == Some(out)
    {
      assert days[..i + 1][..i] == days[..i];
      var code := DayCode(Lower(days[i]));
      if code.None? {
        NoPartsForPrefix(days, i + 1);
        return None;
      }
      out := out + [WeekdayNum(code.value, 0)];
    }
    assert days[..|days|] == days;
    if |out| > 0 {
      return Some(head + [ByDay(out)]);
    }
    assert head + [] == head;
    return Some(head);
  }

  lemma {:induction false} NoPartsForPrefix(days: seq<string>, n: nat)
    requires n <= |days| && DayParts(days[..n]).None?
    ensures DayParts(days).None?
    decreases |days| - n
  {
    if n < |days| {
      assert days[..n + 1][..n] == days[..n];
      NoPartsForPrefix(days, n + 1);
    } else {
      assert days[..n] == days;
    }
  }

  method WritePattern(p: Pattern) returns (parts: Option<seq<Part>>)
    ensures parts == PatternParts(p)
  {
    match p.kind
    case Daily => return Some([Freq(DAILY)]);
    case Weekly =>
      parts := AppendDays(p.days, [Freq(WEEKLY)]);
      assert parts.Some? ==> parts.value + [] == parts.value;
      var first := DayCode(Lower(p.firstDay));
      if parts.Some? && first.Some? && first.value != 0 && p.interval > 1 {
        parts := Some(parts.value + [WkSt(first.value)]);
      }
    case AbsoluteMonthly => return Some([Freq(MONTHLY), ByMonthDay([p.dayOfMonth])]);
    case AbsoluteYearly => return Some([Freq(YEARLY), ByMonth([p.month]), ByMonthDay([p.dayOfMonth])]);
    case OtherPattern(_) => return None;
    case _ =>
      var head := if p.kind.RelativeMonthly? then [Freq(MONTHLY)] else [Freq(YEARLY), ByMonth([p.month])];
      parts := AppendDays(p.days, head);
      assert parts.Some? ==> parts.value + [] == parts.value;
      var index := IndexCode(p.index);
      if parts.Some? && index.Some? {
        parts := Some(parts.value + [BySetPos([index.value])]);
      }
  }

  method WriteRule(r: Recurrence, offset: int) returns (rule: Option<seq<Part>>)
    ensures rule == RuleOf(r, offset)
  {
    rule := WritePattern(r.pattern);
    if rule.None? {
      return;
    }
    var parts := rule.value;
    assert parts + [] == parts;
    if r.pattern.interval > 1 {
      parts := parts + [Interval(r.pattern.interval)];
    }
    assert parts + [] == parts;
    match r.range.kind {
      case EndDate =>
        if r.range.endDate.None? {
          return None;
        }
        // The last day counts, whenever on it the instance falls.
        parts := parts + [Until((r.range.endDate.value + 1) * DAY - 1 - offset)];
      case Numbered => parts := parts + [Count(r.range.occurrences)];
      case _ =>
    }
    return Some(parts);
  }

  /** The named days of a rule and the word for the last numbered one. */
  method ReadDays(byDay: seq<WeekdayNum>) returns (days: seq<string>, index: string)
    ensures days == Names(byDay) && index == IndexOfDays(byDay)
  {
    days, index := [], "";
    for i := 0 to |byDay|
      invariant days == Names(byDay[..i]) && index == IndexOfDays(byDay[..i])
    {
      NamesGrow(byDay[..i], byDay[i]);
      assert byDay[..i + 1] == byDay[..i] + [byDay[i]];
      days := days + [DayName(byDay[i].day)];
      if byDay[i].n != 0 {
        index := IndexName(byDay[i].n);
      }
    }
    assert byDay[..|byDay|] == byDay;
  }

  method ReadRecurrence(parts: seq<Part>, start: LocalDate, offset: int, zone: string) returns (r: Option<Recurrence>)
    ensures r == RecurrenceOf(parts, start, offset, zone)
  {
    var o := Read(parts);
    if o.unsayable || |o.byMonthDay| > 1 || |o.byMonth| > 1 || |o.bySetPos| > 1 {
      return None;
    }
    var p := Pattern(OtherPattern(""), if o.interval < 1 then 1 else o.interval, 0, 0, [], "", "");
    var days, index := ReadDays(o.byDay);
    if |o.bySetPos| == 1 {
      index := IndexName(o.bySetPos[0]);
    }
    var month, dayOfMonth := start.month, start.dayOfMonth;
    if |o.byMonth| == 1 {
      month := o.byMonth[0];
    }
    if |o.byMonthDay| == 1 {
      dayOfMonth := o.byMonthDay[0];
    }
    match o.freq {
      case DAILY => p := p.(kind := Daily);
      case WEEKLY =>
        if |days| == 0 {
          days := [DayName(Weekday(start.day))];
        }
        p := p.(kind := Weekly, days := days, firstDay := "monday");
      case FINER => return None;
      case _ =>
        var relative := |days| > 0;
        if relative && index == "" {
          return None;
        }
        if o.freq == MONTHLY && relative {
          p := p.(kind := RelativeMonthly, days := days, index := index);
        } else if o.freq == MONTHLY {
          p := p.(kind := AbsoluteMonthly, dayOfMonth := dayOfMonth);
        } else if relative {
          p := p.(kind := RelativeYearly, month := month, days := days, index := index);
        } else {
          p := p.(kind := AbsoluteYearly, month := month, dayOfMonth := dayOfMonth);
        }
    }
    var range := Range(NoEnd, start.day, None, 0, zone);
    if o.count > 0 {
      range := range.(kind := Numbered, occurrences := o.count);
    } else if o.until.Some? {
      range := range.(kind := EndDate, endDate := Some((o.until.value + offset) / DAY));
    }
    return Some(Recurrence(p, range));
  }

  // ---------- there and back ----------

  lemma {:induction false} ReadOn(parts: seq<Part>, part: Part)
    ensures Read(parts + [part]) == Take(Read(parts), part)
  {
  }

  /** The weekdays as Graph spells them. */
  ghost predicate Spelled(days: seq<string>) {
    forall i :: 0 <= i < |days| ==> DayCode(days[i]).Some?
  }

  lemma {:induction false} NamesGrow(days: seq<WeekdayNum>, day: WeekdayNum)
    ensures Names(days + [day]) == Names(days) + [DayName(day.day)]
    ensures day.n == 0 ==> IndexOfDays(days + [day]) == IndexOfDays(days)
  {
  }

  lemma {:induction false} DaysReadBack(days: seq<string>)
    requires DayParts(days).Some?
    ensures |DayParts(days).value| == |days|
    ensures IndexOfDays(DayParts(days).value) == ""
    ensures forall i :: 0 <= i < |days| ==> Names(DayParts(days).value)[i] == Lower(days[i])
  {
    if days != [] {
      var n := |days| - 1;
      DaysReadBack(days[..n]);
      NamesGrow(DayParts(days[..n]).value, WeekdayNum(DayCode(Lower(days[n])).value, 0));
    }
  }

  lemma {:induction false} SpelledDaysHaveParts(days: seq<string>)
    requires Spelled(days)
    ensures DayParts(days).Some?
  {
    if days != [] {
      SpelledDaysHaveParts(days[..|days| - 1]);
      DayNamesReadBack(DayCode(days[|days| - 1]).value);
    }
  }

  lemma {:induction false} NamesAreTheDaysIff(days: seq<string>)
    requires DayParts(days).Some?
    ensures Names(DayParts(days).value) == days <==> Spelled(days)
  {
    DaysReadBack(days);
    var names := Names(DayParts(days).value);
    forall i | 0 <= i < |days| ensures names[i] == days[i] <==> DayCode(days[i]).Some? {
      DayHasCode(days, i);
      DayNamesReadBack(DayCode(Lower(days[i])).value);
      if DayCode(days[i]).Some? {
        DayNamesReadBack(DayCode(days[i]).value);
      }
    }
  }

  lemma {:induction false} DayHasCode(days: seq<string>, i: nat)
    requires i < |days| && DayParts(days).Some?
    ensures DayCode(Lower(days[i])).Some?
  {
    if i < |days| - 1 {
      DayHasCode(days[..|days| - 1], i);
    }
  }

  /** What the parts of a pattern read as. */
  function PatternOptions(p: Pattern): Options
    requires PatternParts(p).Some?
  {
    match p.kind
    case Daily => Plain().(freq := DAILY)
    case Weekly =>
      var first := DayCode(Lower(p.firstDay));
      Plain().(freq := WEEKLY, byDay := DayParts(p.days).value,
               wkst := if first.Some? && p.interval > 1 then first.value else 0)
    case AbsoluteMonthly => Plain().(freq := MONTHLY, byMonthDay := [p.dayOfMonth])
    case RelativeMonthly => Plain().(freq := MONTHLY, byDay := DayParts(p.days).value, bySetPos := Positions(p))
    case RelativeYearly =>
      Plain().(byMonth := [p.month], byDay := DayParts(p.days).value, bySetPos := Positions(p))
    case AbsoluteYearly => Plain().(byMonth := [p.month], byMonthDay := [p.dayOfMonth])
  }

  function Positions(p: Pattern): seq<int> {
    if IndexCode(p.index).Some? then [IndexCode(p.index).value] else []
  }

  lemma {:induction false} ReadThree(a: Part, b: Part, c: Part)
    ensures Read([]) == Plain()
    ensures Read([a]) == Take(Plain(), a)
    ensures Read([a, b]) == Take(Take(Plain(), a), b)
    ensures Read([a, b, c]) == Take(Take(Take(Plain(), a), b), c)
  {
    assert [a][..0] == [] && [a, b][..1] == [a] && [a, b, c][..2] == [a, b];
  }

  lemma {:induction false} ReadByDay(head: seq<Part>, days: seq<WeekdayNum>)
    requires Read(head).byDay == []
    ensures Read(head + ByDayPart(days)) == Read(head).(byDay := days)
  {
    if days == [] {
      assert head + [] == head;
    } else {
      ReadOn(head, ByDay(days));
    }
  }

  lemma {:induction false} ReadRelative(head: seq<Part>, p: Pattern)
    requires Read(head).byDay == [] && Read(head).bySetPos == [] && DayParts(p.days).Some?
    ensures Read(RelativeParts(head, p).value) == Read(head).(byDay := DayParts(p.days).value, bySetPos := Positions(p))
  {
    var days := DayParts(p.days).value;
    var with := head + ByDayPart(days);
    assert Read(with) == Read(head).(byDay := days) by { ReadByDay(head, days); }
    if IndexCode(p.index).Some? {
      ReadOn(with, BySetPos(Positions(p)));
    } else {
      assert with + [] == with;
    }
  }

  lemma {:induction false} ReadPattern(p: Pattern)
    requires PatternParts(p).Some?
    ensures Read(PatternParts(p).value) == PatternOptions(p)
  {
    match p.kind
    case Daily => ReadThree(Freq(DAILY), Unsayable, Unsayable);
    case Weekly =>
      ReadThree(Freq(WEEKLY), Unsayable, Unsayable);
      ReadByDay([Freq(WEEKLY)], DayParts(p.days).value);
      var with := [Freq(WEEKLY)] + ByDayPart(DayParts(p.days).value);
      var first := DayCode(Lower(p.firstDay));
      if first.Some? && first.value != 0 && p.interval > 1 {
        ReadOn(with, WkSt(first.value));
      } else {
        assert with + [] == with;
      }
    case AbsoluteMonthly => ReadThree(Freq(MONTHLY), ByMonthDay([p.dayOfMonth]), Unsayable);
    case RelativeMonthly =>
      ReadThree(Freq(MONTHLY), Unsayable, Unsayable);
      ReadRelative([Freq(MONTHLY)], p);
    case RelativeYearly =>
      ReadThree(Freq(YEARLY), ByMonth([p.month]), Unsayable);
      ReadRelative([Freq(YEARLY), ByMonth([p.month])], p);
    case AbsoluteYearly => ReadThree(Freq(YEARLY), ByMonth([p.month]), ByMonthDay([p.dayOfMonth]));
  }

  /** What the rule of a recurrence reads as. */
  lemma {:induction false} ReadRule(r: Recurrence, offset: int)
    requires RuleOf(r, offset).Some?
    ensures Read(RuleOf(r, offset).value) ==
              PatternOptions(r.pattern).(
                interval := if r.pattern.interval > 1 then r.pattern.interval else 0,
                until := if r.range.kind.EndDate? then Some((r.range.endDate.value + 1) * DAY - 1 - offset) else None,
                count := if r.range.kind.Numbered? then r.range.occurrences else 0)
  {
    ReadPattern(r.pattern);
    var pattern := PatternParts(r.pattern).value;
    var interval := if r.pattern.interval > 1 then [Interval(r.pattern.interval)] else [];
    if r.pattern.interval > 1 {
      ReadOn(pattern, interval[0]);
    } else {
      assert pattern + [] == pattern;
    }
    var range := RangeParts(r.range, offset).value;
    if range == [] {
      assert pattern + interval + [] == pattern + interval;
    } else {
      assert range == [range[0]];
      ReadOn(pattern + interval, range[0]);
    }
  }

  /** A recurrence as Outlook writes it: nothing filled in that its type does not
      use, an interval, days and an index by name, weeks from Monday. */
  ghost predicate Canonical(p: Pattern) {
    && p.interval >= 1
    && (p.kind.AbsoluteMonthly? || p.kind.AbsoluteYearly? || p.dayOfMonth == 0)
    && (p.kind.AbsoluteYearly? || p.kind.RelativeYearly? || p.month == 0)
    && match p.kind
       case OtherPattern(_) => false
       case Weekly => p.days != [] && Spelled(p.days) && p.firstDay == "monday" && p.index == ""
       case RelativeMonthly => p.days != [] && Spelled(p.days) && p.firstDay == "" && IndexCode(p.index).Some?
       case RelativeYearly => p.days != [] && Spelled(p.days) && p.firstDay == "" && IndexCode(p.index).Some?
       case _ => p.days == [] && p.firstDay == "" && p.index == ""
  }

  ghost predicate CanonicalRange(r: Range, start: LocalDate, zone: string) {
    && r.startDate == start.day && r.zone == zone
    && match r.kind
       case EndDate => r.endDate.Some? && r.occurrences == 0
       case Numbered => r.endDate.None? && r.occurrences > 0
       case NoEnd => r.endDate.None? && r.occurrences == 0
       case OtherRange(_) => false
  }

  lemma {:induction false} LastDayReadsBack(endDate: int, offset: int)
    ensures ((endDate + 1) * DAY - 1 - offset + offset) / DAY == endDate
  {
  }

  lemma {:induction false} RangeReadsBackIff(r: Recurrence, start: LocalDate, offset: int, zone: string)
    requires RuleOf(r, offset).Some?
    ensures RangeOf(Read(RuleOf(r, offset).value), start, offset, zone) == r.range <==> CanonicalRange(r.range, start, zone)
  {
    ReadRule(r, offset);
    if r.range.kind.EndDate? {
      LastDayReadsBack(r.range.endDate.value, offset);
    }
  }

  lemma {:induction false} CanonicalHasParts(p: Pattern)
    requires Canonical(p)
    ensures PatternParts(p).Some?
  {
    if p.kind.Weekly? || p.kind.RelativeMonthly? || p.kind.RelativeYearly? {
      SpelledDaysHaveParts(p.days);
    }
  }

  lemma {:induction false} WeeklyReadsBackIff(p: Pattern, o: Options, start: LocalDate)
    requires p.kind.Weekly? && PatternParts(p).Some? && o.freq == WEEKLY && o.byDay == DayParts(p.days).value
    requires o.interval == if p.interval > 1 then p.interval else 0
    ensures PatternOf(o, start) == Some(p) <==> Canonical(p)
  {
    DaysReadBack(p.days);
    NamesAreTheDaysIff(p.days);
  }

  lemma {:induction false} RelativeReadsAs(p: Pattern, o: Options, start: LocalDate)
    requires (p.kind.RelativeMonthly? && o.freq == MONTHLY) ||
             (p.kind.RelativeYearly? && o.freq == YEARLY && o.byMonth == [p.month])
    requires IndexOfDays(o.byDay) == "" && o.bySetPos == Positions(p)
    ensures var interval := if o.interval < 1 then 1 else o.interval;
            if o.byDay == [] then PatternOf(o, start).Some? && PatternOf(o, start).value.kind != p.kind
            else if IndexCode(p.index).None? then PatternOf(o, start) == None
            else PatternOf(o, start) ==
                   Some(Pattern(p.kind, interval, if p.kind.RelativeYearly? then p.month else 0, 0, Names(o.byDay), "", p.index))
  {
    if IndexCode(p.index).Some? {
      IndexNamesReadBack(IndexCode(p.index).value);
    }
  }

  lemma {:induction false} RelativeReadsBackIff(p: Pattern, o: Options, start: LocalDate)
    requires (p.kind.RelativeMonthly? && o.freq == MONTHLY) ||
             (p.kind.RelativeYearly? && o.freq == YEARLY && o.byMonth == [p.month])
    requires DayParts(p.days).Some? && o.byDay == DayParts(p.days).value && o.bySetPos == Positions(p)
    requires o.interval == if p.interval > 1 then p.interval else 0
    ensures PatternOf(o, start) == Some(p) <==> Canonical(p)
  {
    assert IndexOfDays(o.byDay) == "" && |o.byDay| == |p.days| by { DaysReadBack(p.days); }
    assert Names(o.byDay) == p.days <==> Spelled(p.days) by { NamesAreTheDaysIff(p.days); }
    assert o.byDay == [] <==> p.days == [];
    RelativeReadsAs(p, o, start);
    CanonicalRelative(p, Names(o.byDay));
  }

  /** A relative pattern is as Outlook writes it when it is what its parts make. */
  lemma {:induction false} CanonicalRelative(p: Pattern, days: seq<string>)
    requires p.kind.RelativeMonthly? || p.kind.RelativeYearly?
    requires days == p.days <==> Spelled(p.days)
    ensures Canonical(p) <==>
              && p.days != [] && IndexCode(p.index).Some?
              && p == Pattern(p.kind, if p.interval > 1 then p.interval else 1,
                              if p.kind.RelativeYearly? then p.month else 0, 0, days, "", p.index)
  {
  }

  lemma {:induction false} PatternReadsBackIff(r: Recurrence, start: LocalDate, offset: int)
    requires RuleOf(r, offset).Some?
    ensures PatternOf(Read(RuleOf(r, offset).value), start) == Some(r.pattern) <==> Canonical(r.pattern)
  {
    var p, o := r.pattern, Read(RuleOf(r, offset).value);
    ReadRule(r, offset);
    match p.kind
    case Weekly => WeeklyReadsBackIff(p, o, start);
    case RelativeMonthly => RelativeReadsBackIff(p, o, start);
    case RelativeYearly => RelativeReadsBackIff(p, o, start);
    case _ =>
  }

  /** A recurrence written as a rule and read again is the same recurrence exactly
      when it is as Outlook writes it, with weeks starting on Monday. */
  lemma {:induction false} ReadsBackIff(r: Recurrence, start: LocalDate, offset: int, zone: string)
    ensures (RuleOf(r, offset).Some? && RecurrenceOf(RuleOf(r, offset).value, start, offset, zone) == Some(r))
       <==> (Canonical(r.pattern) && CanonicalRange(r.range, start, zone))
  {
    if Canonical(r.pattern) && CanonicalRange(r.range, start, zone) {
      CanonicalHasParts(r.pattern);
    }
    if RuleOf(r, offset).Some? {
      ReadRule(r, offset);
      PatternReadsBackIff(r, start, offset);
      RangeReadsBackIff(r, start, offset, zone);
    }
  }
}
