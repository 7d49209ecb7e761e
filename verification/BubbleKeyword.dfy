/** The keyword a bubbled mail carries and the column the mirror keeps of it: a
    local wall-clock minute, spelled one way on the server and another in the
    mirror, where "due" is a comparison of texts. */
module BubbleKeyword {
  import opened Basics
  import opened Text

  datatype Moment = Moment(year: nat, month: nat, day: nat, hour: nat, minute: nat)

  const PREFIX: string := "$bubble-"

  predicate Leap(year: nat) {
    year % 4 == 0 && (year % 100 != 0 || year % 400 == 0)
  }

  function DaysIn(month: nat, year: nat): nat {
    if month == 2 then (if Leap(year) then 29 else 28)
    else if month in {4, 6, 9, 11} then 30
    else 31
  }

  /** A minute there is, in a year of four digits. */
  predicate Valid(t: Moment) {
    && t.year <= 9999 && 1 <= t.month <= 12 && 1 <= t.day <= DaysIn(t.month, t.year)
    && t.hour < 24 && t.minute < 60
  }

  /** A number in so many digits. */
  function Pad(n: nat, width: nat): (s: string)
    ensures |s| == width && forall k :: 0 <= k < width ==> IsDigit(s[k])
  {
    if width == 0 then "" else Pad(n / 10, width - 1) + [Digit(n % 10)]
  }

  function Keyword(t: Moment): string {
    PREFIX + Pad(t.year, 4) + Pad(t.month, 2) + Pad(t.day, 2) + "T" + Pad(t.hour, 2) + Pad(t.minute, 2)
  }

  function Projected(t: Moment): string {
    Pad(t.year, 4) + "-" + Pad(t.month, 2) + "-" + Pad(t.day, 2) + "T" + Pad(t.hour, 2) + ":" + Pad(t.minute, 2)
  }

  function Field(s: string, at: nat, width: nat): Option<nat> {
    if at + width <= |s| then Number(s[at..at + width]) else None
  }

  /** The moment a keyword names, if it is a return time at all. */
  function Parse(keyword: string): Option<Moment> {
    if !(PREFIX <= keyword) then None
    else
      var rest := keyword[|PREFIX|..];
      if |rest| != 13 || rest[8] != 'T' then None
      else
        var year, month, day := Field(rest, 0, 4), Field(rest, 4, 2), Field(rest, 6, 2);
        var hour, minute := Field(rest, 9, 2), Field(rest, 11, 2);
        if year.None? || month.None? || day.None? || hour.None? || minute.None? then None
        else
          var t := Moment(year.value, month.value, day.value, hour.value, minute.value);
          if Valid(t) then Some(t) else None
  }

  /** The time of a mail: of the first keyword that names one. */
  function OfFlags(flags: seq<string>): Option<Moment> {
    if flags == [] then None
    else if Parse(flags[0]).Some? then Parse(flags[0])
    else OfFlags(flags[1..])
  }

  // ---------- the keyword reads back ----------

  function Power(width: nat): nat {
    if width == 0 then 1 else 10 * Power(width - 1)
  }

  lemma {:induction false} PadReadsBack(n: nat, width: nat)
    requires width >= 1 && n < Power(width)
    ensures Number(Pad(n, width)) == Some(n)
  {
    if width > 1 {
      PadReadsBack(n / 10, width - 1);
      assert Pad(n, width)[..width - 1] == Pad(n / 10, width - 1);
    }
  }

  lemma {:induction false} KeywordReadsBack(t: Moment)
    requires Valid(t)
    ensures Parse(Keyword(t)) == Some(t)
  {
    var rest := Keyword(t)[|PREFIX|..];
    assert rest == Pad(t.year, 4) + Pad(t.month, 2) + Pad(t.day, 2) + "T" + Pad(t.hour, 2) + Pad(t.minute, 2);
    assert rest[0..4] == Pad(t.year, 4) && rest[4..6] == Pad(t.month, 2) && rest[6..8] == Pad(t.day, 2);
    assert rest[9..11] == Pad(t.hour, 2) && rest[11..13] == Pad(t.minute, 2);
    assert Power(2) == 100 && Power(4) == 10000 by { assert Power(1) == 10 && Power(3) == 1000; }
    PadReadsBack(t.year, 4);
    PadReadsBack(t.month, 2);
    PadReadsBack(t.day, 2);
    PadReadsBack(t.hour, 2);
    PadReadsBack(t.minute, 2);
  }

  // ---------- texts compare as moments do ----------

  predicate Earlier(a: Moment, b: Moment) {
    || a.year < b.year
    || (a.year == b.year && (a.month < b.month
    || (a.month == b.month && (a.day < b.day
    || (a.day == b.day && (a.hour < b.hour
    || (a.hour == b.hour && a.minute < b.minute)))))))
  }

  lemma {:induction false} NotBeforeItself(a: string)
    ensures !TextBefore(a, a)
  {
    if a != "" {
      NotBeforeItself(a[1..]);
    }
  }

  /** Texts in two parts, the first ones of one length, compare by the first parts
      and then by the second. */
  lemma {:induction false} CompareInParts(a: string, b: string, c: string, d: string)
    requires |a| == |b|
    ensures TextBefore(a + c, b + d) <==> TextBefore(a, b) || (a == b && TextBefore(c, d))
  {
    if a == "" {
      assert a + c == c && b + d == d;
    } else {
      CompareInParts(a[1..], b[1..], c, d);
      assert (a + c)[1..] == a[1..] + c && (b + d)[1..] == b[1..] + d;
      assert a == b <==> a[0] == b[0] && a[1..] == b[1..];
    }
  }

  lemma {:induction false} OneDigit(m: nat, n: nat)
    requires m < 10 && n < 10
    ensures TextBefore([Digit(m)], [Digit(n)]) <==> m < n
    ensures [Digit(m)] == [Digit(n)] <==> m == n
  {
  }

  lemma {:induction false} PadCompares(m: nat, n: nat, width: nat)
    requires m < Power(width) && n < Power(width)
    ensures TextBefore(Pad(m, width), Pad(n, width)) <==> m < n
    ensures Pad(m, width) == Pad(n, width) <==> m == n
  {
    if width > 0 {
      PadCompares(m / 10, n / 10, width - 1);
      OneDigit(m % 10, n % 10);
      CompareInParts(Pad(m / 10, width - 1), Pad(n / 10, width - 1), [Digit(m % 10)], [Digit(n % 10)]);
      LastDigitDiffers(Pad(m / 10, width - 1), Pad(n / 10, width - 1), Digit(m % 10), Digit(n % 10));
    }
  }

  lemma {:induction false} LastDigitDiffers(a: string, b: string, c: char, d: char)
    requires |a| == |b|
    ensures a + [c] == b + [d] <==> a == b && c == d
  {
    if a + [c] == b + [d] {
      assert (a + [c])[..|a|] == a && (b + [d])[..|b|] == b;
      assert (a + [c])[|a|] == c && (b + [d])[|b|] == d;
    }
  }

  /** A field and the mark after it, then what follows. */
  lemma {:induction false} FieldCompares(m: nat, n: nat, width: nat, mark: string, c: string, d: string)
    requires m < Power(width) && n < Power(width)
    ensures TextBefore(Pad(m, width) + (mark + c), Pad(n, width) + (mark + d)) <==> m < n || (m == n && TextBefore(c, d))
  {
    PadCompares(m, n, width);
    CompareInParts(Pad(m, width), Pad(n, width), mark + c, mark + d);
    CompareInParts(mark, mark, c, d);
    NotBeforeItself(mark);
  }

  function ClockText(t: Moment): string {
    Pad(t.hour, 2) + (":" + Pad(t.minute, 2))
  }

  function DayText(t: Moment): string {
    Pad(t.day, 2) + ("T" + ClockText(t))
  }

  /** The order of the mirror's column is the order of the moments. */
  lemma {:induction false} ProjectionKeepsOrder(a: Moment, b: Moment)
    requires Valid(a) && Valid(b)
    ensures TextBefore(Projected(a), Projected(b)) <==> Earlier(a, b)
  {
    assert Power(2) == 100 && Power(4) == 10000 by { assert Power(1) == 10 && Power(3) == 1000; }
    InFields(a);
    InFields(b);
    FieldCompares(a.year, b.year, 4, "-", Pad(a.month, 2) + ("-" + DayText(a)), Pad(b.month, 2) + ("-" + DayText(b)));
    FieldCompares(a.month, b.month, 2, "-", DayText(a), DayText(b));
    FieldCompares(a.day, b.day, 2, "T", ClockText(a), ClockText(b));
    FieldCompares(a.hour, b.hour, 2, ":", Pad(a.minute, 2), Pad(b.minute, 2));
    PadCompares(a.minute, b.minute, 2);
  }

  lemma {:induction false} InFields(t: Moment)
    ensures Projected(t) == Pad(t.year, 4) + ("-" + (Pad(t.month, 2) + ("-" + DayText(t))))
  {
  }

  /** What the scan asks of a placement: its column, not after the text of now. A
      mail whose keyword names a moment is due by text exactly when it is by the
      clock. */
  predicate DueByText(flags: seq<string>, now: Moment) {
    OfFlags(flags).Some? && !TextBefore(Projected(now), Projected(OfFlags(flags).value))
  }

  lemma {:induction false} OfFlagsIsValid(flags: seq<string>)
    ensures OfFlags(flags).Some? ==> Valid(OfFlags(flags).value)
  {
    if flags != [] && Parse(flags[0]).None? {
      OfFlagsIsValid(flags[1..]);
    }
  }

  lemma {:induction false} DueByTextIsDue(flags: seq<string>, now: Moment)
    requires Valid(now)
    ensures DueByText(flags, now) <==> OfFlags(flags).Some? && !Earlier(now, OfFlags(flags).value)
  {
    OfFlagsIsValid(flags);
    if OfFlags(flags).Some? {
      ProjectionKeepsOrder(now, OfFlags(flags).value);
    }
  }
}
