/**
 * Calendar dates as the application steps and compares them: a date is the
 * number of days since 1970-01-01, as in section 21.4.1 of ECMA-262, and its
 * text is the full-date of section 5.6 of RFC 3339.
 */
module Calendar {
  import opened Prelude
  import opened Text

  type Day = int

  const MS_PER_DAY := 86_400_000

  /** 0 is Sunday, as `getUTCDay` numbers the weekdays. */
  function WeekdayOf(d: Day): (w: int)
    ensures 0 <= w < 7
  {
    (d + 4) % 7
  }

  function DayBefore(d: Day): Day {
    d - 1
  }

  predicate InRange(d: Day, first: Day, last: Day) {
    first <= d <= last
  }

  /** Every date of the inclusive range, in order. */
  function DatesInRange(start: Day, end: Day): (dates: seq<Day>)
    ensures |dates| == if start <= end then end - start + 1 else 0
    ensures forall i :: 0 <= i < |dates| ==> dates[i] == start + i
  {
    if end < start then [] else seq(end - start + 1, i => start + i)
  }

  datatype Civil = Civil(year: int, month: int, day: int)

  predicate Leap(year: int) {
    Divides(4, year) && (!Divides(100, year) || Divides(400, year))
  }

  function DaysInMonth(year: int, month: int): (n: int)
    requires 1 <= month <= 12
    ensures 28 <= n <= 31
  {
    if month == 2 then if Leap(year) then 29 else 28
    else if month == 4 || month == 6 || month == 9 || month == 11 then 30
    else 31
  }

  predicate Valid(c: Civil) {
    1 <= c.month <= 12 && 1 <= c.day <= DaysInMonth(c.year, c.month)
  }

  /** The day number of January 1st (DayFromYear in ECMA-262). */
  function DaysBeforeYear(year: int): int {
    365 * (year - 1970) + Quotient(year - 1969, 4) - Quotient(year - 1901, 100) + Quotient(year - 1601, 400)
  }

  function DaysBeforeMonth(year: int, month: int): (n: int)
    requires 1 <= month <= 12
    ensures n >= 0
  {
    if month == 1 then 0 else DaysBeforeMonth(year, month - 1) + DaysInMonth(year, month - 1)
  }

  function ToDay(c: Civil): Day
    requires Valid(c)
  {
    DaysBeforeYear(c.year) + DaysBeforeMonth(c.year, c.month) + c.day - 1
  }

  /** `setUTCDate(getUTCDate() + 1)`. */
  function Next(c: Civil): (n: Civil)
    requires Valid(c)
    ensures Valid(n)
  {
    if c.day < DaysInMonth(c.year, c.month) then c.(day := c.day + 1)
    else if c.month < 12 then Civil(c.year, c.month + 1, 1)
    else Civil(c.year + 1, 1, 1)
  }

  /** `setUTCDate(getUTCDate() - 1)`. */
  function Previous(c: Civil): (p: Civil)
    requires Valid(c)
    ensures Valid(p)
  {
    if c.day > 1 then c.(day := c.day - 1)
    else if c.month > 1 then Civil(c.year, c.month - 1, DaysInMonth(c.year, c.month - 1))
    else Civil(c.year - 1, 12, 31)
  }

  predicate CivilBefore(a: Civil, b: Civil) {
    a.year < b.year || (a.year == b.year && (a.month < b.month || (a.month == b.month && a.day < b.day)))
  }

  lemma YearLength(year: int)
    ensures DaysBeforeMonth(year, 12) + 31 == DaysBeforeYear(year + 1) - DaysBeforeYear(year)
  {
    var february := DaysInMonth(year, 2);
    assert DaysBeforeMonth(year, 2) == 31;
    assert DaysBeforeMonth(year, 4) == 62 + february;
    assert DaysBeforeMonth(year, 6) == 123 + february;
    assert DaysBeforeMonth(year, 8) == 184 + february;
    assert DaysBeforeMonth(year, 10) == 245 + february;
    LeapYearsCount(year);
  }

  lemma CenturiesAreFourths(year: int)
    ensures Divides(100, year) ==> Divides(4, year)
    ensures Divides(400, year) ==> Divides(100, year)
  {
  }

  lemma LeapYearsCount(year: int)
    ensures DaysBeforeYear(year + 1) - DaysBeforeYear(year) == if Leap(year) then 366 else 365
  {
    CenturiesAreFourths(year);
    hide Quotient, Divides;
    QuotientStep(year - 1, 4, 492);
    QuotientStep(year - 1, 100, 19);
    QuotientStep(year - 1, 400, 4);
  }

  lemma NextIsSuccessor(c: Civil)
    requires Valid(c)
    ensures ToDay(Next(c)) == ToDay(c) + 1
  {
    YearLength(c.year);
  }

  lemma PreviousIsPredecessor(c: Civil)
    requires Valid(c)
    ensures ToDay(Previous(c)) == DayBefore(ToDay(c))
  {
    YearLength(c.year - 1);
  }

  /** Stepping the calendar steps the day number: month ends, leap days and year ends included. */
  lemma SteppingIsSuccessor(c: Civil)
    requires Valid(c)
    ensures ToDay(Next(c)) == ToDay(c) + 1
    ensures ToDay(Previous(c)) == DayBefore(ToDay(c))
  {
    NextIsSuccessor(c);
    PreviousIsPredecessor(c);
  }

  lemma {:induction false} MonthOrder(year: int, m: int, n: int)
    requires 1 <= m < n <= 12
    ensures DaysBeforeMonth(year, m) + DaysInMonth(year, m) <= DaysBeforeMonth(year, n)
    decreases n
  {
    if m < n - 1 {
      MonthOrder(year, m, n - 1);
    }
  }

  lemma {:induction false} YearOrder(y: int, z: int)
    requires y < z
    ensures DaysBeforeYear(y + 1) <= DaysBeforeYear(z)
    decreases z - y
  {
  }

  lemma CivilBeforeIsLess(a: Civil, b: Civil)
    requires Valid(a) && Valid(b) && CivilBefore(a, b)
    ensures ToDay(a) < ToDay(b)
  {
    if a.year < b.year {
      YearOrder(a.year, b.year);
      YearLength(a.year);
      if a.month < 12 {
        MonthOrder(a.year, a.month, 12);
      }
    } else if a.month < b.month {
      MonthOrder(a.year, a.month, b.month);
    }
  }

  /** Day order is calendar order, so the day number determines the calendar date. */
  lemma DayOrder(a: Civil, b: Civil)
    requires Valid(a) && Valid(b)
    ensures ToDay(a) < ToDay(b) <==> CivilBefore(a, b)
    ensures ToDay(a) == ToDay(b) <==> a == b
  {
    if CivilBefore(a, b) {
      CivilBeforeIsLess(a, b);
    } else if CivilBefore(b, a) {
      CivilBeforeIsLess(b, a);
    } else {
      assert a == b;
    }
  }

  /** The calendar date of a day number, reached by stepping from the epoch. */
  function FromDay(d: Day): (c: Civil)
    ensures Valid(c)
    ensures ToDay(c) == d
    decreases if d < 0 then -d else d
  {
    if d == 0 then Civil(1970, 1, 1)
    else if d > 0 then
      var c := FromDay(d - 1);
      SteppingIsSuccessor(c);
      Next(c)
    else
      var c := FromDay(d + 1);
      SteppingIsSuccessor(c);
      Previous(c)
  }

  lemma FromDayInverse(c: Civil)
    requires Valid(c)
    ensures FromDay(ToDay(c)) == c
  {
    DayOrder(FromDay(ToDay(c)), c);
  }

  /** `toISOString().slice(0, 10)`, for the years that have four digits. */
  function DateString(c: Civil): (s: string)
    requires Valid(c) && 0 <= c.year <= 9999
    ensures |s| == 10
  {
    assert Power10(2) == 100 && Power10(4) == 100 * Power10(2);
    Fields(Pad(c.year, 4), Pad(c.month, 2), Pad(c.day, 2), '-')
  }

  /** Comparing two date strings compares the dates. */
  lemma DateStringOrder(a: Civil, b: Civil)
    requires Valid(a) && Valid(b) && 0 <= a.year <= 9999 && 0 <= b.year <= 9999
    ensures StringBefore(DateString(a), DateString(b)) <==> ToDay(a) < ToDay(b)
    ensures DateString(a) == DateString(b) <==> a == b
  {
    assert Power10(2) == 100 && Power10(4) == 100 * Power10(2);
    PadOrder(a.year, b.year, 4);
    PadOrder(a.month, b.month, 2);
    PadOrder(a.day, b.day, 2);
    FieldsOrder(Pad(a.year, 4), Pad(a.month, 2), Pad(a.day, 2),
                Pad(b.year, 4), Pad(b.month, 2), Pad(b.day, 2), '-');
    DayOrder(a, b);
  }

  /** `s` is the text of day `d`. */
  predicate PrintsAs(s: string, d: Day) {
    var c := FromDay(d);
    0 <= c.year <= 9999 && s == DateString(c)
  }

  lemma StepPrints(c: Civil, end: Civil)
    requires Valid(c) && Valid(end) && 0 <= c.year && end.year <= 9999
    requires ToDay(c) <= ToDay(end)
    ensures c.year <= 9999 && PrintsAs(DateString(c), ToDay(c))
    ensures 0 <= Next(c).year && ToDay(Next(c)) == ToDay(c) + 1
  {
    DayOrder(end, c);
    FromDayInverse(c);
    SteppingIsSuccessor(c);
  }

  /** The loop of `datesInRange`: it steps one calendar date in place and pushes its text. */
  method DatesInRangeLoop(start: Civil, end: Civil) returns (out: seq<string>)
    requires Valid(start) && Valid(end) && 0 <= start.year && end.year <= 9999
    ensures |out| == |DatesInRange(ToDay(start), ToDay(end))|
    ensures forall i :: 0 <= i < |out| ==> PrintsAs(out[i], DatesInRange(ToDay(start), ToDay(end))[i])
  {
    hide PrintsAs, ToDay, DateString;
    out := [];
    var cur := start;
    var t := ToDay(cur);
    var last := ToDay(end);
    ghost var first := t;
    while t <= last
      invariant Valid(cur) && 0 <= cur.year && t == ToDay(cur) && last == ToDay(end)
      invariant t == first + |out|
      invariant t <= last + 1 || out == []
      invariant forall i :: 0 <= i < |out| ==> PrintsAs(out[i], first + i)
      decreases last - t
    {
      StepPrints(cur, end);
      out := out + [DateString(cur)];
      cur := Next(cur);
      t := ToDay(cur);
    }
  }
}
