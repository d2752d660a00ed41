/** Counting the chargeable days of a leave range, and the date rules a submit must pass. */
module DayCount {
  import opened Prelude
  import opened Calendar
  import opened HalfDay

  /** Scheduled days within the inclusive range. */
  function CountAgainst(workdays: set<int>, start: Day, end: Day): (count: nat)
    decreases if end < start then 0 else end - start + 1
  {
    if end < start then 0
    else CountAgainst(workdays, start, end - 1) + (if WeekdayOf(end) in workdays then 1 else 0)
  }

  /** The loop of `countAgainst`, which steps a time in milliseconds. */
  method CountAgainstLoop(workdays: set<int>, start: Day, end: Day) returns (count: nat)
    ensures count == CountAgainst(workdays, start, end)
  {
    var last := end * MS_PER_DAY;
    count := 0;
    var t := start * MS_PER_DAY;
    ghost var d := start;
    while t <= last
      invariant t == d * MS_PER_DAY
      invariant start <= d && (d <= end + 1 || d == start)
      invariant count == CountAgainst(workdays, start, d - 1)
      decreases end - d
    {
      if WeekdayOf(t / MS_PER_DAY) in workdays {
        count := count + 1;
      }
      t := t + MS_PER_DAY;
      d := d + 1;
    }
  }

  function ScheduledDates(workdays: set<int>, dates: seq<Day>): seq<Day> {
    if dates == [] then []
    else
      var d := dates[|dates| - 1];
      ScheduledDates(workdays, dates[..|dates| - 1]) + (if WeekdayOf(d) in workdays then [d] else [])
  }

  /** The two date loops of the application agree: one counts what the other lists. */
  lemma {:induction false} CountsTheListedDates(workdays: set<int>, start: Day, end: Day)
    ensures CountAgainst(workdays, start, end) == |ScheduledDates(workdays, DatesInRange(start, end))|
    decreases if end < start then 0 else end - start + 1
  {
    if start <= end {
      CountsTheListedDates(workdays, start, end - 1);
      assert DatesInRange(start, end)[..end - start] == DatesInRange(start, end - 1);
    }
  }

  /** Splitting a range splits its count. */
  lemma {:induction false} CountSplits(workdays: set<int>, start: Day, middle: Day, end: Day)
    requires start <= middle + 1 && middle <= end
    ensures CountAgainst(workdays, start, end)
            == CountAgainst(workdays, start, middle) + CountAgainst(workdays, middle + 1, end)
    decreases end - middle
  {
    if middle < end {
      CountSplits(workdays, start, middle, end - 1);
    }
  }

  /** The scheduled weekdays among the first `n` of the week. */
  function WeekdaysBelow(workdays: set<int>, n: nat): set<int> {
    set w | 0 <= w < n && w in workdays
  }

  lemma {:induction false} CountFromSunday(workdays: set<int>, sunday: Day, n: nat)
    requires WeekdayOf(sunday) == 0 && n <= 7
    ensures CountAgainst(workdays, sunday, sunday + n - 1) == |WeekdaysBelow(workdays, n)|
  {
    if n > 0 {
      CountFromSunday(workdays, sunday, n - 1);
      assert WeekdayOf(sunday + n - 1) == n - 1;
      assert WeekdaysBelow(workdays, n)
          == WeekdaysBelow(workdays, n - 1) + (if n - 1 in workdays then {n - 1} else {});
    }
  }

  /** Any seven consecutive days hold each scheduled weekday once. */
  lemma {:induction false} CountOfAWeek(workdays: set<int>, start: Day)
    ensures CountAgainst(workdays, start, start + 6) == |WeekdaysBelow(workdays, 7)|
    decreases WeekdayOf(start)
  {
    if WeekdayOf(start) == 0 {
      CountFromSunday(workdays, start, 7);
    } else {
      CountOfAWeek(workdays, start - 1);
      CountSplits(workdays, start - 1, start - 1, start + 6);
      assert WeekdayOf(start + 6) == WeekdayOf(start - 1);
      assert CountAgainst(workdays, start - 1, start - 1)
          == CountAgainst(workdays, start - 1, start - 2) + (if WeekdayOf(start - 1) in workdays then 1 else 0);
      assert CountAgainst(workdays, start, start + 6)
          == CountAgainst(workdays, start, start + 5) + (if WeekdayOf(start + 6) in workdays then 1 else 0);
      CountSplits(workdays, start - 1, start - 1, start + 5);
    }
  }

  lemma {:induction false} CountOfWeeks(workdays: set<int>, start: Day, weeks: nat)
    ensures CountAgainst(workdays, start, start + 7 * weeks - 1) == weeks * |WeekdaysBelow(workdays, 7)|
  {
    if weeks > 0 {
      var k := |WeekdaysBelow(workdays, 7)|;
      CountOfWeeks(workdays, start, weeks - 1);
      CountOfAWeek(workdays, start + 7 * (weeks - 1));
      assert weeks * k == (weeks - 1) * k + k;
      hide CountAgainst, WeekdaysBelow;
      CountSplits(workdays, start, start + 7 * (weeks - 1) - 1, start + 7 * weeks - 1);
    }
  }

  lemma WeeksAndRest(workdays: set<int>, start: Day, weeks: nat, rest: nat, k: nat)
    requires rest < 7 && k == |WeekdaysBelow(workdays, 7)|
    ensures var count := CountAgainst(workdays, start, start + 7 * weeks + rest - 1);
            weeks * k <= count <= (if rest == 0 then weeks * k else weeks * k + k)
  {
    var first := start + 7 * weeks;
    CountOfWeeks(workdays, start, weeks);
    CountSplits(workdays, start, first - 1, first + rest - 1);
    CountOfAWeek(workdays, first);
    CountSplits(workdays, first, first + rest - 1, first + 6);
  }

  /** `n` days hold between floor(n/7) and ceil(n/7) of each of the scheduled weekdays. */
  lemma CountBounds(workdays: set<int>, start: Day, n: nat)
    ensures var count, k := CountAgainst(workdays, start, start + n - 1), |WeekdaysBelow(workdays, 7)|;
            (n / 7) * k <= count <= ((n + 6) / 7) * k
  {
    var q, k := n / 7, |WeekdaysBelow(workdays, 7)|;
    assert n == 7 * q + n % 7;
    WeeksAndRest(workdays, start, q, n % 7, k);
    if n % 7 == 0 {
      assert (n + 6) / 7 == q;
    } else {
      assert (n + 6) / 7 == q + 1;
      assert (q + 1) * k == q * k + k;
    }
  }

  datatype LeaveType = Vacation | Sick | Bereavement | Birthday | Emergency

  /** One active work-schedule row of the employee, as the table's checks let it be. */
  datatype ActiveDay = ActiveDay(weekday: int, window: WorkWindow)

  predicate TableRow(r: ActiveDay) {
    0 <= r.weekday < 7 && ValidWindow(r.window) && r.window.expectedOut <= 86_400
  }

  datatype RangeError =
    EndBeforeStart | StartInPast | StartNotWorkday | EndNotWorkday | HalfDayNotSingle | WholeDayOnly

  /** Working days are kept in halves: a half-day request charges 1, a full day 2. */
  datatype SubmittableRange =
    SubmittableRange(halfDays: nat, startTime: Option<string>, endTime: Option<string>)

  function Workdays(rows: seq<ActiveDay>): set<int> {
    set i | 0 <= i < |rows| :: rows[i].weekday
  }

  /** `assertSubmittableRange`, rule by rule in the order it checks them. */
  function AssertSubmittableRange(rows: seq<ActiveDay>, today: Day, start: Day, end: Day, portion: Portion,
                                  leaveType: Option<LeaveType>): (r: Result<SubmittableRange, RangeError>)
    requires forall r :: r in rows ==> TableRow(r)
  {
    if end < start then Err(EndBeforeStart)
    else if start < today then Err(StartInPast)
    else if WeekdayOf(start) !in Workdays(rows) then Err(StartNotWorkday)
    else if WeekdayOf(end) !in Workdays(rows) then Err(EndNotWorkday)
    else if portion != Full then
      if start != end then Err(HalfDayNotSingle)
      else if leaveType == Some(Birthday) then Err(WholeDayOnly)
      else
        var row := RowFor(rows, WeekdayOf(start));
        assert row in rows && TableRow(row);
        Ok(SubmittableRange(1, StoredStart(row.window, portion), StoredEnd(row.window, portion)))
    else Ok(SubmittableRange(2 * CountAgainst(Workdays(rows), start, end), None, None))
  }

  function RowFor(rows: seq<ActiveDay>, weekday: int): (r: ActiveDay)
    requires weekday in Workdays(rows)
    ensures r in rows && r.weekday == weekday
  {
    var i := FirstIndex(rows, (r: ActiveDay) => r.weekday == weekday);
    rows[i.value]
  }

  /**
   * A range is accepted exactly when it is ordered, not in the past, begins and
   * ends on scheduled days and, for a half, is one day of a divisible leave
   * type. Every accepted request then charges something: half a day for a
   * half, and otherwise each scheduled date of the range, of which there are
   * at least two when the range has two ends.
   */
  lemma AcceptedRangesCharge(rows: seq<ActiveDay>, today: Day, start: Day, end: Day, portion: Portion,
                             leaveType: Option<LeaveType>)
    requires forall r :: r in rows ==> TableRow(r)
    ensures var r := AssertSubmittableRange(rows, today, start, end, portion, leaveType);
            && (r.Ok? <==>
                  && today <= start <= end
                  && WeekdayOf(start) in Workdays(rows) && WeekdayOf(end) in Workdays(rows)
                  && (portion != Full ==> start == end && leaveType != Some(Birthday)))
            && (r.Ok? && portion != Full ==> r.value.halfDays == 1)
            && (r.Ok? && portion == Full ==>
                  && r.value.halfDays == 2 * |ScheduledDates(Workdays(rows), DatesInRange(start, end))|
                  && r.value.halfDays >= (if start == end then 2 else 4))
  {
    var workdays := Workdays(rows);
    CountsTheListedDates(workdays, start, end);
    if start <= end && WeekdayOf(start) in workdays && WeekdayOf(end) in workdays {
      CountSplits(workdays, start, start, end);
      assert CountAgainst(workdays, start, start) == CountAgainst(workdays, start, start - 1) + 1;
    }
  }

  /** Which rule a refused range is told about: each one only when those before it hold. */
  lemma RefusedRangesSayWhy(rows: seq<ActiveDay>, today: Day, start: Day, end: Day, portion: Portion,
                            leaveType: Option<LeaveType>)
    requires forall r :: r in rows ==> TableRow(r)
    ensures var r := AssertSubmittableRange(rows, today, start, end, portion, leaveType);
            var startsWell := exists i :: 0 <= i < |rows| && rows[i].weekday == WeekdayOf(start);
            var endsWell := exists i :: 0 <= i < |rows| && rows[i].weekday == WeekdayOf(end);
            && (r == Err(EndBeforeStart) <==> end < start)
            && (r == Err(StartInPast) <==> start <= end && start < today)
            && (r == Err(StartNotWorkday) <==> today <= start <= end && !startsWell)
            && (r == Err(EndNotWorkday) <==> today <= start <= end && startsWell && !endsWell)
            && (r == Err(HalfDayNotSingle) <==>
                  today <= start <= end && startsWell && endsWell && portion != Full && start < end)
            && (r == Err(WholeDayOnly) <==>
                  today <= start == end && startsWell && portion != Full && leaveType == Some(Birthday))
  {
  }

  /** What an accepted half-day stores can be loaded again whenever that weekday has two seconds of work. */
  lemma AcceptedHalfDaysReload(rows: seq<ActiveDay>, today: Day, start: Day, end: Day, portion: Portion,
                               leaveType: Option<LeaveType>)
    requires forall r :: r in rows ==> TableRow(r) && WorkSeconds(r.window) >= 2
    ensures var r := AssertSubmittableRange(rows, today, start, end, portion, leaveType);
            r.Ok? ==> AcceptsOnReload(portion, r.value.startTime, r.value.endTime)
  {
    var r := AssertSubmittableRange(rows, today, start, end, portion, leaveType);
    if r.Ok? && portion != Full {
      StoredHalfReloads(RowFor(rows, WeekdayOf(start)).window, portion);
    }
  }
}
