/** The seeded leave rows of one employee: weekday stepping and a spread of disjoint requests. */
module SeedLeaveRows {
  import opened Prelude
  import opened Calendar
  import opened HalfDay
  import opened DayCount
  import opened ApprovalMachine

  /** Monday to Friday. */
  const WORK_WEEK := {1, 2, 3, 4, 5}

  predicate IsWeekday(d: Day) {
    WeekdayOf(d) in WORK_WEEK
  }

  /** Days until the next weekday after `d`. */
  function Wait(d: Day): (n: nat)
    ensures n >= 1 && IsWeekday(d + n) && forall x :: d < x < d + n ==> !IsWeekday(x)
  {
    if WeekdayOf(d) == 5 then 3 else if WeekdayOf(d) == 6 then 2 else 1
  }

  /** The weekday on or after `base` that has exactly `offset` weekdays before it. */
  function NthWeekday(base: Day, offset: nat): Day {
    if offset == 0 then if IsWeekday(base) then base else base + Wait(base)
    else NthWeekday(base, offset - 1) + Wait(NthWeekday(base, offset - 1))
  }

  lemma {:induction false} NoWeekdayNoCount(start: Day, end: Day)
    requires forall d :: start <= d <= end ==> !IsWeekday(d)
    ensures CountAgainst(WORK_WEEK, start, end) == 0
    decreases end - start
  {
    if start <= end {
      assert !IsWeekday(end);
      NoWeekdayNoCount(start, end - 1);
    }
  }

  /** The range up to the next weekday holds exactly one. */
  lemma OneInTheWait(d: Day)
    ensures CountAgainst(WORK_WEEK, d + 1, d + Wait(d)) == 1
  {
    NoWeekdayNoCount(d + 1, d + Wait(d) - 1);
  }

  lemma {:induction false} NthIsTheNth(base: Day, offset: nat)
    ensures var d := NthWeekday(base, offset);
            base <= d && IsWeekday(d) && CountAgainst(WORK_WEEK, base, d) == offset + 1
  {
    if offset > 0 {
      var before := NthWeekday(base, offset - 1);
      NthIsTheNth(base, offset - 1);
      CountSplits(WORK_WEEK, base, before, before + Wait(before));
      OneInTheWait(before);
    } else if !IsWeekday(base) {
      CountSplits(WORK_WEEK, base, base, base + Wait(base));
      OneInTheWait(base);
      assert CountAgainst(WORK_WEEK, base, base - 1) == 0;
      assert CountAgainst(WORK_WEEK, base, base) == 0;
    } else {
      assert CountAgainst(WORK_WEEK, base, base - 1) == 0;
    }
  }

  lemma {:induction false} NthIncreases(base: Day, m: nat, n: nat)
    requires m < n
    ensures NthWeekday(base, m) < NthWeekday(base, n)
  {
    if m < n - 1 {
      NthIncreases(base, m, n - 1);
    }
  }

  /** Counts grow with the range, strictly at every weekday. */
  lemma {:induction false} CountGrows(start: Day, d: Day, e: Day)
    requires start <= d < e && IsWeekday(e)
    ensures CountAgainst(WORK_WEEK, start, d) < CountAgainst(WORK_WEEK, start, e)
  {
    CountSplits(WORK_WEEK, start, d, e);
  }

  /** No weekday is skipped: every one on or after `base` is reached by its own count. */
  lemma NoWeekdayIsSkipped(base: Day, d: Day)
    requires base <= d && IsWeekday(d)
    ensures CountAgainst(WORK_WEEK, base, d) >= 1
    ensures NthWeekday(base, CountAgainst(WORK_WEEK, base, d) - 1) == d
  {
    var n := CountAgainst(WORK_WEEK, base, d) - 1;
    var found := NthWeekday(base, n);
    NthIsTheNth(base, n);
    if found < d {
      CountGrows(base, found, d);
    } else if d < found {
      CountGrows(base, d, found);
    }
  }

  /** From the `m`-th to the `n`-th weekday there are n - m + 1 of them. */
  lemma CountBetween(base: Day, m: nat, n: nat)
    requires m <= n
    ensures CountAgainst(WORK_WEEK, NthWeekday(base, m), NthWeekday(base, n)) == n - m + 1
    ensures NthWeekday(base, m) <= NthWeekday(base, n)
  {
    var first, last := NthWeekday(base, m), NthWeekday(base, n);
    NthIsTheNth(base, m);
    NthIsTheNth(base, n);
    if m < n {
      NthIncreases(base, m, n);
    }
    CountSplits(WORK_WEEK, base, first - 1, last);
    assert CountAgainst(WORK_WEEK, base, first) == CountAgainst(WORK_WEEK, base, first - 1) + 1;
  }

  lemma OrWeekend(d: Day)
    ensures IsWeekday(d) <==> WeekdayOf(d) != 0 && WeekdayOf(d) != 6
  {
  }

  /** The two loops of `nthWeekday`; both terminate and together find the `offset`-th weekday. */
  method NthWeekdayByLoops(base: Day, offset: nat) returns (d: Day)
    ensures d == NthWeekday(base, offset)
  {
    hide WeekdayOf, IsWeekday, Wait;
    d := base;
    while WeekdayOf(d) == 0 || WeekdayOf(d) == 6
      invariant base <= d && (IsWeekday(base) ==> d == base)
      invariant !IsWeekday(base) ==> d <= base + Wait(base)
      decreases base + Wait(base) - d
    {
      OrWeekend(d);
      d := d + 1;
    }
    OrWeekend(d);
    var added := 0;
    ghost var at := d;
    while added < offset
      invariant added <= offset && at == NthWeekday(base, added)
      invariant at <= d < at + Wait(at) && (added == offset ==> d == at)
      decreases offset - added, at + Wait(at) - d
    {
      d := d + 1;
      OrWeekend(d);
      if WeekdayOf(d) != 0 && WeekdayOf(d) != 6 {
        added := added + 1;
        at := d;
      }
    }
  }

  // ----- the rows -----

  /** A date and an hour of it. */
  datatype Moment = Moment(day: Day, hour: nat)

  datatype LeaveSpec = LeaveSpec(
    employee: int, leaveType: LeaveType, start: Day, end: Day, halfDays: nat, portion: Portion, status: Status,
    submittedAt: Moment, decidedAt: Option<Moment>, decidedBy: Option<int>, cancelledAt: Option<Moment>,
    cancelledBy: Option<int>, needsAttachment: bool)

  datatype BuildInput = BuildInput(
    employee: int, l1: int, l2: Option<int>, base: Day, withAttachment: bool, variant: nat)

  function L1Type(input: BuildInput): LeaveType {
    if input.withAttachment then Sick
    else [Vacation, Birthday, Vacation, Emergency][input.variant % 4]
  }

  predicate HalfDayOk(t: LeaveType) {
    t == Vacation || t == Sick || t == Emergency
  }

  predicate MultiDayOk(t: LeaveType) {
    t == Vacation || t == Sick
  }

  /** A row that charges what its span holds: whole weekdays, or half of a single one. */
  predicate ChargesItsSpan(r: LeaveSpec) {
    && IsWeekday(r.start) && IsWeekday(r.end) && r.start <= r.end
    && (r.portion == Full ==> r.halfDays == 2 * CountAgainst(WORK_WEEK, r.start, r.end))
    && (r.portion != Full ==> r.start == r.end && r.halfDays == 1)
  }

  /** The decision fields say exactly what the status says. */
  predicate StatusExplained(r: LeaveSpec, input: BuildInput) {
    && r.decidedBy == (if r.status == Approved || r.status == Rejected
                       then Some(if input.l2.Some? then input.l2.value else input.l1) else None)
    && r.decidedAt.Some? == r.decidedBy.Some?
    && r.cancelledBy == (if r.status == Cancelled then Some(input.employee) else None)
    && r.cancelledAt.Some? == r.cancelledBy.Some?
    && (r.status == PendingL2 ==> input.l2.Some?)
    && (r.status == Approved ==> r.leaveType == Sick || r.leaveType == Vacation)
  }

  /** What a row of each status is: its type, its place in the block and its stamps. */
  predicate AsDescribed(r: LeaveSpec, input: BuildInput) {
    && r.employee == input.employee
    && r.start == NthWeekday(input.base, input.variant % 8 + (match r.status
                                                              case PendingL1 => 0
                                                              case PendingL2 => 2
                                                              case Approved => 4
                                                              case _ => 6))
    && r.leaveType == (match r.status
                       case PendingL1 =>
                         if input.withAttachment then Sick
                         else if input.variant % 4 == 1 then Birthday
                         else if input.variant % 4 == 3 then Emergency
                         else Vacation
                       case PendingL2 => Vacation
                       case Approved => if input.withAttachment then Sick else Vacation
                       case Rejected => if input.withAttachment then Bereavement else Birthday
                       case Cancelled => Emergency)
    && r.portion == (if r.status == PendingL1 && input.variant % 5 == 0 && r.leaveType != Birthday
                     then FirstHalf else Full)
    && r.halfDays == (if r.portion == FirstHalf then 1 else if r.start < r.end then 4 else 2)
    && (r.start < r.end <==>
          r.status == PendingL1 && input.variant % 5 == 1 && (r.leaveType == Vacation || r.leaveType == Sick))
    && r.submittedAt == Moment(r.start, 8)
    && (r.decidedAt.Some? ==> r.decidedAt == Some(Moment(r.start, 9)))
    && (r.cancelledAt.Some? ==> r.cancelledAt == Some(Moment(r.start, 7)))
    && r.needsAttachment == (r.leaveType == Sick || r.leaveType == Bereavement)
  }

  /** A whole single day after the first row is as described when its type and place are. */
  lemma SingleIsDescribed(r: LeaveSpec, input: BuildInput)
    requires r.employee == input.employee && r.portion == Full && r.halfDays == 2 && r.start == r.end
    requires r.submittedAt == Moment(r.start, 8)
    requires r.needsAttachment == (r.leaveType == Sick || r.leaveType == Bereavement)
    requires r.decidedAt.Some? ==> r.decidedAt == Some(Moment(r.start, 9))
    requires r.cancelledAt.Some? ==> r.cancelledAt == Some(Moment(r.start, 7))
    requires r.status != PendingL1
    requires match r.status
             case PendingL2 => r.leaveType == Vacation && r.start == NthWeekday(input.base, input.variant % 8 + 2)
             case Approved =>
               && r.leaveType == (if input.withAttachment then Sick else Vacation)
               && r.start == NthWeekday(input.base, input.variant % 8 + 4)
             case Rejected =>
               && r.leaveType == (if input.withAttachment then Bereavement else Birthday)
               && r.start == NthWeekday(input.base, input.variant % 8 + 6)
             case _ => r.leaveType == Emergency && r.start == NthWeekday(input.base, input.variant % 8 + 6)
    ensures AsDescribed(r, input)
  {
  }

  /** The first row varies with the employee's place. */
  lemma FirstIsDescribed(r: LeaveSpec, input: BuildInput)
    requires r.employee == input.employee && r.status == PendingL1 && r.leaveType == L1Type(input)
    requires r.start == NthWeekday(input.base, input.variant % 8)
    requires r.portion == if input.variant % 5 == 0 && HalfDayOk(r.leaveType) then FirstHalf else Full
    requires r.start < r.end <==> input.variant % 5 == 1 && MultiDayOk(r.leaveType)
    requires r.halfDays == if r.portion == FirstHalf then 1 else if r.start < r.end then 4 else 2
    requires r.submittedAt == Moment(r.start, 8) && r.decidedAt.None? && r.cancelledAt.None?
    requires r.needsAttachment == (r.leaveType == Sick || r.leaveType == Bereavement)
    ensures AsDescribed(r, input)
  {
    hide NthWeekday;
  }

  class LeaveRowBuilder {
    /** The inner `row`: an undecided request over a span of weekdays. */
    static method Row(input: BuildInput, leaveType: LeaveType, from: nat, to: nat, halfDays: nat, portion: Portion,
        status: Status)
      returns (r: LeaveSpec)
      ensures r == LeaveSpec(
                input.employee, leaveType, NthWeekday(input.base, from), NthWeekday(input.base, to), halfDays, portion,
                status, Moment(NthWeekday(input.base, from), 8), None, None, None, None,
                leaveType == Sick || leaveType == Bereavement)
    {
      var start := NthWeekdayByLoops(input.base, from);
      var end := NthWeekdayByLoops(input.base, to);
      return LeaveSpec(
          input.employee, leaveType, start, end, halfDays, portion, status, Moment(start, 8), None, None, None, None,
          leaveType == Sick || leaveType == Bereavement);
    }

    static method Decided(input: BuildInput, row: LeaveSpec) returns (r: LeaveSpec)
      ensures r == row.(decidedAt := Some(Moment(row.start, 9)),
                        decidedBy := Some(if input.l2.Some? then input.l2.value else input.l1))
    {
      var finalApprover := if input.l2.Some? then input.l2.value else input.l1;
      r := row.(decidedAt := Some(Moment(row.start, 9)), decidedBy := Some(finalApprover));
    }

    /** The first row's duration varies with the employee. */
    static method PendingRow(input: BuildInput) returns (r: LeaveSpec)
      ensures ChargesItsSpan(r) && StatusExplained(r, input) && AsDescribed(r, input)
      ensures r.status == PendingL1 && r.start == NthWeekday(input.base, input.variant % 8)
      ensures r.end <= NthWeekday(input.base, input.variant % 8 + 1)
    {
      var leaveType := L1Type(input);
      var base, slot := input.variant % 8, input.variant % 5;
      var halfDays, portion, to := 2, Full, base;
      if slot == 0 && HalfDayOk(leaveType) {
        portion, halfDays := FirstHalf, 1;
      } else if slot == 1 && MultiDayOk(leaveType) {
        halfDays, to := 4, base + 1;
      }
      r := Row(input, leaveType, base, to, halfDays, portion, PendingL1);
      NthIsTheNth(input.base, base);
      NthIsTheNth(input.base, to);
      CountBetween(input.base, base, to);
      NthIncreases(input.base, base, base + 1);
      assert ChargesItsSpan(r) && (r.start < r.end <==> to == base + 1);
      hide ChargesItsSpan, NthWeekday, AsDescribed, L1Type;
      FirstIsDescribed(r, input);
    }

    /** A whole single day, decided or not. */
    static method SingleDay(input: BuildInput, leaveType: LeaveType, offset: nat, status: Status)
      returns (r: LeaveSpec)
      requires status == Approved ==> leaveType == Sick || leaveType == Vacation
      requires status == PendingL2 ==> input.l2.Some?
      ensures ChargesItsSpan(r) && StatusExplained(r, input) && r.employee == input.employee
      ensures r.leaveType == leaveType && r.status == status && r.portion == Full && r.halfDays == 2
      ensures r.start == r.end == NthWeekday(input.base, offset)
      ensures r.submittedAt == Moment(r.start, 8)
      ensures r.decidedAt.Some? ==> r.decidedAt == Some(Moment(r.start, 9))
      ensures r.cancelledAt.Some? ==> r.cancelledAt == Some(Moment(r.start, 7))
      ensures r.needsAttachment == (leaveType == Sick || leaveType == Bereavement)
    {
      r := Row(input, leaveType, offset, offset, 2, Full, status);
      if status == Approved || status == Rejected {
        r := Decided(input, r);
      } else if status == Cancelled {
        r := r.(cancelledAt := Some(Moment(r.start, 7)), cancelledBy := Some(input.employee));
      }
      NthIsTheNth(input.base, offset);
      CountBetween(input.base, offset, offset);
    }

    /**
     * `buildLeaveRows`, for any base date and index: the rows' spans follow one
     * another without touching, and each charges exactly the weekdays it spans.
     */
    static method Build(input: BuildInput) returns (rows: seq<LeaveSpec>)
      ensures |rows| == (if input.l2.Some? then 4 else 3) && rows[0].status == PendingL1
      ensures input.l2.Some? ==> rows[1].status == PendingL2
      ensures rows[|rows| - 2].status == Approved
      ensures rows[|rows| - 1].status
              == if !input.withAttachment && input.employee % 2 == 0 then Cancelled else Rejected
      ensures forall i :: 0 <= i < |rows| ==>
                AsDescribed(rows[i], input) && ChargesItsSpan(rows[i]) && StatusExplained(rows[i], input)
      ensures forall i, j :: 0 <= i < j < |rows| ==> rows[i].end < rows[j].start
    {
      hide ChargesItsSpan, StatusExplained, NthWeekday, L1Type, AsDescribed;
      var base := input.variant % 8;
      var first := PendingRow(input);
      rows := [first];
      if input.l2.Some? {
        var second := SingleDay(input, Vacation, base + 2, PendingL2);
        SingleIsDescribed(second, input);
        rows := rows + [second];
      }
      var approved := SingleDay(input, if input.withAttachment then Sick else Vacation, base + 4, Approved);
      SingleIsDescribed(approved, input);
      rows := rows + [approved];
      var last;
      if input.withAttachment {
        last := SingleDay(input, Bereavement, base + 6, Rejected);
      } else if input.employee % 2 == 0 {
        last := SingleDay(input, Emergency, base + 6, Cancelled);
      } else {
        last := SingleDay(input, Birthday, base + 6, Rejected);
      }
      SingleIsDescribed(last, input);
      rows := rows + [last];
      NthIncreases(input.base, base + 1, base + 2);
      NthIncreases(input.base, base + 2, base + 4);
      NthIncreases(input.base, base + 4, base + 6);
    }
  }
}
