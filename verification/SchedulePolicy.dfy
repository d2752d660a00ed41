/** The pure decisions of the schedule-change cascade: how a row is versioned and which requests it cancels. */
module SchedulePolicy {
  import opened Prelude
  import opened Calendar
  import opened HalfDay
  import opened ApprovalMachine
  import opened LeaveTables

  /** A weekly schedule row; the row's position in its table is its id. */
  datatype ScheduleRow = ScheduleRow(
    employee: int, weekday: int, window: WorkWindow, from: Day, to: Option<Day>, deleted: bool)

  datatype Mode = Modify | Remove

  datatype Intent = Intent(
    employee: int, weekday: int, from: Day, mode: Mode,
    expectedIn: Option<nat>, expectedOut: Option<nat>, breakMinutes: Option<int>, breakStart: Option<nat>)

  datatype Versioning = Create | EndAndCreate | Replace | EndOnly | DeleteOnly | Noop

  function PlanVersioning(live: Option<ScheduleRow>, intent: Intent): Versioning {
    var unstarted := live.Some? && live.value.from >= intent.from;
    if intent.mode == Remove then
      if live.None? then Noop else if unstarted then DeleteOnly else EndOnly
    else
      if live.None? then Create else if unstarted then Replace else EndAndCreate
  }

  predicate WindowChanged(live: ScheduleRow, intent: Intent) {
    intent.mode == Remove
    || intent.expectedIn != Some(live.window.expectedIn) || intent.expectedOut != Some(live.window.expectedOut)
  }

  predicate BreakChanged(live: ScheduleRow, intent: Intent) {
    intent.mode == Remove
    || intent.breakMinutes != Some(live.window.breakMinutes) || intent.breakStart != live.window.breakStart
  }

  /** The dates a change governs: on its weekday, on or after its first day. */
  predicate Governed(d: Day, intent: Intent) {
    d >= intent.from && WeekdayOf(d) == intent.weekday
  }

  function GovernedDates(dates: seq<Day>, intent: Intent): (governed: seq<Day>)
    ensures forall i :: 0 <= i < |governed| ==> governed[i] in dates && Governed(governed[i], intent)
    ensures forall d :: d in dates && Governed(d, intent) ==> d in governed
  {
    if dates == [] then []
    else
      var rest := GovernedDates(dates[1..], intent);
      if Governed(dates[0], intent) then [dates[0]] + rest else rest
  }

  function Least(dates: seq<Day>): (d: Day)
    requires dates != []
    ensures d in dates && forall x :: x in dates ==> d <= x
  {
    if |dates| == 1 then dates[0]
    else
      assert dates == dates[..|dates| - 1] + [dates[|dates| - 1]];
      var (a, b) := (Least(dates[..|dates| - 1]), dates[|dates| - 1]);
      if a < b then a else b
  }

  function Greatest(dates: seq<Day>): (d: Day)
    requires dates != []
    ensures d in dates && forall x :: x in dates ==> x <= d
  {
    if |dates| == 1 then dates[0]
    else
      assert dates == dates[..|dates| - 1] + [dates[|dates| - 1]];
      var (a, b) := (Greatest(dates[..|dates| - 1]), dates[|dates| - 1]);
      if a > b then a else b
  }

  datatype Temporal = Past | Present | Future

  function TemporalClass(dates: seq<Day>, today: Day): Temporal
    requires dates != []
  {
    if Greatest(dates) < today then Past
    else if Least(dates) > today then Future
    else Present
  }

  datatype Decision = CancelIt | KeepIt

  function Classify(temporal: Temporal, status: Status): Decision {
    if temporal == Past then KeepIt
    else if status.Pending() then CancelIt
    else if temporal == Future then CancelIt
    else KeepIt
  }

  datatype Affected = Affected(dates: seq<Day>, triggers: seq<Day>, temporal: Temporal, decision: Decision)

  function EvaluateLeave(leave: LeaveRow, live: Option<ScheduleRow>, intent: Intent, today: Day): Option<Affected>
  {
    var dates := DatesInRange(leave.start, leave.end);
    var triggers := GovernedDates(dates, intent);
    if triggers == [] then None
    else
      var affected :=
        if intent.mode == Remove then true
        else if leave.portion != Full then
          live.Some? && (WindowChanged(live.value, intent) || BreakChanged(live.value, intent))
        else false;
      if !affected then None
      else
        assert triggers[0] in dates;
        var temporal := TemporalClass(dates, today);
        Some(Affected(dates, triggers, temporal, Classify(temporal, leave.request.status)))
  }

  datatype CorrectionRow = CorrectionRow(workDate: Day, request: Request)

  function EvaluateCorrection(c: CorrectionRow, live: Option<ScheduleRow>, intent: Intent, today: Day)
    : Option<Affected>
  {
    var triggers := GovernedDates([c.workDate], intent);
    if triggers == [] then None
    else if intent.mode == Remove || (live.Some? && WindowChanged(live.value, intent)) then
      var temporal := TemporalClass([c.workDate], today);
      Some(Affected([c.workDate], triggers, temporal, Classify(temporal, c.request.status)))
    else None
  }

  predicate Cancels(a: Option<Affected>) {
    a.Some? && a.value.decision == CancelIt
  }

  /** The change hits this leave: removal hits any, a new window or break only a half day. */
  predicate HitsLeave(leave: LeaveRow, live: Option<ScheduleRow>, intent: Intent) {
    || intent.mode == Remove
    || (leave.portion != Full && live.Some?
        && !(&& intent.expectedIn == Some(live.value.window.expectedIn)
             && intent.expectedOut == Some(live.value.window.expectedOut)
             && intent.breakMinutes == Some(live.value.window.breakMinutes)
             && intent.breakStart == live.value.window.breakStart))
  }

  /** Every seventh date from `X` on is governed; the leave has one exactly when the first such date fits. */
  function FirstGoverned(leave: LeaveRow, intent: Intent): (d: Day)
    requires 0 <= intent.weekday < 7
    ensures Governed(d, intent) && leave.start <= d
    ensures forall x :: x >= leave.start && Governed(x, intent) ==> d <= x
  {
    var base := if leave.start < intent.from then intent.from else leave.start;
    NextOfWeekday(base, intent.weekday);
    base + (intent.weekday - WeekdayOf(base)) % 7
  }

  /** The least date of a weekday on or after `base`. */
  lemma NextOfWeekday(base: Day, weekday: int)
    requires 0 <= weekday < 7
    ensures var d := base + (weekday - WeekdayOf(base)) % 7;
            base <= d < base + 7 && WeekdayOf(d) == weekday
    ensures forall x :: base <= x && WeekdayOf(x) == weekday ==> base + (weekday - WeekdayOf(base)) % 7 <= x
  {
    var (w, q) := (WeekdayOf(base), (base + 4) / 7);
    var wait := if w <= weekday then weekday - w else weekday - w + 7;
    DivModUnique(weekday - w, 7, if w <= weekday then 0 else -1, wait);
    DivModUnique(base + wait + 4, 7, if w <= weekday then q else q + 1, weekday);
    forall x | base <= x < base + wait
      ensures WeekdayOf(x) != weekday
    {
      var r := w + (x - base);
      DivModUnique(x + 4, 7, if r < 7 then q else q + 1, if r < 7 then r else r - 7);
    }
  }

  lemma TemporalOfRange(start: Day, end: Day, today: Day)
    requires start <= end
    ensures TemporalClass(DatesInRange(start, end), today)
            == if end < today then Past else if today < start then Future else Present
  {
    var dates := DatesInRange(start, end);
    var (lo, hi) := (Least(dates), Greatest(dates));
    assert dates[0] == start && dates[|dates| - 1] == end;
    assert dates[0] in dates && dates[|dates| - 1] in dates;
    var i :| 0 <= i < |dates| && dates[i] == lo;
    var j :| 0 <= j < |dates| && dates[j] == hi;
  }

  lemma GovernedInRange(leave: LeaveRow, intent: Intent)
    requires leave.start <= leave.end && 0 <= intent.weekday < 7
    ensures GovernedDates(DatesInRange(leave.start, leave.end), intent) != []
            <==> FirstGoverned(leave, intent) <= leave.end
    ensures FirstGoverned(leave, intent) >= intent.from
  {
    var dates := DatesInRange(leave.start, leave.end);
    var governed := GovernedDates(dates, intent);
    var d := FirstGoverned(leave, intent);
    if governed != [] {
      assert governed[0] in dates;
      var i :| 0 <= i < |dates| && dates[i] == governed[0];
    }
    if d <= leave.end {
      assert dates[d - leave.start] == d;
      assert d in dates;
    }
  }

  /**
   * The cascade cancels a leave exactly when it touches a date of the weekday
   * on or after the change, the change hits it, and it is pending or wholly in
   * the future. The change being forward-only, nothing past is ever reached.
   */
  lemma LeaveCancelledExactly(leave: LeaveRow, live: Option<ScheduleRow>, intent: Intent, today: Day)
    requires leave.start <= leave.end && today <= intent.from && 0 <= intent.weekday < 7
    ensures Cancels(EvaluateLeave(leave, live, intent, today)) <==>
              && FirstGoverned(leave, intent) <= leave.end
              && HitsLeave(leave, live, intent)
              && (leave.request.status.Pending() || today < leave.start)
    ensures EvaluateLeave(leave, live, intent, today).Some? ==>
              EvaluateLeave(leave, live, intent, today).value.temporal != Past
  {
    GovernedInRange(leave, intent);
    TemporalOfRange(leave.start, leave.end, today);
  }

  /** The same for corrections, which a break alone never touches. */
  lemma CorrectionCancelledExactly(c: CorrectionRow, live: Option<ScheduleRow>, intent: Intent, today: Day)
    requires today <= intent.from
    ensures Cancels(EvaluateCorrection(c, live, intent, today)) <==>
              && Governed(c.workDate, intent)
              && (intent.mode == Remove || (live.Some? && WindowChanged(live.value, intent)))
              && (c.request.status.Pending() || today < c.workDate)
    ensures EvaluateCorrection(c, live, intent, today).Some? ==>
              EvaluateCorrection(c, live, intent, today).value.temporal != Past
  {
    assert DatesInRange(c.workDate, c.workDate) == [c.workDate];
    assert GovernedDates([c.workDate], intent) == if Governed(c.workDate, intent) then [c.workDate] else [] by {
      assert [c.workDate][1..] == [];
      assert GovernedDates([], intent) == [];
    }
    TemporalOfRange(c.workDate, c.workDate, today);
  }
}
