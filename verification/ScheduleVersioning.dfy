/** Versioning the weekly schedule rows: forward-only, and never against a table constraint. */
module ScheduleVersioning {
  import opened Prelude
  import opened Calendar
  import opened HalfDay
  import opened SchedulePolicy

  type Table = seq<ScheduleRow>

  predicate ActiveRow(r: ScheduleRow) {
    r.to.None? && !r.deleted
  }

  predicate ActiveFor(r: ScheduleRow, e: int, w: int) {
    ActiveRow(r) && r.employee == e && r.weekday == w
  }

  /** The row checks: weekday, window, break and effective range. */
  predicate RowChecks(r: ScheduleRow) {
    && 0 <= r.weekday < 7
    && ValidWindow(r.window)
    && (r.to.Some? ==> r.from <= r.to.value)
  }

  /** The row checks and the partial unique index on the active rows. */
  predicate Constraints(t: Table) {
    && (forall i :: 0 <= i < |t| ==> RowChecks(t[i]))
    && (forall i, j :: 0 <= i < j < |t| && ActiveRow(t[i]) && ActiveRow(t[j])
                       ==> (t[i].employee, t[i].weekday) != (t[j].employee, t[j].weekday))
  }

  function LiveRow(t: Table, e: int, w: int): (live: Option<nat>)
    ensures live.Some? ==> live.value < |t| && ActiveFor(t[live.value], e, w)
    ensures live.None? ==> forall i :: 0 <= i < |t| ==> !ActiveFor(t[i], e, w)
  {
    FirstIndex(t, (r: ScheduleRow) => ActiveFor(r, e, w))
  }

  function RowAt(t: Table, live: Option<nat>): Option<ScheduleRow>
    requires live.Some? ==> live.value < |t|
  {
    if live.Some? then Some(t[live.value]) else None
  }

  /** What `validate` accepts of a modification. */
  function NewWindow(intent: Intent): Option<WorkWindow> {
    if intent.expectedIn.Some? && intent.expectedOut.Some? && intent.breakMinutes.Some?
    then
      Some(WorkWindow(intent.expectedIn.value, intent.expectedOut.value, intent.breakMinutes.value, intent.breakStart))
    else None
  }

  datatype IntentError = FromInPast | WindowMissing | BadWindow(why: WindowError) | RemoveNotAllowed

  function Validate(intent: Intent, today: Day, mayRemove: bool): Option<IntentError> {
    if intent.from < today then Some(FromInPast)
    else if intent.mode == Modify then
      if NewWindow(intent).None? then Some(WindowMissing)
      else
        var e := AssertSchedule(NewWindow(intent).value);
        if e.Some? then Some(BadWindow(e.value)) else None
    else if !mayRemove then Some(RemoveNotAllowed)
    else None
  }

  predicate Validated(intent: Intent) {
    && 0 <= intent.weekday < 7
    && (intent.mode == Modify ==> NewWindow(intent).Some? && ValidWindow(NewWindow(intent).value))
  }

  function NewRow(intent: Intent): ScheduleRow
    requires intent.mode == Modify && NewWindow(intent).Some?
  {
    ScheduleRow(intent.employee, intent.weekday, NewWindow(intent).value, intent.from, None, false)
  }

  function Ended(t: Table, i: nat, intent: Intent): Table
    requires i < |t|
  {
    t[i := t[i].(to := Some(DayBefore(intent.from)))]
  }

  function Deleted(t: Table, i: nat): Table
    requires i < |t|
  {
    t[i := t[i].(deleted := true)]
  }

  /** The table after each write that the planned version performs, in order. */
  function Writes(t: Table, intent: Intent): seq<Table>
    requires Validated(intent)
  {
    var live := LiveRow(t, intent.employee, intent.weekday);
    match PlanVersioning(RowAt(t, live), intent)
    case Create => [t + [NewRow(intent)]]
    case EndAndCreate =>
      var ended := Ended(t, live.value, intent);
      [ended, ended + [NewRow(intent)]]
    case Replace =>
      var deleted := Deleted(t, live.value);
      [deleted, deleted + [NewRow(intent)]]
    case EndOnly => [Ended(t, live.value, intent)]
    case DeleteOnly => [Deleted(t, live.value)]
    case Noop => []
  }

  function Versioned(t: Table, intent: Intent): Table
    requires Validated(intent)
  {
    var writes := Writes(t, intent);
    if writes == [] then t else writes[|writes| - 1]
  }

  /** Does row `i` say what the schedule was on date `d`? */
  predicate Covers(t: Table, i: nat, d: Day) {
    i < |t| && !t[i].deleted && t[i].from <= d && (t[i].to.None? || d <= t[i].to.value)
  }

  /** Retiring the live row, either way, keeps the constraints and frees its slot in the unique index. */
  lemma RetiringFreesTheSlot(t: Table, live: nat, retired: ScheduleRow, e: int, w: int)
    requires Constraints(t) && live < |t| && ActiveFor(t[live], e, w)
    requires RowChecks(retired) && !ActiveRow(retired)
    ensures Constraints(t[live := retired])
    ensures var after := t[live := retired]; forall i :: 0 <= i < |after| ==> !ActiveFor(after[i], e, w)
  {
  }

  lemma FilledSlotKeepsConstraints(t: Table, row: ScheduleRow)
    requires Constraints(t) && RowChecks(row)
    requires forall i :: 0 <= i < |t| ==> !ActiveFor(t[i], row.employee, row.weekday)
    ensures Constraints(t + [row])
  {
  }

  /** After every single write, all constraints hold. */
  lemma NoWriteTripsAConstraint(t: Table, intent: Intent)
    requires Constraints(t) && Validated(intent)
    ensures forall k :: 0 <= k < |Writes(t, intent)| ==> Constraints(Writes(t, intent)[k])
    ensures Constraints(Versioned(t, intent))
    ensures var after := Versioned(t, intent);
            && (forall i :: 0 <= i < |after| ==>
                  && after[i].weekday in {0, 1, 2, 3, 4, 5, 6}
                  && after[i].window.expectedIn < after[i].window.expectedOut && 0 <= after[i].window.breakMinutes
                  && (after[i].to.Some? ==> after[i].from <= after[i].to.value))
            && (forall i, j :: 0 <= i < j < |after| && after[i].to.None? && after[j].to.None?
                               && !after[i].deleted && !after[j].deleted
                  ==> after[i].employee != after[j].employee || after[i].weekday != after[j].weekday)
  {
    var live := LiveRow(t, intent.employee, intent.weekday);
    var before := t;
    if live.Some? {
      var row := t[live.value];
      var retired :=
        if row.from >= intent.from then row.(deleted := true) else row.(to := Some(DayBefore(intent.from)));
      RetiringFreesTheSlot(t, live.value, retired, intent.employee, intent.weekday);
      before := t[live.value := retired];
    }
    if intent.mode == Modify {
      FilledSlotKeepsConstraints(before, NewRow(intent));
    }
  }

  /** Forward-only: before the first day of the change, every date is covered by the very same rows. */
  lemma HistoryIsKept(t: Table, intent: Intent, i: nat, d: Day)
    requires Constraints(t) && Validated(intent) && d < intent.from
    ensures Covers(t, i, d) <==> Covers(Versioned(t, intent), i, d)
    ensures Covers(t, i, d) ==>
              Versioned(t, intent)[i].(to := None) == t[i].(to := None)
  {
  }

  /** Afterwards a modified weekday has exactly one active row, starting at X; a removed one has none. */
  lemma WeekdayAfterwards(t: Table, intent: Intent)
    requires Constraints(t) && Validated(intent)
    ensures var after := Versioned(t, intent);
            forall i :: 0 <= i < |after| ==>
              (ActiveFor(after[i], intent.employee, intent.weekday)
               <==> intent.mode == Modify && i == |t|)
    ensures intent.mode == Modify ==>
              && |Versioned(t, intent)| == |t| + 1
              && Versioned(t, intent)[|t|]
                 == ScheduleRow(intent.employee, intent.weekday,
                                WorkWindow(intent.expectedIn.value, intent.expectedOut.value,
                                           intent.breakMinutes.value, intent.breakStart),
                                intent.from, None, false)
    ensures intent.mode == Remove ==> |Versioned(t, intent)| == |t|
  {
  }

  /**
   * From the first day of the change on: the row that was live covers no date
   * any more, the new row of a modification covers all of them, and every other
   * row covers what it covered.
   */
  lemma CoverageAfterwards(t: Table, intent: Intent, i: nat, d: Day)
    requires Constraints(t) && Validated(intent) && intent.from <= d && i < |Versioned(t, intent)|
    ensures Covers(Versioned(t, intent), i, d) <==>
              if i == |t| then intent.mode == Modify
              else
                && i < |t| && Covers(t, i, d)
                && !(t[i].to.None? && t[i].employee == intent.employee && t[i].weekday == intent.weekday)
  {
  }

  /** So of the rows not ended before, exactly the new one covers the weekday from then on, or none. */
  lemma OneRowCoversFromTheChange(t: Table, intent: Intent, i: nat, d: Day)
    requires Constraints(t) && Validated(intent) && intent.from <= d && i < |Versioned(t, intent)|
    requires i < |t| ==> t[i].to.None?
    ensures var r := Versioned(t, intent)[i];
            Covers(Versioned(t, intent), i, d) && r.employee == intent.employee && r.weekday == intent.weekday
            <==> intent.mode == Modify && i == |t|
  {
    CoverageAfterwards(t, intent, i, d);
    WeekdayAfterwards(t, intent);
  }

  /** The first objection to an intent, and when there is none. */
  lemma ValidateExactly(intent: Intent, today: Day, mayRemove: bool)
    ensures var why := Validate(intent, today, mayRemove);
            var complete := intent.expectedIn.Some? && intent.expectedOut.Some? && intent.breakMinutes.Some?;
            && (why == Some(FromInPast) <==> intent.from < today)
            && (why == Some(RemoveNotAllowed) <==> today <= intent.from && intent.mode == Remove && !mayRemove)
            && (why == Some(WindowMissing) <==> today <= intent.from && intent.mode == Modify && !complete)
            && (why.None? <==>
                  && today <= intent.from
                  && (intent.mode == Remove ==> mayRemove)
                  && (intent.mode == Modify ==>
                        && complete
                        && intent.expectedIn.value < intent.expectedOut.value && 0 <= intent.breakMinutes.value
                        && (intent.breakMinutes.value > 0 ==> intent.breakStart.Some?)
                        && (intent.breakStart.Some? ==>
                              && intent.expectedIn.value <= intent.breakStart.value
                              && intent.breakStart.value + 60 * intent.breakMinutes.value
                                 <= intent.expectedOut.value)))
  {
  }

  /** Other weekdays and other employees are untouched, and no row ever disappears. */
  lemma OthersUntouched(t: Table, intent: Intent, i: nat)
    requires Constraints(t) && Validated(intent) && i < |t|
    requires (t[i].employee, t[i].weekday) != (intent.employee, intent.weekday) || !ActiveRow(t[i])
    ensures i < |Versioned(t, intent)| && Versioned(t, intent)[i] == t[i]
  {
  }

  /** The repository: every write is refused when it would break a constraint. */
  class WorkScheduleRepository {
    var rows: Table

    method FindActiveForEmployeeDay(e: int, w: int) returns (id: Option<nat>)
      ensures id == LiveRow(rows, e, w)
    {
      id := FirstIndex(rows, (r: ScheduleRow) => ActiveFor(r, e, w));
    }

    method Create(row: ScheduleRow) returns (ok: bool)
      modifies this
      ensures ok == Constraints(old(rows) + [row])
      ensures rows == if ok then old(rows) + [row] else old(rows)
    {
      ok := Constraints(rows + [row]);
      if ok {
        rows := rows + [row];
      }
    }

    method SetEffectiveTo(id: nat, to: Option<Day>) returns (ok: bool)
      requires id < |rows|
      modifies this
      ensures ok == Constraints(old(rows)[id := old(rows)[id].(to := to)])
      ensures rows == if ok then old(rows)[id := old(rows)[id].(to := to)] else old(rows)
    {
      ok := Constraints(rows[id := rows[id].(to := to)]);
      if ok {
        rows := rows[id := rows[id].(to := to)];
      }
    }

    method SoftDelete(id: nat)
      requires id < |rows|
      modifies this
      ensures rows == Deleted(old(rows), id)
    {
      rows := rows[id := rows[id].(deleted := true)];
    }

    /** `applyVersioning`: the planned writes, one after another; none of them is ever refused. */
    method ApplyVersioning(plan: Versioning, live: Option<nat>, intent: Intent) returns (created: Option<nat>)
      requires Constraints(rows) && Validated(intent)
      requires live == LiveRow(rows, intent.employee, intent.weekday)
      requires plan == PlanVersioning(RowAt(rows, live), intent)
      modifies this
      ensures rows == Versioned(old(rows), intent) && Constraints(rows)
      ensures created == if intent.mode == Modify then Some(|old(rows)|) else None
    {
      NoWriteTripsAConstraint(rows, intent);
      ghost var writes := Writes(rows, intent);
      created := None;
      var ok := true;
      match plan {
        case Create =>
          assert rows + [NewRow(intent)] == writes[0];
        case EndAndCreate =>
          ok := SetEffectiveTo(live.value, Some(DayBefore(intent.from)));
          assert rows == writes[0];
        case Replace =>
          SoftDelete(live.value);
          assert rows == writes[0];
        case EndOnly =>
          ok := SetEffectiveTo(live.value, Some(DayBefore(intent.from)));
        case DeleteOnly =>
          SoftDelete(live.value);
        case Noop =>
      }
      assert ok;
      if intent.mode == Modify {
        ok := Create(NewRow(intent));
        assert ok;
        created := Some(|rows| - 1);
      }
    }
  }
}
