/**
 * Approving a time correction: the timesheet is written first and the request
 * flips afterwards, with a possible stop in between.
 */
module CorrectionApproval {
  import opened Prelude
  import opened ApprovalMachine
  import TimeEntries

  type Table = TimeEntries.Table

  /** A stored request and the correction it proposes. */
  datatype CorrectionRow = CorrectionRow(request: Request, proposed: TimeEntries.Correction)

  /** A successful timesheet write made for a request, and the entry it produced. */
  datatype Application = Application(request: nat, entry: nat)

  /** `applications` is bookkeeping of the model: the writes that have happened. */
  datatype World = World(requests: seq<CorrectionRow>, entries: Table, applications: seq<Application>)

  datatype Failure =
    | NotFound | Refused(why: ActionError) | TimesheetRefused(reason: TimeEntries.EntryError) | NotEditable | BadWindow

  predicate GoodRow(r: CorrectionRow) {
    r.request.kind == CorrectionKind && r.proposed.employee == r.request.employee
  }

  /** The entry a correction writes: its target, or the next new one. */
  function EntryFor(t: Table, c: TimeEntries.Correction): nat {
    if c.target.Some? then c.target.value else |t|
  }

  /** The transition the aggregate is asked for, and the timesheet it needs. */
  function Decide(w: World, id: nat, a: Actor, approverActive: bool): Result<Request, Failure> {
    if id >= |w.requests| then Err(NotFound)
    else
      var next := Approve(w.requests[id].request, a, approverActive);
      if next.Err? then Err(Refused(next.error)) else Ok(next.value)
  }

  /** First write: only a final approval touches the timesheet. */
  function WriteTimesheet(w: World, id: nat, next: Request): Result<World, Failure>
    requires id < |w.requests|
  {
    if next.status != Approved then Ok(w)
    else
      var c := w.requests[id].proposed;
      var written := TimeEntries.ApplyCorrection(w.entries, c);
      if written.Err? then Err(TimesheetRefused(written.error))
      else Ok(w.(entries := written.value, applications := w.applications + [Application(id, EntryFor(w.entries, c))]))
  }

  /** Second write: the request row. */
  function WriteStatus(w: World, id: nat, next: Request): World
    requires id < |w.requests|
  {
    w.(requests := w.requests[id := w.requests[id].(request := next)])
  }

  /** The approve use-case; `stops` says that the process ends between the two writes. */
  function ApproveCorrection(w: World, id: nat, a: Actor, approverActive: bool, stops: bool): Result<World, Failure> {
    var next := Decide(w, id, a, approverActive);
    if next.Err? then Err(next.error)
    else
      var written := WriteTimesheet(w, id, next.value);
      if written.Err? then written
      else if stops then written
      else Ok(WriteStatus(written.value, id, next.value))
  }

  /** The HR edit of a pending correction: only the proposed window, checked after merging. */
  function EditedWindow(r: CorrectionRow, timeIn: Option<int>, timeOut: Option<Option<int>>)
    : Result<CorrectionRow, Failure>
  {
    var next := r.(proposed := r.proposed.(timeIn := OrElse(timeIn, r.proposed.timeIn),
                                           timeOut := OrElse(timeOut, r.proposed.timeOut)));
    if !r.request.status.Pending() then Err(NotEditable)
    else if !TimeEntries.ValidWindow(next.proposed.timeIn, next.proposed.timeOut) then Err(BadWindow)
    else Ok(next)
  }

  function EditRow(rows: seq<CorrectionRow>, id: nat, timeIn: Option<int>, timeOut: Option<Option<int>>)
    : Result<seq<CorrectionRow>, Failure>
  {
    if id >= |rows| then Err(NotFound)
    else
      var next := EditedWindow(rows[id], timeIn, timeOut);
      if next.Err? then Err(next.error) else Ok(rows[id := next.value])
  }

  datatype Event =
    | SubmitOne(row: CorrectionRow)
    | ApproveOne(id: nat, actor: Actor, approverActive: bool, stops: bool)
    | ActOne(id: nat, action: Action)
    | EditOne(id: nat, timeIn: Option<int>, timeOut: Option<Option<int>>)
    | Timesheet(call: TimeEntries.Call)

  /** Anything may happen to a request except an approval outside the use-case. */
  predicate GoodEvent(event: Event) {
    match event
    case SubmitOne(r) => GoodRow(r) && r.request.status == PendingL1
    case ActOne(_, action) => !action.DoApprove?
    case _ => true
  }

  function Step(w: World, event: Event): World {
    match event
    case SubmitOne(r) => w.(requests := w.requests + [r])
    case ApproveOne(id, a, active, stops) =>
      var done := ApproveCorrection(w, id, a, active, stops);
      if done.Ok? then done.value else w
    case ActOne(id, action) =>
      if id < |w.requests|
      then w.(requests := w.requests[id := w.requests[id].(request := Perform(w.requests[id].request, action))])
      else w
    case EditOne(id, timeIn, timeOut) =>
      var done := EditRow(w.requests, id, timeIn, timeOut);
      if done.Ok? then w.(requests := done.value) else w
    case Timesheet(call) =>
      var done := TimeEntries.Perform(w.entries, call);
      if done.Ok? then w.(entries := done.value) else w
  }

  function Run(entries: Table, events: seq<Event>): World {
    if events == [] then World([], entries, []) else Step(Run(entries, events[..|events| - 1]), events[|events| - 1])
  }

  predicate AppliedFor(w: World, id: nat) {
    exists k :: 0 <= k < |w.applications| && w.applications[k].request == id
  }

  /** The entry now says what the correction proposed. */
  predicate Shows(t: Table, entry: nat, c: TimeEntries.Correction) {
    && entry < |t| && !t[entry].deleted
    && t[entry].workDate == c.workDate && t[entry].timeIn == c.timeIn && t[entry].timeOut == c.timeOut
    && t[entry].source == TimeEntries.Source.Correction
    && t[entry].status == TimeEntries.StatusOf(c.timeOut)
    && (c.target.None? ==> t[entry].employee == c.employee)
  }

  /** Every approved request had its timesheet write. */
  ghost predicate ApprovedWereApplied(w: World) {
    forall id :: 0 <= id < |w.requests| && w.requests[id].request.status == Approved ==> AppliedFor(w, id)
  }

  /** A successful timesheet write leaves an entry that shows the correction. */
  lemma CorrectionShows(t: Table, c: TimeEntries.Correction)
    requires TimeEntries.ApplyCorrection(t, c).Ok?
    ensures Shows(TimeEntries.ApplyCorrection(t, c).value, EntryFor(t, c), c)
  {
  }

  /**
   * The step that turns a request approved is the step whose timesheet write
   * succeeded: at that moment the timesheet shows the correction.
   */
  lemma ApprovalShowsInTimesheet(w: World, event: Event, id: nat)
    requires GoodEvent(event) && id < |w.requests|
    requires w.requests[id].request.status != Approved
    requires id < |Step(w, event).requests| && Step(w, event).requests[id].request.status == Approved
    ensures event.ApproveOne? && event.id == id && !event.stops
    ensures Shows(Step(w, event).entries, EntryFor(w.entries, w.requests[id].proposed), w.requests[id].proposed)
  {
  }

  lemma AppliedStays(w: World, after: World, id: nat)
    requires AppliedFor(w, id) && |w.applications| <= |after.applications|
    requires after.applications[..|w.applications|] == w.applications
    ensures AppliedFor(after, id)
  {
  }

  lemma StepKeepsApplied(w: World, event: Event)
    requires GoodEvent(event) && ApprovedWereApplied(w)
    ensures ApprovedWereApplied(Step(w, event))
  {
    var after := Step(w, event);
    forall id | 0 <= id < |after.requests| && after.requests[id].request.status == Approved
      ensures AppliedFor(after, id)
    {
      if id < |w.requests| && w.requests[id].request.status == Approved {
        AppliedStays(w, after, id);
      } else {
        ApprovalShowsInTimesheet(w, event, id);
        assert after.applications[|w.applications|].request == id;
      }
    }
  }

  /** In every run, stops included, no correction is approved without its timesheet write. */
  lemma {:induction false} ApprovedOnlyAfterTimesheet(entries: Table, events: seq<Event>)
    requires forall k :: 0 <= k < |events| ==> GoodEvent(events[k])
    ensures ApprovedWereApplied(Run(entries, events))
  {
    if events != [] {
      ApprovedOnlyAfterTimesheet(entries, events[..|events| - 1]);
      StepKeepsApplied(Run(entries, events[..|events| - 1]), events[|events| - 1]);
    }
  }

  // ----- what the use-cases do -----

  /**
   * The approve use-case: the refusals of the state machine and of the timesheet
   * change nothing; an approval that is not final leaves the timesheet alone; a
   * final one writes it, and the request too unless the process stops.
   */
  lemma ApproveExactly(w: World, id: nat, a: Actor, active: bool, stops: bool)
    ensures var done := ApproveCorrection(w, id, a, active, stops);
            if id >= |w.requests| then done == Err(NotFound)
            else
              var (r, c) := (w.requests[id].request, w.requests[id].proposed);
              match Approve(r, a, active)
              case Err(why) => done == Err(Refused(why))
              case Ok(next) =>
                if next.status != Approved then
                  && done.Ok? && done.value.entries == w.entries && done.value.applications == w.applications
                  && done.value.requests == (if stops then w.requests else w.requests[id := CorrectionRow(next, c)])
                else
                  match TimeEntries.ApplyCorrection(w.entries, c)
                  case Err(reason) => done == Err(TimesheetRefused(reason))
                  case Ok(entries) =>
                    && done.Ok? && done.value.entries == entries
                    && done.value.requests == (if stops then w.requests else w.requests[id := CorrectionRow(next, c)])
  {
  }

  /** The HR edit: pending rows only, a valid merged window, and no other field. */
  lemma EditExactly(rows: seq<CorrectionRow>, id: nat, timeIn: Option<int>, timeOut: Option<Option<int>>)
    ensures var done := EditRow(rows, id, timeIn, timeOut);
            if id >= |rows| then done == Err(NotFound)
            else
              var (r, c) := (rows[id].request, rows[id].proposed);
              var start := if timeIn.Some? then timeIn.value else c.timeIn;
              var end := if timeOut.Some? then timeOut.value else c.timeOut;
              var pending := r.status == PendingL1 || r.status == PendingL2;
              && (done == Err(NotEditable) <==> !pending)
              && (done == Err(BadWindow) <==> pending && end.Some? && end.value <= start)
              && (done.Ok? <==> pending && (end.Some? ==> start < end.value))
              && (done.Ok? ==>
                    done.value == rows[id := CorrectionRow(r, TimeEntries.CorrectionOf(c.employee, c.target, c.workDate,
                                                                                       start, end))])
  {
  }

  /** A run from nothing: submitted, edited, approved at both levels beside other writes, and shown in the timesheet. */
  lemma ApprovedRun(r: Request, c: TimeEntries.Correction, other: CorrectionRow, a: Actor, end: int)
    requires r == Submitted(CorrectionKind, c.employee, r.endDate, r.l1, None) && c.target.None?
    requires GoodRow(other) && other.request.status == PendingL1
    requires a.userId == other.request.employee && !a.isSystemAdmin && !a.canApproveAny
    requires a.canApprove && a.userId == r.l1 && c.timeIn < end
    ensures var submitted := Step(Step(World([], [], []), SubmitOne(CorrectionRow(r, c))), SubmitOne(other));
            var edited := Step(Step(submitted, EditOne(0, None, Some(Some(end)))), ActOne(1, DoCancel(a, 0)));
            var w := Step(Step(edited, ApproveOne(0, a, true, false)), Timesheet(TimeEntries.CallDelete(0)));
            && |w.requests| == 2 && w.requests[0].request.status == Approved
            && w.requests[0].proposed == c.(timeOut := Some(end)) && w.requests[1].request.status == Cancelled
            && w.entries == [TimeEntries.NewLog(c.(timeOut := Some(end))).(deleted := true)]
  {
    var submitted := Step(Step(World([], [], []), SubmitOne(CorrectionRow(r, c))), SubmitOne(other));
    assert submitted.requests == [CorrectionRow(r, c), other];
    var edited := Step(Step(submitted, EditOne(0, None, Some(Some(end)))), ActOne(1, DoCancel(a, 0)));
    CancelExactly(other.request, a, 0);
    assert |edited.requests| == 2 && edited.requests[0] == CorrectionRow(r, c.(timeOut := Some(end)));
    assert edited.requests[1].request.status == Cancelled && edited.entries == [];
    var approved := Step(edited, ApproveOne(0, a, true, false));
    AppliesExactly([], c.(timeOut := Some(end)));
    ApproveExactly(edited, 0, a, true, false);
    assert approved.entries == [] + [TimeEntries.NewLog(c.(timeOut := Some(end)))];
  }

  // ----- approving again after a stop -----

  /** After a stop, a targeted correction is simply approved again, with the timesheet as if nothing had happened. */
  lemma TargetedRetryHeals(w: World, id: nat, a: Actor, active: bool)
    requires id < |w.requests| && w.requests[id].proposed.target.Some?
    requires ApproveCorrection(w, id, a, active, true).Ok? && TimeEntries.Valid(w.entries)
    ensures var stopped := ApproveCorrection(w, id, a, active, true).value;
            var retried := ApproveCorrection(stopped, id, a, active, false);
            var direct := ApproveCorrection(w, id, a, active, false);
            && retried.Ok? && direct.Ok?
            && retried.value.requests == direct.value.requests && retried.value.entries == direct.value.entries
  {
  }

  /**
   * After a stop, a new log stays pending: every approval is refused for as long
   * as some live entry of the employee is on that date, as the one the stopped
   * approval left behind is.
   */
  lemma NewLogStaysPending(w: World, id: nat, a: Actor, active: bool, stops: bool)
    requires id < |w.requests| && w.requests[id].proposed.target.None?
    requires TimeEntries.ExistsOnDate(w.entries, w.requests[id].proposed.employee, w.requests[id].proposed.workDate)
    ensures var done := ApproveCorrection(w, id, a, active, stops);
            done.Ok? ==> done.value.requests[id].request.status != Approved
  {
  }

  lemma StoppedNewLogBlocksItself(w: World, id: nat, a: Actor, active: bool)
    requires id < |w.requests| && w.requests[id].proposed.target.None?
    requires Decide(w, id, a, active).Ok? && Decide(w, id, a, active).value.status == Approved
    requires ApproveCorrection(w, id, a, active, true).Ok?
    ensures var stopped := ApproveCorrection(w, id, a, active, true).value;
            && stopped.requests == w.requests
            && ApproveCorrection(stopped, id, a, active, false) == Err(TimesheetRefused(TimeEntries.DateTaken))
  {
    var c := w.requests[id].proposed;
    CorrectionShows(w.entries, c);
    var stopped := ApproveCorrection(w, id, a, active, true).value;
    assert TimeEntries.LiveOf(stopped.entries[|w.entries|], c.employee);
  }

  /**
   * What a timesheet must allow: a live target, or no live entry on the date of
   * a new log, and no other open entry if the correction leaves one open.
   */
  predicate Allows(t: Table, c: TimeEntries.Correction) {
    && (if c.target.Some? then TimeEntries.Exists(t, c.target.value)
        else !TimeEntries.ExistsOnDate(t, c.employee, c.workDate))
    && (c.timeOut.None? ==> !TimeEntries.OtherOpen(t, c.employee, c.target))
  }

  lemma AppliesExactly(t: Table, c: TimeEntries.Correction)
    requires TimeEntries.Valid(t) && TimeEntries.OwnTarget(t, c)
    ensures TimeEntries.ApplyCorrection(t, c).Ok? <==> TimeEntries.ValidWindow(c.timeIn, c.timeOut) && Allows(t, c)
  {
  }

  /**
   * However the timesheet and the window have changed since a stop: a final
   * approval, by anybody, succeeds exactly when the window is valid and the
   * timesheet then allows the correction.
   */
  lemma FinalApprovalExactly(w: World, id: nat, a: Actor, active: bool)
    requires id < |w.requests| && TimeEntries.Valid(w.entries)
    requires TimeEntries.OwnTarget(w.entries, w.requests[id].proposed)
    requires Decide(w, id, a, active).Ok? && Decide(w, id, a, active).value.status == Approved
    ensures var c := w.requests[id].proposed;
            ApproveCorrection(w, id, a, active, false).Ok?
            <==> TimeEntries.ValidWindow(c.timeIn, c.timeOut) && Allows(w.entries, c)
  {
    AppliesExactly(w.entries, w.requests[id].proposed);
  }

  /** Repeated at once after a stop between the two writes, exactly the final approvals with a target entry succeed. */
  lemma RetryAfterStopExactly(w: World, id: nat, a: Actor, active: bool)
    requires id < |w.requests| && TimeEntries.Valid(w.entries)
    requires Decide(w, id, a, active).Ok? && Decide(w, id, a, active).value.status == Approved
    requires ApproveCorrection(w, id, a, active, true).Ok?
    ensures var stopped := ApproveCorrection(w, id, a, active, true).value;
            ApproveCorrection(stopped, id, a, active, false).Ok? <==> w.requests[id].proposed.target.Some?
  {
    if w.requests[id].proposed.target.Some? {
      TargetedRetryHeals(w, id, a, active);
    } else {
      StoppedNewLogBlocksItself(w, id, a, active);
    }
  }

  // ----- the service -----

  class TimeCorrectionRequestsService {
    var requests: seq<CorrectionRow>
    const timeEntries: TimeEntries.TimeEntriesService

    constructor (timesheet: TimeEntries.TimeEntriesService)
      ensures timeEntries == timesheet && requests == []
    {
      timeEntries := timesheet;
      requests := [];
    }

    ghost function View(): World
      reads this, timeEntries
    {
      World(requests, timeEntries.rows, [])
    }

    /** The HR edit of the proposed window. */
    method Update(id: nat, timeIn: Option<int>, timeOut: Option<Option<int>>) returns (failure: Option<Failure>)
      modifies this
      ensures match EditRow(old(requests), id, timeIn, timeOut)
              case Ok(rows) => failure == None && requests == rows
              case Err(why) => failure == Some(why) && requests == old(requests)
    {
      if id >= |requests| {
        return Some(NotFound);
      }
      var row := requests[id];
      if !row.request.status.Pending() {
        return Some(NotEditable);
      }
      var start := if timeIn.Some? then timeIn.value else row.proposed.timeIn;
      var end := if timeOut.Some? then timeOut.value else row.proposed.timeOut;
      if end.Some? && end.value <= start {
        return Some(BadWindow);
      }
      requests := requests[id := row.(proposed := row.proposed.(timeIn := start, timeOut := end))];
      return None;
    }

    /** Guards, the timesheet write, then the status flip. */
    method Approve(id: nat, a: Actor, activeUsers: set<int>) returns (failure: Option<Failure>)
      modifies this, timeEntries
      ensures id >= |old(requests)| ==> failure == Some(NotFound) && View() == old(View())
      ensures id < |old(requests)| ==>
                var active := StepApproverActive(old(requests)[id].request, activeUsers);
                match ApproveCorrection(old(View()), id, a, active, false)
                case Ok(w) => failure == None && requests == w.requests && timeEntries.rows == w.entries
                case Err(why) => failure == Some(why) && View() == old(View())
    {
      if id >= |requests| {
        return Some(NotFound);
      }
      var row := requests[id];
      var aggregate := new ApprovalAggregate.Reconstitute(row.request);
      var refused := aggregate.ApproveStep(a, activeUsers);
      if refused.Some? {
        return Some(Refused(refused.value));
      }
      if aggregate.status == Approved {
        var error := timeEntries.Apply(row.proposed);
        if error.Some? {
          return Some(TimesheetRefused(error.value));
        }
      }
      requests := requests[id := row.(request := row.request.(
        status := aggregate.status, decidedBy := aggregate.decidedBy, path := aggregate.path))];
      return None;
    }
  }
}
