/** The leave-request use-cases, each running undisturbed; LedgerProtocol interleaves them. */
module LeaveService {
  import opened Prelude
  import opened Calendar
  import opened ClockTime
  import opened HalfDay
  import opened DayCount
  import opened ApprovalMachine
  import opened LeaveTables

  datatype SubmitInput =
    SubmitInput(employee: int, leaveType: LeaveType, start: Day, end: Day, portion: Portion, hasFile: bool)

  /** What submit reads besides its own tables: the active schedule, today and the active chain. */
  datatype Surroundings =
    Surroundings(schedule: seq<ActiveDay>, today: Day, l1: Option<int>, l2: Option<int>)

  predicate Readable(c: Surroundings) {
    forall r :: r in c.schedule ==> TableRow(r)
  }

  datatype SubmitFailure =
    | AttachmentContract
    | BadRange(why: RangeError)
    | NoApprover
    | Overlaps(id: nat)
    | InsufficientBalance(available: int, needed: nat)

  predicate NeedsAttachment(t: LeaveType) {
    t == Sick || t == Bereavement
  }

  /** Two inclusive ranges overlap unless one ends before the other starts. */
  predicate RangesOverlap(a: Day, b: Day, c: Day, d: Day) {
    !(b < c || d < a)
  }

  ghost predicate ShareDate(a: Day, b: Day, c: Day, d: Day) {
    exists x :: InRange(x, a, b) && InRange(x, c, d)
  }

  /** That comparison finds exactly the ordered ranges that have a date in common. */
  lemma OverlapIsASharedDate(a: Day, b: Day, c: Day, d: Day)
    ensures ShareDate(a, b, c, d) ==> RangesOverlap(a, b, c, d)
    ensures a <= b && c <= d ==> (RangesOverlap(a, b, c, d) <==> ShareDate(a, b, c, d))
  {
    if a <= b && c <= d && RangesOverlap(a, b, c, d) {
      var x := if a < c then c else a;
      assert InRange(x, a, b) && InRange(x, c, d);
    }
  }

  predicate Blocks(r: LeaveRow, e: int, start: Day, end: Day) {
    r.request.employee == e && r.request.status.Active() && RangesOverlap(r.start, r.end, start, end)
  }

  /** Everything submit checks before it opens its transaction, and the row it will insert. */
  function Prepare(requests: seq<LeaveRow>, input: SubmitInput, c: Surroundings): Result<LeaveRow, SubmitFailure>
    requires Readable(c)
  {
    if NeedsAttachment(input.leaveType) != input.hasFile then Err(AttachmentContract)
    else
      var range := AssertSubmittableRange(c.schedule, c.today, input.start, input.end, input.portion,
                                          Some(input.leaveType));
      if range.Err? then Err(BadRange(range.error))
      else if c.l1.None? then Err(NoApprover)
      else
        var overlap := FirstIndex(requests, (r: LeaveRow) => Blocks(r, input.employee, input.start, input.end));
        if overlap.Some? then Err(Overlaps(overlap.value))
        else
          Ok(LeaveRow(input.leaveType, input.start, input.end, input.portion, range.value.startTime,
                      range.value.endTime, range.value.halfDays,
                      Submitted(LeaveKind, input.employee, input.end, c.l1.value, c.l2)))
  }

  /** The balance check of the transaction. */
  function CheckBalance(allowance: nat, consumed: nat, row: LeaveRow): Result<LeaveRow, SubmitFailure> {
    var available := allowance - consumed;
    if available < row.halfDays then Err(InsufficientBalance(available, row.halfDays)) else Ok(row)
  }

  function Decide(requests: seq<LeaveRow>, grants: seq<Allocation>, input: SubmitInput, c: Surroundings)
    : Result<LeaveRow, SubmitFailure>
    requires Readable(c)
  {
    var prepared := Prepare(requests, input, c);
    if prepared.Err? then prepared
    else CheckBalance(Allowance(grants, input.employee, input.leaveType),
                      Consumed(requests, input.employee, input.leaveType), prepared.value)
  }

  /** A prepared row is a fresh submission that charges at least half a day and clashes with nothing. */
  lemma PreparedRows(requests: seq<LeaveRow>, input: SubmitInput, c: Surroundings)
    requires Readable(c)
    ensures var p := Prepare(requests, input, c);
            p.Ok? ==>
              && FreshRow(p.value)
              && p.value.request.status == PendingL1 && p.value.request.kind == LeaveKind
              && p.value.request.employee == input.employee && p.value.leaveType == input.leaveType
              && p.value.request.endDate == input.end && p.value.portion == input.portion
              && p.value.start == input.start && p.value.end == input.end
              && Some(p.value.request.l1) == c.l1 && p.value.request.l2 == c.l2
              && forall i :: 0 <= i < |requests| ==> !Blocks(requests[i], input.employee, input.start, input.end)
  {
  }

  /** Half a day for a half, otherwise every scheduled date of the range. */
  function HalfDaysOf(input: SubmitInput, c: Surroundings): nat {
    if input.portion != Full then 1
    else 2 * |ScheduledDates(Workdays(c.schedule), DatesInRange(input.start, input.end))|
  }

  /**
   * A submit succeeds exactly when the file fits the type, the range is not in
   * the past and bounded by scheduled days, a half is one day of a divisible
   * type, an approver is assigned, no active request of the employee shares a
   * date and what it charges is still available.
   */
  lemma SubmitSucceedsExactly(requests: seq<LeaveRow>, grants: seq<Allocation>, input: SubmitInput, c: Surroundings)
    requires Readable(c) && OrderedRanges(requests)
    ensures var (e, t) := (input.employee, input.leaveType);
            Decide(requests, grants, input, c).Ok? <==>
              && input.hasFile == (t == Sick || t == Bereavement)
              && c.today <= input.start <= input.end
              && WeekdayOf(input.start) in Workdays(c.schedule) && WeekdayOf(input.end) in Workdays(c.schedule)
              && (input.portion != Full ==> input.start == input.end && t != Birthday)
              && c.l1.Some?
              && (forall i :: 0 <= i < |requests| && requests[i].request.employee == e ==>
                    || requests[i].request.status == Rejected || requests[i].request.status == Cancelled
                    || !ShareDate(requests[i].start, requests[i].end, input.start, input.end))
              && Consumed(requests, e, t) + HalfDaysOf(input, c) <= Allowance(grants, e, t)
    ensures Decide(requests, grants, input, c).Ok? ==>
              Charge(Decide(requests, grants, input, c).value, input.employee, input.leaveType) == HalfDaysOf(input, c)
  {
    AcceptedRangesCharge(c.schedule, c.today, input.start, input.end, input.portion, Some(input.leaveType));
    forall i | 0 <= i < |requests| && input.start <= input.end
      ensures Blocks(requests[i], input.employee, input.start, input.end) <==>
                && requests[i].request.employee == input.employee
                && requests[i].request.status != Rejected && requests[i].request.status != Cancelled
                && ShareDate(requests[i].start, requests[i].end, input.start, input.end)
    {
      OverlapIsASharedDate(requests[i].start, requests[i].end, input.start, input.end);
    }
  }

  /** The times a row stores: none for a full day, else those of the half of that weekday's window. */
  lemma PreparedTimes(requests: seq<LeaveRow>, input: SubmitInput, c: Surroundings)
    requires Readable(c) && Prepare(requests, input, c).Ok?
    ensures var row := Prepare(requests, input, c).value;
            if input.portion == Full then row.startTime == None && row.endTime == None
            else
              && WeekdayOf(input.start) in Workdays(c.schedule)
              && var window := RowFor(c.schedule, WeekdayOf(input.start)).window;
                 && ValidWindow(window) && window.expectedOut < CLOCK_LIMIT
                 && var half := HalfWindow(window, input.portion);
                    row.startTime == Some(ToClock(half.start)) && row.endTime == Some(ToClock(half.end))
  {
  }

  /** Which check a refused submit is told about: each one only when those before it pass. */
  lemma RefusedSubmitsSayWhy(requests: seq<LeaveRow>, grants: seq<Allocation>, input: SubmitInput, c: Surroundings)
    requires Readable(c) && OrderedRanges(requests)
    ensures var r := Decide(requests, grants, input, c);
            var (e, t) := (input.employee, input.leaveType);
            var fileFits := input.hasFile == (t == Sick || t == Bereavement);
            var range := AssertSubmittableRange(c.schedule, c.today, input.start, input.end, input.portion, Some(t));
            var clash := exists i :: 0 <= i < |requests| && requests[i].request.employee == e
                                     && requests[i].request.status != Rejected
                                     && requests[i].request.status != Cancelled
                                     && ShareDate(requests[i].start, requests[i].end, input.start, input.end);
            && (r == Err(AttachmentContract) <==> !fileFits)
            && (forall why :: r == Err(BadRange(why)) <==> fileFits && range == Err(why))
            && (r == Err(NoApprover) <==> fileFits && range.Ok? && c.l1.None?)
            && ((r.Err? && r.error.Overlaps?) <==> fileFits && range.Ok? && c.l1.Some? && clash)
            && (r.Err? && r.error.Overlaps? ==>
                  && r.error.id < |requests| && requests[r.error.id].request.employee == e
                  && ShareDate(requests[r.error.id].start, requests[r.error.id].end, input.start, input.end))
            && (r.Err? && r.error.InsufficientBalance? ==>
                  && r.error.available == Allowance(grants, e, t) - Consumed(requests, e, t)
                  && r.error.needed == HalfDaysOf(input, c) > r.error.available)
  {
    AcceptedRangesCharge(c.schedule, c.today, input.start, input.end, input.portion, Some(input.leaveType));
    forall i | 0 <= i < |requests| && input.start <= input.end
      ensures RangesOverlap(requests[i].start, requests[i].end, input.start, input.end)
              <==> ShareDate(requests[i].start, requests[i].end, input.start, input.end)
    {
      OverlapIsASharedDate(requests[i].start, requests[i].end, input.start, input.end);
    }
  }

  // ----- HR edits -----

  /** What HR may edit besides the reason; absent fields stay. */
  datatype LeavePatch =
    LeavePatch(leaveType: Option<LeaveType>, start: Option<Day>, end: Option<Day>, portion: Option<Portion>)

  predicate Recomputes(p: LeavePatch) {
    p.start.Some? || p.end.Some? || p.portion.Some? || p.leaveType.Some?
  }

  /**
   * Only the status of the row is looked at, so an unloadable one can be edited.
   * Neither the balance nor other requests are consulted.
   */
  function Edited(r: LeaveRow, p: LeavePatch, c: Surroundings): Result<LeaveRow, RequestError>
    requires Readable(c)
  {
    if !r.request.status.Pending() then Err(NotEditable)
    else if !Recomputes(p) then Ok(r)
    else
      var (start, end) := (OrElse(p.start, r.start), OrElse(p.end, r.end));
      var (portion, leaveType) := (OrElse(p.portion, r.portion), OrElse(p.leaveType, r.leaveType));
      var range := AssertSubmittableRange(c.schedule, c.today, start, end, portion, Some(leaveType));
      if range.Err? then Err(BadEdit(range.error))
      else Ok(LeaveRow(leaveType, start, end, portion, range.value.startTime, range.value.endTime,
                       range.value.halfDays, r.request.(endDate := end)))
  }

  predicate FreshRow(r: LeaveRow) {
    && r.halfDays >= 1
    && r.start <= r.end
    && r.request == Submitted(LeaveKind, r.request.employee, r.end, r.request.l1, r.request.l2)
  }

  datatype RequestError =
    | NotFound | Unreadable | Refused(why: ActionError) | NotEditable | BadEdit(range: RangeError)

  class LeaveRequestsService {
    var requests: seq<LeaveRow>
    var allocations: seq<Allocation>

    /** `sumForUpdate` without its lock: the matching rows, reduced in memory. */
    method SumAllocations(e: int, t: LeaveType) returns (total: nat)
      ensures total == Allowance(allocations, e, t)
    {
      total := 0;
      for i := 0 to |allocations|
        invariant total == Allowance(allocations[..i], e, t)
      {
        assert allocations[..i + 1][..i] == allocations[..i];
        if allocations[i].employee == e && allocations[i].leaveType == t {
          total := total + 2 * allocations[i].amount;
        }
      }
      assert allocations[..|allocations|] == allocations;
    }

    method SumConsumed(e: int, t: LeaveType) returns (total: nat)
      ensures total == Consumed(requests, e, t)
    {
      total := 0;
      for i := 0 to |requests|
        invariant total == Consumed(requests[..i], e, t)
      {
        assert requests[..i + 1][..i] == requests[..i];
        var r := requests[i];
        if r.request.employee == e && r.leaveType == t && r.request.status.Active() {
          total := total + r.halfDays;
        }
      }
      assert requests[..|requests|] == requests;
    }

    method Submit(input: SubmitInput, c: Surroundings) returns (r: Result<nat, SubmitFailure>)
      requires Readable(c)
      modifies this`requests
      ensures match Decide(old(requests), allocations, input, c)
              case Ok(row) => r == Ok(|old(requests)|) && requests == old(requests) + [row]
              case Err(e) => r == Err(e) && requests == old(requests)
    {
      var prepared := Prepare(requests, input, c);
      if prepared.Err? {
        return Err(prepared.error);
      }
      var row := prepared.value;
      var allowance := SumAllocations(input.employee, input.leaveType);
      var consumed := SumConsumed(input.employee, input.leaveType);
      var available: int := (allowance as int) - consumed;
      if available < row.halfDays {
        return Err(InsufficientBalance(available, row.halfDays));
      }
      requests := requests + [row];
      return Ok(|requests| - 1);
    }

    method Approve(id: nat, a: Actor, activeUsers: set<int>) returns (e: Option<RequestError>)
      modifies this`requests
      ensures id >= |old(requests)| ==> e == Some(NotFound) && requests == old(requests)
      ensures id < |old(requests)| && !Reloads(old(requests)[id]) ==> e == Some(Unreadable) && requests == old(requests)
      ensures id < |old(requests)| && Reloads(old(requests)[id]) ==>
                var r := old(requests)[id];
                match ApprovalMachine.Approve(r.request, a, StepApproverActive(r.request, activeUsers))
                case Ok(next) => e == None && requests == old(requests)[id := r.(request := next)]
                case Err(why) => e == Some(Refused(why)) && requests == old(requests)
    {
      if id >= |requests| {
        return Some(NotFound);
      }
      var row := requests[id];
      if !Reloads(row) {
        return Some(Unreadable);
      }
      var aggregate := new ApprovalAggregate.Reconstitute(row.request);
      var refused := aggregate.ApproveStep(a, activeUsers);
      if refused.Some? {
        return Some(Refused(refused.value));
      }
      requests := requests[id := row.(request := row.request.(
        status := aggregate.status, decidedBy := aggregate.decidedBy, path := aggregate.path))];
      return None;
    }

    method Reject(id: nat, a: Actor, text: string) returns (e: Option<RequestError>)
      modifies this`requests
      ensures id >= |old(requests)| ==> e == Some(NotFound) && requests == old(requests)
      ensures id < |old(requests)| && !Reloads(old(requests)[id]) ==> e == Some(Unreadable) && requests == old(requests)
      ensures id < |old(requests)| && Reloads(old(requests)[id]) ==>
                var r := old(requests)[id];
                match ApprovalMachine.Reject(r.request, a, text)
                case Ok(next) => e == None && requests == old(requests)[id := r.(request := next)]
                case Err(why) => e == Some(Refused(why)) && requests == old(requests)
    {
      if id >= |requests| {
        return Some(NotFound);
      }
      var row := requests[id];
      if !Reloads(row) {
        return Some(Unreadable);
      }
      var aggregate := new ApprovalAggregate.Reconstitute(row.request);
      var refused := aggregate.RejectStep(a, text);
      if refused.Some? {
        return Some(Refused(refused.value));
      }
      requests := requests[id := row.(request := row.request.(
        status := aggregate.status, decidedBy := aggregate.decidedBy, note := aggregate.note,
        path := aggregate.path))];
      return None;
    }

    method Cancel(id: nat, a: Actor, today: Day) returns (e: Option<RequestError>)
      modifies this`requests
      ensures id >= |old(requests)| ==> e == Some(NotFound) && requests == old(requests)
      ensures id < |old(requests)| && !Reloads(old(requests)[id]) ==> e == Some(Unreadable) && requests == old(requests)
      ensures id < |old(requests)| && Reloads(old(requests)[id]) ==>
                var r := old(requests)[id];
                match ApprovalMachine.Cancel(r.request, a, today)
                case Ok(next) => e == None && requests == old(requests)[id := r.(request := next)]
                case Err(why) => e == Some(Refused(why)) && requests == old(requests)
    {
      if id >= |requests| {
        return Some(NotFound);
      }
      var row := requests[id];
      if !Reloads(row) {
        return Some(Unreadable);
      }
      var aggregate := new ApprovalAggregate.Reconstitute(row.request);
      var refused := aggregate.CancelStep(a, today);
      if refused.Some? {
        return Some(Refused(refused.value));
      }
      requests := requests[id := row.(request := row.request.(
        status := aggregate.status, cancelledBy := aggregate.cancelledBy))];
      return None;
    }

    /** The HR edit: it loads the plain row, not the aggregate. */
    method Update(id: nat, p: LeavePatch, c: Surroundings) returns (e: Option<RequestError>)
      requires Readable(c)
      modifies this`requests
      ensures id >= |old(requests)| ==> e == Some(NotFound) && requests == old(requests)
      ensures id < |old(requests)| ==>
                match Edited(old(requests)[id], p, c)
                case Ok(row) => e == None && requests == old(requests)[id := row]
                case Err(why) => e == Some(why) && requests == old(requests)
    {
      if id >= |requests| {
        return Some(NotFound);
      }
      var row := requests[id];
      if !row.request.status.Pending() {
        return Some(NotEditable);
      }
      if p.start.None? && p.end.None? && p.portion.None? && p.leaveType.None? {
        return None;
      }
      row := row.(start := OrElse(p.start, row.start), end := OrElse(p.end, row.end),
                  portion := OrElse(p.portion, row.portion), leaveType := OrElse(p.leaveType, row.leaveType));
      var range := AssertSubmittableRange(c.schedule, c.today, row.start, row.end, row.portion, Some(row.leaveType));
      if range.Err? {
        return Some(BadEdit(range.error));
      }
      requests := requests[id := row.(startTime := range.value.startTime, endTime := range.value.endTime,
                                      halfDays := range.value.halfDays,
                                      request := row.request.(endDate := row.end))];
      return None;
    }

    /** Grants only add: `AllocationAmount` refuses anything but a positive whole number. */
    method Grant(e: int, t: LeaveType, amount: int) returns (ok: bool)
      modifies this`allocations
      ensures ok <==> amount > 0
      ensures allocations == if amount > 0 then old(allocations) + [Allocation(e, t, amount)] else old(allocations)
    {
      if amount <= 0 {
        return false;
      }
      allocations := allocations + [Allocation(e, t, amount)];
      return true;
    }
  }

  // ----- runs of undisturbed calls -----

  datatype Call =
    | CallSubmit(input: SubmitInput, around: Surroundings)
    | CallAct(id: nat, action: Action)
    | CallEdit(id: nat, patch: LeavePatch, around: Surroundings)
    | CallGrant(grant: Allocation)

  datatype Tables = Tables(requests: seq<LeaveRow>, grants: seq<Allocation>)

  predicate GoodCall(call: Call) {
    call.CallSubmit? || call.CallEdit? ==> Readable(call.around)
  }

  /** Users act on what loads; the cascade updates the rows without loading them. */
  function ActOn(requests: seq<LeaveRow>, id: nat, action: Action): seq<LeaveRow> {
    if id < |requests| && (Reloads(requests[id]) || action.DoSystemCancel?)
    then requests[id := requests[id].(request := Perform(requests[id].request, action))]
    else requests
  }

  /** The call is an edit that goes through. */
  predicate Accepted(t: Tables, call: Call)
    requires GoodCall(call)
  {
    call.CallEdit? && call.id < |t.requests| && Edited(t.requests[call.id], call.patch, call.around).Ok?
  }

  function Execute(t: Tables, call: Call): Tables
    requires GoodCall(call)
  {
    match call
    case CallSubmit(input, c) =>
      var decision := Decide(t.requests, t.grants, input, c);
      if decision.Ok? then t.(requests := t.requests + [decision.value]) else t
    case CallAct(id, action) => t.(requests := ActOn(t.requests, id, action))
    case CallEdit(id, p, c) =>
      if Accepted(t, call) then t.(requests := t.requests[id := Edited(t.requests[id], p, c).value]) else t
    case CallGrant(g) => t.(grants := t.grants + [g])
  }

  /** No two active requests of one employee share a date. */
  ghost predicate NoOverlap(rows: seq<LeaveRow>) {
    forall i, j :: 0 <= i < j < |rows| && rows[i].request.status.Active() && rows[j].request.status.Active()
                   && rows[i].request.employee == rows[j].request.employee
                   ==> !ShareDate(rows[i].start, rows[i].end, rows[j].start, rows[j].end)
  }

  /** Run one after another, without interleaving. */
  function ExecuteAll(t: Tables, calls: seq<Call>): Tables
    requires forall call :: call in calls ==> GoodCall(call)
  {
    if calls == [] then t
    else
      assert calls[|calls| - 1] in calls;
      Execute(ExecuteAll(t, calls[..|calls| - 1]), calls[|calls| - 1])
  }

  /** A submitted request can be loaded again exactly when its weekday has enough work for the half asked for. */
  lemma SubmittedReloadsExactly(requests: seq<LeaveRow>, grants: seq<Allocation>, input: SubmitInput, c: Surroundings)
    requires Readable(c) && Decide(requests, grants, input, c).Ok?
    ensures WeekdayOf(input.start) in Workdays(c.schedule)
    ensures Reloads(Decide(requests, grants, input, c).value)
            <==> EnoughWork(RowFor(c.schedule, WeekdayOf(input.start)).window, input.portion)
  {
    AcceptedRangesCharge(c.schedule, c.today, input.start, input.end, input.portion, Some(input.leaveType));
    StoredHalfReloads(RowFor(c.schedule, WeekdayOf(input.start)).window, input.portion);
  }
}
