/**
 * HR edits of pending leave. An edit runs the date rules again but neither the
 * balance nor the overlap check, so it can break what submits protect; it also
 * rewrites the half-day window, so it can repair a request that does not load.
 */
module LeaveEdits {
  import opened Prelude
  import opened Calendar
  import opened HalfDay
  import opened DayCount
  import opened ApprovalMachine
  import opened LeaveTables
  import opened LeaveService

  predicate GoodCalls(calls: seq<Call>) {
    forall call :: call in calls ==> GoodCall(call)
  }

  /** The tables before the k-th call. */
  function At(t: Tables, calls: seq<Call>, k: nat): Tables
    requires GoodCalls(calls) && k <= |calls|
  {
    ExecuteAll(t, calls[..k])
  }

  lemma AtNext(t: Tables, calls: seq<Call>, k: nat)
    requires GoodCalls(calls) && k < |calls|
    ensures At(t, calls, 0) == t && At(t, calls, |calls|) == ExecuteAll(t, calls)
    ensures GoodCall(calls[k]) && At(t, calls, k + 1) == Execute(At(t, calls, k), calls[k])
  {
    assert calls[..|calls|] == calls;
    assert calls[..k + 1][..k] == calls[..k] && calls[..k + 1][k] == calls[k];
    assert calls[k] in calls;
  }

  /** The row an accepted edit writes. */
  function EditedRow(t: Tables, call: Call): LeaveRow
    requires GoodCall(call) && Accepted(t, call)
  {
    Edited(t.requests[call.id], call.patch, call.around).value
  }

  /**
   * An edit goes through exactly when the request is pending and, if it touches
   * dates, portion or type, the new range obeys the rules of a submit; it then
   * charges what a submit of the new range would.
   */
  lemma EditSucceedsExactly(r: LeaveRow, p: LeavePatch, c: Surroundings)
    requires Readable(c)
    ensures var (start, end) := (OrElse(p.start, r.start), OrElse(p.end, r.end));
            var portion := OrElse(p.portion, r.portion);
            && (Edited(r, p, c).Ok? <==>
                  && r.request.status.Pending()
                  && (Recomputes(p) ==>
                        && c.today <= start <= end
                        && WeekdayOf(start) in Workdays(c.schedule) && WeekdayOf(end) in Workdays(c.schedule)
                        && (portion != Full ==> start == end && OrElse(p.leaveType, r.leaveType) != Birthday)))
            && (Edited(r, p, c).Ok? && Recomputes(p) ==>
                  Edited(r, p, c).value.halfDays
                  == if portion != Full then 1
                     else 2 * |ScheduledDates(Workdays(c.schedule), DatesInRange(start, end))|)
            && (Edited(r, p, c).Ok? ==>
                  var row := Edited(r, p, c).value;
                  && row.start == start && row.end == end && row.portion == portion
                  && row.leaveType == OrElse(p.leaveType, r.leaveType)
                  && row.request == (if Recomputes(p) then r.request.(endDate := end) else r.request))
  {
    AcceptedRangesCharge(c.schedule, c.today, OrElse(p.start, r.start), OrElse(p.end, r.end),
                         OrElse(p.portion, r.portion), Some(OrElse(p.leaveType, r.leaveType)));
  }

  lemma GrantsAreAppended(t: Tables, g: Allocation)
    ensures Execute(t, CallGrant(g)) == Tables(t.requests, t.grants + [g])
  {
  }

  // ----- overlaps -----

  /** Every call keeps the ranges of the table ordered, as its check demands. */
  lemma CallKeepsRangesOrdered(t: Tables, call: Call)
    requires GoodCall(call) && OrderedRanges(t.requests)
    ensures OrderedRanges(Execute(t, call).requests)
  {
  }

  /** Some other active request of the employee shares a date with what the edit writes. */
  ghost predicate Clashes(t: Tables, call: Call)
    requires GoodCall(call) && Accepted(t, call)
  {
    var row := EditedRow(t, call);
    exists j :: 0 <= j < |t.requests| && j != call.id
                && t.requests[j].request.employee == row.request.employee && t.requests[j].request.status.Active()
                && ShareDate(t.requests[j].start, t.requests[j].end, row.start, row.end)
  }

  lemma CallOverlapsExactly(t: Tables, call: Call)
    requires GoodCall(call) && NoOverlap(t.requests)
    ensures NoOverlap(Execute(t, call).requests) <==> (Accepted(t, call) ==> !Clashes(t, call))
  {
    var after := Execute(t, call).requests;
    if Accepted(t, call) && Clashes(t, call) {
      var row := EditedRow(t, call);
      var j :| 0 <= j < |t.requests| && j != call.id
               && t.requests[j].request.employee == row.request.employee && t.requests[j].request.status.Active()
               && ShareDate(t.requests[j].start, t.requests[j].end, row.start, row.end);
      assert after[j] == t.requests[j] && after[call.id] == row;
      assert row.request.status.Active();
    }
  }

  ghost predicate DisjointAt(t: Tables, calls: seq<Call>, k: nat)
    requires GoodCalls(calls) && k <= |calls|
  {
    NoOverlap(At(t, calls, k).requests)
  }

  ghost predicate ClashesAt(t: Tables, calls: seq<Call>, k: nat)
    requires GoodCalls(calls) && k < |calls|
  {
    AtNext(t, calls, k);
    Accepted(At(t, calls, k), calls[k]) && Clashes(At(t, calls, k), calls[k])
  }

  /**
   * Over every run of calls that do not interleave: active requests of one
   * employee stay disjoint throughout if and only if no edit of the run clashes.
   */
  lemma {:induction false} RunsOverlapExactly(t: Tables, calls: seq<Call>)
    requires GoodCalls(calls) && NoOverlap(t.requests)
    ensures (forall k :: 0 <= k <= |calls| ==> DisjointAt(t, calls, k))
            <==> (forall k :: 0 <= k < |calls| ==> !ClashesAt(t, calls, k))
  {
    if forall k :: 0 <= k < |calls| ==> !ClashesAt(t, calls, k) {
      forall k | 0 <= k <= |calls|
        ensures DisjointAt(t, calls, k)
      {
        DisjointUpTo(t, calls, k);
      }
    }
    if forall k :: 0 <= k <= |calls| ==> DisjointAt(t, calls, k) {
      forall k | 0 <= k < |calls|
        ensures !ClashesAt(t, calls, k)
      {
        AtNext(t, calls, k);
        assert DisjointAt(t, calls, k) && DisjointAt(t, calls, k + 1);
        CallOverlapsExactly(At(t, calls, k), calls[k]);
      }
    }
  }

  lemma {:induction false} DisjointUpTo(t: Tables, calls: seq<Call>, k: nat)
    requires GoodCalls(calls) && k <= |calls| && NoOverlap(t.requests)
    requires forall j :: 0 <= j < k ==> !ClashesAt(t, calls, j)
    ensures DisjointAt(t, calls, k)
  {
    if k > 0 {
      DisjointUpTo(t, calls, k - 1);
      AtNext(t, calls, k - 1);
      assert !ClashesAt(t, calls, k - 1);
      CallOverlapsExactly(At(t, calls, k - 1), calls[k - 1]);
    }
  }

  // ----- balances -----

  /** The new charge does not fit beside what the other requests of the new type consume. */
  predicate Overdraws(t: Tables, call: Call)
    requires GoodCall(call) && Accepted(t, call)
  {
    var (r, row) := (t.requests[call.id], EditedRow(t, call));
    var (e, leaveType) := (row.request.employee, row.leaveType);
    Consumed(t.requests, e, leaveType) - Charge(r, e, leaveType) + row.halfDays
      > Allowance(t.grants, e, leaveType)
  }

  lemma EditOverdrawsExactly(t: Tables, call: Call)
    requires GoodCall(call) && WithinAllowance(t.requests, t.grants) && Accepted(t, call)
    ensures WithinAllowance(Execute(t, call).requests, t.grants) <==> !Overdraws(t, call)
  {
    var (r, row) := (t.requests[call.id], EditedRow(t, call));
    assert row.request.employee == r.request.employee && row.request.status == r.request.status;
    forall e, leaveType
      ensures Consumed(Execute(t, call).requests, e, leaveType) + Charge(r, e, leaveType)
              == Consumed(t.requests, e, leaveType) + Charge(row, e, leaveType)
    {
      ConsumedUpdate(t.requests, call.id, row, e, leaveType);
    }
    assert Charge(row, row.request.employee, row.leaveType) == row.halfDays;
  }

  lemma OtherCallsStayWithin(t: Tables, call: Call)
    requires GoodCall(call) && WithinAllowance(t.requests, t.grants) && !Accepted(t, call)
    ensures WithinAllowance(Execute(t, call).requests, Execute(t, call).grants)
  {
    var after := Execute(t, call);
    forall e, leaveType
      ensures Consumed(after.requests, e, leaveType) <= Allowance(after.grants, e, leaveType)
    {
      match call
      case CallSubmit(input, c) =>
        var decision := Decide(t.requests, t.grants, input, c);
        if decision.Ok? {
          PreparedRows(t.requests, input, c);
          ConsumedAppend(t.requests, decision.value, e, leaveType);
        }
      case CallAct(id, action) =>
        if id < |t.requests| {
          var r := t.requests[id];
          ActionsNeverCharge(r, action, e, leaveType);
          ConsumedUpdate(t.requests, id, r.(request := Perform(r.request, action)), e, leaveType);
        }
      case CallGrant(g) => AllowanceAppend(t.grants, g, e, leaveType);
      case CallEdit(_, _, _) =>
    }
  }

  ghost predicate WithinAt(t: Tables, calls: seq<Call>, k: nat)
    requires GoodCalls(calls) && k <= |calls|
  {
    WithinAllowance(At(t, calls, k).requests, At(t, calls, k).grants)
  }

  predicate OverdrawsAt(t: Tables, calls: seq<Call>, k: nat)
    requires GoodCalls(calls) && k < |calls|
  {
    AtNext(t, calls, k);
    Accepted(At(t, calls, k), calls[k]) && Overdraws(At(t, calls, k), calls[k])
  }

  lemma CallOverdrawsExactly(t: Tables, calls: seq<Call>, k: nat)
    requires GoodCalls(calls) && k < |calls| && WithinAt(t, calls, k)
    ensures WithinAt(t, calls, k + 1) <==> !OverdrawsAt(t, calls, k)
  {
    AtNext(t, calls, k);
    var (now, call) := (At(t, calls, k), calls[k]);
    if Accepted(now, call) {
      EditOverdrawsExactly(now, call);
    } else {
      OtherCallsStayWithin(now, call);
    }
  }

  /**
   * Over every run of calls that do not interleave: no balance is ever overdrawn
   * if and only if no edit of the run overdraws one.
   */
  lemma RunsOverdrawExactly(t: Tables, calls: seq<Call>)
    requires GoodCalls(calls) && WithinAllowance(t.requests, t.grants)
    ensures (forall k :: 0 <= k <= |calls| ==> WithinAt(t, calls, k))
            <==> (forall k :: 0 <= k < |calls| ==> !OverdrawsAt(t, calls, k))
  {
    if forall k :: 0 <= k < |calls| ==> !OverdrawsAt(t, calls, k) {
      forall k | 0 <= k <= |calls|
        ensures WithinAt(t, calls, k)
      {
        WithinUpTo(t, calls, k);
      }
    }
    if forall k :: 0 <= k <= |calls| ==> WithinAt(t, calls, k) {
      forall k | 0 <= k < |calls|
        ensures !OverdrawsAt(t, calls, k)
      {
        assert WithinAt(t, calls, k) && WithinAt(t, calls, k + 1);
        CallOverdrawsExactly(t, calls, k);
      }
    }
  }

  lemma {:induction false} WithinUpTo(t: Tables, calls: seq<Call>, k: nat)
    requires GoodCalls(calls) && k <= |calls| && WithinAllowance(t.requests, t.grants)
    requires forall j :: 0 <= j < k ==> !OverdrawsAt(t, calls, j)
    ensures WithinAt(t, calls, k)
  {
    if k > 0 {
      WithinUpTo(t, calls, k - 1);
      CallOverdrawsExactly(t, calls, k - 1);
      assert !OverdrawsAt(t, calls, k - 1);
    }
  }

  // ----- requests that cannot be loaded -----

  /** An edit that recomputes leaves a row that loads exactly when it is full or its weekday has enough work. */
  lemma EditedReloadsExactly(r: LeaveRow, p: LeavePatch, c: Surroundings)
    requires Readable(c) && Recomputes(p) && Edited(r, p, c).Ok?
    ensures var row := Edited(r, p, c).value;
            && WeekdayOf(row.start) in Workdays(c.schedule)
            && (Reloads(row)
                <==> row.portion == Full || EnoughWork(RowFor(c.schedule, WeekdayOf(row.start)).window, row.portion))
  {
    EditSucceedsExactly(r, p, c);
    StoredHalfReloads(RowFor(c.schedule, WeekdayOf(OrElse(p.start, r.start))).window, OrElse(p.portion, r.portion));
  }

  /** The call is an accepted edit of the request that gives it a whole day or a weekday with enough work. */
  predicate Heals(t: Tables, call: Call, id: nat)
    requires GoodCall(call)
  {
    && Accepted(t, call) && call.id == id && Recomputes(call.patch)
    && var row := EditedRow(t, call);
       row.portion == Full
       || (WeekdayOf(row.start) in Workdays(call.around.schedule)
           && EnoughWork(RowFor(call.around.schedule, WeekdayOf(row.start)).window, row.portion))
  }

  predicate SystemCancels(call: Call, id: nat) {
    call.CallAct? && call.id == id && call.action.DoSystemCancel?
  }

  predicate Unloadable(t: Tables, id: nat) {
    id < |t.requests| && !Reloads(t.requests[id])
  }

  /** No approve, reject or cancel has touched it. */
  predicate Undecided(before: Request, after: Request) {
    after == before.(endDate := after.endDate)
  }

  lemma UnloadableStep(t: Tables, call: Call, id: nat)
    requires GoodCall(call) && Unloadable(t, id)
    ensures id < |Execute(t, call).requests|
    ensures Unloadable(Execute(t, call), id) <==> !Heals(t, call, id)
    ensures SystemCancels(call, id) || Undecided(t.requests[id].request, Execute(t, call).requests[id].request)
  {
    if Accepted(t, call) && call.id == id && Recomputes(call.patch) {
      EditedReloadsExactly(t.requests[id], call.patch, call.around);
    }
  }

  predicate HealsAt(t: Tables, calls: seq<Call>, id: nat, k: nat)
    requires GoodCalls(calls) && k < |calls|
  {
    AtNext(t, calls, k);
    Heals(At(t, calls, k), calls[k], id)
  }

  /**
   * Over every run in which no edit heals it, an unloadable request stays
   * unloadable, and only the cascade touches its status: nobody approves,
   * rejects or cancels it.
   */
  lemma {:induction false} UnloadableStays(t: Tables, calls: seq<Call>, id: nat, k: nat)
    requires GoodCalls(calls) && Unloadable(t, id) && k <= |calls|
    requires forall j :: 0 <= j < k ==> !HealsAt(t, calls, id, j)
    ensures Unloadable(At(t, calls, k), id)
    ensures (forall j :: 0 <= j < k ==> !SystemCancels(calls[j], id)) ==>
              Undecided(t.requests[id].request, At(t, calls, k).requests[id].request)
  {
    if k == 0 {
      assert calls[..0] == [];
    } else {
      UnloadableStays(t, calls, id, k - 1);
      AtNext(t, calls, k - 1);
      assert !HealsAt(t, calls, id, k - 1);
      UnloadableStep(At(t, calls, k - 1), calls[k - 1], id);
    }
  }

  /** Exactly when it can be loaded again: at some moment of a run if and only if some edit of the run heals it. */
  lemma LoadsAgainExactly(t: Tables, calls: seq<Call>, id: nat)
    requires GoodCalls(calls) && Unloadable(t, id)
    ensures (exists k :: 0 <= k <= |calls| && !Unloadable(At(t, calls, k), id))
            <==> (exists k :: 0 <= k < |calls| && HealsAt(t, calls, id, k))
  {
    if k :| 0 <= k <= |calls| && !Unloadable(At(t, calls, k), id) {
      if forall j :: 0 <= j < k ==> !HealsAt(t, calls, id, j) {
        UnloadableStays(t, calls, id, k);
      }
    }
    if k :| 0 <= k < |calls| && HealsAt(t, calls, id, k) {
      AtNext(t, calls, k);
      if Unloadable(At(t, calls, k), id) {
        UnloadableStep(At(t, calls, k), calls[k], id);
        assert !Unloadable(At(t, calls, k + 1), id);
      }
    }
  }

  // ----- examples -----

  const MONDAY: Day := 4

  function Taken(d: Day, portion: Portion, start: Option<string>, end: Option<string>, halfDays: nat): LeaveRow {
    LeaveRow(Vacation, d, d, portion, start, end, halfDays, Submitted(LeaveKind, 1, d, 2, None))
  }

  const OFFICE := WorkWindow(32_400, 64_800, 60, Some(43_200))

  const TWO_DAY_WEEK := Surroundings([ActiveDay(1, OFFICE), ActiveDay(2, OFFICE)], MONDAY, Some(2), None)

  /** Monday and Tuesday taken, with two days granted. */
  const TWO_DAYS := Tables([Taken(MONDAY, Full, None, None, 2), Taken(MONDAY + 1, Full, None, None, 2)],
                           [Allocation(1, Vacation, 2)])

  lemma TwoDaysFit()
    ensures NoOverlap(TWO_DAYS.requests) && WithinAllowance(TWO_DAYS.requests, TWO_DAYS.grants)
    ensures Consumed(TWO_DAYS.requests, 1, Vacation) == Allowance(TWO_DAYS.grants, 1, Vacation) == 4
  {
    var (first, second) := (Taken(MONDAY, Full, None, None, 2), Taken(MONDAY + 1, Full, None, None, 2));
    assert TWO_DAYS.requests == [first] + [second] && [first] == [] + [first];
    assert TWO_DAYS.grants[..0] == [];
    forall e, leaveType
      ensures Consumed(TWO_DAYS.requests, e, leaveType) == Charge(first, e, leaveType) + Charge(second, e, leaveType)
    {
      ConsumedAppend([first], second, e, leaveType);
      ConsumedAppend([], first, e, leaveType);
    }
  }

  /** Moving the end of the first to Tuesday overdraws the balance and overlaps the second. */
  lemma EditBreaksBoth()
    ensures var edit := CallEdit(0, LeavePatch(None, None, Some(MONDAY + 1), None), TWO_DAY_WEEK);
            && GoodCall(edit) && NoOverlap(TWO_DAYS.requests) && WithinAllowance(TWO_DAYS.requests, TWO_DAYS.grants)
            && !NoOverlap(Execute(TWO_DAYS, edit).requests)
            && !WithinAllowance(Execute(TWO_DAYS, edit).requests, TWO_DAYS.grants)
  {
    var p := LeavePatch(None, None, Some(MONDAY + 1), None);
    var (t, edit) := (TWO_DAYS, CallEdit(0, p, TWO_DAY_WEEK));
    assert Workdays(TWO_DAY_WEEK.schedule) == {1, 2} by {
      assert TWO_DAY_WEEK.schedule[0].weekday == 1 && TWO_DAY_WEEK.schedule[1].weekday == 2;
    }
    EditSucceedsExactly(t.requests[0], p, TWO_DAY_WEEK);
    CountsTheListedDates({1, 2}, MONDAY, MONDAY + 1);
    assert CountAgainst({1, 2}, MONDAY, MONDAY + 1) == CountAgainst({1, 2}, MONDAY, MONDAY) + 1 == 2;
    TwoDaysFit();
    EditOverdrawsExactly(t, edit);
    assert InRange(MONDAY + 1, MONDAY + 1, MONDAY + 1) && InRange(MONDAY + 1, MONDAY, MONDAY + 1);
    CallOverlapsExactly(t, edit);
  }

  const ONE_SECOND := Surroundings([ActiveDay(1, WorkWindow(32_400, 32_401, 0, None))], MONDAY, Some(2), None)

  const SECOND_HALF := SubmitInput(1, Vacation, MONDAY, MONDAY, SecondHalf, false)

  const WHOLE_DAY := LeavePatch(None, None, None, Some(Full))

  lemma HalfIsSubmitted(grants: seq<Allocation>)
    requires grants == [Allocation(1, Vacation, 1)]
    ensures var r := Decide([], grants, SECOND_HALF, ONE_SECOND);
            r.Ok? && !Reloads(r.value) && r.value == Taken(MONDAY, SecondHalf, r.value.startTime, r.value.endTime, 1)
    ensures WeekdayOf(MONDAY) in Workdays(ONE_SECOND.schedule)
  {
    assert Workdays(ONE_SECOND.schedule) == {1} by {
      assert ONE_SECOND.schedule[0].weekday == 1;
    }
    assert Allowance(grants, 1, Vacation) == 2 by {
      assert grants[..0] == [];
    }
    SubmitSucceedsExactly([], grants, SECOND_HALF, ONE_SECOND);
    hide Allowance, StoredStart, StoredEnd;
    SubmittedReloadsExactly([], grants, SECOND_HALF, ONE_SECOND);
    PreparedRows([], SECOND_HALF, ONE_SECOND);
  }

  lemma WholeDayIsAccepted(r: LeaveRow)
    requires r == Taken(MONDAY, SecondHalf, r.startTime, r.endTime, 1)
    requires WeekdayOf(MONDAY) in Workdays(ONE_SECOND.schedule)
    ensures Edited(r, WHOLE_DAY, ONE_SECOND).Ok?
    ensures var row := Edited(r, WHOLE_DAY, ONE_SECOND).value;
            Reloads(row) && row.portion == Full && row.request == r.request
  {
    EditSucceedsExactly(r, WHOLE_DAY, ONE_SECOND);
    EditedReloadsExactly(r, WHOLE_DAY, ONE_SECOND);
  }

  /** A half-day of a one-second schedule: nobody can approve it until HR makes it a whole day. */
  lemma HealedExample(t: Tables, a: Actor)
    requires t == Tables([], [Allocation(1, Vacation, 1)]) && a == Actor(2, false, true, false, false)
    ensures var (submit, approve) := (CallSubmit(SECOND_HALF, ONE_SECOND), CallAct(0, DoApprove(a, true)));
            var edit := CallEdit(0, WHOLE_DAY, ONE_SECOND);
            var submitted := Execute(t, submit);
            && Unloadable(submitted, 0) && Execute(submitted, approve) == submitted && Heals(submitted, edit, 0)
            && |Execute(submitted, edit).requests| == 1
            && Execute(Execute(submitted, edit), approve).requests[0].request.status == Approved
  {
    HalfIsSubmitted(t.grants);
    WholeDayIsAccepted(Decide([], t.grants, SECOND_HALF, ONE_SECOND).value);
    hide Decide, Edited, Reloads, Workdays;
  }
}
