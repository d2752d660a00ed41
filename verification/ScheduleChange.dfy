/**
 * Previewing and applying a schedule change: which requests it cancels, the
 * guard against drift since the preview, and what the cancelled leave frees.
 */
module ScheduleChange {
  import opened Prelude
  import opened Calendar
  import opened DayCount
  import opened ApprovalMachine
  import opened LeaveTables
  import opened SchedulePolicy
  import opened ScheduleVersioning

  // ----- candidates -----

  /** The prefilter of the leave query. */
  predicate LeaveCandidate(r: LeaveRow, intent: Intent) {
    r.request.employee == intent.employee && r.request.status.Active() && r.end >= intent.from
  }

  predicate CorrectionCandidate(c: CorrectionRow, intent: Intent) {
    c.request.employee == intent.employee && c.request.status.Active() && c.workDate >= intent.from
  }

  function LeaveCandidates(rows: seq<LeaveRow>, intent: Intent): set<nat> {
    set i | 0 <= i < |rows| && LeaveCandidate(rows[i], intent)
  }

  function CorrectionCandidates(rows: seq<CorrectionRow>, intent: Intent): set<nat> {
    set i | 0 <= i < |rows| && CorrectionCandidate(rows[i], intent)
  }

  /** The prefilters: the employee's active requests that reach the change. */
  lemma CandidatesExactly(leaves: seq<LeaveRow>, corrections: seq<CorrectionRow>, intent: Intent, i: nat)
    ensures i in LeaveCandidates(leaves, intent) <==>
              && i < |leaves| && leaves[i].request.employee == intent.employee && intent.from <= leaves[i].end
              && leaves[i].request.status != Rejected && leaves[i].request.status != Cancelled
    ensures i in CorrectionCandidates(corrections, intent) <==>
              && i < |corrections| && corrections[i].request.employee == intent.employee
              && intent.from <= corrections[i].workDate
              && corrections[i].request.status != Rejected && corrections[i].request.status != Cancelled
  {
  }

  /** `ids` lists a set without repetition, in whatever order the query returned it. */
  ghost predicate Lists(ids: seq<nat>, all: set<nat>) {
    Distinct(ids) && forall i :: i in all <==> i in ids
  }

  function LeaveHit(rows: seq<LeaveRow>, i: nat, live: Option<ScheduleRow>, intent: Intent, today: Day): bool
    requires i < |rows|
  {
    Cancels(EvaluateLeave(rows[i], live, intent, today))
  }

  function CorrectionHit(rows: seq<CorrectionRow>, i: nat, live: Option<ScheduleRow>, intent: Intent, today: Day): bool
    requires i < |rows|
  {
    Cancels(EvaluateCorrection(rows[i], live, intent, today))
  }

  /** The requests a change cancels; with no live row there is nothing it could touch. */
  function CancelledLeaves(rows: seq<LeaveRow>, live: Option<ScheduleRow>, intent: Intent, today: Day): set<nat> {
    if live.None? then {}
    else set i | i in LeaveCandidates(rows, intent) && i < |rows| && LeaveHit(rows, i, live, intent, today)
  }

  function CancelledCorrections(rows: seq<CorrectionRow>, live: Option<ScheduleRow>, intent: Intent, today: Day)
    : set<nat>
  {
    if live.None? then {}
    else set i | i in CorrectionCandidates(rows, intent) && i < |rows| && CorrectionHit(rows, i, live, intent, today)
  }

  /**
   * The cascade cancels exactly the right leaves, and the prefilter loses none:
   * a leave of the table is cancelled if and only if it is active, belongs to
   * the employee, has a date of the weekday on or after the change, is hit by
   * it, and is pending or starts after today.
   */
  lemma CascadeCancelsExactly(rows: seq<LeaveRow>, live: Option<ScheduleRow>, intent: Intent, today: Day, i: nat)
    requires OrderedRanges(rows) && i < |rows|
    requires today <= intent.from && 0 <= intent.weekday < 7
    ensures i in CancelledLeaves(rows, live, intent, today) <==>
              && live.Some?
              && rows[i].request.status.Active()
              && rows[i].request.employee == intent.employee
              && (exists d :: rows[i].start <= d <= rows[i].end && Governed(d, intent))
              && HitsLeave(rows[i], live, intent)
              && (rows[i].request.status.Pending() || today < rows[i].start)
  {
    LeaveCancelledExactly(rows[i], live, intent, today);
    var d := FirstGoverned(rows[i], intent);
    assert Governed(d, intent);
  }

  /** And exactly the right corrections: active ones of the employee on a governed date whose window changes. */
  lemma CorrectionCascadeExactly(rows: seq<CorrectionRow>, live: Option<ScheduleRow>, intent: Intent, today: Day,
                                 i: nat)
    requires i < |rows| && today <= intent.from && 0 <= intent.weekday < 7
    ensures i in CancelledCorrections(rows, live, intent, today) <==>
              && live.Some?
              && rows[i].request.status.Active()
              && rows[i].request.employee == intent.employee
              && intent.from <= rows[i].workDate && WeekdayOf(rows[i].workDate) == intent.weekday
              && (intent.mode == Remove
                  || intent.expectedIn != Some(live.value.window.expectedIn)
                  || intent.expectedOut != Some(live.value.window.expectedOut))
              && (rows[i].request.status.Pending() || today < rows[i].workDate)
  {
    CorrectionCancelledExactly(rows[i], live, intent, today);
  }

  // ----- impact -----

  /** A request a preview showed as about to be cancelled. */
  datatype Key = LeaveKey(id: nat, status: Status) | CorrectionKey(id: nat, status: Status)

  datatype Impact = Impact(
    versioning: Versioning, live: Option<nat>, leaves: seq<nat>, corrections: seq<nat>, freedHalfDays: nat)

  function SumHalfDays(rows: seq<LeaveRow>, ids: seq<nat>): nat
    requires forall k :: 0 <= k < |ids| ==> ids[k] < |rows|
  {
    if ids == [] then 0
    else
      SumHalfDays(rows, ids[..|ids| - 1]) + rows[ids[|ids| - 1]].halfDays
  }

  function KeysOf(leaveRows: seq<LeaveRow>, correctionRows: seq<CorrectionRow>, leaves: set<nat>, corrections: set<nat>)
    : set<Key>
  {
    (set i | i in leaves && i < |leaveRows| :: LeaveKey(i, leaveRows[i].request.status))
    + (set i | i in corrections && i < |correctionRows| :: CorrectionKey(i, correctionRows[i].request.status))
  }

  datatype ChangeError = BadIntent(why: IntentError) | NothingToRemove | Drifted

  function SystemCancelCorrections(rows: seq<CorrectionRow>, ids: set<nat>, actorId: int, note: string)
    : (out: seq<CorrectionRow>)
    ensures |out| == |rows|
    ensures forall i :: 0 <= i < |rows| ==>
              out[i] == if i in ids then rows[i].(request := SystemCancel(rows[i].request, actorId, note)) else rows[i]
  {
    seq(|rows|, i requires 0 <= i < |rows| =>
      if i in ids then rows[i].(request := SystemCancel(rows[i].request, actorId, note)) else rows[i])
  }

  function SetOf(ids: seq<nat>): set<nat> {
    set i | i in ids
  }

  // ----- conservation -----

  function EmployeeCharge(r: LeaveRow, e: int): nat {
    if r.request.employee == e && r.request.status.Active() then r.halfDays else 0
  }

  /** Everything an employee's active leave charges: the consumed sums of all leave types. */
  function EmployeeConsumed(rows: seq<LeaveRow>, e: int): nat {
    Consumed(rows, e, Vacation) + Consumed(rows, e, Sick) + Consumed(rows, e, Bereavement)
    + Consumed(rows, e, Birthday) + Consumed(rows, e, Emergency)
  }

  lemma ConsumedByLast(rows: seq<LeaveRow>, e: int)
    requires rows != []
    ensures EmployeeConsumed(rows, e)
            == EmployeeConsumed(rows[..|rows| - 1], e) + EmployeeCharge(rows[|rows| - 1], e)
  {
  }

  lemma CancelledPrefix(rows: seq<LeaveRow>, ids: set<nat>, actorId: int, note: string)
    requires rows != []
    ensures SystemCancelRows(rows, ids, actorId, note)[..|rows| - 1]
            == SystemCancelRows(rows[..|rows| - 1], ids, actorId, note)
  {
  }

  lemma CancelledCharge(r: LeaveRow, actorId: int, note: string, e: int)
    ensures EmployeeCharge(r.(request := SystemCancel(r.request, actorId, note)), e) == 0
  {
  }

  lemma CancelledUpTo(rows: seq<LeaveRow>, ids: set<nat>, i: nat, actorId: int, note: string)
    requires |rows| <= i
    ensures SystemCancelRows(rows, ids + {i}, actorId, note) == SystemCancelRows(rows, ids, actorId, note)
  {
  }

  /** Consumption after a cancel, row by row. */
  lemma CancelledByLast(rows: seq<LeaveRow>, ids: set<nat>, actorId: int, note: string, e: int)
    requires rows != []
    ensures var k := |rows| - 1;
            EmployeeConsumed(SystemCancelRows(rows, ids, actorId, note), e)
            == EmployeeConsumed(SystemCancelRows(rows[..k], ids, actorId, note), e)
               + if k in ids then 0 else EmployeeCharge(rows[k], e)
  {
    CancelledPrefix(rows, ids, actorId, note);
    ConsumedByLast(SystemCancelRows(rows, ids, actorId, note), e);
    CancelledCharge(rows[|rows| - 1], actorId, note, e);
    hide EmployeeConsumed, EmployeeCharge, SystemCancel;
  }

  lemma {:induction false} CancelOneFrees(rows: seq<LeaveRow>, ids: set<nat>, i: nat, actorId: int, note: string,
                                          e: int)
    requires i < |rows| && i !in ids
    ensures EmployeeConsumed(SystemCancelRows(rows, ids, actorId, note), e)
            == EmployeeConsumed(SystemCancelRows(rows, ids + {i}, actorId, note), e) + EmployeeCharge(rows[i], e)
  {
    var k := |rows| - 1;
    hide SystemCancelRows, EmployeeCharge, EmployeeConsumed;
    CancelledByLast(rows, ids, actorId, note, e);
    CancelledByLast(rows, ids + {i}, actorId, note, e);
    if i == k {
      CancelledUpTo(rows[..k], ids, i, actorId, note);
    } else {
      CancelOneFrees(rows[..k], ids, i, actorId, note, e);
    }
  }

  /** Cancelling a list of active requests of one employee frees the days they were charged for. */
  lemma {:induction false} CancelledListFrees(rows: seq<LeaveRow>, ids: seq<nat>, actorId: int, note: string, e: int)
    requires Distinct(ids)
    requires forall k :: 0 <= k < |ids| ==>
               ids[k] < |rows| && rows[ids[k]].request.employee == e && rows[ids[k]].request.status.Active()
    ensures EmployeeConsumed(SystemCancelRows(rows, SetOf(ids), actorId, note), e) + SumHalfDays(rows, ids)
            == EmployeeConsumed(rows, e)
  {
    if ids == [] {
      assert SystemCancelRows(rows, SetOf(ids), actorId, note) == rows;
    } else {
      var (init, last) := (ids[..|ids| - 1], ids[|ids| - 1]);
      assert last in ids && ids == init + [last];
      CancelledListFrees(rows, init, actorId, note, e);
      CancelOneFrees(rows, SetOf(init), last, actorId, note, e);
      assert SetOf(ids) == SetOf(init) + {last};
      hide SystemCancelRows, EmployeeConsumed;
    }
  }

  lemma {:induction false} OthersKeepTheirDays(rows: seq<LeaveRow>, ids: set<nat>, actorId: int, note: string, e: int)
    requires forall i :: i in ids && i < |rows| ==> rows[i].request.employee != e
    ensures EmployeeConsumed(SystemCancelRows(rows, ids, actorId, note), e) == EmployeeConsumed(rows, e)
  {
    if rows == [] {
      assert SystemCancelRows(rows, ids, actorId, note) == rows;
    } else {
      OthersKeepTheirDays(rows[..|rows| - 1], ids, actorId, note, e);
      CancelledByLast(rows, ids, actorId, note, e);
      ConsumedByLast(rows, e);
      hide SystemCancelRows, EmployeeConsumed;
    }
  }

  class ScheduleChangeService {
    const schedules: WorkScheduleRepository
    var leaves: seq<LeaveRow>
    var corrections: seq<CorrectionRow>

    constructor (schedules: WorkScheduleRepository)
      ensures this.schedules == schedules && leaves == [] && corrections == []
    {
      this.schedules := schedules;
      leaves := [];
      corrections := [];
    }

    /** The engine of preview and apply. The candidate lists are what the two queries returned. */
    method ComputeImpact(intent: Intent, today: Day, leaveIds: seq<nat>, correctionIds: seq<nat>)
      returns (r: Result<Impact, ChangeError>)
      requires Lists(leaveIds, LeaveCandidates(leaves, intent))
      requires Lists(correctionIds, CorrectionCandidates(corrections, intent))
      ensures var live := LiveRow(schedules.rows, intent.employee, intent.weekday);
              var row := RowAt(schedules.rows, live);
              var plan := PlanVersioning(row, intent);
              && (plan == Noop ==> r == Err(NothingToRemove))
              && (plan != Noop ==>
                    && r.Ok? && r.value.versioning == plan && r.value.live == live
                    && Distinct(r.value.leaves)
                    && SetOf(r.value.leaves) == CancelledLeaves(leaves, row, intent, today)
                    && SetOf(r.value.corrections) == CancelledCorrections(corrections, row, intent, today)
                    && (forall k :: 0 <= k < |r.value.leaves| ==> r.value.leaves[k] < |leaves|)
                    && r.value.freedHalfDays == SumHalfDays(leaves, r.value.leaves))
    {
      var live := schedules.FindActiveForEmployeeDay(intent.employee, intent.weekday);
      var row := if live.Some? then Some(schedules.rows[live.value]) else None;
      var plan := PlanVersioning(row, intent);
      if plan == Noop {
        return Err(NothingToRemove);
      }
      if row.None? {
        return Ok(Impact(plan, live, [], [], 0));
      }
      var hitLeaves := CollectLeaves(leaveIds, row, intent, today);
      var hitCorrections := CollectCorrections(correctionIds, row, intent, today);
      var freed := 0;
      for k := 0 to |hitLeaves|
        invariant freed == SumHalfDays(leaves, hitLeaves[..k])
      {
        assert hitLeaves[..k + 1][..k] == hitLeaves[..k];
        freed := freed + leaves[hitLeaves[k]].halfDays;
      }
      assert hitLeaves[..|hitLeaves|] == hitLeaves;
      return Ok(Impact(plan, live, hitLeaves, hitCorrections, freed));
    }

    method CollectLeaves(ids: seq<nat>, row: Option<ScheduleRow>, intent: Intent, today: Day) returns (hit: seq<nat>)
      requires Lists(ids, LeaveCandidates(leaves, intent)) && row.Some?
      ensures Distinct(hit) && SetOf(hit) == CancelledLeaves(leaves, row, intent, today)
      ensures forall k :: 0 <= k < |hit| ==> hit[k] < |leaves|
    {
      hide LeaveHit, LeaveCandidate;
      hit := [];
      for k := 0 to |ids|
        invariant forall i :: i in hit <==> i in ids[..k] && i < |leaves| && LeaveHit(leaves, i, row, intent, today)
        invariant forall j :: 0 <= j < |hit| ==> hit[j] < |leaves|
        invariant Distinct(hit)
      {
        var id := ids[k];
        assert id in ids && id in LeaveCandidates(leaves, intent);
        assert id !in ids[..k];
        if LeaveHit(leaves, id, row, intent, today) {
          hit := hit + [id];
        }
        assert ids[..k + 1] == ids[..k] + [id];
      }
      assert ids[..|ids|] == ids;
    }

    method CollectCorrections(ids: seq<nat>, row: Option<ScheduleRow>, intent: Intent, today: Day)
      returns (hit: seq<nat>)
      requires Lists(ids, CorrectionCandidates(corrections, intent)) && row.Some?
      ensures SetOf(hit) == CancelledCorrections(corrections, row, intent, today)
    {
      hit := [];
      for k := 0 to |ids|
        invariant forall i ::
                    i in hit <==>
                    i in ids[..k] && i < |corrections| && CorrectionHit(corrections, i, row, intent, today)
      {
        var id := ids[k];
        assert id in ids && id in CorrectionCandidates(corrections, intent);
        if CorrectionHit(corrections, id, row, intent, today) {
          hit := hit + [id];
        }
        assert ids[..k + 1] == ids[..k] + [id];
      }
      assert ids[..|ids|] == ids;
    }

    /**
     * `apply`: validate, recompute the impact, refuse on drift, write the new
     * version, cancel. The requests it cancels are exactly those previewed.
     */
    method Apply(intent: Intent, today: Day, mayRemove: bool, actorId: int, note: string, previewed: seq<Key>,
                 leaveIds: seq<nat>, correctionIds: seq<nat>)
      returns (r: Result<Impact, ChangeError>)
      requires 0 <= intent.weekday < 7 && Constraints(schedules.rows)
      requires Lists(leaveIds, LeaveCandidates(leaves, intent))
      requires Lists(correctionIds, CorrectionCandidates(corrections, intent))
      modifies this, schedules
      ensures Constraints(schedules.rows)
      ensures r.Err? ==>
                schedules.rows == old(schedules.rows) && leaves == old(leaves) && corrections == old(corrections)
      ensures var row := RowAt(old(schedules.rows), LiveRow(old(schedules.rows), intent.employee, intent.weekday));
              var cancelled := CancelledLeaves(old(leaves), row, intent, today);
              var cancelledToo := CancelledCorrections(old(corrections), row, intent, today);
              var keys := KeysOf(old(leaves), old(corrections), cancelled, cancelledToo);
              && (r.Ok? <==>
                    && Validate(intent, today, mayRemove).None?
                    && PlanVersioning(row, intent) != Noop
                    && keys == set k | k in previewed)
              && (r.Ok? ==>
                    && schedules.rows == Versioned(old(schedules.rows), intent)
                    && leaves == SystemCancelRows(old(leaves), cancelled, actorId, note)
                    && corrections == SystemCancelCorrections(old(corrections), cancelledToo, actorId, note)
                    && EmployeeConsumed(leaves, intent.employee) + r.value.freedHalfDays
                       == EmployeeConsumed(old(leaves), intent.employee))
    {
      var invalid := Validate(intent, today, mayRemove);
      if invalid.Some? {
        return Err(BadIntent(invalid.value));
      }
      r := ComputeImpact(intent, today, leaveIds, correctionIds);
      if r.Err? {
        return;
      }
      var impact := r.value;
      var current := KeysOf(leaves, corrections, SetOf(impact.leaves), SetOf(impact.corrections));
      if current != set k | k in previewed {
        return Err(Drifted);
      }
      var created := schedules.ApplyVersioning(impact.versioning, impact.live, intent);
      ghost var row := RowAt(old(schedules.rows), LiveRow(old(schedules.rows), intent.employee, intent.weekday));
      CancelledAreTheirs(leaves, row, intent, today);
      forall k | 0 <= k < |impact.leaves|
        ensures var i := impact.leaves[k];
                i < |leaves| && leaves[i].request.employee == intent.employee && leaves[i].request.status.Active()
      {
        assert impact.leaves[k] in SetOf(impact.leaves);
      }
      CancelledListFrees(leaves, impact.leaves, actorId, note, intent.employee);
      leaves := SystemCancelRows(leaves, SetOf(impact.leaves), actorId, note);
      corrections := SystemCancelCorrections(corrections, SetOf(impact.corrections), actorId, note);
    }
  }

  lemma CancelledAreTheirs(rows: seq<LeaveRow>, live: Option<ScheduleRow>, intent: Intent, today: Day)
    ensures forall i :: i in CancelledLeaves(rows, live, intent, today) ==>
              i < |rows| && rows[i].request.employee == intent.employee && rows[i].request.status.Active()
  {
  }

  /** The requests a system cancel turned from active to cancelled. */
  function NewlyCancelled(before: seq<LeaveRow>, after: seq<LeaveRow>): set<nat>
    requires |before| == |after|
  {
    set i | 0 <= i < |before| && before[i].request.status.Active() && after[i].request.status == Cancelled
  }

  /**
   * What was previewed is what gets cancelled: whenever the drift guard passes,
   * the leave requests that turn to cancelled are exactly those whose keys the
   * caller sent back, still in the status the caller saw.
   */
  lemma CancelledEqualsPreviewed(leaveRows: seq<LeaveRow>, correctionRows: seq<CorrectionRow>,
                                 live: Option<ScheduleRow>, intent: Intent, today: Day,
                                 actorId: int, note: string, previewed: seq<Key>, i: nat)
    requires i < |leaveRows|
    requires var cancelled := CancelledLeaves(leaveRows, live, intent, today);
             var cancelledToo := CancelledCorrections(correctionRows, live, intent, today);
             KeysOf(leaveRows, correctionRows, cancelled, cancelledToo) == set k | k in previewed
    ensures var after := SystemCancelRows(leaveRows, CancelledLeaves(leaveRows, live, intent, today), actorId, note);
            i in NewlyCancelled(leaveRows, after) <==> LeaveKey(i, leaveRows[i].request.status) in previewed
    ensures forall s: Status :: LeaveKey(i, s) in previewed ==> s == leaveRows[i].request.status
  {
    var cancelled := CancelledLeaves(leaveRows, live, intent, today);
    var cancelledToo := CancelledCorrections(correctionRows, live, intent, today);
    var keys := KeysOf(leaveRows, correctionRows, cancelled, cancelledToo);
    CancelledAreTheirs(leaveRows, live, intent, today);
    assert forall s: Status :: LeaveKey(i, s) in keys <==> i in cancelled && s == leaveRows[i].request.status;
    assert forall k :: k in keys <==> k in previewed by {
      assert forall k :: k in keys <==> k in (set x | x in previewed);
    }
  }

  /** The same for corrections. */
  lemma CorrectionsCancelledEqualPreviewed(leaveRows: seq<LeaveRow>, correctionRows: seq<CorrectionRow>,
                                           live: Option<ScheduleRow>, intent: Intent, today: Day,
                                           actorId: int, note: string, previewed: seq<Key>, i: nat)
    requires i < |correctionRows|
    requires var cancelled := CancelledLeaves(leaveRows, live, intent, today);
             var cancelledToo := CancelledCorrections(correctionRows, live, intent, today);
             KeysOf(leaveRows, correctionRows, cancelled, cancelledToo) == set k | k in previewed
    ensures var ids := CancelledCorrections(correctionRows, live, intent, today);
            var before := correctionRows[i].request;
            var after := SystemCancelCorrections(correctionRows, ids, actorId, note)[i].request;
            (before.status.Active() && after.status == Cancelled) <==> CorrectionKey(i, before.status) in previewed
  {
    var cancelled := CancelledLeaves(leaveRows, live, intent, today);
    var cancelledToo := CancelledCorrections(correctionRows, live, intent, today);
    var keys := KeysOf(leaveRows, correctionRows, cancelled, cancelledToo);
    var key := CorrectionKey(i, correctionRows[i].request.status);
    assert key in keys <==> i in cancelledToo;
    assert key in keys <==> key in (set x | x in previewed);
  }

  /** Applying a change leaves every other employee's consumption alone. */
  lemma ApplyTouchesOneEmployee(rows: seq<LeaveRow>, live: Option<ScheduleRow>, intent: Intent, today: Day,
                                actorId: int, note: string, e: int)
    requires e != intent.employee
    ensures EmployeeConsumed(SystemCancelRows(rows, CancelledLeaves(rows, live, intent, today), actorId, note), e)
            == EmployeeConsumed(rows, e)
  {
    CancelledAreTheirs(rows, live, intent, today);
    OthersKeepTheirDays(rows, CancelledLeaves(rows, live, intent, today), actorId, note, e);
  }
}
