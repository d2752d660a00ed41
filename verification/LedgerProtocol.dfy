/**
 * Reserve-on-submit under concurrency. Every submit runs in its own transaction
 * as separate steps (prepare, open the transaction and lock the grants, sum
 * them, read the consumption, check, insert, commit), interleaved with one another and with grants, approvals,
 * rejections, cancellations and schedule cascades, each of which is one step.
 * Reads see only committed rows; locks are on rows, so a transaction that finds
 * no grant locks nothing.
 */
module LedgerProtocol {
  import opened Prelude
  import opened Calendar
  import opened HalfDay
  import opened DayCount
  import opened ApprovalMachine
  import opened LeaveTables
  import opened LeaveService

  /**
   * Where a submit stands: prepared, with its transaction not yet open, or inside
   * it. `seen` is how many grant rows its locking statement saw: grants added
   * later are neither locked nor summed.
   */
  datatype Phase =
    | Prepared
    | Locking(seen: nat, held: set<nat>)
    | Summed(seen: nat, allowance: nat)
    | ReadDone(seen: nat, allowance: nat, consumed: nat)
    | Passed(seen: nat, allowance: nat, consumed: nat)
    | Inserted(seen: nat, allowance: nat, consumed: nat)
  {
    function Seen(): nat { if Prepared? then 0 else seen }

    predicate Waiting() { Prepared? || Locking? }
  }

  datatype Txn = Txn(row: LeaveRow, phase: Phase) {
    function Employee(): int { row.request.employee }
  }

  datatype State = State(grants: seq<Allocation>, requests: seq<LeaveRow>, txns: map<nat, Txn>)

  /** The grant rows a transaction must lock: those of its key among the ones it saw. */
  function Wanted(grants: seq<Allocation>, t: Txn): set<nat> {
    set i | 0 <= i < |grants| && i < t.phase.Seen() && Matches(grants[i], t.Employee(), t.row.leaveType)
  }

  function Locks(grants: seq<Allocation>, t: Txn): set<nat> {
    if t.phase.Locking? then t.phase.held else Wanted(grants, t)
  }

  datatype Event =
    | Begin(id: nat, input: SubmitInput, around: Surroundings)
    | Open(id: nat)
    | Acquire(id: nat, row: nat)
    | Sum(id: nat)
    | Read(id: nat)
    | Check(id: nat)
    | Insert(id: nat)
    | Commit(id: nat)
    | Rollback(id: nat)
    | Grant(grant: Allocation)
    | Act(request: nat, action: Action)
    | Cascade(ids: set<nat>, actorId: int, note: string)

  /** Nobody else holds the lock on this grant row. */
  ghost predicate Free(s: State, id: nat, grant: nat) {
    forall other :: other in s.txns && other != id ==> grant !in Locks(s.grants, s.txns[other])
  }

  ghost predicate Enabled(s: State, e: Event) {
    match e
    case Begin(id, input, around) =>
      id !in s.txns && Readable(around) && Prepare(s.requests, input, around).Ok?
    case Open(id) => id in s.txns && s.txns[id].phase.Prepared?
    case Acquire(id, grant) =>
      && id in s.txns && s.txns[id].phase.Locking?
      && grant in Wanted(s.grants, s.txns[id]) && Free(s, id, grant)
    case Sum(id) =>
      id in s.txns && s.txns[id].phase.Locking? && s.txns[id].phase.held == Wanted(s.grants, s.txns[id])
    case Read(id) => id in s.txns && s.txns[id].phase.Summed?
    case Check(id) => id in s.txns && s.txns[id].phase.ReadDone?
    case Insert(id) => id in s.txns && s.txns[id].phase.Passed?
    case Commit(id) => id in s.txns && s.txns[id].phase.Inserted?
    case Rollback(id) => id in s.txns
    case Grant(g) => g.amount > 0
    case Act(_, _) => true
    case Cascade(_, _, _) => true
  }

  function Take(grants: seq<Allocation>, n: nat): seq<Allocation> {
    if n <= |grants| then grants[..n] else grants
  }

  /** The result of one step. A failed check rolls its transaction back. */
  ghost function Step(s: State, e: Event): State
    requires Enabled(s, e)
  {
    match e
    case Begin(id, input, around) =>
      s.(txns := s.txns[id := Txn(Prepare(s.requests, input, around).value, Prepared)])
    case Open(id) => s.(txns := s.txns[id := s.txns[id].(phase := Locking(|s.grants|, {}))])
    case Acquire(id, grant) =>
      var t := s.txns[id];
      s.(txns := s.txns[id := t.(phase := Locking(t.phase.Seen(), t.phase.held + {grant}))])
    case Sum(id) =>
      var t := s.txns[id];
      var total := Allowance(Take(s.grants, t.phase.Seen()), t.Employee(), t.row.leaveType);
      s.(txns := s.txns[id := t.(phase := Summed(t.phase.Seen(), total))])
    case Read(id) =>
      var t := s.txns[id];
      var consumed := Consumed(s.requests, t.Employee(), t.row.leaveType);
      s.(txns := s.txns[id := t.(phase := ReadDone(t.phase.Seen(), t.phase.allowance, consumed))])
    case Check(id) =>
      var t := s.txns[id];
      if CheckBalance(t.phase.allowance, t.phase.consumed, t.row).Err? then s.(txns := s.txns - {id})
      else s.(txns := s.txns[id := t.(phase := Passed(t.phase.Seen(), t.phase.allowance, t.phase.consumed))])
    case Insert(id) =>
      var t := s.txns[id];
      s.(txns := s.txns[id := t.(phase := Inserted(t.phase.Seen(), t.phase.allowance, t.phase.consumed))])
    case Commit(id) =>
      s.(requests := s.requests + [s.txns[id].row], txns := s.txns - {id})
    case Rollback(id) => s.(txns := s.txns - {id})
    case Grant(g) => s.(grants := s.grants + [g])
    case Act(i, action) => s.(requests := ActOn(s.requests, i, action))
    case Cascade(ids, actorId, note) => s.(requests := SystemCancelRows(s.requests, ids, actorId, note))
  }

  /** The state a run ends in, if every step of it was possible. */
  ghost function Run(s: State, events: seq<Event>): Option<State> {
    if events == [] then Some(s)
    else
      var before := Run(s, events[..|events| - 1]);
      var e := events[|events| - 1];
      if before.Some? && Enabled(before.value, e) then Some(Step(before.value, e)) else None
  }

  ghost predicate Within(s: State) {
    WithinAllowance(s.requests, s.grants)
  }

  /** Beside the submits, the steps are the calls of the service and the cascade, possible at any time. */
  lemma OtherStepsAreTheCalls(s: State, i: nat, action: Action, g: Allocation, ids: set<nat>, actorId: int,
                              note: string)
    requires g.amount > 0
    ensures Enabled(s, Act(i, action)) && Enabled(s, Grant(g)) && Enabled(s, Cascade(ids, actorId, note))
    ensures var (t, after) := (Tables(s.requests, s.grants), Step(s, Act(i, action)));
            Tables(after.requests, after.grants) == Execute(t, CallAct(i, action)) && after.txns == s.txns
    ensures var (t, after) := (Tables(s.requests, s.grants), Step(s, Grant(g)));
            Tables(after.requests, after.grants) == Execute(t, CallGrant(g)) && after.txns == s.txns
    ensures Step(s, Cascade(ids, actorId, note))
            == State(s.grants, SystemCancelRows(s.requests, ids, actorId, note), s.txns)
  {
  }

  /** A rolled-back transaction leaves nothing behind. */
  lemma RollbackLeavesNothing(s: State, id: nat)
    requires id in s.txns
    ensures Enabled(s, Rollback(id)) && Step(s, Rollback(id)) == State(s.grants, s.requests, s.txns - {id})
  {
  }

  predicate PositiveGrants(grants: seq<Allocation>) {
    forall i :: 0 <= i < |grants| ==> grants[i].amount > 0
  }

  /** What holds of one transaction whatever the others do. */
  ghost predicate TxnOk(s: State, t: Txn) {
    && FreshRow(t.row)
    && t.phase.Seen() <= |s.grants|
    && Locks(s.grants, t) <= Wanted(s.grants, t)
    && (!t.phase.Waiting() ==>
          t.phase.allowance == Allowance(Take(s.grants, t.phase.Seen()), t.Employee(), t.row.leaveType))
    && (t.phase.ReadDone? || t.phase.Passed? || t.phase.Inserted? ==>
          t.phase.allowance > 0 ==> Consumed(s.requests, t.Employee(), t.row.leaveType) <= t.phase.consumed)
    && (t.phase.Passed? || t.phase.Inserted? ==> t.phase.consumed + t.row.halfDays <= t.phase.allowance)
  }

  /** No grant row is locked twice. */
  ghost predicate Exclusive(s: State) {
    forall a, b :: a in s.txns && b in s.txns && a != b
                   ==> Locks(s.grants, s.txns[a]) !! Locks(s.grants, s.txns[b])
  }

  ghost predicate Inv(s: State) {
    && Within(s)
    && PositiveGrants(s.grants)
    && (forall id :: id in s.txns ==> TxnOk(s, s.txns[id]))
    && Exclusive(s)
  }

  /** A run starts from any committed tables within the allowance, with no submit under way. */
  ghost predicate Start(s: State) {
    s.txns == map[] && PositiveGrants(s.grants) && Within(s)
  }

  /** An allowance comes from grants, so a transaction that summed one holds a lock. */
  lemma {:induction false} AllowanceMeansLocks(grants: seq<Allocation>, n: nat, e: int, t: LeaveType)
    requires n <= |grants| && PositiveGrants(grants)
    requires Allowance(grants[..n], e, t) > 0
    ensures exists i :: 0 <= i < n && Matches(grants[i], e, t)
  {
    assert grants[..n][..n - 1] == grants[..n - 1];
    if !Matches(grants[n - 1], e, t) {
      AllowanceMeansLocks(grants, n - 1, e, t);
    }
  }

  /** Two transactions past their locks on one key both hold every row they both saw. */
  lemma SharedLock(s: State, a: nat, b: nat, i: nat)
    requires a in s.txns && b in s.txns && !s.txns[a].phase.Waiting() && !s.txns[b].phase.Waiting()
    requires s.txns[a].Employee() == s.txns[b].Employee() && s.txns[a].row.leaveType == s.txns[b].row.leaveType
    requires i < |s.grants| && i < s.txns[a].phase.Seen() && i < s.txns[b].phase.Seen()
    requires Matches(s.grants[i], s.txns[a].Employee(), s.txns[a].row.leaveType)
    ensures i in Locks(s.grants, s.txns[a]) && i in Locks(s.grants, s.txns[b])
  {
  }

  /**
   * Mutual exclusion: of two transactions on one employee and leave type that
   * are past their locks, one summed no allowance at all and will be refused.
   */
  lemma SameKeyExcludes(s: State, a: nat, b: nat)
    requires Inv(s) && a in s.txns && b in s.txns && a != b
    requires !s.txns[a].phase.Waiting() && !s.txns[b].phase.Waiting()
    requires s.txns[a].Employee() == s.txns[b].Employee() && s.txns[a].row.leaveType == s.txns[b].row.leaveType
    ensures s.txns[a].phase.allowance == 0 || s.txns[b].phase.allowance == 0
  {
    var (t, u) := (s.txns[a], s.txns[b]);
    var (e, k) := (t.Employee(), t.row.leaveType);
    if t.phase.allowance > 0 && u.phase.allowance > 0 {
      var n := if t.phase.Seen() <= u.phase.Seen() then t.phase.Seen() else u.phase.Seen();
      assert TxnOk(s, t) && TxnOk(s, u);
      AllowanceMeansLocks(s.grants, n, e, k);
      var i :| 0 <= i < n && Matches(s.grants[i], e, k);
      SharedLock(s, a, b, i);
      assert false;
    }
  }

  /** Adding a grant changes nothing for a transaction whose locking statement came earlier. */
  lemma GrantKeepsTxn(s: State, g: Allocation, t: Txn)
    requires TxnOk(s, t)
    ensures TxnOk(s.(grants := s.grants + [g]), t)
    ensures Locks(s.grants + [g], t) == Locks(s.grants, t)
  {
    assert Take(s.grants + [g], t.phase.Seen()) == Take(s.grants, t.phase.Seen());
    assert Wanted(s.grants + [g], t) == Wanted(s.grants, t);
  }

  lemma GrantKeepsInv(s: State, g: Allocation)
    requires Inv(s) && g.amount > 0
    ensures Inv(s.(grants := s.grants + [g]))
  {
    var s' := s.(grants := s.grants + [g]);
    forall e, t
      ensures Consumed(s'.requests, e, t) <= Allowance(s'.grants, e, t)
    {
      AllowanceAppend(s.grants, g, e, t);
    }
    forall id | id in s'.txns
      ensures TxnOk(s', s'.txns[id]) && Locks(s'.grants, s'.txns[id]) == Locks(s.grants, s.txns[id])
    {
      GrantKeepsTxn(s, g, s.txns[id]);
    }
  }

  /** Steps that only lower consumption keep everything: the rely condition of every reader. */
  lemma LoweringKeepsInv(s: State, requests: seq<LeaveRow>)
    requires Inv(s)
    requires forall e, t :: Consumed(requests, e, t) <= Consumed(s.requests, e, t)
    ensures Inv(s.(requests := requests))
  {
  }

  lemma ActLowers(requests: seq<LeaveRow>, i: nat, action: Action, e: int, t: LeaveType)
    ensures Consumed(ActOn(requests, i, action), e, t) <= Consumed(requests, e, t)
  {
    if ActOn(requests, i, action) != requests {
      var row := requests[i].(request := Perform(requests[i].request, action));
      ConsumedUpdate(requests, i, row, e, t);
      ActionsNeverCharge(requests[i], action, e, t);
    }
  }

  /** Moving one transaction to its next phase, or dropping it, touches nothing else. */
  lemma PhaseKeepsInv(s: State, id: nat, t: Txn)
    requires Inv(s) && TxnOk(s, t)
    requires forall other :: other in s.txns && other != id ==> Locks(s.grants, s.txns[other]) !! Locks(s.grants, t)
    ensures Inv(s.(txns := s.txns[id := t]))
  {
  }

  /** The guarantee of commit: the reserved days were still there. */
  lemma CommitKeepsInv(s: State, id: nat)
    requires Inv(s) && id in s.txns && s.txns[id].phase.Inserted?
    ensures Inv(s.(requests := s.requests + [s.txns[id].row], txns := s.txns - {id}))
  {
    var t := s.txns[id];
    var s' := s.(requests := s.requests + [t.row], txns := s.txns - {id});
    assert TxnOk(s, t);
    AllowanceGrows(s.grants, t.phase.Seen(), t.Employee(), t.row.leaveType);
    forall e, k
      ensures Consumed(s'.requests, e, k) <= Allowance(s'.grants, e, k)
    {
      ConsumedAppend(s.requests, t.row, e, k);
      assert Consumed(s.requests, e, k) <= Allowance(s.grants, e, k);
    }
    forall other | other in s'.txns
      ensures TxnOk(s', s'.txns[other])
    {
      var u := s.txns[other];
      assert TxnOk(s, u);
      ConsumedAppend(s.requests, t.row, u.Employee(), u.row.leaveType);
      if !u.phase.Waiting() && u.Employee() == t.Employee() && u.row.leaveType == t.row.leaveType {
        SameKeyExcludes(s, id, other);
      }
    }
  }

  predicate TxnEvent(e: Event) {
    e.Begin? || e.Open? || e.Acquire? || e.Sum? || e.Read? || e.Check? || e.Insert?
  }

  lemma BeginKeepsTxn(s: State, e: Event)
    requires Inv(s) && Enabled(s, e) && (e.Begin? || e.Open?)
    ensures TxnOk(s, Step(s, e).txns[e.id]) && Locks(s.grants, Step(s, e).txns[e.id]) == {}
  {
    if e.Begin? {
      PreparedRows(s.requests, e.input, e.around);
    } else {
      assert TxnOk(s, s.txns[e.id]);
    }
  }

  lemma TxnStepKeepsInv(s: State, e: Event)
    requires Inv(s) && Enabled(s, e) && TxnEvent(e)
    ensures Inv(Step(s, e))
  {
    if e.Begin? || e.Open? {
      BeginKeepsTxn(s, e);
    } else {
      assert TxnOk(s, s.txns[e.id]);
    }
    if e.id in Step(s, e).txns {
      PhaseKeepsInv(s, e.id, Step(s, e).txns[e.id]);
    }
  }

  lemma StepKeepsInv(s: State, e: Event)
    requires Inv(s) && Enabled(s, e)
    ensures Inv(Step(s, e))
  {
    match e
    case Commit(id) => CommitKeepsInv(s, id);
    case Rollback(id) =>
    case Grant(g) => GrantKeepsInv(s, g);
    case Act(i, action) =>
      forall emp, t
        ensures Consumed(ActOn(s.requests, i, action), emp, t) <= Consumed(s.requests, emp, t)
      {
        ActLowers(s.requests, i, action, emp, t);
      }
      LoweringKeepsInv(s, ActOn(s.requests, i, action));
    case Cascade(ids, actorId, note) =>
      var after := SystemCancelRows(s.requests, ids, actorId, note);
      forall emp, t
        ensures Consumed(after, emp, t) <= Consumed(s.requests, emp, t)
      {
        SystemCancelFrees(s.requests, ids, actorId, note, emp, t);
      }
      LoweringKeepsInv(s, after);
    case _ => TxnStepKeepsInv(s, e);
  }

  /** Under every interleaving, used plus reserved never exceeds the allowance of any employee and type. */
  lemma {:induction false} NeverOverdrawn(s: State, events: seq<Event>)
    requires Start(s)
    ensures Run(s, events).Some? ==> Inv(Run(s, events).value) && Within(Run(s, events).value)
  {
    if events != [] {
      var init := events[..|events| - 1];
      NeverOverdrawn(s, init);
      if Run(s, events).Some? {
        StepKeepsInv(Run(s, init).value, events[|events| - 1]);
      }
    }
  }

  /**
   * The case with no grant to lock: whatever is granted meanwhile, a submit
   * whose locking statement matched no row fails its check.
   */
  lemma UngrantedSubmitsAreRefused(s: State, id: nat)
    requires Inv(s) && id in s.txns && s.txns[id].phase.ReadDone?
    requires Wanted(s.grants, s.txns[id]) == {}
    ensures Enabled(s, Check(id)) && id !in Step(s, Check(id)).txns
    ensures Step(s, Check(id)).requests == s.requests
  {
    var t := s.txns[id];
    assert TxnOk(s, t);
    if t.phase.allowance > 0 {
      AllowanceMeansLocks(s.grants, t.phase.Seen(), t.Employee(), t.row.leaveType);
      var i :| 0 <= i < t.phase.Seen() && Matches(s.grants[i], t.Employee(), t.row.leaveType);
      SharedLock(s, id, id, i);
      assert false;
    }
  }

  // ----- what an undisturbed submit does, and what interleaving can still break -----

  lemma {:induction false} RunConcat(s: State, first: seq<Event>, second: seq<Event>)
    requires Run(s, first).Some?
    ensures Run(s, first + second) == Run(Run(s, first).value, second)
  {
    hide Enabled, Step;
    if second == [] {
      assert first + second == first;
    } else {
      var k := |second| - 1;
      var all := first + second;
      RunConcat(s, first, second[..k]);
      assert all[..|all| - 1] == first + second[..k] && all[|all| - 1] == second[k];
    }
  }

  lemma RunThen(s: State, events: seq<Event>, e: Event)
    requires Run(s, events).Some? && Enabled(Run(s, events).value, e)
    ensures Run(s, events + [e]) == Some(Step(Run(s, events).value, e))
  {
  }

  ghost predicate Unlocked(s: State, id: nat) {
    id in s.txns && s.txns[id].phase.Locking?
    && forall i :: i in Wanted(s.grants, s.txns[id]) ==> Free(s, id, i)
  }

  function WithPhase(s: State, id: nat, phase: Phase): State
    requires id in s.txns
  {
    s.(txns := s.txns[id := s.txns[id].(phase := phase)])
  }

  lemma AcquireOne(s: State, id: nat, i: nat)
    requires Unlocked(s, id) && i in Wanted(s.grants, s.txns[id])
    ensures var t := s.txns[id];
            var next := WithPhase(s, id, Locking(t.phase.Seen(), t.phase.held + {i}));
            && Run(s, [Acquire(id, i)]) == Some(next)
            && Unlocked(next, id) && Wanted(next.grants, next.txns[id]) == Wanted(s.grants, t)
  {
  }

  lemma {:induction false} AcquireAll(s: State, id: nat) returns (events: seq<Event>)
    requires Unlocked(s, id) && s.txns[id].phase.held <= Wanted(s.grants, s.txns[id])
    ensures Run(s, events)
            == Some(WithPhase(s, id, Locking(s.txns[id].phase.Seen(), Wanted(s.grants, s.txns[id]))))
    ensures forall k :: 0 <= k < |events| ==> StepOf(events[k], id)
    decreases Wanted(s.grants, s.txns[id]) - s.txns[id].phase.held
  {
    var t := s.txns[id];
    var missing := Wanted(s.grants, t) - t.phase.held;
    assert Wanted(s.grants, t) == t.phase.held + missing;
    if missing == {} {
      events := [];
      assert t.phase.held + missing == t.phase.held;
      assert s.txns[id := t] == s.txns;
    } else {
      var i :| i in missing;
      var next := WithPhase(s, id, Locking(t.phase.Seen(), t.phase.held + {i}));
      AcquireOne(s, id, i);
      var rest := AcquireAll(next, id);
      RunConcat(s, [Acquire(id, i)], rest);
      events := [Acquire(id, i)] + rest;
      assert next.txns[id := t.(phase := Locking(t.phase.Seen(), Wanted(s.grants, t)))]
          == s.txns[id := t.(phase := Locking(t.phase.Seen(), Wanted(s.grants, t)))];
    }
  }

  /** Where a transaction left alone ends: committed when the balance allows it, rolled back otherwise. */
  ghost function Outcome(s: State, id: nat): State
    requires id in s.txns
  {
    var t := s.txns[id];
    var allowance := Allowance(Take(s.grants, t.phase.Seen()), t.Employee(), t.row.leaveType);
    if CheckBalance(allowance, Consumed(s.requests, t.Employee(), t.row.leaveType), t.row).Ok?
    then s.(requests := s.requests + [t.row], txns := s.txns - {id})
    else s.(txns := s.txns - {id})
  }

  /** Past its locks, a transaction can always finish. */
  lemma LockedSubmitsComplete(s: State, id: nat) returns (events: seq<Event>)
    requires id in s.txns && s.txns[id].phase.Locking? && s.txns[id].phase.held == Wanted(s.grants, s.txns[id])
    ensures Run(s, events) == Some(Outcome(s, id))
    ensures forall k :: 0 <= k < |events| ==> StepOf(events[k], id)
  {
    var t := s.txns[id];
    var seen := t.phase.seen;
    var allowance := Allowance(Take(s.grants, seen), t.Employee(), t.row.leaveType);
    var summed := WithPhase(s, id, Summed(seen, allowance));
    RunThen(s, [], Sum(id));
    assert [] + [Sum(id)] == [Sum(id)];
    var rest := SummedSubmitsComplete(summed, id);
    RunConcat(s, [Sum(id)], rest);
    events := [Sum(id)] + rest;
    assert summed.txns - {id} == s.txns - {id};
  }

  lemma SummedSubmitsComplete(s: State, id: nat) returns (events: seq<Event>)
    requires id in s.txns && s.txns[id].phase.Summed?
    ensures var t := s.txns[id];
            var consumed := Consumed(s.requests, t.Employee(), t.row.leaveType);
            Run(s, events) == Some(
              if CheckBalance(t.phase.allowance, consumed, t.row).Ok?
              then s.(requests := s.requests + [t.row], txns := s.txns - {id})
              else s.(txns := s.txns - {id}))
    ensures forall k :: 0 <= k < |events| ==> StepOf(events[k], id)
  {
    var t := s.txns[id];
    var (seen, allowance) := (t.phase.seen, t.phase.allowance);
    var consumed := Consumed(s.requests, t.Employee(), t.row.leaveType);
    RunThen(s, [], Read(id));
    assert [] + [Read(id)] == [Read(id)];
    events := [Read(id)];
    assert Run(s, events).value.txns == s.txns[id := t.(phase := ReadDone(seen, allowance, consumed))];
    RunThen(s, events, Check(id));
    events := events + [Check(id)];
    if CheckBalance(allowance, consumed, t.row).Err? {
      assert Run(s, events).value.txns == s.txns - {id};
    } else {
      assert Run(s, events).value.txns == s.txns[id := t.(phase := Passed(seen, allowance, consumed))];
      RunThen(s, events, Insert(id));
      events := events + [Insert(id)];
      assert Run(s, events).value.txns == s.txns[id := t.(phase := Inserted(seen, allowance, consumed))];
      RunThen(s, events, Commit(id));
      events := events + [Commit(id)];
      assert Run(s, events).value.txns == s.txns - {id};
    }
  }

  /** A transaction whose grant rows nobody holds can run to its end. */
  lemma UnlockedSubmitsComplete(s: State, id: nat) returns (events: seq<Event>)
    requires Unlocked(s, id) && s.txns[id].phase.held == {}
    ensures Run(s, events) == Some(Outcome(s, id))
    ensures forall k :: 0 <= k < |events| ==> StepOf(events[k], id)
  {
    var locks := AcquireAll(s, id);
    var t := s.txns[id];
    var locked := WithPhase(s, id, Locking(t.phase.seen, Wanted(s.grants, t)));
    assert Wanted(s.grants, locked.txns[id]) == Wanted(s.grants, t);
    var rest := LockedSubmitsComplete(locked, id);
    RunConcat(s, locks, rest);
    events := locks + rest;
    assert locked.txns - {id} == s.txns - {id};
  }

  /** The same for a prepared submit that has not opened its transaction. */
  lemma PreparedSubmitsComplete(s: State, id: nat) returns (events: seq<Event>)
    requires id in s.txns && s.txns[id].phase.Prepared?
    requires forall i :: i in Wanted(s.grants, s.txns[id].(phase := Locking(|s.grants|, {}))) ==> Free(s, id, i)
    ensures Run(s, events) == Some(Completed(s, id))
    ensures forall k :: 0 <= k < |events| ==> StepOf(events[k], id)
  {
    var inside := WithPhase(s, id, Locking(|s.grants|, {}));
    RunThen(s, [], Open(id));
    assert [] + [Open(id)] == [Open(id)];
    var rest := UnlockedSubmitsComplete(inside, id);
    RunConcat(s, [Open(id)], rest);
    events := [Open(id)] + rest;
    assert Take(s.grants, |s.grants|) == s.grants;
    assert inside.txns - {id} == s.txns - {id};
  }

  /** Where it ends: committed when the balance of the tables as they are allows it. */
  ghost function Completed(s: State, id: nat): State
    requires id in s.txns
  {
    var t := s.txns[id];
    var (allowance, consumed) :=
      (Allowance(s.grants, t.Employee(), t.row.leaveType), Consumed(s.requests, t.Employee(), t.row.leaveType));
    if CheckBalance(allowance, consumed, t.row).Ok?
    then s.(requests := s.requests + [t.row], txns := s.txns - {id})
    else s.(txns := s.txns - {id})
  }

  /** A step of a submit that has begun. */
  predicate StepOf(e: Event, id: nat) {
    match e
    case Open(i) => i == id
    case Acquire(i, _) => i == id
    case Sum(i) => i == id
    case Read(i) => i == id
    case Check(i) => i == id
    case Insert(i) => i == id
    case Commit(i) => i == id
    case Rollback(i) => i == id
    case _ => false
  }

  /** Run alone, the protocol does to the tables exactly what the submit use-case does. */
  lemma UndisturbedProtocolIsSubmit(s: State, input: SubmitInput, c: Surroundings) returns (events: seq<Event>)
    requires s.txns == map[] && Readable(c)
    ensures var after := Execute(Tables(s.requests, s.grants), CallSubmit(input, c));
            Run(s, events) == Some(State(after.grants, after.requests, map[]))
  {
    events := [];
    if Prepare(s.requests, input, c).Ok? {
      var begun := Step(s, Begin(0, input, c));
      RunThen(s, [], Begin(0, input, c));
      assert [] + [Begin(0, input, c)] == [Begin(0, input, c)];
      var rest := PreparedSubmitsComplete(begun, 0);
      RunConcat(s, [Begin(0, input, c)], rest);
      events := [Begin(0, input, c)] + rest;
      PreparedRows(s.requests, input, c);
      assert begun.txns - {0} == map[];
    }
  }

  // ----- two submits of one employee at once -----

  /** Both submits, prepared on the same tables. */
  ghost function BothBegun(s: State, a: LeaveRow, b: LeaveRow): State {
    s.(txns := map[0 := Txn(a, Prepared), 1 := Txn(b, Prepared)])
  }

  /** The balance covers both: each by itself, and their sum when they draw on one type. */
  predicate CoversBoth(s: State, a: LeaveRow, b: LeaveRow) {
    var (e, t, u) := (a.request.employee, a.leaveType, b.leaveType);
    if t == u then Consumed(s.requests, e, t) + a.halfDays + b.halfDays <= Allowance(s.grants, e, t)
    else
      && Consumed(s.requests, e, t) + a.halfDays <= Allowance(s.grants, e, t)
      && Consumed(s.requests, e, u) + b.halfDays <= Allowance(s.grants, e, u)
  }

  /** Two fresh rows of one employee, neither of which clashes with an active request. */
  ghost predicate BothPrepared(s: State, a: LeaveRow, b: LeaveRow) {
    && FreshRow(a) && FreshRow(b) && a.request.employee == b.request.employee
    && (forall i :: 0 <= i < |s.requests| ==> !Blocks(s.requests[i], a.request.employee, a.start, a.end))
    && (forall i :: 0 <= i < |s.requests| ==> !Blocks(s.requests[i], b.request.employee, b.start, b.end))
  }

  /** What two submits left to themselves may have committed so far. */
  ghost predicate Between(s: State, now: State, a: LeaveRow, b: LeaveRow) {
    && now.grants == s.grants
    && (forall id :: id in now.txns ==> (id == 0 && now.txns[id].row == a) || (id == 1 && now.txns[id].row == b))
    && (now.requests == s.requests
        || (now.requests == s.requests + [a] && 0 !in now.txns)
        || (now.requests == s.requests + [b] && 1 !in now.txns)
        || ((now.requests == s.requests + [a] + [b] || now.requests == s.requests + [b] + [a]) && now.txns == map[]))
  }

  lemma StepStaysBetween(s: State, now: State, a: LeaveRow, b: LeaveRow, e: Event)
    requires Between(s, now, a, b) && Enabled(now, e) && (StepOf(e, 0) || StepOf(e, 1))
    ensures Between(s, Step(now, e), a, b)
  {
  }

  predicate OwnSteps(events: seq<Event>) {
    forall k :: 0 <= k < |events| ==> StepOf(events[k], 0) || StepOf(events[k], 1)
  }

  lemma {:induction false} OwnStepsStayBetween(s: State, a: LeaveRow, b: LeaveRow, events: seq<Event>)
    requires OwnSteps(events) && Run(BothBegun(s, a, b), events).Some?
    ensures Between(s, Run(BothBegun(s, a, b), events).value, a, b)
  {
    if events != [] {
      var init := events[..|events| - 1];
      OwnStepsStayBetween(s, a, b, init);
      StepStaysBetween(s, Run(BothBegun(s, a, b), init).value, a, b, events[|events| - 1]);
    }
  }

  lemma BothBegunIsSound(s: State, a: LeaveRow, b: LeaveRow)
    requires Start(s) && BothPrepared(s, a, b)
    ensures Inv(BothBegun(s, a, b))
  {
  }

  lemma {:induction false} InvIsKept(s: State, events: seq<Event>)
    requires Inv(s) && Run(s, events).Some?
    ensures Inv(Run(s, events).value)
  {
    if events != [] {
      InvIsKept(s, events[..|events| - 1]);
      StepKeepsInv(Run(s, events[..|events| - 1]).value, events[|events| - 1]);
    }
  }

  lemma ConsumedBoth(rows: seq<LeaveRow>, a: LeaveRow, b: LeaveRow, e: int, t: LeaveType)
    ensures Consumed(rows + [a] + [b], e, t) == Consumed(rows, e, t) + Charge(a, e, t) + Charge(b, e, t)
  {
    ConsumedAppend(rows, a, e, t);
    ConsumedAppend(rows + [a], b, e, t);
  }

  /** Within the allowance, both rows can only be there if the balance covered both. */
  lemma BothCommittedWereCovered(s: State, now: State, a: LeaveRow, b: LeaveRow)
    requires BothPrepared(s, a, b) && Within(now) && now.grants == s.grants
    requires now.requests == s.requests + [a] + [b] || now.requests == s.requests + [b] + [a]
    ensures CoversBoth(s, a, b)
  {
    var e := a.request.employee;
    ConsumedBoth(s.requests, a, b, e, a.leaveType);
    ConsumedBoth(s.requests, a, b, e, b.leaveType);
    ConsumedBoth(s.requests, b, a, e, a.leaveType);
    ConsumedBoth(s.requests, b, a, e, b.leaveType);
    assert Consumed(now.requests, e, a.leaveType) <= Allowance(now.grants, e, a.leaveType);
    assert Consumed(now.requests, e, b.leaveType) <= Allowance(now.grants, e, b.leaveType);
  }

  /** Among what may have been committed, only the two rows themselves can overlap. */
  lemma OnlyTheTwoOverlap(s: State, now: State, a: LeaveRow, b: LeaveRow)
    requires NoOverlap(s.requests) && BothPrepared(s, a, b) && Between(s, now, a, b)
    requires !NoOverlap(now.requests)
    ensures ShareDate(a.start, a.end, b.start, b.end)
    ensures now.requests == s.requests + [a] + [b] || now.requests == s.requests + [b] + [a]
  {
  }

  /** The second submit, prepared before the first committed, goes through all the same. */
  lemma BothCommit(s: State, a: LeaveRow, b: LeaveRow) returns (events: seq<Event>)
    requires s.txns == map[] && BothPrepared(s, a, b) && CoversBoth(s, a, b)
    ensures OwnSteps(events)
    ensures Run(BothBegun(s, a, b), events) == Some(State(s.grants, s.requests + [a] + [b], map[]))
  {
    var both := BothBegun(s, a, b);
    var mine := PreparedSubmitsComplete(both, 0);
    var one := State(s.grants, s.requests + [a], map[1 := Txn(b, Prepared)]);
    assert both.txns - {0} == one.txns;
    assert Completed(both, 0) == one;
    ConsumedAppend(s.requests, a, b.request.employee, b.leaveType);
    var other := PreparedSubmitsComplete(one, 1);
    assert one.txns - {1} == map[];
    RunConcat(both, mine, other);
    events := mine + other;
  }

  lemma TwoRowsOverlap(s: State, a: LeaveRow, b: LeaveRow)
    requires BothPrepared(s, a, b) && ShareDate(a.start, a.end, b.start, b.end)
    ensures !NoOverlap(s.requests + [a] + [b])
  {
    var end, n := s.requests + [a] + [b], |s.requests|;
    assert end[n] == a && end[n + 1] == b;
  }

  /** Left to themselves from here, the two submits end with overlapping requests. */
  ghost predicate EndsOverlapping(s: State, a: LeaveRow, b: LeaveRow, events: seq<Event>) {
    && OwnSteps(events) && Run(BothBegun(s, a, b), events).Some?
    && !NoOverlap(Run(BothBegun(s, a, b), events).value.requests)
  }

  /** The state in which both inputs have passed the checks before their transactions. */
  lemma BothBegin(s: State, a: SubmitInput, b: SubmitInput, c: Surroundings, d: Surroundings)
    requires s.txns == map[] && Readable(c) && Readable(d) && a.employee == b.employee
    requires Prepare(s.requests, a, c).Ok? && Prepare(s.requests, b, d).Ok?
    ensures var p, q := Prepare(s.requests, a, c).value, Prepare(s.requests, b, d).value;
            && Run(s, [Begin(0, a, c), Begin(1, b, d)]) == Some(BothBegun(s, p, q)) && BothPrepared(s, p, q)
            && p.leaveType == a.leaveType && p.start == a.start && p.end == a.end
            && q.leaveType == b.leaveType && q.start == b.start && q.end == b.end
  {
    var p, q := Prepare(s.requests, a, c).value, Prepare(s.requests, b, d).value;
    PreparedRows(s.requests, a, c);
    PreparedRows(s.requests, b, d);
    var one := s.(txns := map[0 := Txn(p, Prepared)]);
    assert Step(s, Begin(0, a, c)) == one;
    RunThen(s, [], Begin(0, a, c));
    assert [] + [Begin(0, a, c)] == [Begin(0, a, c)];
    RunThen(s, [Begin(0, a, c)], Begin(1, b, d));
    assert [Begin(0, a, c)] + [Begin(1, b, d)] == [Begin(0, a, c), Begin(1, b, d)];
  }

  /**
   * Exactly when the check before the transaction lets overlapping leave through:
   * of two submits of one employee that have both passed it, some run in which
   * they are left to themselves ends with overlapping requests if and only if
   * some date lies in both ranges and the balance covers both.
   */
  lemma InterleavedSubmitsOverlapExactly(s: State, a: SubmitInput, b: SubmitInput, c: Surroundings, d: Surroundings)
    requires Start(s) && NoOverlap(s.requests) && Readable(c) && Readable(d) && a.employee == b.employee
    requires Prepare(s.requests, a, c).Ok? && Prepare(s.requests, b, d).Ok?
    ensures var p, q := Prepare(s.requests, a, c).value, Prepare(s.requests, b, d).value;
            && Run(s, [Begin(0, a, c), Begin(1, b, d)]) == Some(BothBegun(s, p, q))
            && ((exists events :: EndsOverlapping(s, p, q, events))
                <==> ShareDate(a.start, a.end, b.start, b.end) && CoversBoth(s, p, q))
  {
    var p, q := Prepare(s.requests, a, c).value, Prepare(s.requests, b, d).value;
    BothBegin(s, a, b, c, d);
    hide Run, Prepare, NoOverlap, CoversBoth, Start, Readable;
    PreparedOverlapExactly(s, p, q);
  }

  lemma PreparedOverlapExactly(s: State, a: LeaveRow, b: LeaveRow)
    requires Start(s) && NoOverlap(s.requests) && BothPrepared(s, a, b)
    ensures (exists events :: EndsOverlapping(s, a, b, events))
            <==> ShareDate(a.start, a.end, b.start, b.end) && CoversBoth(s, a, b)
  {
    if ShareDate(a.start, a.end, b.start, b.end) && CoversBoth(s, a, b) {
      var events := BothCommit(s, a, b);
      TwoRowsOverlap(s, a, b);
      assert EndsOverlapping(s, a, b, events);
    }
    forall events | EndsOverlapping(s, a, b, events)
      ensures ShareDate(a.start, a.end, b.start, b.end) && CoversBoth(s, a, b)
    {
      OverlapsWereCovered(s, a, b, events);
    }
  }

  lemma OverlapsWereCovered(s: State, a: LeaveRow, b: LeaveRow, events: seq<Event>)
    requires Start(s) && NoOverlap(s.requests) && BothPrepared(s, a, b) && EndsOverlapping(s, a, b, events)
    ensures ShareDate(a.start, a.end, b.start, b.end) && CoversBoth(s, a, b)
  {
    var now := Run(BothBegun(s, a, b), events).value;
    OwnStepsStayBetween(s, a, b, events);
    BothBegunIsSound(s, a, b);
    InvIsKept(BothBegun(s, a, b), events);
    hide Run, Between, BothPrepared, NoOverlap, CoversBoth;
    OnlyTheTwoOverlap(s, now, a, b);
    assert now.grants == s.grants by {
      BetweenKeepsGrants(s, now, a, b);
    }
    BothCommittedWereCovered(s, now, a, b);
  }

  lemma BetweenKeepsGrants(s: State, now: State, a: LeaveRow, b: LeaveRow)
    requires Between(s, now, a, b)
    ensures now.grants == s.grants
  {
  }

  /** Such a run, from any two inputs of one employee that share a date and are both covered. */
  lemma InterleavedSubmitsMayOverlap(s: State, a: SubmitInput, b: SubmitInput, c: Surroundings, d: Surroundings)
    returns (events: seq<Event>)
    requires s.txns == map[] && Readable(c) && Readable(d) && a.employee == b.employee
    requires ShareDate(a.start, a.end, b.start, b.end)
    requires Prepare(s.requests, a, c).Ok? && Prepare(s.requests, b, d).Ok?
    requires CoversBoth(s, Prepare(s.requests, a, c).value, Prepare(s.requests, b, d).value)
    ensures Run(s, events).Some? && !NoOverlap(Run(s, events).value.requests)
  {
    var p, q := Prepare(s.requests, a, c).value, Prepare(s.requests, b, d).value;
    BothBegin(s, a, b, c, d);
    var rest := BothCommit(s, p, q);
    TwoRowsOverlap(s, p, q);
    hide Prepare, NoOverlap, CoversBoth;
    RunConcat(s, [Begin(0, a, c), Begin(1, b, d)], rest);
    events := [Begin(0, a, c), Begin(1, b, d)] + rest;
  }

  /** One such run: the same Monday of vacation submitted twice, with two days granted. */
  lemma OverlapExample() returns (start: State, events: seq<Event>)
    ensures Start(start) && start.requests == []
    ensures Run(start, events).Some? && !NoOverlap(Run(start, events).value.requests)
  {
    var monday: Day := 4;
    var c := Surroundings([ActiveDay(1, WorkWindow(32_400, 64_800, 60, Some(43_200)))], monday, Some(2), None);
    start := State([Allocation(1, Vacation, 2)], [], map[]);
    var a := SubmitInput(1, Vacation, monday, monday, Full, false);
    assert Workdays(c.schedule) == {1} by {
      assert c.schedule[0].weekday == 1;
    }
    assert CountAgainst({1}, monday, monday) == CountAgainst({1}, monday, monday - 1) + 1 == 1;
    assert Allowance(start.grants, 1, Vacation) == 4;
    assert InRange(monday, monday, monday);
    events := InterleavedSubmitsMayOverlap(start, a, a, c, c);
  }

  /** No submit begins while another one of the same employee is under way. */
  ghost predicate OneAtATime(s: State, e: Event)
    requires Enabled(s, e)
  {
    e.Begin? ==> forall id :: id in s.txns ==> s.txns[id].Employee() != e.input.employee
  }

  ghost predicate SerialRun(s: State, events: seq<Event>) {
    events != [] ==>
      var init := events[..|events| - 1];
      && SerialRun(s, init)
      && (Run(s, events).Some? ==> OneAtATime(Run(s, init).value, events[|events| - 1]))
  }

  ghost predicate Disjoint(s: State) {
    && NoOverlap(s.requests)
    && (forall id, i :: id in s.txns && 0 <= i < |s.requests| ==>
          !Blocks(s.requests[i], s.txns[id].Employee(), s.txns[id].row.start, s.txns[id].row.end))
    && (forall a, b :: a in s.txns && b in s.txns && a != b ==> s.txns[a].Employee() != s.txns[b].Employee())
  }

  lemma FewerActiveStaysDisjoint(s: State, requests: seq<LeaveRow>)
    requires Disjoint(s) && |requests| == |s.requests|
    requires forall i :: 0 <= i < |requests| ==>
               var (r, before) := (requests[i], s.requests[i]);
               && r.start == before.start && r.end == before.end && r.request.employee == before.request.employee
               && (r.request.status.Active() ==> before.request.status.Active())
    ensures Disjoint(s.(requests := requests))
  {
  }

  lemma FewerTxnsStayDisjoint(s: State, txns: map<nat, Txn>)
    requires Disjoint(s)
    requires forall id :: id in txns ==> id in s.txns && txns[id].row == s.txns[id].row
    ensures Disjoint(s.(txns := txns))
  {
  }

  lemma GrantsStayDisjoint(s: State, grants: seq<Allocation>)
    requires Disjoint(s)
    ensures Disjoint(s.(grants := grants))
  {
  }

  lemma CommitStaysDisjoint(s: State, id: nat)
    requires Disjoint(s) && id in s.txns
    ensures Disjoint(s.(requests := s.requests + [s.txns[id].row], txns := s.txns - {id}))
  {
  }

  lemma BeginStaysDisjoint(s: State, id: nat, input: SubmitInput, around: Surroundings)
    requires Disjoint(s) && Enabled(s, Begin(id, input, around)) && OneAtATime(s, Begin(id, input, around))
    ensures Disjoint(Step(s, Begin(id, input, around)))
  {
    PreparedRows(s.requests, input, around);
    hide Prepare, NoOverlap;
  }

  lemma ActStaysDisjoint(s: State, i: nat, action: Action)
    requires Disjoint(s)
    ensures Disjoint(s.(requests := ActOn(s.requests, i, action)))
  {
    if i < |s.requests| {
      ProgressOrNothing(s.requests[i].request, action);
    }
    FewerActiveStaysDisjoint(s, ActOn(s.requests, i, action));
  }

  lemma SerialStepStaysDisjoint(s: State, e: Event)
    requires Disjoint(s) && Enabled(s, e) && OneAtATime(s, e)
    ensures Disjoint(Step(s, e))
  {
    hide Disjoint, Prepare;
    match e
    case Begin(id, input, around) => BeginStaysDisjoint(s, id, input, around);
    case Commit(id) => CommitStaysDisjoint(s, id);
    case Grant(g) => GrantsStayDisjoint(s, s.grants + [g]);
    case Act(i, action) => ActStaysDisjoint(s, i, action);
    case Cascade(ids, actorId, note) => FewerActiveStaysDisjoint(s, SystemCancelRows(s.requests, ids, actorId, note));
    case _ => FewerTxnsStayDisjoint(s, Step(s, e).txns);
  }

  /** What it takes instead: while each employee submits one request at a time, active requests never overlap. */
  lemma {:induction false} SerialEmployeesNeverOverlap(s: State, events: seq<Event>)
    requires s.txns == map[] && NoOverlap(s.requests) && SerialRun(s, events)
    ensures Run(s, events).Some? ==> Disjoint(Run(s, events).value)
  {
    if events != [] && Run(s, events).Some? {
      var init := events[..|events| - 1];
      SerialEmployeesNeverOverlap(s, init);
      SerialStepStaysDisjoint(Run(s, init).value, events[|events| - 1]);
    }
  }
}
