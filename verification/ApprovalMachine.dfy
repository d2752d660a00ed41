/**
 * The two-step approval state machine. Leave requests and time corrections run
 * the same one; they differ only in what may still be cancelled.
 */
module ApprovalMachine {
  import opened Prelude
  import opened Calendar

  datatype Status = PendingL1 | PendingL2 | Approved | Rejected | Cancelled {
    predicate Pending() { PendingL1? || PendingL2? }
    predicate Active() { Pending() || Approved? }
  }

  datatype DecisionPath = ByChain | ByOverride

  datatype Kind = LeaveKind | CorrectionKind

  datatype Actor =
    Actor(userId: int, isSystemAdmin: bool, canApprove: bool, canApproveAny: bool, canDelete: bool)

  /** A request with the approvers snapshotted when it was submitted. */
  datatype Request = Request(
    kind: Kind, employee: int, endDate: Day, l1: int, l2: Option<int>,
    status: Status, decidedBy: Option<int>, path: Option<DecisionPath>, note: Option<string>,
    cancelledBy: Option<int>)

  datatype ActionError = StatusError | NotCurrentApprover | ApproverInactive | NoteRequired | NotAllowedToCancel

  function Submitted(kind: Kind, employee: int, endDate: Day, l1: int, l2: Option<int>): Request {
    Request(kind, employee, endDate, l1, l2, PendingL1, None, None, None, None)
  }

  predicate IsOverride(a: Actor) {
    a.isSystemAdmin || a.canApproveAny
  }

  predicate IsActionableBy(r: Request, a: Actor) {
    if a.isSystemAdmin then true
    else if a.canApproveAny then true
    else if !a.canApprove then false
    else if r.status == PendingL1 then a.userId == r.l1
    else if r.status == PendingL2 then Some(a.userId) == r.l2
    else false
  }

  function NextStatusAfterApproval(r: Request, override: bool): Status {
    if override then Approved
    else if r.status == PendingL1 && r.l2.Some? then PendingL2
    else Approved
  }

  /** The approver snapshotted for the current pending step. */
  function StepApprover(r: Request): Option<int> {
    match r.status
    case PendingL1 => Some(r.l1)
    case PendingL2 => r.l2
    case _ => None
  }

  predicate StepApproverActive(r: Request, activeUsers: set<int>) {
    StepApprover(r).None? || StepApprover(r).value in activeUsers
  }

  function PathOf(a: Actor): DecisionPath {
    if IsOverride(a) then ByOverride else ByChain
  }

  /** The characters `String.prototype.trim` removes. */
  predicate Whitespace(c: char) {
    var n := c as int;
    || 9 <= n <= 13 || n == 0x20 || n == 0xA0 || n == 0x1680 || 0x2000 <= n <= 0x200A
    || n == 0x2028 || n == 0x2029 || n == 0x202F || n == 0x205F || n == 0x3000 || n == 0xFEFF
  }

  predicate Blank(note: string) {
    forall i :: 0 <= i < |note| ==> Whitespace(note[i])
  }

  /** The approve use-case; `approverActive` says whether the step's approver still is. */
  function Approve(r: Request, a: Actor, approverActive: bool): Result<Request, ActionError> {
    if !r.status.Pending() then Err(StatusError)
    else if !IsActionableBy(r, a) then Err(NotCurrentApprover)
    else if !IsOverride(a) && !approverActive then Err(ApproverInactive)
    else Ok(r.(status := NextStatusAfterApproval(r, IsOverride(a)),
               decidedBy := Some(a.userId), path := Some(PathOf(a))))
  }

  function Reject(r: Request, a: Actor, note: string): Result<Request, ActionError> {
    if Blank(note) then Err(NoteRequired)
    else if !r.status.Pending() then Err(StatusError)
    else if !IsActionableBy(r, a) then Err(NotCurrentApprover)
    else Ok(r.(status := Rejected, decidedBy := Some(a.userId), note := Some(note), path := Some(PathOf(a))))
  }

  /** A leave may be cancelled while it is active and not over; a correction only while it is pending. */
  predicate Cancellable(r: Request, today: Day) {
    match r.kind
    case LeaveKind => r.status.Active() && today <= r.endDate
    case CorrectionKind => r.status.Pending()
  }

  function Cancel(r: Request, a: Actor, today: Day): Result<Request, ActionError> {
    if !Cancellable(r, today) then Err(StatusError)
    else if a.userId != r.employee && !(a.isSystemAdmin || a.canDelete) then Err(NotAllowedToCancel)
    else Ok(r.(status := Cancelled, cancelledBy := Some(a.userId)))
  }

  /** The people who may decide the current step: its snapshotted approver, or an override holder. */
  predicate MayDecide(r: Request, a: Actor) {
    || a.isSystemAdmin || a.canApproveAny
    || (a.canApprove && r.status == PendingL1 && a.userId == r.l1)
    || (a.canApprove && r.status == PendingL2 && r.l2 == Some(a.userId))
  }

  /** Who may approve, with every refusal in its order, and what an approval writes. */
  lemma ApproveExactly(r: Request, a: Actor, activeUsers: set<int>)
    ensures var result := Approve(r, a, StepApproverActive(r, activeUsers));
            var pending, override := r.status == PendingL1 || r.status == PendingL2, a.isSystemAdmin || a.canApproveAny;
            var approver := if r.status == PendingL1 then Some(r.l1) else r.l2;
            var inactive := !override && approver.Some? && approver.value !in activeUsers;
            && (result == Err(StatusError) <==> !pending)
            && (result == Err(NotCurrentApprover) <==> pending && !MayDecide(r, a))
            && (result == Err(ApproverInactive) <==> pending && MayDecide(r, a) && inactive)
            && (result.Ok? <==> pending && MayDecide(r, a) && !inactive)
            && (result.Ok? ==>
                  result.value == r.(
                    status := if !override && r.status == PendingL1 && r.l2.Some? then PendingL2 else Approved,
                    decidedBy := Some(a.userId), path := Some(if override then ByOverride else ByChain)))
  {
  }

  lemma RejectExactly(r: Request, a: Actor, note: string)
    ensures var result := Reject(r, a, note);
            var pending := r.status == PendingL1 || r.status == PendingL2;
            var blank := forall i :: 0 <= i < |note| ==> Whitespace(note[i]);
            && (result == Err(NoteRequired) <==> blank)
            && (result == Err(StatusError) <==> !blank && !pending)
            && (result == Err(NotCurrentApprover) <==> !blank && pending && !MayDecide(r, a))
            && (result.Ok? <==> !blank && pending && MayDecide(r, a))
            && (result.Ok? ==>
                  result.value == r.(
                    status := Rejected, decidedBy := Some(a.userId), note := Some(note),
                    path := Some(if a.isSystemAdmin || a.canApproveAny then ByOverride else ByChain)))
  {
  }

  /** Only the employee or HR may cancel: active leave that is not over, or a pending correction. */
  lemma CancelExactly(r: Request, a: Actor, today: Day)
    ensures var result := Cancel(r, a, today);
            var pending := r.status == PendingL1 || r.status == PendingL2;
            var open := pending || (r.kind == LeaveKind && r.status == Approved);
            var open := open && (r.kind == LeaveKind ==> today <= r.endDate);
            var allowed := a.userId == r.employee || a.isSystemAdmin || a.canDelete;
            && (result == Err(StatusError) <==> !open)
            && (result == Err(NotAllowedToCancel) <==> open && !allowed)
            && (result.Ok? <==> open && allowed)
            && (result.Ok? ==> result.value == r.(status := Cancelled, cancelledBy := Some(a.userId)))
  {
  }

  /** What the schedule cascade does to a request it selected: terminal requests stay as they are. */
  function SystemCancel(r: Request, actorId: int, note: string): Request {
    if r.status.Active()
    then r.(status := Cancelled, cancelledBy := Some(actorId), note := Some(note))
    else r
  }

  /** The aggregate, whose behaviour methods assign its private fields. */
  class ApprovalAggregate {
    const props: Request
    var status: Status
    var decidedBy: Option<int>
    var note: Option<string>
    var path: Option<DecisionPath>
    var cancelledBy: Option<int>

    constructor Reconstitute(r: Request)
      ensures View() == r
    {
      props := r;
      status := r.status;
      decidedBy := r.decidedBy;
      note := r.note;
      path := r.path;
      cancelledBy := r.cancelledBy;
    }

    ghost function View(): Request
      reads this
    {
      props.(status := status, decidedBy := decidedBy, note := note, path := path, cancelledBy := cancelledBy)
    }

    method CurrentStepApproverId() returns (id: Option<int>)
      ensures id == StepApprover(View())
    {
      id := None;
      if status == PendingL1 {
        id := Some(props.l1);
      } else if status == PendingL2 {
        id := props.l2;
      }
    }

    /** The approve use-case: the guards, the activity check of the step's approver, the transition. */
    method ApproveStep(a: Actor, activeUsers: set<int>) returns (error: Option<ActionError>)
      modifies this
      ensures match Approve(old(View()), a, StepApproverActive(old(View()), activeUsers))
              case Ok(r) => error == None && View() == r
              case Err(e) => error == Some(e) && View() == old(View())
    {
      if !status.Pending() {
        return Some(StatusError);
      }
      if !IsActionableBy(props.(status := status), a) {
        return Some(NotCurrentApprover);
      }
      if !IsOverride(a) {
        var approver := CurrentStepApproverId();
        if approver.Some? && approver.value !in activeUsers {
          return Some(ApproverInactive);
        }
      }
      ApplyApproval(a);
      return None;
    }

    method ApplyApproval(a: Actor)
      modifies this
      ensures View() == old(View()).(status := NextStatusAfterApproval(old(View()), IsOverride(a)),
                                     decidedBy := Some(a.userId), path := Some(PathOf(a)))
    {
      var override := IsOverride(a);
      status := NextStatusAfterApproval(props.(status := status), override);
      decidedBy := Some(a.userId);
      path := Some(if override then ByOverride else ByChain);
    }

    method RejectStep(a: Actor, text: string) returns (error: Option<ActionError>)
      modifies this
      ensures match Reject(old(View()), a, text)
              case Ok(r) => error == None && View() == r
              case Err(e) => error == Some(e) && View() == old(View())
    {
      if Blank(text) {
        return Some(NoteRequired);
      }
      if !status.Pending() {
        return Some(StatusError);
      }
      if !IsActionableBy(props.(status := status), a) {
        return Some(NotCurrentApprover);
      }
      status := Rejected;
      decidedBy := Some(a.userId);
      note := Some(text);
      path := Some(if IsOverride(a) then ByOverride else ByChain);
      return None;
    }

    method CancelStep(a: Actor, today: Day) returns (error: Option<ActionError>)
      modifies this
      ensures match Cancel(old(View()), a, today)
              case Ok(r) => error == None && View() == r
              case Err(e) => error == Some(e) && View() == old(View())
    {
      if props.kind == LeaveKind {
        if !status.Active() {
          return Some(StatusError);
        }
        if props.endDate < today {
          return Some(StatusError);
        }
      } else if !status.Pending() {
        return Some(StatusError);
      }
      var isOwner := a.userId == props.employee;
      var isHr := a.isSystemAdmin || a.canDelete;
      if !isOwner && !isHr {
        return Some(NotAllowedToCancel);
      }
      status := Cancelled;
      cancelledBy := Some(a.userId);
      return None;
    }
  }

  datatype Action =
    | DoApprove(actor: Actor, approverActive: bool)
    | DoReject(actor: Actor, text: string)
    | DoCancel(actor: Actor, today: Day)
    | DoSystemCancel(actorId: int, text: string)

  /** One call on the stored request: a refused call leaves it as it was. */
  function Perform(r: Request, action: Action): Request {
    match action
    case DoApprove(a, active) => OkOr(Approve(r, a, active), r)
    case DoReject(a, text) => OkOr(Reject(r, a, text), r)
    case DoCancel(a, today) => OkOr(Cancel(r, a, today), r)
    case DoSystemCancel(id, text) => SystemCancel(r, id, text)
  }

  function OkOr(result: Result<Request, ActionError>, r: Request): Request {
    if result.Ok? then result.value else r
  }

  function Run(r: Request, actions: seq<Action>): Request {
    if actions == [] then r
    else Perform(Run(r, actions[..|actions| - 1]), actions[|actions| - 1])
  }

  datatype Transition = Transition(before: Status, action: Action, after: Status)

  /** The transitions a run actually made, in order. */
  function Trail(r: Request, actions: seq<Action>): seq<Transition> {
    if actions == [] then []
    else
      var init, last := actions[..|actions| - 1], actions[|actions| - 1];
      var (before, after) := (Run(r, init).status, Run(r, actions).status);
      Trail(r, init) + (if before == after then [] else [Transition(before, last, after)])
  }

  function Rank(s: Status): nat {
    match s
    case PendingL1 => 3
    case PendingL2 => 2
    case Approved => 1
    case _ => 0
  }

  /** Every call either changes nothing or moves the request strictly closer to its end. */
  lemma ProgressOrNothing(r: Request, action: Action)
    ensures Perform(r, action) == r || Rank(Perform(r, action).status) < Rank(r.status)
    ensures Perform(r, action).l1 == r.l1 && Perform(r, action).l2 == r.l2 && Perform(r, action).kind == r.kind
    ensures Perform(r, action).employee == r.employee && Perform(r, action).endDate == r.endDate
  {
  }

  /** Rejected and cancelled are never left, and nothing about such a request changes any more. */
  lemma {:induction false} TerminalIsForever(r: Request, actions: seq<Action>)
    requires r.status == Rejected || r.status == Cancelled
    ensures Run(r, actions) == r
  {
    if actions != [] {
      TerminalIsForever(r, actions[..|actions| - 1]);
    }
  }

  /** The chain approver `id` approved on the chain path. */
  predicate ChainApproval(t: Transition, before: Status, after: Status, id: int) {
    && t.before == before && t.after == after && t.action.DoApprove?
    && t.action.actor.userId == id && t.action.actor.canApprove
    && !t.action.actor.isSystemAdmin && !t.action.actor.canApproveAny && t.action.approverActive
  }

  /** What the trail of a request must look like, given where it stands now. */
  predicate TrailExplains(r: Request, trail: seq<Transition>) {
    && |trail| + Rank(r.status) <= 3
    && (r.status == PendingL1 ==> trail == [] && r.decidedBy == None && r.path == None)
    && (r.status == PendingL2 ==>
          && r.l2.Some? && r.decidedBy == Some(r.l1) && r.path == Some(ByChain)
          && |trail| == 1 && ChainApproval(trail[0], PendingL1, PendingL2, r.l1))
    && (r.status == Approved && r.path == Some(ByChain) && r.l2.Some? ==>
          && r.decidedBy == r.l2
          && |trail| == 2
          && ChainApproval(trail[0], PendingL1, PendingL2, r.l1)
          && ChainApproval(trail[1], PendingL2, Approved, r.l2.value))
    && (r.status == Approved && r.path == Some(ByChain) && r.l2.None? ==>
          r.decidedBy == Some(r.l1) && |trail| == 1 && ChainApproval(trail[0], PendingL1, Approved, r.l1))
    && (r.status == Approved && r.path != Some(ByChain) ==>
          && r.path == Some(ByOverride)
          && |trail| >= 1 && trail[|trail| - 1].action.DoApprove?
          && (trail[|trail| - 1].action.actor.isSystemAdmin || trail[|trail| - 1].action.actor.canApproveAny)
          && r.decidedBy == Some(trail[|trail| - 1].action.actor.userId))
    && (r.status == Rejected ==>
          && |trail| >= 1 && trail[|trail| - 1].action.DoReject?
          && MayDecide(r.(status := trail[|trail| - 1].before), trail[|trail| - 1].action.actor)
          && r.decidedBy == Some(trail[|trail| - 1].action.actor.userId)
          && r.note == Some(trail[|trail| - 1].action.text) && !Blank(r.note.value))
    && (r.status == Cancelled ==>
          && |trail| >= 1
          && match trail[|trail| - 1].action
             case DoCancel(a, today) =>
               && r.cancelledBy == Some(a.userId) && (a.userId == r.employee || a.isSystemAdmin || a.canDelete)
               && (r.kind == LeaveKind ==> today <= r.endDate)
               && (r.kind == CorrectionKind ==> trail[|trail| - 1].before != Approved)
             case DoSystemCancel(id, text) => r.cancelledBy == Some(id) && r.note == Some(text)
             case _ => false)
  }

  /**
   * The approval history of every run from a fresh submission: at most three
   * transitions; pending at level 2 only after the level 1 approver decided on
   * the chain path; approved on the chain path only after level 1 and then,
   * when one was snapshotted, level 2 acted; approved otherwise only by an
   * override holder; rejected by one of those, with a note; cancelled by the
   * employee, by HR or by the cascade.
   */
  lemma {:induction false} HistoryExplainsStatus(r: Request, actions: seq<Action>)
    requires r == Submitted(r.kind, r.employee, r.endDate, r.l1, r.l2)
    ensures TrailExplains(Run(r, actions), Trail(r, actions))
    ensures |Trail(r, actions)| <= 3
    ensures Run(r, actions).l1 == r.l1 && Run(r, actions).l2 == r.l2
  {
    if actions != [] {
      var init, last := actions[..|actions| - 1], actions[|actions| - 1];
      HistoryExplainsStatus(r, init);
      ProgressOrNothing(Run(r, init), last);
    }
  }
}
