/**
 * The leave-request and leave-allocation tables, the sums the balance is
 * derived from, and the use-cases that change them. Days are counted in halves.
 */
module LeaveTables {
  import opened Prelude
  import opened Text
  import opened Calendar
  import opened HalfDay
  import opened DayCount
  import opened ApprovalMachine

  datatype LeaveRow = LeaveRow(
    leaveType: LeaveType, start: Day, end: Day, portion: Portion,
    startTime: Option<string>, endTime: Option<string>, halfDays: nat, request: Request)

  /** A grant, in whole days; the table's check keeps the amount positive. */
  datatype Allocation = Allocation(employee: int, leaveType: LeaveType, amount: nat)

  /** What `reconstitute` demands of a loaded row; it throws otherwise. */
  predicate Reloads(r: LeaveRow) {
    r.start <= r.end && AcceptsOnReload(r.portion, r.startTime, r.endTime)
  }

  /** What loading checks: an ordered range, and times in order exactly on a half day. */
  lemma ReloadsExactly(r: LeaveRow)
    ensures Reloads(r) <==>
              && r.start <= r.end
              && match (r.startTime, r.endTime)
                 case (None, None) => r.portion == Full
                 case (Some(from), Some(to)) => r.portion != Full && StringBefore(from, to)
                 case _ => false
  {
    ReloadDemands(r.portion, r.startTime, r.endTime);
  }

  /** The table's check on the range of every row. */
  predicate OrderedRanges(rows: seq<LeaveRow>) {
    forall i :: 0 <= i < |rows| ==> rows[i].start <= rows[i].end
  }

  predicate Counts(r: LeaveRow, e: int, t: LeaveType) {
    r.request.employee == e && r.leaveType == t && r.request.status.Active()
  }

  function Charge(r: LeaveRow, e: int, t: LeaveType): nat {
    if Counts(r, e, t) then r.halfDays else 0
  }

  /** `sumConsumedForEmployeeType`: what pending and approved requests charge. */
  function Consumed(rows: seq<LeaveRow>, e: int, t: LeaveType): nat {
    if rows == [] then 0
    else Consumed(rows[..|rows| - 1], e, t) + Charge(rows[|rows| - 1], e, t)
  }

  predicate Matches(a: Allocation, e: int, t: LeaveType) {
    a.employee == e && a.leaveType == t
  }

  /** The granted half-days. */
  function Allowance(grants: seq<Allocation>, e: int, t: LeaveType): nat {
    if grants == [] then 0
    else
      var last := grants[|grants| - 1];
      Allowance(grants[..|grants| - 1], e, t) + (if Matches(last, e, t) then 2 * last.amount else 0)
  }

  ghost predicate WithinAllowance(rows: seq<LeaveRow>, grants: seq<Allocation>) {
    forall e, t :: Consumed(rows, e, t) <= Allowance(grants, e, t)
  }

  lemma ConsumedAppend(rows: seq<LeaveRow>, r: LeaveRow, e: int, t: LeaveType)
    ensures Consumed(rows + [r], e, t) == Consumed(rows, e, t) + Charge(r, e, t)
  {
  }

  lemma {:induction false} ConsumedUpdate(rows: seq<LeaveRow>, i: nat, r: LeaveRow, e: int, t: LeaveType)
    requires i < |rows|
    ensures Consumed(rows[i := r], e, t) + Charge(rows[i], e, t) == Consumed(rows, e, t) + Charge(r, e, t)
  {
    var k := |rows| - 1;
    if i == k {
      assert rows[i := r][..k] == rows[..k];
    } else {
      ConsumedUpdate(rows[..k], i, r, e, t);
      assert rows[i := r][..k] == rows[..k][i := r];
    }
  }

  lemma {:induction false} AllowanceGrows(grants: seq<Allocation>, n: nat, e: int, t: LeaveType)
    requires n <= |grants|
    ensures Allowance(grants[..n], e, t) <= Allowance(grants, e, t)
    decreases |grants| - n
  {
    if n < |grants| {
      AllowanceGrows(grants, n + 1, e, t);
      assert grants[..n + 1][..n] == grants[..n];
    } else {
      assert grants[..n] == grants;
    }
  }

  lemma AllowanceAppend(grants: seq<Allocation>, a: Allocation, e: int, t: LeaveType)
    ensures Allowance([], e, t) == 0
    ensures Allowance(grants + [a], e, t)
            == Allowance(grants, e, t) + (if a.employee == e && a.leaveType == t then 2 * a.amount else 0)
  {
  }

  /** One statement flips every listed row that is still active. */
  function SystemCancelRows(rows: seq<LeaveRow>, ids: set<nat>, actorId: int, note: string): (out: seq<LeaveRow>)
    ensures |out| == |rows|
    ensures forall i :: 0 <= i < |rows| ==>
              out[i] == if i in ids then rows[i].(request := SystemCancel(rows[i].request, actorId, note)) else rows[i]
  {
    seq(|rows|, i requires 0 <= i < |rows| =>
      if i in ids then rows[i].(request := SystemCancel(rows[i].request, actorId, note)) else rows[i])
  }

  /** The charge of the listed rows of one employee and type. */
  function ChargeOf(rows: seq<LeaveRow>, ids: set<nat>, e: int, t: LeaveType): nat {
    if rows == [] then 0
    else
      var k := |rows| - 1;
      ChargeOf(rows[..k], ids, e, t) + (if k in ids then Charge(rows[k], e, t) else 0)
  }

  /** Cancelling frees exactly what the cancelled rows charged. */
  lemma {:induction false} SystemCancelFrees(rows: seq<LeaveRow>, ids: set<nat>, actorId: int, note: string,
                                             e: int, t: LeaveType)
    ensures Consumed(SystemCancelRows(rows, ids, actorId, note), e, t) + ChargeOf(rows, ids, e, t)
            == Consumed(rows, e, t)
  {
    if rows != [] {
      var k := |rows| - 1;
      SystemCancelFrees(rows[..k], ids, actorId, note, e, t);
      assert SystemCancelRows(rows, ids, actorId, note)[..k] == SystemCancelRows(rows[..k], ids, actorId, note);
    }
  }

  /** Approving, rejecting and cancelling never charge more. */
  lemma ActionsNeverCharge(r: LeaveRow, action: Action, e: int, t: LeaveType)
    ensures Charge(r.(request := Perform(r.request, action)), e, t) <= Charge(r, e, t)
  {
  }

  // ----- balances -----

  function StatusSum(rows: seq<LeaveRow>, e: int, t: LeaveType, s: Status): nat {
    if rows == [] then 0
    else
      var r := rows[|rows| - 1];
      StatusSum(rows[..|rows| - 1], e, t, s)
        + (if r.request.employee == e && r.leaveType == t && r.request.status == s then r.halfDays else 0)
  }

  /** A row of the query grouped by type and status. */
  datatype GroupRow = GroupRow(leaveType: LeaveType, status: Status, sum: nat)

  /** Any result the grouped query may return: one row per group, in any order. */
  ghost predicate IsGrouping(groups: seq<GroupRow>, rows: seq<LeaveRow>, e: int) {
    && (forall i, j :: 0 <= i < j < |groups| ==>
          (groups[i].leaveType, groups[i].status) != (groups[j].leaveType, groups[j].status))
    && (forall i :: 0 <= i < |groups| ==>
          groups[i].status.Active() && groups[i].sum == StatusSum(rows, e, groups[i].leaveType, groups[i].status))
    && (forall t, s: Status :: s.Active() && StatusSum(rows, e, t, s) > 0 ==>
          exists i :: 0 <= i < |groups| && groups[i].leaveType == t && groups[i].status == s)
  }

  datatype Bucket = Bucket(used: nat, reserved: nat)

  function GroupTotal(groups: seq<GroupRow>, t: LeaveType, s: Status): nat {
    if groups == [] then 0
    else
      var g := groups[|groups| - 1];
      GroupTotal(groups[..|groups| - 1], t, s) + (if g.leaveType == t && g.status == s then g.sum else 0)
  }

  lemma {:induction false} GroupTotalAbsent(groups: seq<GroupRow>, t: LeaveType, s: Status)
    requires forall i :: 0 <= i < |groups| ==> !(groups[i].leaveType == t && groups[i].status == s)
    ensures GroupTotal(groups, t, s) == 0
  {
    if groups != [] {
      GroupTotalAbsent(groups[..|groups| - 1], t, s);
    }
  }

  lemma {:induction false} GroupTotalSingle(groups: seq<GroupRow>, i: nat)
    requires i < |groups|
    requires forall j, k :: 0 <= j < k < |groups| ==>
               (groups[j].leaveType, groups[j].status) != (groups[k].leaveType, groups[k].status)
    ensures GroupTotal(groups, groups[i].leaveType, groups[i].status) == groups[i].sum
  {
    var k := |groups| - 1;
    if i == k {
      GroupTotalAbsent(groups[..k], groups[i].leaveType, groups[i].status);
    } else {
      GroupTotalSingle(groups[..k], i);
    }
  }

  lemma GroupTotalIsStatusSum(groups: seq<GroupRow>, rows: seq<LeaveRow>, e: int, t: LeaveType, s: Status)
    requires IsGrouping(groups, rows, e) && s.Active()
    ensures GroupTotal(groups, t, s) == StatusSum(rows, e, t, s)
  {
    if i :| 0 <= i < |groups| && groups[i].leaveType == t && groups[i].status == s {
      GroupTotalSingle(groups, i);
    } else {
      GroupTotalAbsent(groups, t, s);
    }
  }

  lemma {:induction false} ConsumedByStatus(rows: seq<LeaveRow>, e: int, t: LeaveType)
    ensures Consumed(rows, e, t) == StatusSum(rows, e, t, Approved)
                                    + StatusSum(rows, e, t, PendingL1) + StatusSum(rows, e, t, PendingL2)
  {
    if rows != [] {
      ConsumedByStatus(rows[..|rows| - 1], e, t);
    }
  }

  function BucketOf(sums: map<LeaveType, Bucket>, t: LeaveType): Bucket {
    if t in sums then sums[t] else Bucket(0, 0)
  }

  /** The loop of `workingDaySumsByEmployee` over whatever order the groups arrive in. */
  method WorkingDaySums(groups: seq<GroupRow>, ghost rows: seq<LeaveRow>, ghost e: int)
    returns (sums: map<LeaveType, Bucket>)
    requires IsGrouping(groups, rows, e)
    ensures forall t :: BucketOf(sums, t).used == StatusSum(rows, e, t, Approved)
    ensures forall t :: BucketOf(sums, t).used + BucketOf(sums, t).reserved == Consumed(rows, e, t)
  {
    sums := map[];
    for i := 0 to |groups|
      invariant forall t :: BucketOf(sums, t).used == GroupTotal(groups[..i], t, Approved)
      invariant forall t :: BucketOf(sums, t).reserved
                            == GroupTotal(groups[..i], t, PendingL1) + GroupTotal(groups[..i], t, PendingL2)
    {
      var g := groups[i];
      var bucket := BucketOf(sums, g.leaveType);
      if g.status == Approved {
        bucket := bucket.(used := bucket.used + g.sum);
      } else {
        bucket := bucket.(reserved := bucket.reserved + g.sum);
      }
      sums := sums[g.leaveType := bucket];
      assert groups[..i + 1][..i] == groups[..i];
      assert g.status.Active();
    }
    assert groups[..|groups|] == groups;
    forall t
      ensures BucketOf(sums, t).used == StatusSum(rows, e, t, Approved)
      ensures BucketOf(sums, t).used + BucketOf(sums, t).reserved == Consumed(rows, e, t)
    {
      GroupTotalIsStatusSum(groups, rows, e, t, Approved);
      GroupTotalIsStatusSum(groups, rows, e, t, PendingL1);
      GroupTotalIsStatusSum(groups, rows, e, t, PendingL2);
      ConsumedByStatus(rows, e, t);
    }
  }

  /** A grouped sum of grants, in days. */
  datatype GrantGroup = GrantGroup(leaveType: LeaveType, sum: nat)

  predicate HasGroup(groups: seq<GrantGroup>, t: LeaveType) {
    exists i :: 0 <= i < |groups| && groups[i].leaveType == t
  }

  /** Any result the grouped query over the grants may return. */
  ghost predicate IsGrantGrouping(groups: seq<GrantGroup>, grants: seq<Allocation>, e: int) {
    && (forall i, j :: 0 <= i < j < |groups| ==> groups[i].leaveType != groups[j].leaveType)
    && (forall i :: 0 <= i < |groups| ==> 2 * groups[i].sum == Allowance(grants, e, groups[i].leaveType))
    && (forall t :: Allowance(grants, e, t) > 0 ==> HasGroup(groups, t))
  }

  function SumOf(sums: map<LeaveType, nat>, t: LeaveType): nat {
    if t in sums then sums[t] else 0
  }

  /** The loop of `sumsByEmployee`. */
  method SumsByEmployee(groups: seq<GrantGroup>, ghost grants: seq<Allocation>, ghost e: int)
    returns (sums: map<LeaveType, nat>)
    requires IsGrantGrouping(groups, grants, e)
    ensures forall t :: 2 * SumOf(sums, t) == Allowance(grants, e, t)
  {
    sums := map[];
    for k := 0 to |groups|
      invariant forall t :: t in sums <==> HasGroup(groups[..k], t)
      invariant forall t :: t in sums ==> 2 * sums[t] == Allowance(grants, e, t)
    {
      var g := groups[k];
      sums := sums[g.leaveType := g.sum];
      assert groups[..k + 1] == groups[..k] + [g];
      assert groups[..k + 1][k] == g;
      assert forall i :: 0 <= i < k ==> groups[..k + 1][i] == groups[..k][i];
    }
    assert groups[..|groups|] == groups;
  }

  datatype Balance = Balance(leaveType: LeaveType, allowance: nat, used: nat, reserved: nat, available: nat)

  const LEAVE_TYPES := [Vacation, Sick, Bereavement, Birthday, Emergency]

  /** `forEmployee`: one balance per leave type, floored at zero. */
  function BalanceOf(t: LeaveType, allowance: nat, bucket: Bucket): Balance {
    var left := allowance - bucket.used - bucket.reserved;
    Balance(t, allowance, bucket.used, bucket.reserved, if left < 0 then 0 else left)
  }

  method ForEmployee(granted: seq<GrantGroup>, groups: seq<GroupRow>, ghost grants: seq<Allocation>,
                     ghost rows: seq<LeaveRow>, ghost e: int)
    returns (balances: seq<Balance>)
    requires IsGrantGrouping(granted, grants, e) && IsGrouping(groups, rows, e)
    ensures |balances| == |LEAVE_TYPES|
    ensures forall i :: 0 <= i < |balances| ==> DescribesBalance(balances[i], LEAVE_TYPES[i], rows, grants, e)
  {
    var allowances := SumsByEmployee(granted, grants, e);
    var sums := WorkingDaySums(groups, rows, e);
    var describe := t => BalanceOf(t, 2 * SumOf(allowances, t), BucketOf(sums, t));
    balances := seq(|LEAVE_TYPES|, i requires 0 <= i < |LEAVE_TYPES| => describe(LEAVE_TYPES[i]));
    forall i | 0 <= i < |balances|
      ensures DescribesBalance(balances[i], LEAVE_TYPES[i], rows, grants, e)
    {
      var t := LEAVE_TYPES[i];
      assert BucketOf(sums, t).used == StatusSum(rows, e, t, Approved);
      assert 2 * SumOf(allowances, t) == Allowance(grants, e, t);
      assert balances[i] == describe(t);
    }
  }

  /** The balance reports the grants, splits what the requests charge, and adds up unless overdrawn. */
  predicate DescribesBalance(b: Balance, t: LeaveType, rows: seq<LeaveRow>, grants: seq<Allocation>, e: int) {
    && b.leaveType == t
    && b.allowance == Allowance(grants, e, t)
    && b.used == StatusSum(rows, e, t, Approved)
    && b.used + b.reserved == Consumed(rows, e, t)
    && (b.available + b.used + b.reserved == b.allowance <==> Consumed(rows, e, t) <= Allowance(grants, e, t))
  }
}
