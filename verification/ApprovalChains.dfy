/** The approval-chain service: single and bulk changes of who approves whose requests. */
module ApprovalChains {
  import opened Prelude
  import opened ChainTable

  datatype Input = Input(l1: Field, l2: Field)

  datatype ChainError =
    | EmployeeNotFound | SelfApproval | ApproverNotFound | ApproverInactive | L2WithoutL1 | NoActiveStep
    | SameApprover | NoEmployees | Conflict

  function Slots(e: int, input: Input): seq<SlotChange> {
    [SlotChange(e, L1, input.l1), SlotChange(e, L2, input.l2)]
  }

  function UserError(id: int, u: Users): Option<ChainError> {
    if id !in u.found then Some(ApproverNotFound)
    else if id !in u.active then Some(ApproverInactive)
    else None
  }

  function ApproverError(f: Field, e: int, u: Users): Option<ChainError> {
    if !f.Assign? then None
    else if f.approver == e then Some(SelfApproval)
    else UserError(f.approver, u)
  }

  function ComputeStepChanges(t: Table, e: int, input: Input): Result<Changes, ChainError> {
    if Wanted(t, SlotChange(e, L2, input.l2)).Some? && Wanted(t, SlotChange(e, L1, input.l1)).None?
    then Err(L2WithoutL1)
    else Ok(ChangesOf(t, Slots(e, input)))
  }

  /** One transaction: refused as a whole when a constraint would break. */
  function Commit(t: Table, c: Changes, u: Users): Result<Table, ChainError> {
    if Constraints(Applied(t, c), u) then Ok(Applied(t, c)) else Err(Conflict)
  }

  function SetChain(t: Table, u: Users, e: int, input: Input): Result<Table, ChainError> {
    var bad1, bad2 := ApproverError(input.l1, e, u), ApproverError(input.l2, e, u);
    if e !in u.found then Err(EmployeeNotFound)
    else if bad1.Some? then Err(bad1.value)
    else if bad2.Some? then Err(bad2.value)
    else
      var c := ComputeStepChanges(t, e, input);
      if c.Err? then Err(c.error) else Commit(t, c.value, u)
  }

  function EndStep(t: Table, u: Users, e: int, s: Step): Result<Table, ChainError> {
    var row := Current(t, e, s);
    if row.None? then Err(NoActiveStep)
    else if s == L1 && Current(t, e, L2).Some? then Err(L2WithoutL1)
    else Commit(t, Changes([row.value], []), u)
  }

  // ----- bulk reassign -----

  predicate HeldBy(r: ChainRow, approver: int) {
    !r.ended && r.approver == approver
  }

  /** By employee, then step. */
  predicate Before(r: ChainRow, s: ChainRow) {
    r.employee < s.employee || (r.employee == s.employee && r.step == L1 && s.step == L2)
  }

  function InsertSorted(t: Table, held: seq<nat>, i: nat): (r: seq<nat>)
    requires i < |t| && forall k :: 0 <= k < |held| ==> held[k] < |t|
    ensures multiset(r) == multiset(held) + multiset{i}
    ensures forall k :: 0 <= k < |r| ==> r[k] < |t|
  {
    if held == [] || Before(t[i], t[held[0]]) then [i] + held
    else
      assert held == [held[0]] + held[1..];
      [held[0]] + InsertSorted(t, held[1..], i)
  }

  /** The first `n` rows' active ones held by an approver, in the order of the query. */
  function HeldAmong(t: Table, approver: int, n: nat): (held: seq<nat>)
    requires n <= |t|
    ensures forall k :: 0 <= k < |held| ==> held[k] < |t|
  {
    if n == 0 then []
    else
      var earlier := HeldAmong(t, approver, n - 1);
      if HeldBy(t[n - 1], approver) then InsertSorted(t, earlier, n - 1) else earlier
  }

  function Held(t: Table, approver: int): (held: seq<nat>)
    ensures forall k :: 0 <= k < |held| ==> held[k] < |t|
  {
    HeldAmong(t, approver, |t|)
  }

  /** How often the query lists a row. */
  function Listed(t: Table, approver: int, n: nat, i: nat): nat
    requires n <= |t|
  {
    multiset(HeldAmong(t, approver, n))[i]
  }

  lemma OneMoreRow(t: Table, approver: int, n: nat, i: nat)
    requires n < |t|
    ensures Listed(t, approver, n + 1, i)
            == Listed(t, approver, n, i) + if HeldBy(t[n], approver) && i == n then 1 else 0
  {
  }

  lemma NoRowYet(t: Table, approver: int, i: nat)
    ensures Listed(t, approver, 0, i) == 0
  {
  }

  lemma {:induction false} HeldAmongIsExact(t: Table, approver: int, n: nat, i: nat)
    requires n <= |t|
    ensures Listed(t, approver, n, i) == if i < n && HeldBy(t[i], approver) then 1 else 0
  {
    hide Listed, HeldBy;
    if n > 0 {
      HeldAmongIsExact(t, approver, n - 1, i);
      OneMoreRow(t, approver, n - 1, i);
    } else {
      NoRowYet(t, approver, i);
    }
  }

  /** The query returns every active row of the approver once, and nothing else. */
  lemma HeldIsExact(t: Table, approver: int)
    ensures Distinct(Held(t, approver))
    ensures forall i :: 0 <= i < |t| ==> (i in Held(t, approver) <==> !t[i].ended && t[i].approver == approver)
  {
    var held := Held(t, approver);
    var rows: multiset<nat> := multiset(held);
    forall i: nat
      ensures rows[i] <= 1
      ensures i in held <==> i < |t| && HeldBy(t[i], approver)
    {
      HeldAmongIsExact(t, approver, |t|, i);
      assert i in held <==> i in rows;
    }
    OnceIsDistinct(held);
  }

  /** By employee, and level 1 before level 2. */
  predicate Precedes(r: ChainRow, s: ChainRow) {
    r.employee < s.employee || (r.employee == s.employee && (r.step == L1 || s.step == L2))
  }

  predicate InOrder(t: Table, held: seq<nat>)
    requires forall k :: 0 <= k < |held| ==> held[k] < |t|
  {
    forall i, j :: 0 <= i < j < |held| ==> Precedes(t[held[i]], t[held[j]])
  }

  lemma InOrderCons(t: Table, i: nat, held: seq<nat>)
    requires i < |t| && (forall k :: 0 <= k < |held| ==> held[k] < |t|) && InOrder(t, held)
    requires forall k :: 0 <= k < |held| ==> Precedes(t[i], t[held[k]])
    ensures InOrder(t, [i] + held)
  {
  }

  lemma {:induction false} InsertKeepsOrder(t: Table, held: seq<nat>, i: nat)
    requires i < |t| && (forall k :: 0 <= k < |held| ==> held[k] < |t|) && InOrder(t, held)
    ensures InOrder(t, InsertSorted(t, held, i))
  {
    if held == [] || Before(t[i], t[held[0]]) {
      InOrderCons(t, i, held);
    } else {
      var rest := InsertSorted(t, held[1..], i);
      InsertKeepsOrder(t, held[1..], i);
      assert Precedes(t[held[0]], t[i]) && forall k :: 0 <= k < |held[1..]| ==> Precedes(t[held[0]], t[held[1..][k]]);
      hide InOrder, Precedes, Before;
      forall k | 0 <= k < |rest|
        ensures Precedes(t[held[0]], t[rest[k]])
      {
        assert rest[k] in multiset(rest);
        assert rest[k] == i || rest[k] in held[1..];
      }
      InOrderCons(t, held[0], rest);
    }
  }

  lemma {:induction false} HeldAmongInOrder(t: Table, approver: int, n: nat)
    requires n <= |t|
    ensures InOrder(t, HeldAmong(t, approver, n))
  {
    if n > 0 {
      HeldAmongInOrder(t, approver, n - 1);
      hide InOrder;
      if HeldBy(t[n - 1], approver) {
        InsertKeepsOrder(t, HeldAmong(t, approver, n - 1), n - 1);
      }
    } else {
      assert HeldAmong(t, approver, 0) == [];
    }
  }

  /** The query lists them by employee, and level 1 before level 2. */
  lemma HeldIsOrdered(t: Table, approver: int)
    ensures InOrder(t, Held(t, approver))
  {
    HeldAmongInOrder(t, approver, |t|);
  }

  /** The slots that move to the new approver, and the employees left where they are. */
  function Moves(t: Table, held: seq<nat>, to: int): (xs: seq<SlotChange>)
    requires forall k :: 0 <= k < |held| ==> held[k] < |t|
  {
    if held == [] then []
    else
      var last := |held| - 1;
      var row := t[held[last]];
      Moves(t, held[..last], to) + if row.employee == to then [] else [SlotChange(row.employee, row.step, Assign(to))]
  }

  function Skips(t: Table, held: seq<nat>, to: int): (es: seq<int>)
    requires forall k :: 0 <= k < |held| ==> held[k] < |t|
    ensures forall k :: 0 <= k < |es| ==> es[k] == to
  {
    if held == [] then []
    else
      var last := |held| - 1;
      Skips(t, held[..last], to) + if t[held[last]].employee == to then [to] else []
  }

  datatype Reassigned = Reassigned(table: Table, reassigned: nat, skipped: seq<int>)


  function BulkReassign(t: Table, u: Users, from: int, to: int): Result<Reassigned, ChainError> {
    var bad := UserError(to, u);
    if from == to then Err(SameApprover)
    else if bad.Some? then Err(bad.value)
    else
      var held := Held(t, from);
      var moves := Moves(t, held, to);
      var done := Commit(t, ChangesOf(t, moves), u);
      if done.Err? then Err(done.error) else Ok(Reassigned(done.value, |moves|, Skips(t, held, to)))
  }

  // ----- bulk assign -----

  /** `[...new Set(ids)]`. */
  function Dedupe(ids: seq<int>): (r: seq<int>)
    ensures Distinct(r)
    ensures forall x :: x in r <==> x in ids
  {
    if ids == [] then []
    else
      var last := |ids| - 1;
      var earlier := Dedupe(ids[..last]);
      assert ids == ids[..last] + [ids[last]];
      if ids[last] in earlier then earlier else earlier + [ids[last]]
  }

  predicate Chosen(e: int, l1: int, l2: Option<int>) {
    e == l1 || l2 == Some(e)
  }

  function AssignInput(l1: int, l2: Option<int>): Input {
    Input(Assign(l1), if l2.Some? then Assign(l2.value) else Unchanged)
  }

  function AllSlots(es: seq<int>, input: Input): seq<SlotChange> {
    if es == [] then []
    else AllSlots(es[..|es| - 1], input) + Slots(es[|es| - 1], input)
  }

  function SkipChosen(es: seq<int>, l1: int, l2: Option<int>): seq<int> {
    Filter((e: int) => !Chosen(e, l1, l2), es)
  }

  function KeepChosen(es: seq<int>, l1: int, l2: Option<int>): seq<int> {
    Filter((e: int) => Chosen(e, l1, l2), es)
  }

  /** The employees a bulk assign does not skip. */
  function Unskipped(ids: seq<int>, l1: int, l2: Option<int>): seq<int> {
    SkipChosen(Dedupe(ids), l1, l2)
  }

  /** The employees whose chain the change touches at all. */
  function CountChanged(t: Table, es: seq<int>, input: Input): nat {
    if es == [] then 0
    else
      var last := |es| - 1;
      CountChanged(t, es[..last], input)
      + if ChangesOf(t, Slots(es[last], input)) == Changes([], []) then 0 else 1
  }

  datatype Assigned = Assigned(table: Table, changed: nat, skipped: seq<int>)

  function BulkAssign(t: Table, u: Users, ids: seq<int>, l1: int, l2: Option<int>): Result<Assigned, ChainError> {
    var unique := Dedupe(ids);
    var bad1, bad2 := UserError(l1, u), if l2.Some? then UserError(l2.value, u) else None;
    if unique == [] then Err(NoEmployees)
    else if bad1.Some? then Err(bad1.value)
    else if bad2.Some? then Err(bad2.value)
    else
      var input := AssignInput(l1, l2);
      var es := Unskipped(ids, l1, l2);
      var done := Commit(t, ChangesOf(t, AllSlots(es, input)), u);
      if done.Err? then Err(done.error)
      else Ok(Assigned(done.value, CountChanged(t, es, input), KeepChosen(unique, l1, l2)))
  }

  // ----- what every operation keeps -----

  ghost predicate L2NeedsL1(t: Table) {
    forall e :: Approver(t, e, L2).Some? ==> Approver(t, e, L1).Some?
  }

  /** At most one active approver per slot, nobody approves for themselves, no L2 without L1. */
  ghost predicate Sound(t: Table, u: Users) {
    Constraints(t, u) && L2NeedsL1(t)
  }

  /** Rows are only ever appended or ended. */
  ghost predicate Extends(after: Table, t: Table) {
    |t| <= |after| && forall i :: 0 <= i < |t| ==> after[i] == t[i] || after[i] == t[i].(ended := true)
  }

  lemma BatchExtends(t: Table, c: Changes)
    ensures Extends(Applied(t, c), t)
  {
  }

  // ----- set chain -----

  predicate GoodInput(t: Table, u: Users, e: int, input: Input) {
    && e in u.found
    && (input.l1.Assign? ==> input.l1.approver != e && input.l1.approver in u.active)
    && (input.l2.Assign? ==> input.l2.approver != e && input.l2.approver in u.active)
    && (Wanted(t, SlotChange(e, L2, input.l2)).Some? ==> Wanted(t, SlotChange(e, L1, input.l1)).Some?)
  }

  /** The call is refused for its input alone: the table never objects. */
  lemma SetChainSucceedsExactly(t: Table, u: Users, e: int, input: Input)
    requires Constraints(t, u) && GoodUsers(u)
    ensures SetChain(t, u, e, input).Ok? <==> GoodInput(t, u, e, input)
    ensures SetChain(t, u, e, input) != Err(Conflict)
  {
    if GoodInput(t, u, e, input) {
      BatchKeepsConstraints(t, Slots(e, input), u);
    }
  }

  /** The field names somebody who may not approve for `e`. */
  predicate BadField(f: Field, e: int, u: Users) {
    f.Assign? && (f.approver == e || f.approver !in u.active)
  }

  /** What a refused call says: the employee first, then level 1, then level 2, then the chain as a whole. */
  lemma SetChainSaysWhy(t: Table, u: Users, e: int, input: Input)
    requires Constraints(t, u) && GoodUsers(u)
    ensures var r := SetChain(t, u, e, input);
            var first := if BadField(input.l1, e, u) then input.l1 else input.l2;
            var bad := BadField(input.l1, e, u) || BadField(input.l2, e, u);
            && (r == Err(EmployeeNotFound) <==> e !in u.found)
            && (r == Err(SelfApproval) <==> e in u.found && bad && first.approver == e)
            && (r == Err(ApproverNotFound) <==>
                  e in u.found && bad && first.approver != e && first.approver !in u.found)
            && (r == Err(ApproverInactive) <==>
                  e in u.found && bad && first.approver != e && first.approver in u.found)
            && (r == Err(L2WithoutL1) <==>
                  && e in u.found && !bad
                  && (input.l2.Assign? || (input.l2.Unchanged? && Approver(t, e, L2).Some?))
                  && (input.l1.Clear? || (input.l1.Unchanged? && Approver(t, e, L1).None?)))
  {
    SetChainSucceedsExactly(t, u, e, input);
    hide Constraints, Applied, Current, ChangesOf;
  }

  /** Both steps hold what was asked for and nobody else's chain moves. */
  lemma SetChainReaches(t: Table, u: Users, e: int, input: Input)
    requires Sound(t, u) && GoodUsers(u) && SetChain(t, u, e, input).Ok?
    ensures var after := SetChain(t, u, e, input).value;
            && Approver(after, e, L1) == Wanted(t, SlotChange(e, L1, input.l1))
            && Approver(after, e, L2) == Wanted(t, SlotChange(e, L2, input.l2))
            && (forall other, s :: other != e ==> Approver(after, other, s) == Approver(t, other, s))
            && Sound(after, u) && Extends(after, t)
  {
    var xs := Slots(e, input);
    SetChainSucceedsExactly(t, u, e, input);
    SlotsAfterEach(t, xs);
    BatchIsEach(t, xs);
    BatchExtends(t, ChangesOf(t, xs));
    assert xs[0] == SlotChange(e, L1, input.l1) && xs[1] == SlotChange(e, L2, input.l2);
  }

  // ----- end step -----

  /** Ending a step is exactly clearing that one field, refused when L2 would be left alone. */
  lemma EndStepIsClearing(t: Table, u: Users, e: int, s: Step)
    requires Sound(t, u)
    ensures EndStep(t, u, e, s).Ok?
            <==> Approver(t, e, s).Some? && !(s == L1 && Approver(t, e, L2).Some?)
    ensures EndStep(t, u, e, s).Ok? ==>
              var after := EndStep(t, u, e, s).value;
              && Approver(after, e, s) == None
              && (forall other, step :: (other, step) != (e, s) ==>
                    Approver(after, other, step) == Approver(t, other, step))
              && Sound(after, u) && Extends(after, t)
  {
    var x := SlotChange(e, s, Clear);
    if Current(t, e, s).Some? && !(s == L1 && Current(t, e, L2).Some?) {
      assert ChangesOf(t, [x]) == Changes([Current(t, e, s).value], []);
      BatchKeepsConstraints(t, [x], u);
      SlotsAfterEach(t, [x]);
      BatchIsEach(t, [x]);
      BatchExtends(t, ChangesOf(t, [x]));
      assert [x][0] == x;
    }
  }

  lemma EndStepSaysWhy(t: Table, u: Users, e: int, s: Step)
    requires Sound(t, u)
    ensures EndStep(t, u, e, s) == Err(NoActiveStep) <==> Approver(t, e, s).None?
    ensures EndStep(t, u, e, s) == Err(L2WithoutL1)
            <==> s == L1 && Approver(t, e, L1).Some? && Approver(t, e, L2).Some?
  {
  }

  // ----- bulk reassign -----

  lemma BulkReassignSaysWhy(t: Table, u: Users, from: int, to: int)
    requires GoodUsers(u)
    ensures var r := BulkReassign(t, u, from, to);
            && (r == Err(SameApprover) <==> from == to)
            && (r == Err(ApproverNotFound) <==> from != to && to !in u.found)
            && (r == Err(ApproverInactive) <==> from != to && to in u.found && to !in u.active)
  {
  }

  lemma BulkAssignSaysWhy(t: Table, u: Users, ids: seq<int>, l1: int, l2: Option<int>)
    requires GoodUsers(u)
    ensures var r := BulkAssign(t, u, ids, l1, l2);
            var first := if l1 !in u.active || l2.None? then l1 else l2.value;
            && (r == Err(NoEmployees) <==> ids == [])
            && (r == Err(ApproverNotFound) <==> ids != [] && first !in u.found)
            && (r == Err(ApproverInactive) <==> ids != [] && first in u.found && first !in u.active)
  {
    if ids != [] {
      assert ids[0] in Dedupe(ids);
    }
    hide Constraints, Applied, ChangesOf;
  }

  /** A move stands for a row of the list that is not the new approver's own. */
  predicate MoveOf(t: Table, held: seq<nat>, to: int, x: SlotChange) {
    && x.field == Assign(to) && x.employee != to
    && Current(t, x.employee, x.step).Some? && Current(t, x.employee, x.step).value in held
  }

  lemma {:induction false} MovesPlusSkips(t: Table, held: seq<nat>, to: int)
    requires forall k :: 0 <= k < |held| ==> held[k] < |t|
    ensures |Moves(t, held, to)| + |Skips(t, held, to)| == |held|
  {
    if held != [] {
      MovesPlusSkips(t, held[..|held| - 1], to);
    }
  }

  lemma {:induction false} MovesAreMoves(t: Table, held: seq<nat>, to: int)
    requires OneActive(t) && forall k :: 0 <= k < |held| ==> held[k] < |t| && !t[held[k]].ended
    ensures forall m :: 0 <= m < |Moves(t, held, to)| ==> MoveOf(t, held, to, Moves(t, held, to)[m])
  {
    if held != [] {
      var last := |held| - 1;
      MovesAreMoves(t, held[..last], to);
      CurrentIs(t, held[last]);
      assert held[last] in held;
      MoveStays(t, held, to);
    }
  }

  lemma MoveStays(t: Table, held: seq<nat>, to: int)
    requires held != []
    ensures forall x :: MoveOf(t, held[..|held| - 1], to, x) ==> MoveOf(t, held, to, x)
  {
  }

  lemma {:induction false} MovesAreDistinct(t: Table, held: seq<nat>, to: int)
    requires Distinct(held) && OneActive(t)
    requires forall k :: 0 <= k < |held| ==> held[k] < |t| && !t[held[k]].ended
    ensures DistinctSlots(Moves(t, held, to))
  {
    if held != [] {
      var last := |held| - 1;
      var xs := Moves(t, held[..last], to);
      MovesAreDistinct(t, held[..last], to);
      MovesAreMoves(t, held[..last], to);
      CurrentIs(t, held[last]);
      forall m | 0 <= m < |xs|
        ensures xs[m].employee != t[held[last]].employee || xs[m].step != t[held[last]].step
      {
        assert MoveOf(t, held[..last], to, xs[m]);
        assert held[last] !in held[..last];
      }
    }
  }

  lemma {:induction false} MovesCoverTheRest(t: Table, held: seq<nat>, to: int, k: nat)
    requires forall k :: 0 <= k < |held| ==> held[k] < |t|
    requires k < |held| && t[held[k]].employee != to
    ensures Touches(Moves(t, held, to), t[held[k]].employee, t[held[k]].step)
  {
    var last := |held| - 1;
    var xs := Moves(t, held[..last], to);
    if k < last {
      MovesCoverTheRest(t, held[..last], to, k);
      var m :| 0 <= m < |xs| && xs[m].employee == t[held[k]].employee && xs[m].step == t[held[k]].step;
      assert Moves(t, held, to)[m] == xs[m];
    } else {
      assert Moves(t, held, to)[|xs|] == SlotChange(t[held[k]].employee, t[held[k]].step, Assign(to));
    }
  }

  lemma MovedSlotsAreHeld(t: Table, u: Users, from: int, to: int, k: nat)
    requires Constraints(t, u) && GoodUsers(u) && to in u.active && k < |Moves(t, Held(t, from), to)|
    ensures var x := Moves(t, Held(t, from), to)[k];
            x.field == Assign(to) && x.employee != to && Approver(t, x.employee, x.step) == Some(from)
  {
    MovesOfHeld(t, u, from, to);
    HeldIsExact(t, from);
    hide Moves, Held;
    assert MoveOf(t, Held(t, from), to, Moves(t, Held(t, from), to)[k]);
  }

  lemma HeldSlotsMove(t: Table, from: int, to: int, e: int, s: Step)
    requires Approver(t, e, s) == Some(from) && e != to
    ensures Touches(Moves(t, Held(t, from), to), e, s)
  {
    var held := Held(t, from);
    HeldIsExact(t, from);
    hide Moves, Touches;
    assert Current(t, e, s).value in held;
    var k :| 0 <= k < |held| && held[k] == Current(t, e, s).value;
    MovesCoverTheRest(t, held, to, k);
  }

  lemma ReassignedApprover(t: Table, u: Users, from: int, to: int, e: int, s: Step)
    requires Constraints(t, u) && GoodUsers(u) && to in u.active
    ensures Approver(Applied(t, ChangesOf(t, Moves(t, Held(t, from), to))), e, s)
            == if Approver(t, e, s) == Some(from) && e != to then Some(to) else Approver(t, e, s)
  {
    var xs := Moves(t, Held(t, from), to);
    MovesOfHeld(t, u, from, to);
    SlotsAfterEach(t, xs);
    BatchIsEach(t, xs);
    hide Moves, Held, ChangesOf, Applied, ApplyEach, Skips, Approver, MoveOf;
    if Touches(xs, e, s) {
      var k :| 0 <= k < |xs| && xs[k].employee == e && xs[k].step == s;
      MovedSlotsAreHeld(t, u, from, to, k);
    } else if Approver(t, e, s) == Some(from) && e != to {
      HeldSlotsMove(t, from, to, e, s);
      assert false;
    }
  }

  lemma MovesOfHeld(t: Table, u: Users, from: int, to: int)
    requires Constraints(t, u) && GoodUsers(u) && to in u.active
    ensures var held := Held(t, from);
            var xs := Moves(t, held, to);
            && DistinctSlots(xs) && |xs| + |Skips(t, held, to)| == |held|
            && (forall m :: 0 <= m < |xs| ==> MoveOf(t, held, to, xs[m]) && Allowed(xs[m], u))
  {
    HeldIsExact(t, from);
    var held := Held(t, from);
    assert forall k :: 0 <= k < |held| ==> held[k] in held;
    MovesPlusSkips(t, held, to);
    MovesAreMoves(t, held, to);
    MovesAreDistinct(t, held, to);
    var xs := Moves(t, held, to);
    forall m | 0 <= m < |xs|
      ensures Allowed(xs[m], u)
    {
      assert MoveOf(t, held, to, xs[m]);
    }
  }

  /**
   * Wherever `from` approved, `to` approves, except for `to`'s own requests; no
   * slot is opened or vacated, and moved plus skipped are the rows `from` held.
   */
  lemma BulkReassignMoves(t: Table, u: Users, from: int, to: int)
    requires Sound(t, u) && GoodUsers(u) && from != to && to in u.active
    ensures BulkReassign(t, u, from, to).Ok?
    ensures var r := BulkReassign(t, u, from, to).value;
            && r.reassigned + |r.skipped| == |Held(t, from)|
            && (forall e, s :: Approver(r.table, e, s)
                  == if Approver(t, e, s) == Some(from) && e != to then Some(to) else Approver(t, e, s))
            && Sound(r.table, u) && Extends(r.table, t)
  {
    var xs := Moves(t, Held(t, from), to);
    MovesOfHeld(t, u, from, to);
    BatchKeepsConstraints(t, xs, u);
    BatchExtends(t, ChangesOf(t, xs));
    forall e, s
      ensures Approver(Applied(t, ChangesOf(t, xs)), e, s)
              == if Approver(t, e, s) == Some(from) && e != to then Some(to) else Approver(t, e, s)
    {
      ReassignedApprover(t, u, from, to, e, s);
    }
    hide Moves, Held, ChangesOf, Applied, Skips, Approver, Constraints;
  }

  // ----- bulk assign -----

  predicate FieldOf(x: SlotChange, input: Input) {
    x.field == if x.step == L1 then input.l1 else input.l2
  }

  /** Two slots for every employee, with the fields of the input. */
  lemma {:induction false} AllSlotsOf(es: seq<int>, input: Input)
    requires Distinct(es)
    ensures DistinctSlots(AllSlots(es, input))
    ensures forall k :: 0 <= k < |AllSlots(es, input)| ==>
              AllSlots(es, input)[k].employee in es && FieldOf(AllSlots(es, input)[k], input)
  {
    if es != [] {
      var last := |es| - 1;
      AllSlotsOf(es[..last], input);
      assert es[last] !in es[..last];
    }
  }

  lemma {:induction false} AllSlotsTouchAll(es: seq<int>, input: Input, j: nat)
    requires j < |es|
    ensures Touches(AllSlots(es, input), es[j], L1) && Touches(AllSlots(es, input), es[j], L2)
  {
    var last := |es| - 1;
    var xs, earlier := AllSlots(es, input), AllSlots(es[..last], input);
    if j < last {
      AllSlotsTouchAll(es[..last], input, j);
      var k :| 0 <= k < |earlier| && earlier[k].employee == es[j] && earlier[k].step == L1;
      var m :| 0 <= m < |earlier| && earlier[m].employee == es[j] && earlier[m].step == L2;
      assert xs[k] == earlier[k] && xs[m] == earlier[m];
    } else {
      assert xs[|earlier|] == Slots(es[j], input)[0] && xs[|earlier| + 1] == Slots(es[j], input)[1];
    }
  }

  lemma BothAssociates(a: Changes, b: Changes, c: Changes)
    ensures Both(Both(a, b), c) == Both(a, Both(b, c))
    ensures Both(Changes([], []), a) == a
  {
  }

  lemma {:induction false} ChangesAppend(t: Table, xs: seq<SlotChange>, ys: seq<SlotChange>)
    ensures ChangesOf(t, xs + ys) == Both(ChangesOf(t, xs), ChangesOf(t, ys))
  {
    if xs == [] {
      assert xs + ys == ys;
      BothAssociates(ChangesOf(t, ys), ChangesOf(t, ys), ChangesOf(t, ys));
    } else {
      ChangesAppend(t, xs[1..], ys);
      assert xs + ys == [xs[0]] + (xs[1..] + ys);
      hide Both, ChangeOf;
      ChangesOfCons(t, xs[0], xs[1..] + ys);
      BothAssociates(ChangeOf(t, xs[0]), ChangesOf(t, xs[1..]), ChangesOf(t, ys));
    }
  }

  lemma {:induction false} OtherBatch(t: Table, xs: seq<SlotChange>, ys: seq<SlotChange>)
    requires forall i, j :: 0 <= i < |xs| && 0 <= j < |ys| ==> !SameSlot(xs[i], ys[j])
    ensures ChangesOf(ApplyEach(t, xs), ys) == ChangesOf(t, ys)
    decreases |xs|
  {
    if xs != [] {
      OtherChanges(t, xs[0], ys);
      OtherBatch(Applied(t, ChangeOf(t, xs[0])), xs[1..], ys);
    }
  }

  /** `setChain` for one employee after another. */
  function SetEach(t: Table, u: Users, es: seq<int>, input: Input): Result<Table, ChainError> {
    if es == [] then Ok(t)
    else
      var earlier := SetEach(t, u, es[..|es| - 1], input);
      if earlier.Err? then earlier else SetChain(earlier.value, u, es[|es| - 1], input)
  }

  predicate Assignable(u: Users, es: seq<int>, l1: int, l2: Option<int>) {
    && Distinct(es) && l1 in u.active && (l2.Some? ==> l2.value in u.active)
    && (forall k :: 0 <= k < |es| ==> es[k] in u.ids && !Chosen(es[k], l1, l2))
  }

  /** `findById` returns every one of them: none is unknown or soft-deleted. */
  predicate AllFound(u: Users, es: seq<int>) {
    forall k :: 0 <= k < |es| ==> es[k] in u.found
  }

  lemma AssignableSlots(u: Users, es: seq<int>, l1: int, l2: Option<int>)
    requires GoodUsers(u) && Assignable(u, es, l1, l2)
    ensures DistinctSlots(AllSlots(es, AssignInput(l1, l2)))
    ensures forall k :: 0 <= k < |AllSlots(es, AssignInput(l1, l2))| ==>
              Allowed(AllSlots(es, AssignInput(l1, l2))[k], u)
  {
    AllSlotsOf(es, AssignInput(l1, l2));
  }

  lemma AssignOneIsBatch(t: Table, u: Users, e: int, l1: int, l2: Option<int>)
    requires Constraints(t, u) && GoodUsers(u) && Assignable(u, [e], l1, l2) && e in u.found
    ensures SetChain(t, u, e, AssignInput(l1, l2)) == Ok(Applied(t, ChangesOf(t, Slots(e, AssignInput(l1, l2)))))
  {
    assert [e][0] == e;
    assert GoodInput(t, u, e, AssignInput(l1, l2));
    SetChainSucceedsExactly(t, u, e, AssignInput(l1, l2));
  }

  /** One transaction over all employees is `setChain` for each of them, in the same order. */
  lemma {:induction false} SetEachIsOneBatch(t: Table, u: Users, es: seq<int>, l1: int, l2: Option<int>)
    requires Constraints(t, u) && GoodUsers(u) && Assignable(u, es, l1, l2) && AllFound(u, es)
    ensures SetEach(t, u, es, AssignInput(l1, l2)) == Ok(Applied(t, ChangesOf(t, AllSlots(es, AssignInput(l1, l2)))))
  {
    var input := AssignInput(l1, l2);
    if es == [] {
      assert Applied(t, Changes([], [])) == t;
    } else {
      var last := |es| - 1;
      var xs, ys := AllSlots(es[..last], input), Slots(es[last], input);
      SetEachIsOneBatch(t, u, es[..last], l1, l2);
      AssignableSlots(u, es[..last], l1, l2);
      BatchKeepsConstraints(t, xs, u);
      BatchIsEach(t, xs);
      LastEmployeeIsNew(es, input);
      OtherBatch(t, xs, ys);
      AssignOneIsBatch(ApplyEach(t, xs), u, es[last], l1, l2);
      ChangesAppend(t, xs, ys);
      hide Applied, ApplyEach, ChangesOf, Both, SetChain, Constraints, Slots;
      AppliedTwice(t, ChangesOf(t, xs), ChangesOf(t, ys));
    }
  }

  lemma {:induction false} SetEachNeedsAllFound(t: Table, u: Users, es: seq<int>, input: Input)
    requires !AllFound(u, es)
    ensures SetEach(t, u, es, input).Err?
  {
    if AllFound(u, es[..|es| - 1]) {
      assert es[|es| - 1] !in u.found;
    } else {
      SetEachNeedsAllFound(t, u, es[..|es| - 1], input);
    }
  }

  lemma LastEmployeeIsNew(es: seq<int>, input: Input)
    requires Distinct(es) && es != []
    ensures var xs, ys := AllSlots(es[..|es| - 1], input), Slots(es[|es| - 1], input);
            forall i, j :: 0 <= i < |xs| && 0 <= j < |ys| ==> !SameSlot(xs[i], ys[j])
  {
    AllSlotsOf(es[..|es| - 1], input);
    assert es[|es| - 1] !in es[..|es| - 1];
  }

  function ToSlot(s: Step, field: Field): int -> SlotChange {
    (e: int) => SlotChange(e, s, field)
  }

  lemma MapAppend<A, B>(f: A -> B, s: seq<A>)
    requires s != []
    ensures Map(f, s) == Map(f, s[..|s| - 1]) + [f(s[|s| - 1])]
  {
  }

  lemma {:induction false} AllSlotsMultiset(es: seq<int>, input: Input)
    ensures multiset(AllSlots(es, input))
            == multiset(Map(ToSlot(L1, input.l1), es)) + multiset(Map(ToSlot(L2, input.l2), es))
  {
    if es != [] {
      var last := |es| - 1;
      AllSlotsMultiset(es[..last], input);
      MapAppend(ToSlot(L1, input.l1), es);
      MapAppend(ToSlot(L2, input.l2), es);
      hide Map, AllSlots;
      AllSlotsUnfold(es, input);
    }
  }

  lemma AllSlotsUnfold(es: seq<int>, input: Input)
    requires es != []
    ensures multiset(AllSlots(es, input))
            == multiset(AllSlots(es[..|es| - 1], input))
               + multiset{ToSlot(L1, input.l1)(es[|es| - 1]), ToSlot(L2, input.l2)(es[|es| - 1])}
  {
  }

  lemma AllSlotsInAnyOrder(es: seq<int>, order: seq<int>, input: Input)
    requires multiset(es) == multiset(order)
    ensures multiset(AllSlots(es, input)) == multiset(AllSlots(order, input))
  {
    AllSlotsMultiset(es, input);
    AllSlotsMultiset(order, input);
    MapPermutation(ToSlot(L1, input.l1), es, order);
    MapPermutation(ToSlot(L2, input.l2), es, order);
  }

  lemma SelectedSlots(u: Users, ids: seq<int>, l1: int, l2: Option<int>)
    ensures DistinctSlots(AllSlots(Unskipped(ids, l1, l2), AssignInput(l1, l2)))
    ensures (l1 in u.active && (l2.Some? ==> l2.value in u.active)
             && forall k :: 0 <= k < |ids| && !Chosen(ids[k], l1, l2) ==> ids[k] in u.ids)
            ==> Assignable(u, Unskipped(ids, l1, l2), l1, l2)
  {
    var es := Unskipped(ids, l1, l2);
    FilterKeepsDistinct((e: int) => !Chosen(e, l1, l2), Dedupe(ids));
    AllSlotsOf(es, AssignInput(l1, l2));
    forall k | 0 <= k < |es|
      ensures es[k] in ids && !Chosen(es[k], l1, l2)
    {
      assert es[k] in es;
    }
  }

  /** An employee that no user row stands for cannot be given a chain. */
  lemma UnknownIsRefused(t: Table, u: Users, ids: seq<int>, l1: int, l2: Option<int>, k: nat)
    requires Constraints(t, u) && k < |ids| && !Chosen(ids[k], l1, l2) && ids[k] !in u.ids
    ensures !Constraints(Applied(t, ChangesOf(t, AllSlots(Unskipped(ids, l1, l2), AssignInput(l1, l2)))), u)
  {
    var after := Applied(t, ChangesOf(t, AllSlots(Unskipped(ids, l1, l2), AssignInput(l1, l2))));
    SelectedSlots(u, ids, l1, l2);
    AssignedSlot(t, ids, l1, l2, ids[k], L1);
    hide Applied, ChangesOf, AllSlots, Unskipped;
    assert Current(after, ids[k], L1).Some?;
  }

  /**
   * It succeeds exactly when somebody is selected, the approvers are active and
   * a user row stands for everybody who is not skipped: soft-deleted ones too,
   * since only the foreign keys look at the employees.
   */
  lemma BulkAssignSucceedsExactly(t: Table, u: Users, ids: seq<int>, l1: int, l2: Option<int>)
    requires Constraints(t, u) && GoodUsers(u)
    ensures BulkAssign(t, u, ids, l1, l2).Ok?
            <==> && ids != [] && l1 in u.active && (l2.Some? ==> l2.value in u.active)
                 && forall k :: 0 <= k < |ids| && !Chosen(ids[k], l1, l2) ==> ids[k] in u.ids
    ensures BulkAssign(t, u, ids, l1, l2).Ok? ==> Assignable(u, Unskipped(ids, l1, l2), l1, l2)
  {
    var es := Unskipped(ids, l1, l2);
    assert ids != [] ==> ids[0] in Dedupe(ids);
    SelectedSlots(u, ids, l1, l2);
    if Assignable(u, es, l1, l2) {
      AssignableSlots(u, es, l1, l2);
      BatchKeepsConstraints(t, AllSlots(es, AssignInput(l1, l2)), u);
    }
    if k :| 0 <= k < |ids| && !Chosen(ids[k], l1, l2) && ids[k] !in u.ids {
      UnknownIsRefused(t, u, ids, l1, l2, k);
    }
    hide Applied, ChangesOf, AllSlots, Unskipped, Constraints, Assignable, Chosen;
  }

  /** The same tables but for the ids of the rows appended to `t`. */
  predicate SameUpToIds(t: Table, a: Table, b: Table) {
    |a| == |b| >= |t| && a[..|t|] == b[..|t|] && multiset(a[|t|..]) == multiset(b[|t|..])
  }

  /**
   * A successful bulk assign is `setChain` for every unskipped employee one by
   * one if and only if `findById` returns all of them: then the table is the same
   * in the same order, and up to the ids of the new rows in any other order.
   * Otherwise the single calls fail while the bulk call has assigned everybody.
   */
  lemma BulkAssignIsSetEachExactly(t: Table, u: Users, ids: seq<int>, l1: int, l2: Option<int>, order: seq<int>)
    requires Constraints(t, u) && GoodUsers(u)
    requires BulkAssign(t, u, ids, l1, l2).Ok? && multiset(order) == multiset(Unskipped(ids, l1, l2))
    ensures SetEach(t, u, order, AssignInput(l1, l2)).Ok? <==> AllFound(u, Unskipped(ids, l1, l2))
    ensures SetEach(t, u, order, AssignInput(l1, l2)).Ok? ==>
              var bulk := BulkAssign(t, u, ids, l1, l2).value.table;
              var each := SetEach(t, u, order, AssignInput(l1, l2)).value;
              SameUpToIds(t, bulk, each) && (order == Unskipped(ids, l1, l2) ==> bulk == each)
  {
    var es := Unskipped(ids, l1, l2);
    BulkAssignSucceedsExactly(t, u, ids, l1, l2);
    AssignableInAnyOrder(u, es, order, l1, l2);
    assert BulkAssign(t, u, ids, l1, l2).value.table == Applied(t, ChangesOf(t, AllSlots(es, AssignInput(l1, l2))));
    hide *;
    if AllFound(u, order) {
      SetEachIsOneBatch(t, u, order, l1, l2);
      OneBatchInAnyOrder(t, es, order, AssignInput(l1, l2));
    } else {
      SetEachNeedsAllFound(t, u, order, AssignInput(l1, l2));
    }
  }

  lemma OneBatchInAnyOrder(t: Table, es: seq<int>, order: seq<int>, input: Input)
    requires multiset(es) == multiset(order)
    ensures SameUpToIds(t, Applied(t, ChangesOf(t, AllSlots(es, input))),
                        Applied(t, ChangesOf(t, AllSlots(order, input))))
  {
    AllSlotsInAnyOrder(es, order, input);
    hide Applied, ChangesOf, AllSlots;
    BatchInAnyOrder(t, AllSlots(es, input), AllSlots(order, input));
  }

  /** A soft-deleted employee shows it: the bulk call gives them a chain, the single call does not find them. */
  lemma SoftDeletedIsAssignedInBulk()
    ensures var u := Users({1, 2}, {2}, {2});
            && GoodUsers(u)
            && BulkAssign([], u, [1], 2, None) == Ok(Assigned([ChainRow(1, L1, 2, false)], 1, []))
            && SetChain([], u, 1, AssignInput(2, None)) == Err(EmployeeNotFound)
  {
    var input := AssignInput(2, None);
    OneUnskipped();
    OneInserted();
    hide Dedupe, Filter, AllSlots, ChangesOf, Applied, CountChanged;
  }

  lemma OneUnskipped()
    ensures Dedupe([1]) == [1] && Unskipped([1], 2, None) == [1] && KeepChosen([1], 2, None) == []
  {
    assert Dedupe([1]) == [1] by {
      assert [1][..0] == [];
    }
    FilterAppend((e: int) => !Chosen(e, 2, None), [], 1);
    FilterAppend((e: int) => Chosen(e, 2, None), [], 1);
    assert [] + [1] == [1];
  }

  lemma OneInserted()
    ensures var input := AssignInput(2, None);
            && Applied([], ChangesOf([], AllSlots([1], input))) == [ChainRow(1, L1, 2, false)]
            && CountChanged([], [1], input) == 1
  {
    var slots := Slots(1, AssignInput(2, None));
    assert AllSlots([1], AssignInput(2, None)) == slots by {
      assert [1][..0] == [];
    }
    assert slots[1..] == [slots[1]] && [slots[1]][1..] == [];
    assert ChangesOf([], slots) == Changes([], [Insert(1, L1, 2)]);
    assert CountChanged([], [1], AssignInput(2, None)) == 1 by {
      assert [1][..0] == [];
    }
  }

  lemma AssignableInAnyOrder(u: Users, es: seq<int>, order: seq<int>, l1: int, l2: Option<int>)
    requires Assignable(u, es, l1, l2) && multiset(es) == multiset(order)
    ensures Assignable(u, order, l1, l2) && (AllFound(u, es) <==> AllFound(u, order))
  {
    DistinctPermutation(es, order);
    forall x
      ensures x in es <==> x in order
    {
      assert x in multiset(es) <==> x in multiset(order);
    }
    assert forall k :: 0 <= k < |es| ==> es[k] in order;
    assert forall k :: 0 <= k < |order| ==> order[k] in es;
  }

  lemma ChosenSlot(ids: seq<int>, l1: int, l2: Option<int>, e: int, s: Step)
    ensures var xs := AllSlots(Unskipped(ids, l1, l2), AssignInput(l1, l2));
            && (Touches(xs, e, s) <==> e in ids && !Chosen(e, l1, l2))
            && (forall k :: 0 <= k < |xs| ==> FieldOf(xs[k], AssignInput(l1, l2)))
  {
    var es, input := Unskipped(ids, l1, l2), AssignInput(l1, l2);
    FilterKeepsDistinct((e: int) => !Chosen(e, l1, l2), Dedupe(ids));
    AllSlotsOf(es, input);
    if e in es {
      var j :| 0 <= j < |es| && es[j] == e;
      AllSlotsTouchAll(es, input, j);
      assert Touches(AllSlots(es, input), e, s);
    }
  }

  function AssignedApprover(t: Table, ids: seq<int>, l1: int, l2: Option<int>, e: int, s: Step): Option<int> {
    if e !in ids || Chosen(e, l1, l2) then Approver(t, e, s)
    else if s == L1 then Some(l1)
    else if l2.Some? then l2
    else Approver(t, e, s)
  }

  lemma AssignedSlot(t: Table, ids: seq<int>, l1: int, l2: Option<int>, e: int, s: Step)
    requires OneActive(t) && DistinctSlots(AllSlots(Unskipped(ids, l1, l2), AssignInput(l1, l2)))
    ensures Approver(Applied(t, ChangesOf(t, AllSlots(Unskipped(ids, l1, l2), AssignInput(l1, l2)))), e, s)
            == AssignedApprover(t, ids, l1, l2, e, s)
  {
    var xs := AllSlots(Unskipped(ids, l1, l2), AssignInput(l1, l2));
    SlotsAfterEach(t, xs);
    BatchIsEach(t, xs);
    ChosenSlot(ids, l1, l2, e, s);
    hide Applied, ApplyEach, ChangesOf, AllSlots, Unskipped, Approver, Chosen, DistinctSlots, OneActive;
    if Touches(xs, e, s) {
      var k :| 0 <= k < |xs| && xs[k].employee == e && xs[k].step == s;
      assert FieldOf(xs[k], AssignInput(l1, l2));
    }
  }

  /** Afterwards every unskipped employee has the chosen approvers and nobody else's chain moved. */
  lemma BulkAssignReaches(t: Table, u: Users, ids: seq<int>, l1: int, l2: Option<int>)
    requires Sound(t, u) && BulkAssign(t, u, ids, l1, l2).Ok?
    ensures var after := BulkAssign(t, u, ids, l1, l2).value.table;
            && Sound(after, u) && Extends(after, t)
            && forall e, s :: Approver(after, e, s) == AssignedApprover(t, ids, l1, l2, e, s)
    ensures var skipped := BulkAssign(t, u, ids, l1, l2).value.skipped;
            Distinct(skipped) && forall e :: e in skipped <==> e in ids && Chosen(e, l1, l2)
  {
    FilterKeepsDistinct((e: int) => Chosen(e, l1, l2), Dedupe(ids));
    var xs := AllSlots(Unskipped(ids, l1, l2), AssignInput(l1, l2));
    SelectedSlots(u, ids, l1, l2);
    BatchExtends(t, ChangesOf(t, xs));
    assert BulkAssign(t, u, ids, l1, l2).value.table == Applied(t, ChangesOf(t, xs));
    hide Applied, ChangesOf, AllSlots, Unskipped, Approver, BulkAssign, DistinctSlots, OneActive;
    forall e, s
      ensures Approver(Applied(t, ChangesOf(t, xs)), e, s) == AssignedApprover(t, ids, l1, l2, e, s)
    {
      AssignedSlot(t, ids, l1, l2, e, s);
    }
  }

  /** An employee counts as changed exactly when some chosen step did not hold its chosen approver yet. */
  lemma ChangedMeansDifferent(t: Table, e: int, l1: int, l2: Option<int>)
    ensures ChangesOf(t, Slots(e, AssignInput(l1, l2))) == Changes([], [])
            <==> Approver(t, e, L1) == Some(l1) && (l2.Some? ==> Approver(t, e, L2) == l2)
  {
    var xs := Slots(e, AssignInput(l1, l2));
    assert ChangesOf(t, xs) == Both(ChangeOf(t, xs[0]), Both(ChangeOf(t, xs[1]), Changes([], []))) by {
      assert xs[1..] == [xs[1]];
      ChangesOfCons(t, xs[1], []);
      assert [xs[1]] + [] == [xs[1]];
    }
  }

  // ----- runs -----

  datatype Op =
    | OpSet(employee: int, input: Input)
    | OpEnd(employee: int, step: Step)
    | OpReassign(from: int, to: int)
    | OpAssign(ids: seq<int>, l1: int, l2: Option<int>)

  /** An operation and the users as it finds them. */
  datatype Event = Event(op: Op, users: Users)

  function Perform(t: Table, event: Event): Table {
    var u := event.users;
    match event.op
    case OpSet(e, input) => var r := SetChain(t, u, e, input); if r.Ok? then r.value else t
    case OpEnd(e, s) => var r := EndStep(t, u, e, s); if r.Ok? then r.value else t
    case OpReassign(from, to) => var r := BulkReassign(t, u, from, to); if r.Ok? then r.value.table else t
    case OpAssign(ids, l1, l2) => var r := BulkAssign(t, u, ids, l1, l2); if r.Ok? then r.value.table else t
  }

  function Run(events: seq<Event>): Table {
    if events == [] then [] else Perform(Run(events[..|events| - 1]), events[|events| - 1])
  }

  /** Users come and go, but a user row a foreign key names is never removed. */
  predicate UsersStay(events: seq<Event>) {
    && (forall k :: 0 <= k < |events| ==> GoodUsers(events[k].users))
    && (forall i, j :: 0 <= i < j < |events| ==> events[i].users.ids <= events[j].users.ids)
  }

  lemma StepKeepsSound(t: Table, event: Event)
    requires Sound(t, event.users) && GoodUsers(event.users)
    ensures Sound(Perform(t, event), event.users) && Extends(Perform(t, event), t)
  {
    var u := event.users;
    match event.op
    case OpSet(e, input) => if SetChain(t, u, e, input).Ok? { SetChainReaches(t, u, e, input); }
    case OpEnd(e, s) => EndStepIsClearing(t, u, e, s);
    case OpReassign(from, to) => if BulkReassign(t, u, from, to).Ok? { BulkReassignMoves(t, u, from, to); }
    case OpAssign(ids, l1, l2) => if BulkAssign(t, u, ids, l1, l2).Ok? { BulkAssignReaches(t, u, ids, l1, l2); }
  }

  /** Whatever is called in whatever order, the table stays sound. */
  lemma {:induction false} RunsKeepChains(events: seq<Event>)
    requires UsersStay(events)
    ensures events != [] ==> Sound(Run(events), events[|events| - 1].users)
  {
    if events != [] {
      var last := |events| - 1;
      RunsKeepChains(events[..last]);
      if last > 0 {
        MoreUsers(Run(events[..last]), events[last - 1].users, events[last].users);
      } else {
        EmptyIsSound(events[0].users);
      }
      hide Sound, Perform;
      StepKeepsSound(Run(events[..last]), events[last]);
    }
  }

  lemma EmptyIsSound(u: Users)
    ensures Sound([], u)
  {
  }

  lemma MoreUsers(t: Table, u: Users, v: Users)
    requires Sound(t, u) && u.ids <= v.ids
    ensures Sound(t, v)
  {
  }

  lemma ExtendsTwice(t: Table, between: Table, after: Table)
    requires Extends(between, t) && Extends(after, between)
    ensures Extends(after, t)
  {
  }

  /** And its history stays in place: no row is ever removed, reopened or rewritten. */
  lemma {:induction false} RunsKeepHistory(events: seq<Event>, k: nat)
    requires UsersStay(events) && k <= |events|
    ensures Extends(Run(events), Run(events[..k]))
  {
    var last := |events| - 1;
    if k <= last {
      RunsKeepHistory(events[..last], k);
      assert events[..last][..k] == events[..k];
      SoundBefore(events);
      hide Sound, GoodUsers, Perform, Extends;
      StepKeepsSound(Run(events[..last]), events[last]);
      ExtendsTwice(Run(events[..k]), Run(events[..last]), Run(events));
    } else {
      assert events[..k] == events;
    }
  }

  lemma SoundBefore(events: seq<Event>)
    requires UsersStay(events) && events != []
    ensures Sound(Run(events[..|events| - 1]), events[|events| - 1].users) && GoodUsers(events[|events| - 1].users)
  {
    var last := |events| - 1;
    RunsKeepChains(events[..last]);
    if last > 0 {
      MoreUsers(Run(events[..last]), events[last - 1].users, events[last].users);
    } else {
      EmptyIsSound(events[0].users);
    }
  }
}
