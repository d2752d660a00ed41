/** The approval-chain service itself: its loops, its commits and its rollbacks. */
module ApprovalChainsService {
  import opened Prelude
  import opened ChainTable
  import opened ApprovalChains

  lemma PrefixKeepsConstraints(t: Table, u: Users, n: nat)
    requires n <= |t|
    ensures Constraints(t, u) ==> Constraints(t[..n], u)
  {
  }

  lemma EndedKeepsConstraints(t: Table, u: Users, ends: seq<nat>)
    requires Constraints(t, u)
    ensures Constraints(EndRows(t, ends), u)
  {
  }

  lemma AppendChange(t: Table, xs: seq<SlotChange>, x: SlotChange)
    ensures ChangesOf(t, xs + [x]) == Both(ChangesOf(t, xs), ChangeOf(t, x))
  {
    ChangesAppend(t, xs, [x]);
    assert [x][1..] == [];
    assert ChangesOf(t, [x]) == Both(ChangeOf(t, x), Changes([], []));
  }

  /** One more row of the list, seen by the loop of `bulkReassign`. */
  lemma NextHeld(t: Table, from: int, to: int, k: nat)
    requires OneActive(t) && from != to && k < |Held(t, from)|
    ensures var held := Held(t, from);
            var row, moves := t[held[k]], Moves(t, held[..k], to);
            if row.employee == to
            then Moves(t, held[..k + 1], to) == moves && Skips(t, held[..k + 1], to) == Skips(t, held[..k], to) + [to]
            else
              && Moves(t, held[..k + 1], to) == moves + [SlotChange(row.employee, row.step, Assign(to))]
              && Skips(t, held[..k + 1], to) == Skips(t, held[..k], to)
              && ChangesOf(t, Moves(t, held[..k + 1], to))
                 == Both(ChangesOf(t, moves), Changes([held[k]], [Insert(row.employee, row.step, to)]))
  {
    var held := Held(t, from);
    HeldIsExact(t, from);
    assert held[k] in held;
    assert held[..k + 1][..k] == held[..k];
    CurrentIs(t, held[k]);
    AppendChange(t, Moves(t, held[..k], to), SlotChange(t[held[k]].employee, t[held[k]].step, Assign(to)));
  }

  /** One more employee, seen by the loop of `bulkAssign`. */
  lemma NextUnique(t: Table, unique: seq<int>, l1: int, l2: Option<int>, k: nat)
    requires k < |unique|
    ensures var e, input, es := unique[k], AssignInput(l1, l2), SkipChosen(unique[..k], l1, l2);
            if Chosen(e, l1, l2)
            then
              && KeepChosen(unique[..k + 1], l1, l2) == KeepChosen(unique[..k], l1, l2) + [e]
              && SkipChosen(unique[..k + 1], l1, l2) == es
            else
              && KeepChosen(unique[..k + 1], l1, l2) == KeepChosen(unique[..k], l1, l2)
              && SkipChosen(unique[..k + 1], l1, l2) == es + [e]
              && ChangesOf(t, AllSlots(es + [e], input))
                 == Both(ChangesOf(t, AllSlots(es, input)), ChangesOf(t, Slots(e, input)))
              && CountChanged(t, es + [e], input)
                 == CountChanged(t, es, input) + if ChangesOf(t, Slots(e, input)) == Changes([], []) then 0 else 1
  {
    var e, es := unique[k], SkipChosen(unique[..k], l1, l2);
    FilterAppend((e: int) => Chosen(e, l1, l2), unique[..k], e);
    FilterAppend((e: int) => !Chosen(e, l1, l2), unique[..k], e);
    assert unique[..k + 1] == unique[..k] + [e];
    assert (es + [e])[..|es|] == es;
    ChangesAppend(t, AllSlots(es, AssignInput(l1, l2)), Slots(e, AssignInput(l1, l2)));
  }

  class ApprovalChainsService {
    var rows: Table
    const users: Users

    /**
     * The ends, then the inserts one by one; an insert that breaks a constraint
     * rolls everything back.
     */
    method ApplyStepChanges(c: Changes) returns (ok: bool)
      requires Constraints(rows, users)
      modifies this
      ensures ok == Commit(old(rows), c, users).Ok?
      ensures rows == if ok then Applied(old(rows), c) else old(rows)
    {
      var saved := rows;
      EndedKeepsConstraints(rows, users, c.ends);
      rows := EndRows(rows, c.ends);
      ghost var news := Map(RowOf, c.inserts);
      for k := 0 to |c.inserts|
        invariant rows == EndRows(saved, c.ends) + news[..k] && Constraints(rows, users)
      {
        var after := rows + [RowOf(c.inserts[k])];
        assert after == Applied(saved, c)[..|saved| + k + 1];
        PrefixKeepsConstraints(Applied(saved, c), users, |saved| + k + 1);
        if !Constraints(after, users) {
          rows := saved;
          return false;
        }
        rows := after;
      }
      assert news[..|c.inserts|] == news;
      return true;
    }

    /** One round of the loop over the two steps. */
    method PushStep(c: Changes, x: SlotChange, current: Option<nat>) returns (after: Changes)
      requires current == Current(rows, x.employee, x.step)
      ensures after == Both(c, ChangeOf(rows, x))
    {
      after := c;
      match x.field {
        case Unchanged =>
        case Clear =>
          if current.Some? {
            after := after.(ends := after.ends + [current.value]);
          }
        case Assign(v) =>
          if current.None? || rows[current.value].approver != v {
            if current.Some? {
              after := after.(ends := after.ends + [current.value]);
            }
            after := after.(inserts := after.inserts + [Insert(x.employee, x.step, v)]);
          }
      }
    }

    method ComputeStepChanges(e: int, input: Input) returns (r: Result<Changes, ChainError>)
      ensures r == ApprovalChains.ComputeStepChanges(rows, e, input)
    {
      var l1, l2 := Current(rows, e, L1), Current(rows, e, L2);
      var resultingL1 := Wanted(rows, SlotChange(e, L1, input.l1));
      var resultingL2 := Wanted(rows, SlotChange(e, L2, input.l2));
      if resultingL2.Some? && resultingL1.None? {
        return Err(L2WithoutL1);
      }
      var slots := Slots(e, input);
      var c := Changes([], []);
      for k := 0 to |slots|
        invariant c == ChangesOf(rows, slots[..k])
      {
        AppendChange(rows, slots[..k], slots[k]);
        assert slots[..k + 1] == slots[..k] + [slots[k]];
        c := PushStep(c, slots[k], if slots[k].step == L1 then l1 else l2);
      }
      assert slots[..|slots|] == slots;
      return Ok(c);
    }

    method SetChain(e: int, input: Input) returns (r: Option<ChainError>)
      requires Constraints(rows, users)
      modifies this
      ensures match ApprovalChains.SetChain(old(rows), users, e, input)
              case Ok(after) => r == None && rows == after
              case Err(why) => r == Some(why) && rows == old(rows)
    {
      if e !in users.found {
        return Some(EmployeeNotFound);
      }
      var bad := ApproverError(input.l1, e, users);
      if bad.Some? {
        return bad;
      }
      bad := ApproverError(input.l2, e, users);
      if bad.Some? {
        return bad;
      }
      var changes := ComputeStepChanges(e, input);
      if changes.Err? {
        return Some(changes.error);
      }
      if changes.value != Changes([], []) {
        var ok := ApplyStepChanges(changes.value);
        return if ok then None else Some(Conflict);
      }
      assert Applied(rows, Changes([], [])) == rows;
      return None;
    }

    method EndStep(e: int, s: Step) returns (r: Option<ChainError>)
      requires Constraints(rows, users)
      modifies this
      ensures match ApprovalChains.EndStep(old(rows), users, e, s)
              case Ok(after) => r == None && rows == after
              case Err(why) => r == Some(why) && rows == old(rows)
    {
      var row := Current(rows, e, s);
      if row.None? {
        return Some(NoActiveStep);
      }
      if s == L1 && Current(rows, e, L2).Some? {
        return Some(L2WithoutL1);
      }
      var ok := ApplyStepChanges(Changes([row.value], []));
      return if ok then None else Some(Conflict);
    }

    /** The loop of `bulkReassign`: rows to move and employees to skip. */
    method CollectMoves(held: seq<nat>, from: int, to: int) returns (c: Changes, skipped: seq<int>)
      requires OneActive(rows) && from != to && held == Held(rows, from)
      ensures c == ChangesOf(rows, Moves(rows, held, to)) && |c.inserts| == |Moves(rows, held, to)|
      ensures skipped == Skips(rows, held, to)
    {
      c, skipped := Changes([], []), [];
      for k := 0 to |held|
        invariant c == ChangesOf(rows, Moves(rows, held[..k], to)) && |c.inserts| == |Moves(rows, held[..k], to)|
        invariant skipped == Skips(rows, held[..k], to)
      {
        var row := rows[held[k]];
        NextHeld(rows, from, to, k);
        if row.employee == to {
          skipped := skipped + [row.employee];
        } else {
          c := Changes(c.ends + [held[k]], c.inserts + [Insert(row.employee, row.step, to)]);
        }
      }
      assert held[..|held|] == held;
    }

    method BulkReassign(from: int, to: int) returns (r: Result<(nat, seq<int>), ChainError>)
      requires Constraints(rows, users)
      modifies this
      ensures match ApprovalChains.BulkReassign(old(rows), users, from, to)
              case Ok(done) => r == Ok((done.reassigned, done.skipped)) && rows == done.table
              case Err(why) => r == Err(why) && rows == old(rows)
    {
      if from == to {
        return Err(SameApprover);
      }
      var bad := UserError(to, users);
      if bad.Some? {
        return Err(bad.value);
      }
      var c, skipped := CollectMoves(Held(rows, from), from, to);
      if c != Changes([], []) {
        var ok := ApplyStepChanges(c);
        if !ok {
          return Err(Conflict);
        }
      }
      assert Applied(old(rows), Changes([], [])) == old(rows);
      return Ok((|c.inserts|, skipped));
    }

    /** The loop of `bulkAssign`: what changes for whom, and who is skipped. */
    method CollectAssignments(unique: seq<int>, l1: int, l2: Option<int>)
      returns (c: Changes, changed: nat, skipped: seq<int>)
      ensures c == ChangesOf(rows, AllSlots(SkipChosen(unique, l1, l2), AssignInput(l1, l2)))
      ensures changed == CountChanged(rows, SkipChosen(unique, l1, l2), AssignInput(l1, l2))
      ensures skipped == KeepChosen(unique, l1, l2)
    {
      c, changed, skipped := Changes([], []), 0, [];
      for k := 0 to |unique|
        invariant c == ChangesOf(rows, AllSlots(SkipChosen(unique[..k], l1, l2), AssignInput(l1, l2)))
        invariant changed == CountChanged(rows, SkipChosen(unique[..k], l1, l2), AssignInput(l1, l2))
        invariant skipped == KeepChosen(unique[..k], l1, l2)
      {
        var e := unique[k];
        NextUnique(rows, unique, l1, l2, k);
        if Chosen(e, l1, l2) {
          skipped := skipped + [e];
        } else {
          var change := ComputeStepChanges(e, AssignInput(l1, l2));
          assert change.Ok? && change.value == ChangesOf(rows, Slots(e, AssignInput(l1, l2)));
          if change.value != Changes([], []) {
            changed := changed + 1;
          }
          c := Both(c, change.value);
        }
        hide ChangesOf, AllSlots, SkipChosen, KeepChosen, CountChanged, Slots;
      }
      assert unique[..|unique|] == unique;
    }

    method BulkAssign(ids: seq<int>, l1: int, l2: Option<int>) returns (r: Result<(nat, seq<int>), ChainError>)
      requires Constraints(rows, users)
      modifies this
      ensures match ApprovalChains.BulkAssign(old(rows), users, ids, l1, l2)
              case Ok(done) => r == Ok((done.changed, done.skipped)) && rows == done.table
              case Err(why) => r == Err(why) && rows == old(rows)
    {
      var unique := Dedupe(ids);
      if unique == [] {
        return Err(NoEmployees);
      }
      var bad := UserError(l1, users);
      if bad.Some? {
        return Err(bad.value);
      }
      if l2.Some? {
        bad := UserError(l2.value, users);
        if bad.Some? {
          return Err(bad.value);
        }
      }
      var c, changed, skipped := CollectAssignments(unique, l1, l2);
      if c != Changes([], []) {
        var ok := ApplyStepChanges(c);
        if !ok {
          return Err(Conflict);
        }
      }
      assert Applied(old(rows), Changes([], [])) == old(rows);
      return Ok((changed, skipped));
    }
  }
}
