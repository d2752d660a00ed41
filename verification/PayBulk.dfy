/** Setting pay for several employees at once equals setting it for each of them, in any order. */
module PayBulk {
  import opened Prelude
  import opened Calendar
  import opened PayTable

  /** One create after another, each in its own transaction. */
  function CreateEach(t: Table, items: seq<SetPay>, today: Day): Result<Table, PayError>
    decreases |items|
  {
    if items == [] then Ok(t)
    else
      var first := Create(t, items[0], today);
      if first.Err? then first else CreateEach(first.value, items[1..], today)
  }

  function RowFor(p: SetPay): PayRow {
    PayRow(p.employee, p.salary, if p.hourly.Some? then p.hourly.value else DeriveRate(p.salary), p.hourly.Some?,
           p.from, None, false)
  }

  /** An insert for one employee is invisible to the next insert for another. */
  lemma InsertsAreIndependent(t: Table, p: SetPay, q: SetPay)
    requires InsertWithin(t, p).Ok? && p.employee != q.employee
    ensures var t1 := InsertWithin(t, p).value;
            && FindActive(t1, q.employee) == FindActive(t, q.employee)
            && (InsertWithin(t1, q).Ok? <==> InsertWithin(t, q).Ok?)
  {
    var t1 := InsertWithin(t, p).value;
    assert forall i :: 0 <= i < |t| ==> (Active(t1[i], q.employee) <==> Active(t[i], q.employee));
  }

  /**
   * The table after all items: the new rows are appended in order, the active
   * row of each item's employee ends the day before, and nothing else changes.
   */
  ghost predicate Inserted(t: Table, items: seq<SetPay>, after: Table) {
    && |after| == |t| + |items|
    && after[|t|..] == Map(RowFor, items)
    && EndedRows(t, items, after)
    && KeptRows(t, items, after)
  }

  ghost predicate EndedRows(t: Table, items: seq<SetPay>, after: Table)
    requires |t| <= |after|
  {
    forall k, i :: 0 <= k < |items| && 0 <= i < |t| && FindActive(t, items[k].employee) == Some(i) ==>
      after[i] == EndBefore(t[i], items[k].from)
  }

  ghost predicate KeptRows(t: Table, items: seq<SetPay>, after: Table)
    requires |t| <= |after|
  {
    forall i :: 0 <= i < |t| && (forall k :: 0 <= k < |items| ==> FindActive(t, items[k].employee) != Some(i)) ==>
      after[i] == t[i]
  }

  lemma {:induction false} InsertAllSucceedsExactly(t: Table, items: seq<SetPay>)
    requires DistinctEmployees(items)
    ensures InsertAll(t, items).Ok? <==> forall k :: 0 <= k < |items| ==> InsertWithin(t, items[k]).Ok?
    decreases |items|
  {
    if items != [] && InsertWithin(t, items[0]).Ok? {
      var t1, rest := InsertWithin(t, items[0]).value, items[1..];
      InsertAllSucceedsExactly(t1, rest);
      forall k | 0 <= k < |rest|
        ensures rest[k] == items[k + 1] && (InsertWithin(t1, rest[k]).Ok? <==> InsertWithin(t, items[k + 1]).Ok?)
      {
        InsertsAreIndependent(t, items[0], items[k + 1]);
      }
      assert forall k :: 1 <= k < |items| ==> items[k] == rest[k - 1];
    }
  }

  lemma {:induction false} InsertAllInserts(t: Table, items: seq<SetPay>)
    requires DistinctEmployees(items) && InsertAll(t, items).Ok?
    ensures Inserted(t, items, InsertAll(t, items).value)
    decreases |items|
  {
    if items != [] {
      var t1, rest, after := InsertWithin(t, items[0]).value, items[1..], InsertAll(t, items).value;
      InsertAllInserts(t1, rest);
      forall k | 0 <= k < |rest|
        ensures rest[k] == items[k + 1] && FindActive(t1, rest[k].employee) == FindActive(t, items[k + 1].employee)
      {
        InsertsAreIndependent(t, items[0], items[k + 1]);
      }
      InsertedFirst(t, items, t1, after);
    }
  }

  lemma TailFirst(t: Table, items: seq<SetPay>, t1: Table, after: Table)
    requires items != [] && InsertWithin(t, items[0]) == Ok(t1) && |t1| <= |after|
    requires after[|t|] == t1[|t|] && after[|t1|..] == Map(RowFor, items[1..])
    ensures after[|t|..] == Map(RowFor, items)
  {
    assert t1[|t|] == RowFor(items[0]);
    assert after[|t|..] == [after[|t|]] + after[|t1|..];
  }

  /** The first insert ends the row of its own employee, and nobody else's. */
  lemma FirstEnds(t: Table, p: SetPay, t1: Table, i: nat)
    requires InsertWithin(t, p) == Ok(t1) && i < |t|
    ensures |t1| == |t| + 1
    ensures t1[i] == if FindActive(t, p.employee) == Some(i) then EndBefore(t[i], p.from) else t[i]
  {
  }

  lemma OldRowFirst(t: Table, items: seq<SetPay>, t1: Table, after: Table, i: nat)
    requires items != [] && DistinctEmployees(items) && InsertWithin(t, items[0]) == Ok(t1) && |t1| <= |after|
    requires EndedRows(t1, items[1..], after) && KeptRows(t1, items[1..], after) && i < |t|
    requires forall k :: 0 <= k < |items[1..]| ==>
               FindActive(t1, items[1..][k].employee) == FindActive(t, items[k + 1].employee)
    ensures forall k :: 0 <= k < |items| && FindActive(t, items[k].employee) == Some(i) ==>
              after[i] == EndBefore(t[i], items[k].from)
    ensures (forall k :: 0 <= k < |items| ==> FindActive(t, items[k].employee) != Some(i)) ==> after[i] == t[i]
  {
    var rest := items[1..];
    FirstEnds(t, items[0], t1, i);
    assert forall k :: 0 <= k < |items| && FindActive(t, items[k].employee) == Some(i) ==>
        t[i].employee == items[k].employee;
    hide FindActive, InsertWithin;
    assert forall k :: 1 <= k < |items| ==> items[k] == rest[k - 1];
    if k :| 0 <= k < |rest| && FindActive(t1, rest[k].employee) == Some(i) {
      assert after[i] == EndBefore(t1[i], rest[k].from);
    } else {
      assert after[i] == t1[i];
    }
  }

  lemma InsertedFirst(t: Table, items: seq<SetPay>, t1: Table, after: Table)
    requires items != [] && DistinctEmployees(items) && InsertWithin(t, items[0]) == Ok(t1)
    requires Inserted(t1, items[1..], after)
    requires forall k :: 0 <= k < |items[1..]| ==>
               FindActive(t1, items[1..][k].employee) == FindActive(t, items[k + 1].employee)
    ensures Inserted(t, items, after)
  {
    assert |t1| == |t| + 1;
    NewRowKept(t, items, t1, after);
    TailFirst(t, items, t1, after);
    hide FindActive, InsertWithin, RowFor;
    forall i | 0 <= i < |t|
      ensures forall k :: 0 <= k < |items| && FindActive(t, items[k].employee) == Some(i) ==>
                after[i] == EndBefore(t[i], items[k].from)
      ensures (forall k :: 0 <= k < |items| ==> FindActive(t, items[k].employee) != Some(i)) ==> after[i] == t[i]
    {
      OldRowFirst(t, items, t1, after, i);
    }
  }

  /** The row the first insert appends is not ended by the others. */
  lemma NewRowKept(t: Table, items: seq<SetPay>, t1: Table, after: Table)
    requires items != [] && InsertWithin(t, items[0]) == Ok(t1) && |t| < |t1| <= |after|
    requires KeptRows(t1, items[1..], after)
    requires forall k :: 0 <= k < |items[1..]| ==>
               FindActive(t1, items[1..][k].employee) == FindActive(t, items[k + 1].employee)
    ensures after[|t|] == t1[|t|]
  {
  }

  /** Two answers to the same set of items differ only in the ids of the new rows. */
  lemma InsertedInAnyOrder(t: Table, items: seq<SetPay>, after: Table, order: seq<SetPay>, other: Table)
    requires multiset(items) == multiset(order) && Inserted(t, items, after) && Inserted(t, order, other)
    ensures after[..|t|] == other[..|t|]
    ensures multiset(after[|t|..]) == multiset(other[|t|..])
  {
    MapPermutation(RowFor, items, order);
    forall i | 0 <= i < |t|
      ensures after[i] == other[i]
    {
      if k :| 0 <= k < |items| && FindActive(t, items[k].employee) == Some(i) {
        assert items[k] in multiset(order);
        var m :| 0 <= m < |order| && order[m] == items[k];
        assert other[i] == EndBefore(t[i], order[m].from);
      } else {
        forall m | 0 <= m < |order|
          ensures FindActive(t, order[m].employee) != Some(i)
        {
          assert order[m] in multiset(items);
          var k :| 0 <= k < |items| && items[k] == order[m];
        }
      }
    }
  }

  lemma {:induction false} EachIsAll(t: Table, items: seq<SetPay>, today: Day)
    requires NoneInFuture(items, today)
    ensures CreateEach(t, items, today) == InsertAll(t, items)
    decreases |items|
  {
    if items != [] && InsertWithin(t, items[0]).Ok? {
      EachIsAll(InsertWithin(t, items[0]).value, items[1..], today);
    }
  }

  /** The batch succeeds exactly when no employee appears twice and every item would succeed alone. */
  lemma BulkSucceedsExactly(t: Table, items: seq<SetPay>, today: Day)
    ensures CreateBulk(t, items, today).Ok?
            <==> DistinctEmployees(items) && forall k :: 0 <= k < |items| ==> Create(t, items[k], today).Ok?
  {
    if DistinctEmployees(items) {
      InsertAllSucceedsExactly(t, items);
    }
  }

  /** A successful batch gives, up to the ids of the new rows, the table of single creates in any order. */
  lemma BulkIsSinglesInAnyOrder(t: Table, items: seq<SetPay>, order: seq<SetPay>, today: Day)
    requires CreateBulk(t, items, today).Ok? && multiset(order) == multiset(items)
    ensures var bulk, singles := CreateBulk(t, items, today).value, CreateEach(t, order, today);
            && singles.Ok? && |bulk| == |singles.value| == |t| + |items| && bulk[..|t|] == singles.value[..|t|]
            && multiset(bulk[|t|..]) == multiset(singles.value[|t|..])
  {
    InsertAllInserts(t, items);
    InsertAllSucceedsExactly(t, items);
    DistinctEmployeesInAnyOrder(items, order);
    forall k | 0 <= k < |order|
      ensures order[k].from <= today && InsertWithin(t, order[k]).Ok?
    {
      assert order[k] in multiset(items);
      var j :| 0 <= j < |items| && items[j] == order[k];
    }
    InsertAllSucceedsExactly(t, order);
    InsertAllInserts(t, order);
    assert |order| == |multiset(order)| == |items|;
    EachIsAll(t, order, today);
    InsertedInAnyOrder(t, items, InsertAll(t, items).value, order, InsertAll(t, order).value);
  }

  lemma DistinctEmployeesInAnyOrder(items: seq<SetPay>, order: seq<SetPay>)
    requires DistinctEmployees(items) && multiset(order) == multiset(items)
    ensures DistinctEmployees(order)
  {
    var employee := (p: SetPay) => p.employee;
    MapPermutation(employee, items, order);
    DistinctPermutation(Map(employee, items), Map(employee, order));
    forall i, j | 0 <= i < j < |order|
      ensures order[i].employee != order[j].employee
    {
      assert Map(employee, order)[i] != Map(employee, order)[j];
    }
  }
}
