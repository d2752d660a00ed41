/** An employee's pay rows form a gap-free chain, and what that chain gives the lookups. */
module PayTimeline {
  import opened Prelude
  import opened Calendar
  import opened PayTable

  ghost predicate StartsOn(t: Table, e: int, d: Day) {
    exists j :: 0 <= j < |t| && Live(t[j], e) && t[j].from == d
  }

  ghost predicate HasActive(t: Table, e: int) {
    exists j :: 0 <= j < |t| && Active(t[j], e)
  }

  predicate Ordered(t: Table, e: int) {
    forall i :: 0 <= i < |t| && Live(t[i], e) && t[i].to.Some? ==> t[i].from <= t[i].to.value
  }

  /** Of two live rows, the one that starts first ends before the other starts. */
  predicate NonOverlapping(t: Table, e: int) {
    forall i, j :: 0 <= i < |t| && 0 <= j < |t| && i != j && Live(t[i], e) && Live(t[j], e) ==>
      && t[i].from != t[j].from
      && (t[i].from < t[j].from ==> t[i].to.Some? && t[i].to.value < t[j].from)
  }

  /** A row that ended is continued the next day. */
  ghost predicate GapFree(t: Table, e: int) {
    forall i :: 0 <= i < |t| && Live(t[i], e) && t[i].to.Some? ==> StartsOn(t, e, t[i].to.value + 1)
  }

  ghost predicate EndsActive(t: Table, e: int) {
    forall i :: 0 <= i < |t| && Live(t[i], e) ==> HasActive(t, e)
  }

  /** A gap-free, non-overlapping chain that ends in an active row, or no row at all. */
  ghost predicate Timeline(t: Table, e: int) {
    Ordered(t, e) && NonOverlapping(t, e) && GapFree(t, e) && EndsActive(t, e)
  }

  /** Exactly one row of a non-empty timeline is active, and it started last. */
  lemma ActiveStartsLast(t: Table, e: int, a: nat)
    requires NonOverlapping(t, e) && a < |t| && Active(t[a], e)
    ensures forall i :: 0 <= i < |t| && i != a && Live(t[i], e) ==>
              t[i].from < t[a].from && t[i].to.Some? && t[i].to.value < t[a].from
  {
  }

  // ----- steps that do not touch an employee's dates -----

  predicate SameDates(r: PayRow, s: PayRow) {
    r.employee == s.employee && r.deleted == s.deleted && r.from == s.from && r.to == s.to
  }

  lemma StartsOnKept(t: Table, after: Table, e: int, d: Day)
    requires StartsOn(t, e, d) && |t| <= |after|
    requires forall i :: 0 <= i < |t| && Live(t[i], e) && t[i].from == d ==> Live(after[i], e) && after[i].from == d
    ensures StartsOn(after, e, d)
  {
  }

  lemma SameDatesKeepTimeline(t: Table, after: Table, e: int)
    requires Timeline(t, e) && |t| <= |after|
    requires forall i :: 0 <= i < |t| && (Live(t[i], e) || Live(after[i], e)) ==> SameDates(t[i], after[i])
    requires forall i :: |t| <= i < |after| ==> !Live(after[i], e)
    ensures Timeline(after, e)
  {
    forall i | 0 <= i < |after| && Live(after[i], e) && after[i].to.Some?
      ensures StartsOn(after, e, after[i].to.value + 1)
    {
      assert SameDates(t[i], after[i]);
      StartsOnKept(t, after, e, t[i].to.value + 1);
    }
    forall i | 0 <= i < |after| && Live(after[i], e)
      ensures HasActive(after, e)
    {
      assert SameDates(t[i], after[i]);
      var j :| 0 <= j < |t| && Active(t[j], e);
      assert SameDates(t[j], after[j]) && Active(after[j], e);
    }
  }

  // ----- create -----

  lemma InsertKeepsOrder(t: Table, p: SetPay)
    requires Ordered(t, p.employee) && NonOverlapping(t, p.employee) && EndsActive(t, p.employee)
    requires InsertWithin(t, p).Ok?
    ensures Ordered(InsertWithin(t, p).value, p.employee) && NonOverlapping(InsertWithin(t, p).value, p.employee)
  {
  }

  lemma InsertKeepsContinuity(t: Table, p: SetPay)
    requires GapFree(t, p.employee) && EndsActive(t, p.employee) && InsertWithin(t, p).Ok?
    ensures GapFree(InsertWithin(t, p).value, p.employee) && EndsActive(InsertWithin(t, p).value, p.employee)
  {
    var e, after, n := p.employee, InsertWithin(t, p).value, |t|;
    assert Active(after[n], e) && after[n].from == p.from;
    forall i | 0 <= i < |after| && Live(after[i], e) && after[i].to.Some?
      ensures StartsOn(after, e, after[i].to.value + 1)
    {
      if after[i] == t[i] {
        StartsOnKept(t, after, e, t[i].to.value + 1);
      }
    }
  }

  lemma InsertKeepsTimeline(t: Table, p: SetPay, e: int)
    requires Timeline(t, e) && InsertWithin(t, p).Ok?
    ensures Timeline(InsertWithin(t, p).value, e)
  {
    if e == p.employee {
      InsertKeepsOrder(t, p);
      InsertKeepsContinuity(t, p);
    } else {
      SameDatesKeepTimeline(t, InsertWithin(t, p).value, e);
    }
  }

  lemma {:induction false} InsertAllKeepsTimeline(t: Table, items: seq<SetPay>, e: int)
    requires Timeline(t, e) && InsertAll(t, items).Ok?
    ensures Timeline(InsertAll(t, items).value, e)
    decreases |items|
  {
    if items != [] {
      InsertKeepsTimeline(t, items[0], e);
      InsertAllKeepsTimeline(InsertWithin(t, items[0]).value, items[1..], e);
    }
  }

  // ----- delete -----

  /** The row before a row of the timeline ended the day before it began. */
  lemma PreviousEndsTheDayBefore(t: Table, id: nat)
    requires id < |t| && Live(t[id], t[id].employee) && Timeline(t, t[id].employee)
    requires FindPrevious(t, t[id].employee, t[id].from).Some?
    ensures t[FindPrevious(t, t[id].employee, t[id].from).value].to == Some(DayBefore(t[id].from))
  {
  }

  /** After a deletion the live rows are the earlier ones; only the last of them changed. */
  predicate Reopened(t: Table, after: Table, e: int, last: Option<nat>) {
    && |after| == |t|
    && (forall i :: 0 <= i < |t| && Live(after[i], e) ==> Live(t[i], e) && (last != Some(i) ==> after[i] == t[i]))
    && (last.None? ==> forall i :: 0 <= i < |t| ==> !Live(after[i], e))
    && (last.Some? ==>
          && last.value < |t| && Live(t[last.value], e) && after[last.value] == t[last.value].(to := None)
          && forall i :: 0 <= i < |t| && i != last.value && Live(after[i], e) ==> t[i].from < t[last.value].from)
  }

  lemma DeleteReopensThePrevious(t: Table, id: nat)
    requires Delete(t, id).Ok? && NonOverlapping(t, t[id].employee)
    ensures Reopened(t, Delete(t, id).value, t[id].employee,
                     FindPrevious(t[id := t[id].(deleted := true)], t[id].employee, t[id].from))
  {
  }

  lemma ReopenedKeepsOrder(t: Table, after: Table, e: int, last: Option<nat>)
    requires Reopened(t, after, e, last) && Ordered(t, e) && NonOverlapping(t, e)
    ensures Ordered(after, e) && NonOverlapping(after, e)
  {
  }

  lemma DeleteKeepsContinuity(t: Table, id: nat)
    requires Delete(t, id).Ok? && Timeline(t, t[id].employee)
    ensures GapFree(Delete(t, id).value, t[id].employee) && EndsActive(Delete(t, id).value, t[id].employee)
  {
    var e, after := t[id].employee, Delete(t, id).value;
    var prior := FindPrevious(t[id := t[id].(deleted := true)], e, t[id].from);
    ActiveStartsLast(t, e, id);
    if prior.Some? {
      var k := prior.value;
      assert Active(after[k], e);
      forall i | 0 <= i < |after| && Live(after[i], e) && after[i].to.Some?
        ensures StartsOn(after, e, after[i].to.value + 1)
      {
        assert after[i] == t[i] && i != id && i != k;
        var j :| 0 <= j < |t| && Live(t[j], e) && t[j].from == t[i].to.value + 1;
        assert t[i].from < t[k].from;
        assert j != id by {
          assert t[i].to.value < t[k].from < t[id].from;
        }
        assert Live(after[j], e) && after[j].from == t[j].from;
      }
    } else {
      assert forall i :: 0 <= i < |after| ==> !Live(after[i], e);
    }
  }

  lemma DeleteKeepsTimeline(t: Table, id: nat, e: int)
    requires Delete(t, id).Ok? && Timeline(t, e)
    ensures Timeline(Delete(t, id).value, e)
  {
    if e == t[id].employee {
      DeleteReopensThePrevious(t, id);
      ReopenedKeepsOrder(t, Delete(t, id).value, e, FindPrevious(t[id := t[id].(deleted := true)], e, t[id].from));
      DeleteKeepsContinuity(t, id);
    } else {
      SameDatesKeepTimeline(t, Delete(t, id).value, e);
    }
  }

  // ----- correct -----

  /** A correction that leaves the start alone leaves every timeline alone. */
  lemma CorrectKeepsTimeline(t: Table, id: nat, patch: Patch, today: Day, e: int)
    requires Correct(t, id, patch, today).Ok? && Timeline(t, e)
    requires patch.from.None? || patch.from.value == t[id].from
    ensures Timeline(Correct(t, id, patch, today).value, e)
  {
    SameDatesKeepTimeline(t, Correct(t, id, patch, today).value, e);
  }

  /**
   * A correction may also move a start date, checked only against today and the
   * row's own end. It keeps the timeline exactly when the start does not really
   * move or no row of the employee precedes it.
   */
  lemma MovedStartKeepsTimelineExactly(t: Table, id: nat, start: Day, today: Day)
    requires id < |t| && Timeline(t, t[id].employee)
    requires Correct(t, id, Patch(None, None, Some(start)), today).Ok?
    ensures Timeline(Correct(t, id, Patch(None, None, Some(start)), today).value, t[id].employee)
            <==> start == t[id].from || FindPrevious(t, t[id].employee, t[id].from).None?
  {
    var e := t[id].employee;
    var after := Correct(t, id, Patch(None, None, Some(start)), today).value;
    var previous := FindPrevious(t, e, t[id].from);
    if start == t[id].from {
      assert after == t;
    } else if previous.Some? {
      PreviousEndsTheDayBefore(t, id);
      var k := previous.value;
      assert Live(after[k], e) && after[k] == t[k] && t[k].to.value + 1 == t[id].from;
      NobodyStartsWhereItDid(t, id, start);
      assert !GapFree(after, e);
    } else {
      MovedFirstStart(t, id, start);
    }
  }

  /** Once moved, nobody starts on the old start date. */
  lemma NobodyStartsWhereItDid(t: Table, id: nat, start: Day)
    requires id < |t| && Live(t[id], t[id].employee) && NonOverlapping(t, t[id].employee) && start != t[id].from
    ensures !StartsOn(t[id := t[id].(from := start)], t[id].employee, t[id].from)
  {
  }

  lemma FirstPrecedesAll(t: Table, id: nat)
    requires id < |t| && NonOverlapping(t, t[id].employee) && Live(t[id], t[id].employee)
    requires FindPrevious(t, t[id].employee, t[id].from).None?
    ensures forall i :: 0 <= i < |t| && i != id && Live(t[i], t[id].employee) ==>
              t[id].from < t[i].from && t[id].to.Some? && t[id].to.value < t[i].from
  {
  }

  /** The first row of a timeline may start on any date up to its own end. */
  lemma MovedFirstStart(t: Table, id: nat, start: Day)
    requires id < |t| && Timeline(t, t[id].employee) && Live(t[id], t[id].employee)
    requires FindPrevious(t, t[id].employee, t[id].from).None?
    requires t[id].to.Some? ==> start <= t[id].to.value
    ensures Timeline(t[id := t[id].(from := start)], t[id].employee)
  {
    var e := t[id].employee;
    FirstPrecedesAll(t, id);
    MovedFirstStartOrder(t, id, start);
    MovedFirstStartContinuity(t, id, start);
  }

  lemma MovedFirstStartContinuity(t: Table, id: nat, start: Day)
    requires id < |t| && Ordered(t, t[id].employee) && GapFree(t, t[id].employee) && EndsActive(t, t[id].employee)
    requires Live(t[id], t[id].employee)
    requires forall i :: 0 <= i < |t| && i != id && Live(t[i], t[id].employee) ==> t[id].from < t[i].from
    ensures GapFree(t[id := t[id].(from := start)], t[id].employee)
    ensures EndsActive(t[id := t[id].(from := start)], t[id].employee)
  {
    var e := t[id].employee;
    var after := t[id := t[id].(from := start)];
    forall i | 0 <= i < |after| && Live(after[i], e) && after[i].to.Some?
      ensures StartsOn(after, e, after[i].to.value + 1)
    {
      assert t[id].from <= t[i].from <= t[i].to.value;
      StartsOnKept(t, after, e, t[i].to.value + 1);
    }
    var a :| 0 <= a < |t| && Active(t[a], e);
    assert Active(after[a], e);
  }

  lemma MovedFirstStartOrder(t: Table, id: nat, start: Day)
    requires id < |t| && NonOverlapping(t, t[id].employee) && Ordered(t, t[id].employee)
    requires t[id].to.Some? ==> start <= t[id].to.value
    requires forall i :: 0 <= i < |t| && i != id && Live(t[i], t[id].employee) ==>
               t[id].from < t[i].from && t[id].to.Some? && t[id].to.value < t[i].from
    ensures Ordered(t[id := t[id].(from := start)], t[id].employee)
    ensures NonOverlapping(t[id := t[id].(from := start)], t[id].employee)
  {
  }

  const EXAMPLE: Table := [PayRow(1, 0, 0, false, 0, Some(9), false), PayRow(1, 0, 0, false, 10, None, false)]
  const MOVED: Table := EXAMPLE[1 := EXAMPLE[1].(from := 12)]

  lemma ExampleIsTimeline()
    ensures Timeline(EXAMPLE, 1)
  {
    assert Live(EXAMPLE[1], 1) && EXAMPLE[1].from == 10;
    assert StartsOn(EXAMPLE, 1, 10);
    assert Active(EXAMPLE[1], 1);
    assert HasActive(EXAMPLE, 1);
  }

  lemma ExampleRates()
    ensures RateOnDate(EXAMPLE, 1, 11).Some? && RateOnDate(MOVED, 1, 11).None?
  {
    assert OnDate(EXAMPLE[1], 1, 11);
    assert !OnDate(MOVED[0], 1, 11) && !OnDate(MOVED[1], 1, 11);
  }

  lemma ExampleHasGap()
    ensures !Timeline(MOVED, 1)
  {
    assert Live(MOVED[0], 1) && MOVED[0].to.value + 1 == 10;
    assert MOVED[0].from != 10 && MOVED[1].from != 10;
    assert !StartsOn(MOVED, 1, 10);
  }

  /** The later of two rows, moved from day 10 to day 12: days 10 and 11 have no rate any more. */
  lemma MovedStartExample()
    ensures Timeline(EXAMPLE, 1) && Correct(EXAMPLE, 1, Patch(None, None, Some(12)), 12) == Ok(MOVED)
    ensures !Timeline(MOVED, 1) && RateOnDate(EXAMPLE, 1, 11).Some? && RateOnDate(MOVED, 1, 11).None?
  {
    hide Timeline, RateOnDate;
    ExampleIsTimeline();
    ExampleHasGap();
    ExampleRates();
  }

  // ----- what the timeline gives every lookup -----

  /** The rate on a date is the row with the greatest start not after it, and no other row covers the date. */
  lemma RateIsLatestStart(t: Table, e: int, d: Day)
    requires Timeline(t, e)
    ensures RateOnDate(t, e, d) == Latest(t, (r: PayRow) => Live(r, e) && r.from <= d)
    ensures forall i :: 0 <= i < |t| && OnDate(t[i], e, d) ==> RateOnDate(t, e, d) == Some(i)
  {
  }

  /** The rows the batched query may return: all that match, each once, in any order. */
  ghost predicate AnswersBatch(found: seq<nat>, t: Table, employees: set<int>, d: Day) {
    && Distinct(found)
    && (forall k :: 0 <= k < |found| ==> found[k] < |t|)
    && (forall i :: 0 <= i < |t| ==> (i in found <==> t[i].employee in employees && OnDate(t[i], t[i].employee, d)))
  }

  class CompensationLookups {
    var rows: Table

    /** `findRatesOnDate`: whatever the order of the rows, the map agrees with the single lookup. */
    method FindRatesOnDate(found: seq<nat>, employees: set<int>, d: Day) returns (byEmployee: map<int, nat>)
      requires AnswersBatch(found, rows, employees, d)
      requires forall e :: e in employees ==> Timeline(rows, e)
      ensures forall e :: e in byEmployee <==> e in employees && RateOnDate(rows, e, d).Some?
      ensures forall e :: e in byEmployee ==> RateOnDate(rows, e, d) == Some(byEmployee[e])
    {
      byEmployee := map[];
      for k := 0 to |found|
        invariant forall e :: e in byEmployee ==> e in employees && RateOnDate(rows, e, d) == Some(byEmployee[e])
        invariant forall j :: 0 <= j < k ==> rows[found[j]].employee in byEmployee
      {
        var i := found[k];
        assert i in found;
        var e := rows[i].employee;
        RateIsLatestStart(rows, e, d);
        byEmployee := byEmployee[e := i];
      }
      forall e | e in employees && RateOnDate(rows, e, d).Some?
        ensures e in byEmployee
      {
        var i := RateOnDate(rows, e, d).value;
        assert i in found;
        var k :| 0 <= k < |found| && found[k] == i;
      }
    }
  }

  // ----- deleting what was just created -----

  lemma {:induction false} DeletedRowIsInvisible(t: Table, row: PayRow, e: int, d: Day)
    requires row.deleted
    ensures RateOnDate(t + [row], e, d) == RateOnDate(t, e, d)
  {
  }

  /** After a create, the new row is the active one and the previously active row precedes it. */
  lemma CreatedRowFollowsThePrior(t: Table, p: SetPay, today: Day)
    requires Timeline(t, p.employee) && Create(t, p, today).Ok?
    ensures var created := Create(t, p, today).value;
            && Active(created[|t|], p.employee) && created[|t|].from == p.from
            && FindPrevious(created[|t| := created[|t|].(deleted := true)], p.employee, p.from)
               == FindActive(t, p.employee)
  {
    var e, n := p.employee, |t|;
    var created := Create(t, p, today).value;
    var gone := created[n := created[n].(deleted := true)];
    var prior, previous := FindActive(t, e), FindPrevious(gone, e, p.from);
    if prior.Some? {
      var a := prior.value;
      ActiveStartsLast(t, e, a);
      assert Live(gone[a], e) && gone[a].from == t[a].from < p.from;
      assert forall i :: 0 <= i < |gone| && i != a && Live(gone[i], e) ==> gone[i].from < gone[a].from;
    } else {
      assert forall i :: 0 <= i < n ==> !Live(t[i], e);
    }
  }

  /**
   * Deleting the row a create just inserted gives the table back, plus one
   * deleted row: every employee's rate on every date is what it was before.
   */
  lemma DeleteUndoesCreate(t: Table, p: SetPay, today: Day, e: int, d: Day)
    requires Timeline(t, p.employee) && Create(t, p, today).Ok?
    ensures var undone := Delete(Create(t, p, today).value, |t|);
            && undone.Ok? && |undone.value| == |t| + 1 && undone.value[..|t|] == t && undone.value[|t|].deleted
            && RateOnDate(undone.value, e, d) == RateOnDate(t, e, d)
  {
    CreatedRowFollowsThePrior(t, p, today);
    var undone := Delete(Create(t, p, today).value, |t|).value;
    assert undone[..|t|] == t;
    assert undone == t + [undone[|t|]];
    DeletedRowIsInvisible(t, undone[|t|], e, d);
  }
}
