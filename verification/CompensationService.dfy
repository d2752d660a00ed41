/** The compensation service: its transactions, the audit rows they write, and whole runs of them. */
module CompensationService {
  import opened Prelude
  import opened Calendar
  import opened PayTable
  import opened PayTimeline

  datatype Pay = Pay(salary: int, rate: int, from: Day)

  datatype AuditAction = Created | Updated | Deleted

  datatype Audit = Audit(row: nat, employee: int, action: AuditAction, before: Option<Pay>, after: Option<Pay>)

  /** Both tables a pay change writes. */
  datatype Books = Books(rows: Table, audits: seq<Audit>)

  function PayOf(r: PayRow): Pay {
    Pay(r.salary, r.rate, r.from)
  }

  function CreatedAudit(id: nat, r: PayRow): Audit {
    Audit(id, r.employee, Created, None, Some(PayOf(r)))
  }

  function UpdatedAudit(id: nat, before: PayRow, after: PayRow): Audit {
    Audit(id, before.employee, Updated, Some(PayOf(before)), Some(PayOf(after)))
  }

  function DeletedAudit(id: nat, r: PayRow): Audit {
    Audit(id, r.employee, Deleted, Some(PayOf(r)), None)
  }

  function BookInsert(b: Books, p: SetPay): Result<Books, PayError> {
    var rows := InsertWithin(b.rows, p);
    if rows.Err? then Err(rows.error)
    else Ok(Books(rows.value, b.audits + [CreatedAudit(|b.rows|, rows.value[|b.rows|])]))
  }

  function BookInsertAll(b: Books, items: seq<SetPay>): Result<Books, PayError>
    decreases |items|
  {
    if items == [] then Ok(b)
    else
      var first := BookInsert(b, items[0]);
      if first.Err? then first else BookInsertAll(first.value, items[1..])
  }

  lemma InsertAppendsOne(b: Books, p: SetPay)
    ensures BookInsert(b, p).Ok? ==> |BookInsert(b, p).value.rows| == |b.rows| + 1
  {
  }

  /** The audit rows do not influence the pay rows. */
  lemma {:induction false} BookInsertAllRows(b: Books, items: seq<SetPay>)
    ensures match InsertAll(b.rows, items)
            case Ok(rows) => BookInsertAll(b, items).Ok? && BookInsertAll(b, items).value.rows == rows
            case Err(e) => BookInsertAll(b, items) == Err(e)
    decreases |items|
  {
    if items != [] && BookInsert(b, items[0]).Ok? {
      BookInsertAllRows(BookInsert(b, items[0]).value, items[1..]);
    }
  }

  datatype Change =
    | SetOne(p: SetPay)
    | SetMany(items: seq<SetPay>)
    | CorrectRow(id: nat, patch: Patch)
    | DeleteRow(id: nat)

  function Perform(b: Books, change: Change, today: Day): Result<Books, PayError> {
    match change
    case SetOne(p) =>
      var rows := Create(b.rows, p, today);
      if rows.Err? then Err(rows.error) else BookInsert(b, p)
    case SetMany(items) =>
      var rows := CreateBulk(b.rows, items, today);
      if rows.Err? then Err(rows.error) else BookInsertAll(b, items)
    case CorrectRow(id, patch) =>
      var rows := Correct(b.rows, id, patch, today);
      if rows.Err? then Err(rows.error)
      else Ok(Books(rows.value, b.audits + [UpdatedAudit(id, b.rows[id], rows.value[id])]))
    case DeleteRow(id) =>
      var rows := Delete(b.rows, id);
      if rows.Err? then Err(rows.error)
      else Ok(Books(rows.value, b.audits + [DeletedAudit(id, b.rows[id])]))
  }

  /** Audited or not, a change succeeds exactly when the table's own change does, and leaves the table that does. */
  lemma AuditedChangeIsTheChange(b: Books, change: Change, today: Day)
    ensures var rows := match change
                        case SetOne(p) => Create(b.rows, p, today)
                        case SetMany(items) => CreateBulk(b.rows, items, today)
                        case CorrectRow(id, patch) => Correct(b.rows, id, patch, today)
                        case DeleteRow(id) => Delete(b.rows, id);
            match Perform(b, change, today)
            case Ok(after) => rows == Ok(after.rows)
            case Err(why) => rows == Err(why)
  {
    if change.SetMany? {
      BookInsertAllRows(b, change.items);
    }
  }

  /** The audit row of a single change says who, what, and the pay before and after it, field by field. */
  lemma AuditsSayWhatChanged(b: Books, change: Change, today: Day)
    requires Perform(b, change, today).Ok? && !change.SetMany?
    ensures var (after, n) := (Perform(b, change, today).value, |b.rows|);
            after.audits
            == b.audits
               + match change
                 case SetOne(p) =>
                   assert n < |after.rows|;
                   [Audit(n, p.employee, Created, None, Some(Pay(p.salary, after.rows[n].rate, p.from)))]
                 case CorrectRow(id, _) =>
                   assert id < n && id < |after.rows|;
                   var (was, now) := (b.rows[id], after.rows[id]);
                   [Audit(id, was.employee, Updated, Some(Pay(was.salary, was.rate, was.from)),
                          Some(Pay(now.salary, now.rate, now.from)))]
                 case DeleteRow(id) =>
                   assert id < n;
                   var was := b.rows[id];
                   [Audit(id, was.employee, Deleted, Some(Pay(was.salary, was.rate, was.from)), None)]
                 case _ => []
  {
  }

  class CompensationService {
    var rows: Table
    var audits: seq<Audit>

    function State(): Books
      reads this
    {
      Books(rows, audits)
    }

    /** A write of one row; the table refuses it when a constraint would break. */
    method Save(id: nat, row: PayRow) returns (ok: bool)
      requires id <= |rows|
      modifies this`rows
      ensures var after := if id < |old(rows)| then old(rows)[id := row] else old(rows) + [row];
              ok == Constraints(after) && rows == if ok then after else old(rows)
    {
      var after := if id < |rows| then rows[id := row] else rows + [row];
      ok := Constraints(after);
      if ok {
        rows := after;
      }
    }

    method InsertWithin(p: SetPay) returns (r: Result<nat, PayError>)
      requires Constraints(rows)
      modifies this
      ensures Constraints(rows)
      ensures match BookInsert(old(State()), p)
              case Ok(b) => r == Ok(|old(rows)|) && State() == b
              case Err(e) => r == Err(e) && State() == old(State())
    {
      var rate := RateFromInput(p.salary, p.hourly);
      if rate.Err? {
        return Err(rate.error);
      }
      var id := |rows|;
      var prior := FindActive(rows, p.employee);
      var ok := true;
      if prior.Some? {
        if p.from <= rows[prior.value].from {
          return Err(NotAfterCurrent);
        }
        InsertKeepsConstraints(rows, p);
        ok := Save(prior.value, EndBefore(rows[prior.value], p.from));
        assert ok;
      }
      InsertKeepsConstraints(old(rows), p);
      ok := Save(id, NewRow(p, rate.value));
      assert ok;
      audits := audits + [CreatedAudit(id, rows[id])];
      return Ok(id);
    }

    method Create(p: SetPay, today: Day) returns (r: Result<nat, PayError>)
      requires Constraints(rows)
      modifies this
      ensures Constraints(rows)
      ensures match Perform(old(State()), SetOne(p), today)
              case Ok(b) => r == Ok(|old(rows)|) && State() == b
              case Err(e) => r == Err(e) && State() == old(State())
    {
      if p.from > today {
        return Err(FutureStart);
      }
      r := InsertWithin(p);
    }

    /** All or nothing: the first item that fails rolls the whole batch back. */
    method CreateBulk(items: seq<SetPay>, today: Day) returns (r: Result<seq<nat>, PayError>)
      requires Constraints(rows)
      modifies this
      ensures Constraints(rows)
      ensures match Perform(old(State()), SetMany(items), today)
              case Ok(b) => r == Ok(seq(|items|, k requires 0 <= k < |items| => |old(rows)| + k)) && State() == b
              case Err(e) => r == Err(e) && State() == old(State())
    {
      if !DistinctEmployees(items) {
        return Err(DuplicateEmployee);
      }
      if !NoneInFuture(items, today) {
        return Err(FutureStart);
      }
      BookInsertAllRows(State(), items);
      r := InsertItems(items);
    }

    /** One transaction: item after item, everything undone when one fails. */
    method InsertItems(items: seq<SetPay>) returns (r: Result<seq<nat>, PayError>)
      requires Constraints(rows)
      modifies this
      ensures Constraints(rows)
      ensures match BookInsertAll(old(State()), items)
              case Ok(b) => r == Ok(seq(|items|, k requires 0 <= k < |items| => |old(rows)| + k)) && State() == b
              case Err(e) => r == Err(e) && State() == old(State())
    {
      hide BookInsert, Constraints;
      var savedRows, savedAudits := rows, audits;
      var created: seq<nat> := [];
      for k := 0 to |items|
        invariant Constraints(rows) && |rows| == |old(rows)| + k
        invariant BookInsertAll(old(State()), items) == BookInsertAll(State(), items[k..])
        invariant created == seq(k, j requires 0 <= j < k => |old(rows)| + j)
      {
        assert items[k..][0] == items[k] && items[k..][1..] == items[k + 1..];
        InsertAppendsOne(State(), items[k]);
        var one := InsertWithin(items[k]);
        if one.Err? {
          rows, audits := savedRows, savedAudits;
          return Err(one.error);
        }
        created := created + [one.value];
      }
      return Ok(created);
    }

    method Update(id: nat, patch: Patch, today: Day) returns (r: Result<(), PayError>)
      requires Constraints(rows)
      modifies this
      ensures Constraints(rows)
      ensures match Perform(old(State()), CorrectRow(id, patch), today)
              case Ok(b) => r == Ok(()) && State() == b
              case Err(e) => r == Err(e) && State() == old(State())
    {
      if id >= |rows| || rows[id].deleted {
        return Err(NotFound);
      }
      var existing := rows[id];
      var next := Corrected(existing, patch, today);
      if next.Err? {
        return Err(next.error);
      }
      if Correct(rows, id, patch, today).Ok? {
        CorrectKeepsConstraints(rows, id, patch, today);
      }
      var ok := Save(id, next.value);
      if !ok {
        return Err(RangeViolation);
      }
      audits := audits + [UpdatedAudit(id, existing, rows[id])];
      return Ok(());
    }

    method SoftDelete(id: nat) returns (r: Result<(), PayError>)
      requires Constraints(rows)
      modifies this
      ensures Constraints(rows)
      ensures match Perform(old(State()), DeleteRow(id), 0)
              case Ok(b) => r == Ok(()) && State() == b
              case Err(e) => r == Err(e) && State() == old(State())
    {
      if id >= |rows| || rows[id].deleted {
        return Err(NotFound);
      }
      var existing := rows[id];
      if existing.to.Some? {
        return Err(AlreadyEnded);
      }
      DeleteKeepsConstraints(rows, id);
      var ok := Save(id, existing.(deleted := true));
      assert ok;
      var prior := FindPrevious(rows, existing.employee, existing.from);
      if prior.Some? {
        ok := Save(prior.value, rows[prior.value].(to := None));
        assert ok;
      }
      audits := audits + [DeletedAudit(id, existing)];
      return Ok(());
    }
  }

  // ----- whole runs -----

  /** A change and the business date it happens on. */
  datatype Event = Event(change: Change, today: Day)

  function Step(b: Books, event: Event): Books {
    var done := Perform(b, event.change, event.today);
    if done.Ok? then done.value else b
  }

  function Run(events: seq<Event>): Books {
    if events == [] then Books([], [])
    else Step(Run(events[..|events| - 1]), events[|events| - 1])
  }

  /** The change leaves the start date of the row it corrects alone. */
  predicate LeavesStartAlone(b: Books, change: Change) {
    change.CorrectRow? && change.id < |b.rows| ==>
      change.patch.from.None? || change.patch.from.value == b.rows[change.id].from
  }

  predicate NoStartMoves(events: seq<Event>) {
    forall k :: 0 <= k < |events| ==> LeavesStartAlone(Run(events[..k]), events[k].change)
  }

  lemma StepKeepsTimeline(b: Books, event: Event, e: int)
    requires Timeline(b.rows, e) && LeavesStartAlone(b, event.change)
    ensures Timeline(Step(b, event).rows, e)
  {
    if Perform(b, event.change, event.today).Ok? {
      match event.change
      case SetOne(p) => InsertKeepsTimeline(b.rows, p, e);
      case SetMany(items) =>
        BookInsertAllRows(b, items);
        InsertAllKeepsTimeline(b.rows, items, e);
      case CorrectRow(id, patch) => CorrectKeepsTimeline(b.rows, id, patch, event.today, e);
      case DeleteRow(id) => DeleteKeepsTimeline(b.rows, id, e);
    }
  }

  /** After any run that moves no start date, every employee's rows form a timeline. */
  lemma {:induction false} RunsKeepTimelines(events: seq<Event>, e: int)
    requires NoStartMoves(events)
    ensures Timeline(Run(events).rows, e)
  {
    if events != [] {
      var k := |events| - 1;
      assert forall j :: 0 <= j < k ==> events[..k][..j] == events[..j];
      RunsKeepTimelines(events[..k], e);
      StepKeepsTimeline(Run(events[..k]), events[k], e);
    }
  }

  lemma StepKeepsConstraints(b: Books, event: Event)
    requires Constraints(b.rows)
    ensures Constraints(Step(b, event).rows)
  {
    if Perform(b, event.change, event.today).Ok? {
      match event.change
      case SetOne(p) => InsertKeepsConstraints(b.rows, p);
      case SetMany(items) =>
        BookInsertAllRows(b, items);
        InsertAllKeepsConstraints(b.rows, items);
      case CorrectRow(id, patch) => CorrectKeepsConstraints(b.rows, id, patch, event.today);
      case DeleteRow(id) => DeleteKeepsConstraints(b.rows, id);
    }
  }

  /** After any run at all, moved starts included, no constraint of the table is broken. */
  lemma {:induction false} RunsKeepConstraints(events: seq<Event>)
    ensures Constraints(Run(events).rows)
    ensures var t := Run(events).rows;
            && (forall i :: 0 <= i < |t| ==>
                  t[i].salary >= 0 && t[i].rate >= 0 && (t[i].to.Some? ==> t[i].from <= t[i].to.value))
            && (forall i, j :: 0 <= i < j < |t| && !t[i].deleted && !t[j].deleted && t[i].to.None? && t[j].to.None?
                  ==> t[i].employee != t[j].employee)
  {
    if events != [] {
      RunsKeepConstraints(events[..|events| - 1]);
      StepKeepsConstraints(Run(events[..|events| - 1]), events[|events| - 1]);
    }
  }

  // ----- the audit trail -----

  datatype Replayed = Broken | Showing(pay: Option<Pay>)

  /** Folding one row's trail: every `before` must be what the previous entry left behind. */
  function Replay(audits: seq<Audit>, id: nat): Replayed {
    if audits == [] then Showing(None)
    else
      var earlier, last := Replay(audits[..|audits| - 1], id), audits[|audits| - 1];
      if last.row != id then earlier
      else if earlier == Showing(last.before) then Showing(last.after)
      else Broken
  }

  function CurrentPay(t: Table, id: nat): Option<Pay> {
    if id < |t| && !t[id].deleted then Some(PayOf(t[id])) else None
  }

  ghost predicate TrailsTellTheTable(b: Books) {
    forall id: nat :: Replay(b.audits, id) == Showing(CurrentPay(b.rows, id))
  }

  /** Every rate that is not flagged as overridden is the one derived from its salary. */
  predicate RatesDerived(t: Table) {
    forall i :: 0 <= i < |t| && !t[i].overridden ==> t[i].rate == DeriveRate(t[i].salary)
  }

  /** One audited write: the trail of its row moves on, every other row shows the same pay. */
  lemma AuditedWrite(b: Books, after: Table, a: Audit)
    requires TrailsTellTheTable(b)
    requires CurrentPay(b.rows, a.row) == a.before && CurrentPay(after, a.row) == a.after
    requires forall id: nat :: id != a.row ==> CurrentPay(after, id) == CurrentPay(b.rows, id)
    ensures TrailsTellTheTable(Books(after, b.audits + [a]))
  {
  }

  lemma InsertIsAudited(b: Books, p: SetPay)
    requires TrailsTellTheTable(b) && RatesDerived(b.rows) && BookInsert(b, p).Ok?
    ensures TrailsTellTheTable(BookInsert(b, p).value) && RatesDerived(BookInsert(b, p).value.rows)
  {
  }

  lemma {:induction false} InsertAllIsAudited(b: Books, items: seq<SetPay>)
    requires TrailsTellTheTable(b) && RatesDerived(b.rows) && BookInsertAll(b, items).Ok?
    ensures TrailsTellTheTable(BookInsertAll(b, items).value) && RatesDerived(BookInsertAll(b, items).value.rows)
    decreases |items|
  {
    if items != [] {
      InsertIsAudited(b, items[0]);
      InsertAllIsAudited(BookInsert(b, items[0]).value, items[1..]);
    }
  }

  lemma StepIsAudited(b: Books, event: Event)
    requires TrailsTellTheTable(b) && RatesDerived(b.rows)
    ensures TrailsTellTheTable(Step(b, event)) && RatesDerived(Step(b, event).rows)
  {
    if Perform(b, event.change, event.today).Ok? {
      var after := Step(b, event).rows;
      match event.change
      case SetOne(p) => InsertIsAudited(b, p);
      case SetMany(items) => InsertAllIsAudited(b, items);
      case CorrectRow(id, patch) => AuditedWrite(b, after, UpdatedAudit(id, b.rows[id], after[id]));
      case DeleteRow(id) => AuditedWrite(b, after, DeletedAudit(id, b.rows[id]));
    }
  }

  /**
   * After any run, moved starts included: every row's trail links from entry to
   * entry and ends in the row's current salary, rate and start (or in nothing,
   * when it is deleted), and unflagged rates are the derived ones.
   */
  lemma {:induction false} RunsAreAudited(events: seq<Event>)
    ensures TrailsTellTheTable(Run(events)) && RatesDerived(Run(events).rows)
  {
    if events != [] {
      RunsAreAudited(events[..|events| - 1]);
      StepIsAudited(Run(events[..|events| - 1]), events[|events| - 1]);
    }
  }
}
