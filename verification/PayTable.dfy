/**
 * Effective-dated compensation: the table of pay rows, its lookups and its
 * writes. Salaries are centavos, hourly rates ten-thousandths.
 */
module PayTable {
  import opened Prelude
  import opened Calendar

  datatype PayRow = PayRow(
    employee: int, salary: int, rate: int, overridden: bool, from: Day, to: Option<Day>, deleted: bool)

  /** A row's position is its id. */
  type Table = seq<PayRow>

  datatype PayError =
    | NegativePay | FutureStart | NotAfterCurrent | NotFound | AlreadyEnded | RangeViolation | DuplicateEmployee

  // ----- rates -----

  /** The paid hours of a month in hundredths: 208.67. */
  const MONTHLY_HOURS := 20867

  /** `deriveHourlyRate`: the quotient rounded to the fourth decimal, halves upwards. */
  function DeriveRate(salary: int): int {
    (2 * 10_000 * salary + MONTHLY_HOURS) / (2 * MONTHLY_HOURS)
  }

  /** The derived rate is within half a unit of the fourth decimal of the exact quotient. */
  lemma DerivedWithinHalfUnit(salary: int)
    ensures -MONTHLY_HOURS < 2 * (DeriveRate(salary) * MONTHLY_HOURS - 10_000 * salary) <= MONTHLY_HOURS
  {
  }

  datatype PayRate = PayRate(salary: int, rate: int, overridden: bool)

  /** `PayRate.fromInput`: an explicit rate is kept and flagged, otherwise the rate is derived. */
  function RateFromInput(salary: int, hourly: Option<int>): Result<PayRate, PayError> {
    var rate := if hourly.Some? then hourly.value else DeriveRate(salary);
    if salary < 0 || rate < 0 then Err(NegativePay) else Ok(PayRate(salary, rate, hourly.Some?))
  }

  // ----- lookups -----

  predicate Live(r: PayRow, e: int) {
    r.employee == e && !r.deleted
  }

  predicate Active(r: PayRow, e: int) {
    Live(r, e) && r.to.None?
  }

  predicate OnDate(r: PayRow, e: int, d: Day) {
    Live(r, e) && r.from <= d && (r.to.None? || d <= r.to.value)
  }

  function FindActive(t: Table, e: int): Option<nat> {
    FirstIndex(t, (r: PayRow) => Active(r, e))
  }

  /** The first row of a query ordered by `effective_from`, latest first. */
  function Latest(t: Table, keep: PayRow -> bool): (r: Option<nat>)
    ensures r.Some? ==> r.value < |t| && keep(t[r.value])
                        && forall j :: 0 <= j < |t| && keep(t[j]) ==> t[j].from <= t[r.value].from
    ensures r.None? ==> forall j :: 0 <= j < |t| ==> !keep(t[j])
  {
    if t == [] then None
    else
      var k := |t| - 1;
      var earlier := Latest(t[..k], keep);
      if keep(t[k]) && (earlier.None? || t[earlier.value].from < t[k].from) then Some(k) else earlier
  }

  function RateOnDate(t: Table, e: int, d: Day): Option<nat> {
    Latest(t, (r: PayRow) => OnDate(r, e, d))
  }

  function FindPrevious(t: Table, e: int, before: Day): Option<nat> {
    Latest(t, (r: PayRow) => Live(r, e) && r.from < before)
  }

  // ----- changes -----

  datatype SetPay = SetPay(employee: int, salary: int, hourly: Option<int>, from: Day)

  function NewRow(p: SetPay, rate: PayRate): PayRow {
    PayRow(p.employee, rate.salary, rate.rate, rate.overridden, p.from, None, false)
  }

  function EndBefore(r: PayRow, from: Day): PayRow {
    r.(to := Some(DayBefore(from)))
  }

  /** The shared body of single and bulk create: end the active row the day before, then insert. */
  function InsertWithin(t: Table, p: SetPay): Result<Table, PayError> {
    var rate := RateFromInput(p.salary, p.hourly);
    if rate.Err? then Err(rate.error)
    else
      var prior := FindActive(t, p.employee);
      if prior.None? then Ok(t + [NewRow(p, rate.value)])
      else if p.from <= t[prior.value].from then Err(NotAfterCurrent)
      else Ok(t[prior.value := EndBefore(t[prior.value], p.from)] + [NewRow(p, rate.value)])
  }

  function Create(t: Table, p: SetPay, today: Day): Result<Table, PayError> {
    if p.from > today then Err(FutureStart) else InsertWithin(t, p)
  }

  /** Inside one transaction, item after item. */
  function InsertAll(t: Table, items: seq<SetPay>): Result<Table, PayError>
    decreases |items|
  {
    if items == [] then Ok(t)
    else
      var first := InsertWithin(t, items[0]);
      if first.Err? then first else InsertAll(first.value, items[1..])
  }

  predicate DistinctEmployees(items: seq<SetPay>) {
    forall i, j :: 0 <= i < j < |items| ==> items[i].employee != items[j].employee
  }

  predicate NoneInFuture(items: seq<SetPay>, today: Day) {
    forall i :: 0 <= i < |items| ==> items[i].from <= today
  }

  function CreateBulk(t: Table, items: seq<SetPay>, today: Day): Result<Table, PayError> {
    if !DistinctEmployees(items) then Err(DuplicateEmployee)
    else if !NoneInFuture(items, today) then Err(FutureStart)
    else InsertAll(t, items)
  }

  /** Only an active row can be deleted; the row before it becomes active again. */
  function Delete(t: Table, id: nat): Result<Table, PayError> {
    if id >= |t| || t[id].deleted then Err(NotFound)
    else if t[id].to.Some? then Err(AlreadyEnded)
    else
      var gone := t[id := t[id].(deleted := true)];
      var prior := FindPrevious(gone, t[id].employee, t[id].from);
      Ok(if prior.Some? then gone[prior.value := gone[prior.value].(to := None)] else gone)
  }

  /** `hourly` is absent, null (derive it again) or a rate. */
  datatype Patch = Patch(salary: Option<int>, hourly: Option<Option<int>>, from: Option<Day>)

  /** The row a correction writes; a changed salary or rate rebuilds the rate and its flag. */
  function Corrected(r: PayRow, patch: Patch, today: Day): Result<PayRow, PayError> {
    if patch.from.Some? && patch.from.value > today then Err(FutureStart)
    else
      var row := if patch.from.Some? then r.(from := patch.from.value) else r;
      if patch.salary.None? && patch.hourly.None? then Ok(row)
      else
        var rate := RateFromInput(OrElse(patch.salary, r.salary), OrElse(patch.hourly, None));
        if rate.Err? then Err(rate.error)
        else Ok(row.(salary := rate.value.salary, rate := rate.value.rate, overridden := rate.value.overridden))
  }

  /** The in-place correction; the table refuses a start after the row's own end. */
  function Correct(t: Table, id: nat, patch: Patch, today: Day): Result<Table, PayError> {
    if id >= |t| || t[id].deleted then Err(NotFound)
    else
      var row := Corrected(t[id], patch, today);
      if row.Err? then Err(row.error)
      else if row.value.to.Some? && row.value.to.value < row.value.from then Err(RangeViolation)
      else Ok(t[id := row.value])
  }

  // ----- the constraints of the table -----

  predicate Sane(r: PayRow) {
    r.salary >= 0 && r.rate >= 0 && (r.to.Some? ==> r.from <= r.to.value)
  }

  /** The CHECK constraints and the unique index over active rows. */
  predicate Constraints(t: Table) {
    && (forall i :: 0 <= i < |t| ==> Sane(t[i]))
    && (forall i, j :: 0 <= i < j < |t| && Active(t[i], t[i].employee) ==> !Active(t[j], t[i].employee))
  }

  /** A create never meets a constraint, not even between its two writes. */
  lemma InsertKeepsConstraints(t: Table, p: SetPay)
    requires Constraints(t) && InsertWithin(t, p).Ok?
    ensures Constraints(InsertWithin(t, p).value)
    ensures var prior := FindActive(t, p.employee);
            prior.Some? ==> Constraints(t[prior.value := EndBefore(t[prior.value], p.from)])
  {
  }

  lemma {:induction false} InsertAllKeepsConstraints(t: Table, items: seq<SetPay>)
    requires Constraints(t) && InsertAll(t, items).Ok?
    ensures Constraints(InsertAll(t, items).value)
    decreases |items|
  {
    if items != [] {
      InsertKeepsConstraints(t, items[0]);
      InsertAllKeepsConstraints(InsertWithin(t, items[0]).value, items[1..]);
    }
  }

  /** Nor does a deletion: the unique slot is free before the earlier row takes it again. */
  lemma DeleteKeepsConstraints(t: Table, id: nat)
    requires Constraints(t) && Delete(t, id).Ok?
    ensures Constraints(t[id := t[id].(deleted := true)])
    ensures Constraints(Delete(t, id).value)
  {
  }

  /** A create is refused for negative pay, a future start or one not after the current one, whose row it ends. */
  lemma CreateExactly(t: Table, p: SetPay, today: Day)
    requires Constraints(t)
    ensures var rate := if p.hourly.Some? then p.hourly.value else DeriveRate(p.salary);
            Create(t, p, today).Ok? <==>
              && p.from <= today && 0 <= p.salary && 0 <= rate
              && forall i :: 0 <= i < |t| && t[i].employee == p.employee && !t[i].deleted && t[i].to.None? ==>
                   t[i].from < p.from
    ensures Create(t, p, today).Ok? ==>
              var (after, n) := (Create(t, p, today).value, |t|);
              && |after| == n + 1
              && after[n] == PayRow(p.employee, p.salary,
                                    if p.hourly.Some? then p.hourly.value else DeriveRate(p.salary),
                                    p.hourly.Some?, p.from, None, false)
              && forall i :: 0 <= i < n ==>
                   after[i] == if t[i].employee == p.employee && !t[i].deleted && t[i].to.None?
                               then t[i].(to := Some(p.from - 1)) else t[i]
  {
  }

  /** A correction writes what was sent, field by field, and nothing else. */
  lemma CorrectExactly(t: Table, id: nat, patch: Patch, today: Day)
    ensures Correct(t, id, patch, today).Ok? ==>
              && id < |t|
              && var (after, was) := (Correct(t, id, patch, today).value, t[id]);
                 && |after| == |t| && (forall i :: 0 <= i < |t| && i != id ==> after[i] == t[i])
                 && var r := after[id];
                    && r.employee == was.employee && r.to == was.to && r.deleted == was.deleted
                    && r.from == (if patch.from.Some? then patch.from.value else was.from)
                    && r.salary == (if patch.salary.Some? then patch.salary.value else was.salary)
                    && (patch.hourly.Some? && patch.hourly.value.Some? ==>
                          r.rate == patch.hourly.value.value && r.overridden)
                    && (patch.hourly == Some(None) || (patch.hourly.None? && patch.salary.Some?) ==>
                          r.rate == DeriveRate(r.salary) && !r.overridden)
                    && (patch.hourly.None? && patch.salary.None? ==>
                          r.rate == was.rate && r.overridden == was.overridden)
  {
  }

  /** It succeeds exactly on a live row, with no negative pay and a start neither in the future nor past its end. */
  lemma CorrectSucceedsExactly(t: Table, id: nat, patch: Patch, today: Day)
    ensures Correct(t, id, patch, today).Ok? <==>
              && id < |t| && !t[id].deleted
              && (patch.from.Some? ==> patch.from.value <= today)
              && (t[id].to.Some? ==> (if patch.from.Some? then patch.from.value else t[id].from) <= t[id].to.value)
              && (patch.salary.Some? || patch.hourly.Some? ==>
                    var salary := if patch.salary.Some? then patch.salary.value else t[id].salary;
                    && 0 <= salary
                    && (if patch.hourly.Some? && patch.hourly.value.Some? then 0 <= patch.hourly.value.value
                        else 0 <= DeriveRate(salary)))
  {
  }

  /** The live rows of the employee that start before row `id` does. */
  function Earlier(t: Table, id: nat): set<nat>
    requires id < |t|
  {
    set i | 0 <= i < |t| && t[i].employee == t[id].employee && !t[i].deleted && t[i].from < t[id].from
  }

  lemma PreviousIsLatest(t: Table, id: nat)
    requires id < |t|
    ensures var prior := FindPrevious(t[id := t[id].(deleted := true)], t[id].employee, t[id].from);
            && (prior.None? <==> Earlier(t, id) == {})
            && (prior.Some? ==>
                  && prior.value != id && prior.value in Earlier(t, id)
                  && forall i :: i in Earlier(t, id) ==> t[i].from <= t[prior.value].from)
  {
    var gone := t[id := t[id].(deleted := true)];
    assert forall i :: i in Earlier(t, id) ==> gone[i] == t[i];
  }

  /** A deletion takes only an active row, and reopens the row with the latest earlier start. */
  lemma DeleteExactly(t: Table, id: nat)
    ensures Delete(t, id).Ok? <==> id < |t| && !t[id].deleted && t[id].to.None?
    ensures Delete(t, id).Ok? && Earlier(t, id) == {} ==> Delete(t, id).value == t[id := t[id].(deleted := true)]
    ensures Delete(t, id).Ok? && Earlier(t, id) != {} ==>
              exists p :: p in Earlier(t, id) && (forall i :: i in Earlier(t, id) ==> t[i].from <= t[p].from)
                          && Delete(t, id).value == t[id := t[id].(deleted := true)][p := t[p].(to := None)]
  {
    if id < |t| {
      PreviousIsLatest(t, id);
      hide FindPrevious, Earlier;
    }
  }

  lemma CorrectKeepsConstraints(t: Table, id: nat, patch: Patch, today: Day)
    requires Constraints(t) && Correct(t, id, patch, today).Ok?
    ensures Constraints(Correct(t, id, patch, today).value)
  {
  }
}
