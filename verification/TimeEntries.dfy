/** The timesheet: punches with a cooldown, admin writes and approved corrections. Times are milliseconds. */
module TimeEntries {
  import opened Prelude
  import opened Calendar

  datatype Source = Manual | Biometric | Admin | Correction

  datatype EntryStatus = Open | Confirmed

  datatype Entry = Entry(
    employee: int, workDate: Day, timeIn: int, timeOut: Option<int>, source: Source, status: EntryStatus, deleted: bool)

  /** A row's position is its id. */
  type Table = seq<Entry>

  datatype EntryError =
    | Cooldown(retryAfterSeconds: int) | InvalidWindow | OpenExists | NotFound | DateTaken | Refused

  const COOLDOWN := 5 * 60_000

  // ----- rows and lookups -----

  predicate ValidWindow(timeIn: int, timeOut: Option<int>) {
    timeOut.Some? ==> timeIn < timeOut.value
  }

  /** `deriveStatus`. */
  function StatusOf(timeOut: Option<int>): EntryStatus {
    if timeOut.None? then Open else Confirmed
  }

  predicate LiveOf(r: Entry, e: int) {
    r.employee == e && !r.deleted
  }

  predicate OpenOf(r: Entry, e: int) {
    LiveOf(r, e) && r.status == Open
  }

  function FindOpen(t: Table, e: int): Option<nat> {
    FirstIndex(t, (r: Entry) => OpenOf(r, e))
  }

  predicate Exists(t: Table, id: nat) {
    id < |t| && !t[id].deleted
  }

  predicate ExistsOnDate(t: Table, e: int, d: Day) {
    exists i :: 0 <= i < |t| && LiveOf(t[i], e) && t[i].workDate == d
  }

  /** `COALESCE(time_out, time_in)`. */
  function EventOf(r: Entry): int {
    if r.timeOut.Some? then r.timeOut.value else r.timeIn
  }

  /** The event of the entry `findLatestForEmployee` returns. */
  function LastEvent(t: Table, e: int): (r: Option<int>)
    ensures r.None? <==> forall i :: 0 <= i < |t| ==> !LiveOf(t[i], e)
    ensures r.Some? ==> forall i :: 0 <= i < |t| && LiveOf(t[i], e) ==> EventOf(t[i]) <= r.value
    ensures r.Some? ==> exists i :: 0 <= i < |t| && LiveOf(t[i], e) && EventOf(t[i]) == r.value
  {
    if t == [] then None
    else
      var last := t[|t| - 1];
      var earlier := LastEvent(t[..|t| - 1], e);
      if !LiveOf(last, e) || (earlier.Some? && earlier.value >= EventOf(last)) then earlier
      else Some(EventOf(last))
  }

  // ----- the table's own guards -----

  /** The CHECK on the window and the unique index over open entries. */
  predicate Constraints(t: Table) {
    && (forall i :: 0 <= i < |t| ==> ValidWindow(t[i].timeIn, t[i].timeOut))
    && (forall i, j :: 0 <= i < j < |t| && OpenOf(t[i], t[i].employee) ==> !OpenOf(t[j], t[i].employee))
  }

  /** The status column always says whether there is a time out. */
  predicate StatusDerived(t: Table) {
    forall i :: 0 <= i < |t| ==> t[i].status == StatusOf(t[i].timeOut)
  }

  predicate Valid(t: Table) {
    Constraints(t) && StatusDerived(t)
  }

  function Written(t: Table, after: Table): Result<Table, EntryError> {
    if Constraints(after) then Ok(after) else Err(Refused)
  }

  // ----- punching -----

  function Ceiling(x: int, n: int): int
    requires n > 0
  {
    (x + n - 1) / n
  }

  /** `assertNotInCooldown`: the seconds to wait, if any. */
  function CooldownLeft(t: Table, e: int, now: int): Option<int> {
    var last := LastEvent(t, e);
    if last.Some? && now - last.value < COOLDOWN
    then Some(Ceiling(COOLDOWN - (now - last.value), 1000))
    else None
  }

  function OpenedAt(e: int, at: int): Entry {
    Entry(e, at / MS_PER_DAY, at, None, Manual, Open, false)
  }

  /** The toggle: the cooldown is checked at `checked`, the punch itself happens at `at`. */
  function Punch(t: Table, e: int, checked: int, at: int): Result<Table, EntryError> {
    var wait := CooldownLeft(t, e, checked);
    if wait.Some? then Err(Cooldown(wait.value))
    else
      var open := FindOpen(t, e);
      if open.None? then Written(t, t + [OpenedAt(e, at)])
      else if at <= t[open.value].timeIn then Err(InvalidWindow)
      else Written(t, t[open.value := t[open.value].(timeOut := Some(at), status := Confirmed)])
  }

  // ----- admin writes -----

  datatype NewEntry = NewEntry(employee: int, workDate: Day, timeIn: int, timeOut: Option<int>, source: Source)

  function RowOf(x: NewEntry): Entry {
    Entry(x.employee, x.workDate, x.timeIn, x.timeOut, x.source, StatusOf(x.timeOut), false)
  }

  function Create(t: Table, x: NewEntry): Result<Table, EntryError> {
    if x.timeOut.None? && FindOpen(t, x.employee).Some? then Err(OpenExists)
    else if !ValidWindow(x.timeIn, x.timeOut) then Err(InvalidWindow)
    else Written(t, t + [RowOf(x)])
  }

  /** `timeOut` is absent, null (clear it) or a time. */
  datatype Patch =
    Patch(workDate: Option<Day>, timeIn: Option<int>, timeOut: Option<Option<int>>, source: Option<Source>)

  function Patched(r: Entry, p: Patch): Entry {
    var timeOut := OrElse(p.timeOut, r.timeOut);
    r.(workDate := OrElse(p.workDate, r.workDate), timeIn := OrElse(p.timeIn, r.timeIn), timeOut := timeOut,
       source := OrElse(p.source, r.source), status := StatusOf(timeOut))
  }

  function Update(t: Table, id: nat, p: Patch): Result<Table, EntryError> {
    if !Exists(t, id) then Err(NotFound)
    else if !ValidWindow(Patched(t[id], p).timeIn, Patched(t[id], p).timeOut) then Err(InvalidWindow)
    else Written(t, t[id := Patched(t[id], p)])
  }

  function SoftDelete(t: Table, id: nat): Result<Table, EntryError> {
    if !Exists(t, id) then Err(NotFound) else Ok(t[id := t[id].(deleted := true)])
  }

  // ----- corrections -----

  datatype Correction =
    CorrectionOf(employee: int, target: Option<nat>, workDate: Day, timeIn: int, timeOut: Option<int>)

  predicate OtherOpen(t: Table, e: int, except: Option<nat>) {
    FindOpen(t, e).Some? && FindOpen(t, e) != except
  }

  function CorrectedRow(r: Entry, c: Correction): Entry {
    r.(workDate := c.workDate, timeIn := c.timeIn, timeOut := c.timeOut, source := Source.Correction,
       status := StatusOf(c.timeOut))
  }

  function NewLog(c: Correction): Entry {
    Entry(c.employee, c.workDate, c.timeIn, c.timeOut, Source.Correction, StatusOf(c.timeOut), false)
  }

  function ApplyCorrection(t: Table, c: Correction): Result<Table, EntryError> {
    if !ValidWindow(c.timeIn, c.timeOut) then Err(InvalidWindow)
    else if c.target.Some? then
      if !Exists(t, c.target.value) then Err(NotFound)
      else if c.timeOut.None? && OtherOpen(t, c.employee, c.target) then Err(OpenExists)
      else Written(t, t[c.target.value := CorrectedRow(t[c.target.value], c)])
    else if ExistsOnDate(t, c.employee, c.workDate) then Err(DateTaken)
    else if c.timeOut.None? && OtherOpen(t, c.employee, None) then Err(OpenExists)
    else Written(t, t + [NewLog(c)])
  }

  // ----- what the cooldown promises -----

  /** Waiting the announced seconds is enough, and one second less is not. */
  lemma RetryAfterIsLeast(t: Table, e: int, now: int)
    requires CooldownLeft(t, e, now).Some?
    ensures var s := CooldownLeft(t, e, now).value;
            && s >= 1 && CooldownLeft(t, e, now + 1000 * s).None?
            && forall fewer :: 0 <= fewer < s ==> CooldownLeft(t, e, now + 1000 * fewer).Some?
  {
  }

  /**
   * Whatever entries admins or corrections wrote: once the guard passes, closing
   * the open entry never fails and neither does opening one.
   */
  lemma PunchSucceedsAfterCooldown(t: Table, e: int, checked: int, at: int)
    requires Valid(t) && checked <= at && CooldownLeft(t, e, checked).None?
    ensures Punch(t, e, checked, at).Ok? && Valid(Punch(t, e, checked, at).value)
    ensures FindOpen(t, e).None? <==> FindOpen(Punch(t, e, checked, at).value, e).Some?
    ensures LastEvent(t, e).Some? ==> at - LastEvent(t, e).value >= COOLDOWN
    ensures var last := LastEvent(Punch(t, e, checked, at).value, e); last.Some? && at <= last.value
  {
    var open := FindOpen(t, e);
    if open.Some? {
      assert EventOf(t[open.value]) == t[open.value].timeIn <= LastEvent(t, e).value;
      var after := t[open.value := t[open.value].(timeOut := Some(at), status := Confirmed)];
      assert EventOf(after[open.value]) == at && LiveOf(after[open.value], e);
    } else {
      var after := t + [OpenedAt(e, at)];
      assert EventOf(after[|t|]) == at && OpenOf(after[|t|], e);
    }
  }

  // ----- what each call does -----

  /** The employee's entry without a time out. */
  predicate Unclosed(t: Table, i: int, e: int) {
    0 <= i < |t| && !t[i].deleted && t[i].employee == e && t[i].timeOut.None?
  }

  lemma OpenIsUnclosed(t: Table, e: int)
    requires Valid(t)
    ensures FindOpen(t, e).Some? ==> Unclosed(t, FindOpen(t, e).value, e)
    ensures forall i :: Unclosed(t, i, e) ==> FindOpen(t, e) == Some(i)
  {
    forall i | Unclosed(t, i, e)
      ensures FindOpen(t, e) == Some(i)
    {
      assert OpenOf(t[i], e);
    }
  }

  /** Every answer of a punch, and the one row it writes. */
  lemma PunchExactly(t: Table, e: int, checked: int, at: int)
    requires Valid(t)
    ensures var (done, last) := (Punch(t, e, checked, at), LastEvent(t, e));
            var waits := last.Some? && checked < last.value + 300_000;
            && ((done.Err? && done.error.Cooldown?) <==> waits)
            && (done == Err(InvalidWindow) <==> !waits && exists i :: Unclosed(t, i, e) && at <= t[i].timeIn)
            && (!waits && (forall i :: !Unclosed(t, i, e)) ==>
                  done == Ok(t + [Entry(e, at / 86_400_000, at, None, Manual, Open, false)]))
            && (forall i :: !waits && Unclosed(t, i, e) && t[i].timeIn < at ==>
                  done == Ok(t[i := t[i].(timeOut := Some(at), status := Confirmed)]))
  {
    OpenIsUnclosed(t, e);
    var open := FindOpen(t, e);
    hide LastEvent, FindOpen;
    if open.Some? && t[open.value].timeIn < at {
      CloseIsAccepted(t, open.value, e, at);
    }
    if open.None? {
      OpenIsAccepted(t, OpenedAt(e, at));
    }
  }

  lemma CloseIsAccepted(t: Table, i: nat, e: int, at: int)
    requires Valid(t) && Unclosed(t, i, e) && t[i].timeIn < at
    ensures Constraints(t[i := t[i].(timeOut := Some(at), status := Confirmed)])
  {
  }

  /** A new row is accepted unless it is a second open entry. */
  lemma OpenIsAccepted(t: Table, r: Entry)
    requires Valid(t) && ValidWindow(r.timeIn, r.timeOut) && !r.deleted && r.status == StatusOf(r.timeOut)
    requires r.timeOut.None? ==> forall i :: !Unclosed(t, i, r.employee)
    ensures Constraints(t + [r])
  {
    var after := t + [r];
    assert forall i :: 0 <= i < |t| ==> after[i] == t[i] && (OpenOf(t[i], r.employee) ==> Unclosed(t, i, r.employee));
    assert after[|t|] == r;
  }

  /** An admin create is refused for a second open entry or a bad window, and appends what was sent otherwise. */
  lemma CreateExactly(t: Table, x: NewEntry)
    requires Valid(t)
    ensures var done := Create(t, x);
            && (done == Err(OpenExists) <==> x.timeOut.None? && exists i :: Unclosed(t, i, x.employee))
            && (done == Err(InvalidWindow) <==> x.timeOut.Some? && x.timeOut.value <= x.timeIn)
            && (done.Ok? <==> done != Err(OpenExists) && done != Err(InvalidWindow))
            && (done.Ok? ==>
                  done.value == t + [Entry(x.employee, x.workDate, x.timeIn, x.timeOut, x.source,
                                           if x.timeOut.None? then Open else Confirmed, false)])
  {
    OpenIsUnclosed(t, x.employee);
    if (x.timeOut.None? ==> FindOpen(t, x.employee).None?) && ValidWindow(x.timeIn, x.timeOut) {
      OpenIsAccepted(t, RowOf(x));
    }
    hide FindOpen, Constraints;
  }

  /** The row an edit leaves: the fields sent, the others as they were, and the status the window gives. */
  function Merged(r: Entry, p: Patch): Entry {
    var timeOut := if p.timeOut.Some? then p.timeOut.value else r.timeOut;
    Entry(r.employee, if p.workDate.Some? then p.workDate.value else r.workDate,
          if p.timeIn.Some? then p.timeIn.value else r.timeIn, timeOut,
          if p.source.Some? then p.source.value else r.source, if timeOut.None? then Open else Confirmed, r.deleted)
  }

  lemma UpdateExactly(t: Table, id: nat, p: Patch)
    requires Valid(t)
    ensures var done := Update(t, id, p);
            if id >= |t| || t[id].deleted then done == Err(NotFound)
            else
              var row := Merged(t[id], p);
              && (done == Err(InvalidWindow) <==> row.timeOut.Some? && row.timeOut.value <= row.timeIn)
              && (done == Err(Refused) <==>
                    row.timeOut.None? && exists i :: i != id && Unclosed(t, i, row.employee))
              && (done.Ok? <==> done != Err(InvalidWindow) && done != Err(Refused))
              && (done.Ok? ==> done.value == t[id := row])
  {
    if id < |t| && !t[id].deleted {
      assert Patched(t[id], p) == Merged(t[id], p);
      ReplaceIsAccepted(t, id, Merged(t[id], p));
      hide Constraints;
    }
  }

  /** A rewritten row is accepted unless its window is bad or it is a second open entry. */
  lemma ReplaceIsAccepted(t: Table, id: nat, row: Entry)
    requires id < |t| && Valid(t) && !t[id].deleted && !row.deleted
    requires row.employee == t[id].employee && row.status == StatusOf(row.timeOut)
    ensures Constraints(t[id := row]) <==>
              && ValidWindow(row.timeIn, row.timeOut)
              && (row.timeOut.None? ==> forall i :: i != id ==> !Unclosed(t, i, row.employee))
  {
    var after := t[id := row];
    assert after[id] == row && forall i :: 0 <= i < |t| && i != id ==> after[i] == t[i];
    assert forall i :: 0 <= i < |t| ==> (OpenOf(t[i], row.employee) <==> Unclosed(t, i, row.employee));
    if Constraints(after) && row.timeOut.None? {
      forall i | i != id
        ensures !Unclosed(t, i, row.employee)
      {
        if 0 <= i < |t| {
          assert OpenOf(after[id], row.employee) && (OpenOf(after[i], row.employee) <==> OpenOf(t[i], row.employee));
        }
      }
    }
  }

  lemma DeleteExactly(t: Table, id: nat)
    ensures SoftDelete(t, id)
            == if id < |t| && !t[id].deleted then Ok(t[id := t[id].(deleted := true)]) else Err(NotFound)
  {
  }

  /** A target is an entry of the correction's own employee, as its submission checked. */
  predicate OwnTarget(t: Table, c: Correction) {
    c.target.Some? && c.target.value < |t| ==> t[c.target.value].employee == c.employee
  }

  /** Every answer to an approved correction, in the order of its guards, and what it writes. */
  lemma CorrectionExactly(t: Table, c: Correction)
    requires Valid(t) && OwnTarget(t, c)
    ensures var done := ApplyCorrection(t, c);
            var status := if c.timeOut.None? then Open else Confirmed;
            var bad := c.timeOut.Some? && c.timeOut.value <= c.timeIn;
            var gone := c.target.Some? && (c.target.value >= |t| || t[c.target.value].deleted);
            var taken := c.target.None? && exists i :: 0 <= i < |t| && !t[i].deleted && t[i].employee == c.employee
                                                       && t[i].workDate == c.workDate;
            var second := c.timeOut.None? && exists i :: Unclosed(t, i, c.employee) && c.target != Some(i);
            && (done == Err(InvalidWindow) <==> bad)
            && (done == Err(NotFound) <==> !bad && gone)
            && (done == Err(DateTaken) <==> !bad && taken)
            && (done == Err(OpenExists) <==> !bad && !gone && !taken && second)
            && (done.Ok? <==> !bad && !gone && !taken && !second)
            && (done.Ok? && c.target.Some? ==>
                  done.value == t[c.target.value := Entry(c.employee, c.workDate, c.timeIn, c.timeOut,
                                                          Source.Correction, status, false)])
            && (done.Ok? && c.target.None? ==>
                  done.value == t + [Entry(c.employee, c.workDate, c.timeIn, c.timeOut, Source.Correction, status,
                                           false)])
  {
    OpenIsUnclosed(t, c.employee);
    if c.target.Some? && Exists(t, c.target.value) {
      ReplaceIsAccepted(t, c.target.value, CorrectedRow(t[c.target.value], c));
    }
    if c.target.None? && ValidWindow(c.timeIn, c.timeOut) && (c.timeOut.None? ==> FindOpen(t, c.employee).None?) {
      OpenIsAccepted(t, NewLog(c));
    }
    hide FindOpen, Constraints;
  }

  // ----- runs -----

  datatype Call =
    | CallPunch(employee: int, checked: int, at: int)
    | CallCreate(entry: NewEntry)
    | CallUpdate(id: nat, patch: Patch)
    | CallDelete(id: nat)
    | CallCorrection(correction: Correction)
    | CallTick(now: int)

  /** A successful self-punch. */
  datatype Punched = Punched(employee: int, opening: bool, at: int)

  /** The timesheet, the self-punches so far and a clock that never runs back. */
  datatype World = World(rows: Table, punches: seq<Punched>, clock: int)

  /** The call as the table sees it; time passing changes nothing. */
  function Perform(t: Table, call: Call): Result<Table, EntryError> {
    match call
    case CallPunch(e, checked, at) => Punch(t, e, checked, at)
    case CallCreate(x) => Create(t, x)
    case CallUpdate(id, p) => Update(t, id, p)
    case CallDelete(id) => SoftDelete(t, id)
    case CallCorrection(c) => ApplyCorrection(t, c)
    case CallTick(_) => Ok(t)
  }

  predicate Timely(w: World, call: Call) {
    match call
    case CallPunch(_, checked, at) => w.clock <= checked <= at
    case CallTick(now) => w.clock <= now
    case _ => true
  }

  function Step(w: World, call: Call): World {
    var done := Perform(w.rows, call);
    if !Timely(w, call) then w
    else if call.CallTick? then w.(clock := call.now)
    else if call.CallPunch? && done.Err? then w.(clock := call.checked)
    else if call.CallPunch? then
      World(done.value, w.punches + [Punched(call.employee, FindOpen(w.rows, call.employee).None?, call.at)], call.at)
    else if done.Err? then w
    else w.(rows := done.value)
  }

  function Run(w: World, calls: seq<Call>): World {
    if calls == [] then w else Step(Run(w, calls[..|calls| - 1]), calls[|calls| - 1])
  }

  lemma PerformKeepsValid(t: Table, call: Call)
    requires Valid(t) && (call.CallPunch? ==> call.checked <= call.at) && Perform(t, call).Ok?
    ensures Valid(Perform(t, call).value)
  {
  }

  lemma StepKeepsValid(w: World, call: Call)
    requires Valid(w.rows)
    ensures Valid(Step(w, call).rows)
  {
    if Timely(w, call) && Perform(w.rows, call).Ok? {
      PerformKeepsValid(w.rows, call);
    }
  }

  /** Whatever is called: every window valid, every status derived, at most one open entry each. */
  lemma {:induction false} RunsKeepValid(w: World, calls: seq<Call>)
    requires Valid(w.rows)
    ensures Valid(Run(w, calls).rows)
  {
    if calls != [] {
      RunsKeepValid(w, calls[..|calls| - 1]);
      StepKeepsValid(Run(w, calls[..|calls| - 1]), calls[|calls| - 1]);
    }
  }

  function PunchesOf(punches: seq<Punched>, e: int): seq<Punched> {
    Filter((p: Punched) => p.employee == e, punches)
  }

  lemma PunchesOfAppend(punches: seq<Punched>, next: Punched, e: int)
    ensures PunchesOf(punches + [next], e) == PunchesOf(punches, e) + if next.employee == e then [next] else []
  {
    FilterAppend((p: Punched) => p.employee == e, punches, next);
  }

  /** Open, close, open, ... with at least the cooldown in between. */
  predicate AlternateWithPauses(mine: seq<Punched>) {
    && (forall k :: 0 <= k < |mine| ==> mine[k].opening == (k % 2 == 0))
    && (forall k :: 1 <= k < |mine| ==> mine[k].at - mine[k - 1].at >= COOLDOWN)
  }

  /** The last event is no guard for the pause after the last punch: too early, or gone. */
  predicate PauseUnguarded(t: Table, mine: seq<Punched>, e: int, clock: int) {
    && mine != [] && clock - mine[|mine| - 1].at < COOLDOWN
    && (LastEvent(t, e).None? || LastEvent(t, e).value < mine[|mine| - 1].at)
  }

  /** The table remembers the punches: an entry is open exactly after an opening one, and the pause is guarded. */
  predicate Reflected(t: Table, mine: seq<Punched>, e: int, clock: int) {
    FindOpen(t, e).Some? == (|mine| % 2 == 1) && !PauseUnguarded(t, mine, e, clock)
  }

  /** The next punch continues the alternation. */
  lemma NextPunch(mine: seq<Punched>, next: Punched)
    requires AlternateWithPauses(mine) && next.opening == (|mine| % 2 == 0)
    requires mine != [] ==> next.at - mine[|mine| - 1].at >= COOLDOWN
    ensures AlternateWithPauses(mine + [next])
  {
  }

  /** Or breaks it. */
  lemma BrokenByNext(mine: seq<Punched>, next: Punched)
    requires next.opening != (|mine| % 2 == 0) || (mine != [] && next.at - mine[|mine| - 1].at < COOLDOWN)
    ensures !AlternateWithPauses(mine + [next])
  {
    var all := mine + [next];
    assert all[|mine|] == next && (mine != [] ==> all[|mine| - 1] == mine[|mine| - 1]);
  }

  /** The employee's entries of `t` are in `after`, at their places. */
  predicate Within(t: Table, after: Table, e: int) {
    forall i :: 0 <= i < |t| && LiveOf(t[i], e) ==> i < |after| && after[i] == t[i]
  }

  lemma LastEventWithin(t: Table, after: Table, e: int)
    requires Within(t, after, e) && LastEvent(t, e).Some?
    ensures LastEvent(after, e).Some? && LastEvent(t, e).value <= LastEvent(after, e).value
  {
    var i :| 0 <= i < |t| && LiveOf(t[i], e) && EventOf(t[i]) == LastEvent(t, e).value;
    assert after[i] == t[i];
  }

  lemma FirstOpenWithin(t: Table, after: Table, e: int)
    requires Within(t, after, e) && Within(after, t, e)
    ensures FindOpen(after, e) == FindOpen(t, e)
  {
    hide LastEvent;
    if FindOpen(t, e).Some? {
      assert after[FindOpen(t, e).value] == t[FindOpen(t, e).value];
    }
    if FindOpen(after, e).Some? {
      assert t[FindOpen(after, e).value] == after[FindOpen(after, e).value];
    }
  }

  lemma UntouchedEmployee(t: Table, after: Table, e: int)
    requires Within(t, after, e) && Within(after, t, e)
    ensures FindOpen(after, e) == FindOpen(t, e) && LastEvent(after, e) == LastEvent(t, e)
  {
    FirstOpenWithin(t, after, e);
    if LastEvent(t, e).Some? {
      LastEventWithin(t, after, e);
    }
    if LastEvent(after, e).Some? {
      LastEventWithin(after, t, e);
    }
  }

  /** Somebody else's punch. */
  lemma OtherPunch(t: Table, e: int, other: int, checked: int, at: int)
    requires e != other && Punch(t, other, checked, at).Ok?
    ensures var after := Punch(t, other, checked, at).value;
            FindOpen(after, e) == FindOpen(t, e) && LastEvent(after, e) == LastEvent(t, e)
  {
    UntouchedEmployee(t, Punch(t, other, checked, at).value, e);
  }

  ghost predicate OnTrack(w: World, e: int) {
    && Valid(w.rows)
    && AlternateWithPauses(PunchesOf(w.punches, e))
    && Reflected(w.rows, PunchesOf(w.punches, e), e, w.clock)
  }

  /** A clean start: no punch so far and nothing open. */
  lemma StartsOnTrack(t: Table, e: int, clock: int)
    requires Valid(t) && FindOpen(t, e).None?
    ensures OnTrack(World(t, [], clock), e)
  {
  }

  lemma SuccessfulPunch(w: World, e: int, checked: int, at: int)
    requires Valid(w.rows) && w.clock <= checked <= at && CooldownLeft(w.rows, e, checked).None?
    ensures var after := Step(w, CallPunch(e, checked, at));
            && after.rows == Punch(w.rows, e, checked, at).value && after.clock == at
            && PunchesOf(after.punches, e) == PunchesOf(w.punches, e) + [Punched(e, FindOpen(w.rows, e).None?, at)]
  {
    PunchSucceedsAfterCooldown(w.rows, e, checked, at);
    PunchesOfAppend(w.punches, Punched(e, FindOpen(w.rows, e).None?, at), e);
  }

  /** The cooldown guard enforces the pause wherever the last event guards it. */
  lemma PausedLongEnough(t: Table, mine: seq<Punched>, e: int, clock: int, checked: int)
    requires !PauseUnguarded(t, mine, e, clock) && clock <= checked && CooldownLeft(t, e, checked).None?
    ensures mine != [] ==> checked - mine[|mine| - 1].at >= COOLDOWN
  {
  }

  lemma ReflectsNext(after: Table, mine: seq<Punched>, next: Punched, clock: int)
    requires next.opening == (|mine| % 2 == 0) && FindOpen(after, next.employee).Some? == next.opening
    requires LastEvent(after, next.employee).Some? && next.at <= LastEvent(after, next.employee).value
    ensures Reflected(after, mine + [next], next.employee, clock)
  {
    hide FindOpen, LastEvent;
  }

  lemma PunchIsReflected(t: Table, mine: seq<Punched>, e: int, checked: int, at: int)
    requires Valid(t) && checked <= at && CooldownLeft(t, e, checked).None?
    requires FindOpen(t, e).Some? == (|mine| % 2 == 1)
    ensures Reflected(Punch(t, e, checked, at).value, mine + [Punched(e, FindOpen(t, e).None?, at)], e, at)
  {
    PunchSucceedsAfterCooldown(t, e, checked, at);
    hide Reflected, Punch, FindOpen, LastEvent, Valid, CooldownLeft;
    ReflectsNext(Punch(t, e, checked, at).value, mine, Punched(e, FindOpen(t, e).None?, at), at);
  }

  lemma PunchStaysOnTrack(w: World, e: int, checked: int, at: int)
    requires OnTrack(w, e) && w.clock <= checked <= at && CooldownLeft(w.rows, e, checked).None?
    ensures OnTrack(Step(w, CallPunch(e, checked, at)), e)
  {
    var mine, next := PunchesOf(w.punches, e), Punched(e, FindOpen(w.rows, e).None?, at);
    SuccessfulPunch(w, e, checked, at);
    PunchSucceedsAfterCooldown(w.rows, e, checked, at);
    PausedLongEnough(w.rows, mine, e, w.clock, checked);
    PunchIsReflected(w.rows, mine, e, checked, at);
    assert next.opening == (|mine| % 2 == 0);
    hide *;
    NextPunch(mine, next);
    TrackedBy(Step(w, CallPunch(e, checked, at)), e);
  }

  lemma TrackedBy(w: World, e: int)
    requires Valid(w.rows) && AlternateWithPauses(PunchesOf(w.punches, e))
    requires Reflected(w.rows, PunchesOf(w.punches, e), e, w.clock)
    ensures OnTrack(w, e)
  {
  }

  lemma OthersStayOnTrack(w: World, e: int, call: Call)
    requires OnTrack(w, e) && (call.CallTick? || (call.CallPunch? && call.employee != e))
    ensures OnTrack(Step(w, call), e)
  {
    var after := Step(w, call);
    StepKeepsValid(w, call);
    if call.CallPunch? && Timely(w, call) && Perform(w.rows, call).Ok? {
      OtherPunch(w.rows, e, call.employee, call.checked, call.at);
      PunchesOfAppend(w.punches, Punched(call.employee, FindOpen(w.rows, call.employee).None?, call.at), e);
    }
    assert FindOpen(after.rows, e) == FindOpen(w.rows, e) && LastEvent(after.rows, e) == LastEvent(w.rows, e);
    assert PunchesOf(after.punches, e) == PunchesOf(w.punches, e) && w.clock <= after.clock;
    hide Step, Punch, FindOpen, LastEvent, Valid, PunchesOf, AlternateWithPauses;
  }

  lemma PunchesStayOnTrack(w: World, e: int, call: Call)
    requires OnTrack(w, e) && (call.CallPunch? || call.CallTick?)
    ensures OnTrack(Step(w, call), e)
  {
    if call.CallTick? || call.employee != e {
      OthersStayOnTrack(w, e, call);
    } else if Timely(w, call) {
      if CooldownLeft(w.rows, e, call.checked).None? {
        PunchStaysOnTrack(w, e, call.checked, call.at);
      }
    }
  }

  /**
   * The guard of an admin write or correction against an employee's punches: it
   * opens, closes or deletes the open entry, or, within five minutes of the last
   * punch, it takes the last event back behind that punch.
   */
  predicate Disturbs(t: Table, after: Table, mine: seq<Punched>, e: int, clock: int) {
    FindOpen(after, e).Some? != FindOpen(t, e).Some? || PauseUnguarded(after, mine, e, clock)
  }

  predicate Undisturbed(w: World, calls: seq<Call>, e: int) {
    forall k :: 0 <= k < |calls| && !calls[k].CallPunch? && !calls[k].CallTick? ==>
      var before := Run(w, calls[..k]);
      !Disturbs(before.rows, Step(before, calls[k]).rows, PunchesOf(before.punches, e), e, before.clock)
  }

  /** `row` in the place of entry `id` opens or closes it, or leaves no event from the last punch on. */
  predicate RewriteDisturbs(t: Table, id: nat, row: Entry, mine: seq<Punched>, e: int, clock: int)
    requires id < |t|
  {
    t[id].employee == e && LiveOf(t[id], e)
    && (OpenOf(t[id], e) != OpenOf(row, e)
        || (&& mine != [] && clock - mine[|mine| - 1].at < COOLDOWN
            && (LiveOf(row, e) ==> EventOf(row) < mine[|mine| - 1].at)
            && forall j :: 0 <= j < |t| && j != id && LiveOf(t[j], e) ==> EventOf(t[j]) < mine[|mine| - 1].at))
  }

  /** The same guard before the write, per kind of write. */
  predicate WillDisturb(t: Table, call: Call, mine: seq<Punched>, e: int, clock: int)
    requires Perform(t, call).Ok?
  {
    match call
    case CallCreate(x) => x.employee == e && x.timeOut.None?
    case CallUpdate(id, p) => RewriteDisturbs(t, id, Patched(t[id], p), mine, e, clock)
    case CallDelete(id) => RewriteDisturbs(t, id, t[id].(deleted := true), mine, e, clock)
    case CallCorrection(c) =>
      if c.target.Some? then RewriteDisturbs(t, c.target.value, CorrectedRow(t[c.target.value], c), mine, e, clock)
      else c.employee == e && c.timeOut.None?
    case _ => false
  }

  lemma RewriteDisturbsExactly(t: Table, id: nat, row: Entry, mine: seq<Punched>, e: int, clock: int)
    requires Exists(t, id) && Valid(t) && Valid(t[id := row]) && row.employee == t[id].employee
    requires Reflected(t, mine, e, clock)
    ensures Disturbs(t, t[id := row], mine, e, clock) <==> RewriteDisturbs(t, id, row, mine, e, clock)
  {
    var after := t[id := row];
    if t[id].employee != e {
      UntouchedEmployee(t, after, e);
    } else {
      RewriteFindsOpen(t, id, row, e);
      RewriteLastEvent(t, id, row, e, if mine == [] then 0 else mine[|mine| - 1].at);
    }
  }

  /** With at most one open entry, finding one changes exactly when the row itself opens or closes. */
  lemma RewriteFindsOpen(t: Table, id: nat, row: Entry, e: int)
    requires Exists(t, id) && Valid(t) && Valid(t[id := row]) && row.employee == t[id].employee == e
    ensures FindOpen(t[id := row], e).Some? == FindOpen(t, e).Some? <==> OpenOf(t[id], e) == OpenOf(row, e)
  {
    var after := t[id := row];
    hide LastEvent;
    if j :| 0 <= j < |t| && j != id && OpenOf(t[j], e) {
      assert OpenOf(after[j], e);
      assert FindOpen(t, e).Some? && FindOpen(after, e).Some?;
      NoSecondOpen(t, j, id, e);
      NoSecondOpen(after, j, id, e);
    } else {
      SomeOpenExactly(t, id, e);
      SomeOpenExactly(after, id, e);
    }
  }

  lemma NoSecondOpen(t: Table, i: nat, j: nat, e: int)
    requires Valid(t) && i < |t| && j < |t| && i != j && OpenOf(t[i], e)
    ensures !OpenOf(t[j], e)
  {
  }

  lemma SomeOpenExactly(t: Table, id: nat, e: int)
    requires id < |t| && forall j :: 0 <= j < |t| && j != id ==> !OpenOf(t[j], e)
    ensures FindOpen(t, e).Some? <==> OpenOf(t[id], e)
  {
  }

  lemma RewriteLastEvent(t: Table, id: nat, row: Entry, e: int, at: int)
    requires Exists(t, id) && row.employee == t[id].employee == e
    ensures var last := LastEvent(t[id := row], e);
            last.None? || last.value < at
            <==> (LiveOf(row, e) ==> EventOf(row) < at)
                 && forall j :: 0 <= j < |t| && j != id && LiveOf(t[j], e) ==> EventOf(t[j]) < at
  {
    var after := t[id := row];
    assert forall j :: 0 <= j < |t| && j != id ==> after[j] == t[j];
    assert after[id] == row;
    if LastEvent(after, e).Some? {
      var i :| 0 <= i < |after| && LiveOf(after[i], e) && EventOf(after[i]) == LastEvent(after, e).value;
      assert i == id || after[i] == t[i];
    }
  }

  /** What a caller can check beforehand is what the guard says afterwards. */
  lemma WillDisturbExactly(t: Table, call: Call, mine: seq<Punched>, e: int, clock: int)
    requires Valid(t) && Reflected(t, mine, e, clock) && !call.CallPunch? && Perform(t, call).Ok?
    ensures Disturbs(t, Perform(t, call).value, mine, e, clock) <==> WillDisturb(t, call, mine, e, clock)
  {
    PerformKeepsValid(t, call);
    match call
    case CallCreate(x) => InsertDisturbsExactly(t, RowOf(x), mine, e, clock);
    case CallUpdate(id, p) => RewriteDisturbsExactly(t, id, Patched(t[id], p), mine, e, clock);
    case CallDelete(id) => RewriteDisturbsExactly(t, id, t[id].(deleted := true), mine, e, clock);
    case CallCorrection(c) =>
      if c.target.Some? {
        RewriteDisturbsExactly(t, c.target.value, CorrectedRow(t[c.target.value], c), mine, e, clock);
      } else {
        InsertDisturbsExactly(t, NewLog(c), mine, e, clock);
      }
    case CallTick(_) =>
  }

  lemma InsertDisturbsExactly(t: Table, row: Entry, mine: seq<Punched>, e: int, clock: int)
    requires Valid(t) && Valid(t + [row]) && !row.deleted && Reflected(t, mine, e, clock)
    ensures Disturbs(t, t + [row], mine, e, clock) <==> row.employee == e && row.timeOut.None?
  {
    var after := t + [row];
    if row.employee != e {
      UntouchedEmployee(t, after, e);
    } else {
      LastEventGrows(t, after, e);
      InsertFindsOpen(t, row, e);
      hide FindOpen, LastEvent, Valid;
    }
  }

  lemma InsertFindsOpen(t: Table, row: Entry, e: int)
    requires Valid(t + [row]) && !row.deleted && row.employee == e
    ensures FindOpen(t + [row], e).Some? == FindOpen(t, e).Some? <==> row.timeOut.Some?
  {
    var after := t + [row];
    hide LastEvent;
    assert after[|t|] == row;
    assert OpenOf(row, e) <==> row.timeOut.None?;
    if j :| 0 <= j < |t| && OpenOf(t[j], e) {
      assert OpenOf(after[j], e) && FindOpen(t, e).Some? && FindOpen(after, e).Some?;
      NoSecondOpen(after, j, |t|, e);
    } else {
      SomeOpenExactly(after, |t|, e);
    }
  }

  lemma LastEventGrows(t: Table, after: Table, e: int)
    requires Within(t, after, e)
    ensures LastEvent(t, e).Some? ==> LastEvent(after, e).Some? && LastEvent(t, e).value <= LastEvent(after, e).value
  {
    if LastEvent(t, e).Some? {
      LastEventWithin(t, after, e);
    }
  }

  lemma WritesStayOnTrack(w: World, e: int, call: Call)
    requires OnTrack(w, e) && !call.CallPunch? && !call.CallTick?
    requires !Disturbs(w.rows, Step(w, call).rows, PunchesOf(w.punches, e), e, w.clock)
    ensures OnTrack(Step(w, call), e)
  {
    StepKeepsValid(w, call);
    hide Perform, FindOpen, Valid;
  }

  /** Over any run without such a write, an employee's own punches alternate, at least five minutes apart. */
  lemma {:induction false} PunchesAlternate(w: World, calls: seq<Call>, e: int)
    requires OnTrack(w, e) && Undisturbed(w, calls, e)
    ensures OnTrack(Run(w, calls), e) && AlternateWithPauses(PunchesOf(Run(w, calls).punches, e))
  {
    if calls != [] {
      var k := |calls| - 1;
      var earlier, call := calls[..k], calls[k];
      assert forall j :: 0 <= j < k ==> earlier[j] == calls[j] && earlier[..j] == calls[..j];
      PunchesAlternate(w, earlier, e);
      hide OnTrack, Disturbs, Step;
      if call.CallPunch? || call.CallTick? {
        PunchesStayOnTrack(Run(w, earlier), e, call);
      } else {
        WritesStayOnTrack(Run(w, earlier), e, call);
      }
    }
  }

  predicate PunchesOnly(calls: seq<Call>) {
    forall k :: 0 <= k < |calls| ==> calls[k].CallPunch? || calls[k].CallTick?
  }

  /** Punches alone, from here on, end up out of step. */
  predicate PunchesDerail(w: World, calls: seq<Call>, e: int) {
    PunchesOnly(calls) && !AlternateWithPauses(PunchesOf(Run(w, calls).punches, e))
  }

  /** Out of step with the table, the very next punch shows it. */
  lemma OffTrackDerails(w: World, e: int)
    requires Valid(w.rows) && !Reflected(w.rows, PunchesOf(w.punches, e), e, w.clock)
    ensures exists calls :: PunchesDerail(w, calls, e)
  {
    var mine, last := PunchesOf(w.punches, e), LastEvent(w.rows, e);
    var at := if last.Some? && w.clock < last.value + COOLDOWN then last.value + COOLDOWN else w.clock;
    var punch := CallPunch(e, at, at);
    SuccessfulPunch(w, e, at, at);
    BrokenByNext(mine, Punched(e, FindOpen(w.rows, e).None?, at));
    assert [punch][..0] == [] && Run(w, [punch]) == Step(w, punch);
    assert PunchesDerail(w, [punch], e);
  }

  /**
   * Exactly which admin writes and corrections break the alternation: after one
   * of them, some run of punches alone gets out of step if and only if the write
   * disturbs.
   */
  lemma WriteDerailsExactly(w: World, call: Call, e: int)
    requires OnTrack(w, e) && !call.CallPunch? && !call.CallTick?
    ensures (exists calls :: PunchesDerail(Step(w, call), calls, e))
            <==> Disturbs(w.rows, Step(w, call).rows, PunchesOf(w.punches, e), e, w.clock)
    ensures Disturbs(w.rows, Step(w, call).rows, PunchesOf(w.punches, e), e, w.clock)
            <==> Perform(w.rows, call).Ok? && WillDisturb(w.rows, call, PunchesOf(w.punches, e), e, w.clock)
  {
    var after := Step(w, call);
    StepKeepsValid(w, call);
    if Perform(w.rows, call).Ok? {
      WillDisturbExactly(w.rows, call, PunchesOf(w.punches, e), e, w.clock);
    }
    hide WillDisturb;
    assert after.punches == w.punches && after.clock == w.clock;
    if Disturbs(w.rows, after.rows, PunchesOf(w.punches, e), e, w.clock) {
      OffTrackDerails(after, e);
    } else {
      WritesStayOnTrack(w, e, call);
      forall calls | PunchesOnly(calls)
        ensures !PunchesDerail(after, calls, e)
      {
        PunchesAlternate(after, calls, e);
      }
    }
  }

  predicate NoneLive(t: Table, e: int) {
    forall i :: 0 <= i < |t| ==> !LiveOf(t[i], e)
  }

  lemma OpensAlone(t: Table, e: int, at: int)
    requires Valid(t) && NoneLive(t, e)
    ensures FindOpen(t, e).None? && Punch(t, e, at, at) == Ok(t + [OpenedAt(e, at)])
    ensures Valid(t + [OpenedAt(e, at)])
  {
    assert FindOpen(t, e).None? && LastEvent(t, e).None?;
    hide FindOpen, LastEvent;
    OpenIsAccepted(t, OpenedAt(e, at));
  }

  /** A punch of an employee without live entries opens one. */
  lemma OpensAfresh(w: World, e: int, at: int)
    requires Valid(w.rows) && w.clock <= at && NoneLive(w.rows, e)
    ensures Step(w, CallPunch(e, at, at)) == World(w.rows + [OpenedAt(e, at)], w.punches + [Punched(e, true, at)], at)
    ensures Valid(w.rows + [OpenedAt(e, at)])
  {
    OpensAlone(w.rows, e, at);
    hide Punch, Valid, LastEvent, FindOpen;
  }

  /** A deletion that disturbs: afterwards two punches in a row open, at the same instant. */
  lemma DeletionBreaksThePauses(w: World, e: int, at: int)
    requires Valid(w.rows) && w.clock <= at && NoneLive(w.rows, e)
    ensures var punch := CallPunch(e, at, at);
            Step(Step(Step(w, punch), CallDelete(|w.rows|)), punch).punches
            == w.punches + [Punched(e, true, at), Punched(e, true, at)]
  {
    OpensAfresh(w, e, at);
    var first := Step(w, CallPunch(e, at, at));
    var deleted := Step(first, CallDelete(|w.rows|));
    assert deleted == World(first.rows[|w.rows| := OpenedAt(e, at).(deleted := true)], first.punches, at);
    hide Step;
    OpensAfresh(deleted, e, at);
  }

  // ----- the service -----

  class TimeEntriesService {
    var rows: Table

    /** Every write of the repository, refused when a constraint of the table would break. */
    method Save(after: Table) returns (ok: bool)
      modifies this
      ensures ok == Constraints(after) && rows == if ok then after else old(rows)
    {
      ok := Constraints(after);
      if ok {
        rows := after;
      }
    }

    method PunchNow(e: int, checked: int, at: int) returns (error: Option<EntryError>)
      modifies this
      ensures match Punch(old(rows), e, checked, at)
              case Ok(after) => error == None && rows == after
              case Err(why) => error == Some(why) && rows == old(rows)
    {
      var last := LastEvent(rows, e);
      if last.Some? {
        var elapsed := checked - last.value;
        if elapsed < COOLDOWN {
          return Some(Cooldown(Ceiling(COOLDOWN - elapsed, 1000)));
        }
      }
      var open := FindOpen(rows, e);
      var ok;
      if open.Some? {
        var entry := rows[open.value];
        if at <= entry.timeIn {
          return Some(InvalidWindow);
        }
        ok := Save(rows[open.value := entry.(timeOut := Some(at), status := StatusOf(Some(at)))]);
      } else {
        ok := Save(rows + [Entry(e, at / MS_PER_DAY, at, None, Manual, Open, false)]);
      }
      return if ok then None else Some(Refused);
    }

    method Apply(c: Correction) returns (error: Option<EntryError>)
      modifies this
      ensures match ApplyCorrection(old(rows), c)
              case Ok(after) => error == None && rows == after
              case Err(why) => error == Some(why) && rows == old(rows)
    {
      if c.timeOut.Some? && c.timeOut.value <= c.timeIn {
        return Some(InvalidWindow);
      }
      var status := StatusOf(c.timeOut);
      var open := FindOpen(rows, c.employee);
      var ok;
      if c.target.Some? {
        var id := c.target.value;
        if !Exists(rows, id) {
          return Some(NotFound);
        }
        if status == Open && open.Some? && open.value != id {
          return Some(OpenExists);
        }
        ok := Save(rows[id := rows[id].(workDate := c.workDate, timeIn := c.timeIn, timeOut := c.timeOut,
                                        source := Source.Correction, status := status)]);
      } else {
        if ExistsOnDate(rows, c.employee, c.workDate) {
          return Some(DateTaken);
        }
        if status == Open && open.Some? {
          return Some(OpenExists);
        }
        ok := Save(rows + [Entry(c.employee, c.workDate, c.timeIn, c.timeOut, Source.Correction, status, false)]);
      }
      return if ok then None else Some(Refused);
    }

    method CreateEntry(x: NewEntry) returns (error: Option<EntryError>)
      modifies this
      ensures match Create(old(rows), x)
              case Ok(after) => error == None && rows == after
              case Err(why) => error == Some(why) && rows == old(rows)
    {
      if x.timeOut.None? {
        var existing := FindOpen(rows, x.employee);
        if existing.Some? {
          return Some(OpenExists);
        }
      }
      if x.timeOut.Some? && x.timeOut.value <= x.timeIn {
        return Some(InvalidWindow);
      }
      var ok := Save(rows + [Entry(x.employee, x.workDate, x.timeIn, x.timeOut, x.source, StatusOf(x.timeOut), false)]);
      return if ok then None else Some(Refused);
    }

    method UpdateEntry(id: nat, p: Patch) returns (error: Option<EntryError>)
      modifies this
      ensures match Update(old(rows), id, p)
              case Ok(after) => error == None && rows == after
              case Err(why) => error == Some(why) && rows == old(rows)
    {
      if !Exists(rows, id) {
        return Some(NotFound);
      }
      var row := rows[id];
      if p.timeIn.Some? {
        row := row.(timeIn := p.timeIn.value);
      }
      if p.timeOut.Some? {
        row := row.(timeOut := p.timeOut.value);
      }
      if row.timeOut.Some? && row.timeOut.value <= row.timeIn {
        return Some(InvalidWindow);
      }
      if p.workDate.Some? {
        row := row.(workDate := p.workDate.value);
      }
      if p.source.Some? {
        row := row.(source := p.source.value);
      }
      var ok := Save(rows[id := row.(status := StatusOf(row.timeOut))]);
      return if ok then None else Some(Refused);
    }
  }
}
