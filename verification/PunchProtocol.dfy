/**
 * Punches whose cooldown check, look-up and write interleave with each other and
 * with every other write of the timesheet.
 */
module PunchProtocol {
  import opened Prelude
  import opened TimeEntries

  /** What a punch in flight has done so far; `seen` is the open entry it found. */
  datatype Phase = Checked | Looked(seen: Option<Seen>)

  /** The entry as it was read: its id and its time in. */
  datatype Seen = Seen(id: nat, timeIn: int)

  /** `since` is the time of its last step: what it writes is stamped between then and the write. */
  datatype Flight = Flight(employee: int, since: int, phase: Phase)

  /** The timesheet, the punches in flight, the self-punches so far and a clock that never runs back. */
  datatype State = State(rows: Table, flights: map<nat, Flight>, punches: seq<Punched>, clock: int)

  datatype Event =
    | Begin(punch: nat, employee: int, now: int)
    | Look(punch: nat)
    | Act(punch: nat, at: int)
    | Tick(now: int)
    | Other(call: Call)

  /** The write of a punch, decided on what was read, guarded by the table as it is now. */
  function ActOn(t: Table, f: Flight, at: int): Result<Table, EntryError>
    requires f.phase.Looked?
  {
    if f.phase.seen.None? then Written(t, t + [OpenedAt(f.employee, at)])
    else
      var Seen(id, timeIn) := f.phase.seen.value;
      if at <= timeIn then Err(InvalidWindow)
      else if !Exists(t, id) then Err(NotFound)
      else Written(t, t[id := t[id].(timeOut := Some(at), status := Confirmed)])
  }

  function Found(t: Table, e: int): Option<Seen> {
    var open := FindOpen(t, e);
    if open.Some? then Some(Seen(open.value, t[open.value].timeIn)) else None
  }

  function Step(s: State, event: Event): State {
    match event
    case Begin(p, e, now) =>
      if now < s.clock || p in s.flights then s
      else if CooldownLeft(s.rows, e, now).Some? then s.(clock := now)
      else s.(flights := s.flights[p := Flight(e, now, Checked)], clock := now)
    case Look(p) =>
      if p !in s.flights || s.flights[p].phase != Checked then s
      else
        var e := s.flights[p].employee;
        s.(flights := s.flights[p := Flight(e, s.clock, Looked(Found(s.rows, e)))])
    case Act(p, at) =>
      if p !in s.flights || !s.flights[p].phase.Looked? || !(s.flights[p].since <= at <= s.clock) then s
      else
        var f := s.flights[p];
        var done := ActOn(s.rows, f, at);
        if done.Err? then s.(flights := s.flights - {p})
        else State(done.value, s.flights - {p}, s.punches + [Punched(f.employee, f.phase.seen.None?, at)], s.clock)
    case Tick(now) => if now < s.clock then s else s.(clock := now)
    case Other(call) =>
      var done := Perform(s.rows, call);
      if done.Ok? && !call.CallPunch? then s.(rows := done.value) else s
  }

  function Run(s: State, events: seq<Event>): State {
    if events == [] then s else Step(Run(s, events[..|events| - 1]), events[|events| - 1])
  }

  lemma {:induction false} RunSplit(s: State, first: seq<Event>, rest: seq<Event>)
    ensures Run(s, first + rest) == Run(Run(s, first), rest)
  {
    if rest == [] {
      assert first + rest == first;
    } else {
      assert (first + rest)[..|first + rest| - 1] == first + rest[..|rest| - 1];
      RunSplit(s, first, rest[..|rest| - 1]);
    }
  }

  // ----- what every interleaving keeps -----

  /** An employee never has two entries without a time out. */
  predicate OneOpenEach(t: Table) {
    forall i, j :: 0 <= i < j < |t| && !t[i].deleted && !t[j].deleted && t[i].timeOut.None? && t[j].timeOut.None? ==>
      t[i].employee != t[j].employee
  }

  /** Rows are never removed and never change hands. */
  predicate OwnersKept(t: Table, after: Table) {
    |t| <= |after| && forall i :: 0 <= i < |t| ==> after[i].employee == t[i].employee
  }

  /** No punch in flight is ahead of the clock, and every entry it read is a row of its own employee. */
  predicate FlightsFit(t: Table, flights: map<nat, Flight>, clock: int) {
    forall p :: p in flights ==>
      && flights[p].since <= clock
      && (flights[p].phase.Looked? && flights[p].phase.seen.Some? ==>
            var id := flights[p].phase.seen.value.id;
            id < |t| && t[id].employee == flights[p].employee)
  }

  predicate Sound(s: State) {
    Valid(s.rows) && FlightsFit(s.rows, s.flights, s.clock)
  }

  lemma ActKeepsValid(t: Table, f: Flight, at: int)
    requires Valid(t) && f.phase.Looked? && ActOn(t, f, at).Ok?
    ensures Valid(ActOn(t, f, at).value) && OwnersKept(t, ActOn(t, f, at).value)
  {
    var after := ActOn(t, f, at).value;
    if f.phase.seen.Some? {
      var id := f.phase.seen.value.id;
      assert after == t[id := t[id].(timeOut := Some(at), status := Confirmed)];
    } else {
      assert after == t + [OpenedAt(f.employee, at)];
    }
  }

  lemma OtherKeepsOwners(t: Table, call: Call)
    requires Perform(t, call).Ok?
    ensures OwnersKept(t, Perform(t, call).value)
  {
  }

  lemma StepKeepsSound(s: State, event: Event)
    requires Sound(s)
    ensures Sound(Step(s, event)) && OwnersKept(s.rows, Step(s, event).rows)
  {
    match event
    case Act(p, at) =>
      if p in s.flights && s.flights[p].phase.Looked? && ActOn(s.rows, s.flights[p], at).Ok? {
        ActKeepsValid(s.rows, s.flights[p], at);
      }
      hide ActOn, Valid;
    case Other(call) =>
      if !call.CallPunch? && Perform(s.rows, call).Ok? {
        PerformKeepsValid(s.rows, call);
        OtherKeepsOwners(s.rows, call);
      }
      hide Perform, Valid;
    case _ =>
      hide Valid, CooldownLeft;
  }

  lemma ValidMeansOneOpen(t: Table)
    requires Valid(t)
    ensures OneOpenEach(t)
  {
  }

  /** No interleaving of punches, admin writes and corrections yields two open entries. */
  lemma {:induction false} NeverTwoOpenEntries(s: State, events: seq<Event>)
    requires Sound(s)
    ensures Sound(Run(s, events)) && OneOpenEach(Run(s, events).rows)
  {
    if events != [] {
      NeverTwoOpenEntries(s, events[..|events| - 1]);
      StepKeepsSound(Run(s, events[..|events| - 1]), events[|events| - 1]);
    }
    ValidMeansOneOpen(Run(s, events).rows);
  }

  /** A punch that saw no open entry is refused exactly when one has appeared since; its retry would close that one. */
  lemma LateInsertIsRefused(t: Table, f: Flight, at: int)
    requires Valid(t) && f.phase == Looked(None)
    ensures ActOn(t, f, at).Err? <==> FindOpen(t, f.employee).Some?
    ensures ActOn(t, f, at).Err? ==> ActOn(t, f, at) == Err(Refused)
  {
    var after := t + [OpenedAt(f.employee, at)];
    if FindOpen(t, f.employee).Some? {
      var i := FindOpen(t, f.employee).value;
      assert after[i] == t[i] && OpenOf(after[i], after[i].employee) && OpenOf(after[|t|], after[i].employee);
    }
  }

  /** Run without anything in between, the three steps are the one punch. */
  lemma UndisturbedStepsArePunch(t: Table, p: nat, e: int, clock: int, checked: int, at: int)
    requires clock <= checked <= at && CooldownLeft(t, e, checked).None?
    ensures var s := State(t, map[], [], clock);
            var s := Step(Step(Step(Step(s, Begin(p, e, checked)), Look(p)), Tick(at)), Act(p, at));
            s.rows == (if Punch(t, e, checked, at).Ok? then Punch(t, e, checked, at).value else t)
  {
  }

  /** What the look-up reads decides the write as in one punch, refusals included. */
  lemma FreshLookIsPunch(t: Table, f: Flight, checked: int, at: int)
    requires CooldownLeft(t, f.employee, checked).None? && f.phase == Looked(Found(t, f.employee))
    ensures ActOn(t, f, at) == Punch(t, f.employee, checked, at)
  {
  }

  /** A punch whose entry is gone is told so, one that would end it too early as well. */
  lemma LateCloseIsRefused(t: Table, f: Flight, at: int)
    requires f.phase.Looked? && f.phase.seen.Some?
    ensures var seen := f.phase.seen.value;
            && (ActOn(t, f, at) == Err(InvalidWindow) <==> at <= seen.timeIn)
            && (ActOn(t, f, at) == Err(NotFound) <==>
                  seen.timeIn < at && (seen.id >= |t| || t[seen.id].deleted))
  {
  }

  /** A refused check starts nothing, and a write ends its punch whether or not it goes through. */
  lemma RefusedStepsLeave(s: State, p: nat, e: int, at: int)
    ensures s.clock <= at && p !in s.flights && CooldownLeft(s.rows, e, at).Some? ==>
              Step(s, Begin(p, e, at)) == s.(clock := at)
    ensures p in s.flights && s.flights[p].phase.Looked? && s.flights[p].since <= at <= s.clock ==>
              var after := Step(s, Act(p, at));
              && after.flights == s.flights - {p}
              && (ActOn(s.rows, s.flights[p], at).Err? ==> after.rows == s.rows && after.punches == s.punches)
  {
  }

  // ----- one employee's punches -----

  predicate Flies(s: State, p: nat, e: int) {
    p in s.flights && s.flights[p].employee == e
  }

  /**
   * Two punches of the employee in flight at once, one of them past its cooldown
   * check and not (yet) looking for no open entry. Two that both found none do
   * not race: the second insert is refused.
   */
  ghost predicate Racing(s: State, e: int) {
    exists p, q :: Flies(s, p, e) && Flies(s, q, e) && p != q && s.flights[p].phase != Looked(None)
  }

  /** What the punch read is still so. */
  predicate UpToDate(t: Table, f: Flight) {
    f.phase.Looked? ==>
      if f.phase.seen.None? then FindOpen(t, f.employee).None?
      else FindOpen(t, f.employee) == Some(f.phase.seen.value.id)
  }

  predicate Paused(mine: seq<Punched>, at: int) {
    mine != [] ==> at - mine[|mine| - 1].at >= COOLDOWN
  }

  /** Its insert will be refused. */
  predicate Doomed(t: Table, f: Flight) {
    f.phase == Looked(None) && FindOpen(t, f.employee).Some?
  }

  predicate Ready(t: Table, mine: seq<Punched>, f: Flight) {
    Doomed(t, f) || (Paused(mine, f.since) && UpToDate(t, f))
  }

  ghost predicate FlightsReady(s: State, e: int) {
    forall p :: Flies(s, p, e) ==> Ready(s.rows, PunchesOf(s.punches, e), s.flights[p])
  }

  /** The table remembers the employee's punches so far and so do those in flight. */
  ghost predicate InStep(s: State, e: int) {
    && Sound(s)
    && AlternateWithPauses(PunchesOf(s.punches, e))
    && Reflected(s.rows, PunchesOf(s.punches, e), e, s.clock)
    && FlightsReady(s, e)
  }

  lemma StartsInStep(t: Table, e: int, clock: int)
    requires Valid(t) && FindOpen(t, e).None?
    ensures InStep(State(t, map[], [], clock), e)
  {
    StartsOnTrack(t, e, clock);
  }

  /** A step that changes nothing the employee's punches depend on. */
  lemma NothingNewFor(s: State, after: State, e: int)
    requires InStep(s, e) && Sound(after) && s.clock <= after.clock
    requires FindOpen(after.rows, e) == FindOpen(s.rows, e) && LastEvent(after.rows, e) == LastEvent(s.rows, e)
    requires PunchesOf(after.punches, e) == PunchesOf(s.punches, e)
    requires forall q :: Flies(after, q, e) ==> Flies(s, q, e) && after.flights[q] == s.flights[q]
    ensures InStep(after, e)
  {
    hide Sound, FindOpen, LastEvent, PunchesOf, AlternateWithPauses;
  }

  lemma OwnBeginStaysInStep(s: State, e: int, p: nat, now: int)
    requires InStep(s, e) && s.clock <= now && p !in s.flights && CooldownLeft(s.rows, e, now).None?
    ensures InStep(Step(s, Begin(p, e, now)), e)
  {
    var after := Step(s, Begin(p, e, now));
    StepKeepsSound(s, Begin(p, e, now));
    PausedLongEnough(s.rows, PunchesOf(s.punches, e), e, s.clock, now);
    hide Sound, FindOpen, LastEvent, PunchesOf, AlternateWithPauses, CooldownLeft;
    assert forall q :: Flies(after, q, e) && q != p ==> Flies(s, q, e) && after.flights[q] == s.flights[q];
  }

  lemma BeginStaysInStep(s: State, e: int, p: nat, x: int, now: int)
    requires InStep(s, e)
    ensures InStep(Step(s, Begin(p, x, now)), e)
  {
    var after := Step(s, Begin(p, x, now));
    if s.clock <= now && p !in s.flights && x == e && CooldownLeft(s.rows, e, now).None? {
      OwnBeginStaysInStep(s, e, p, now);
    } else {
      StepKeepsSound(s, Begin(p, x, now));
      hide InStep, Sound, CooldownLeft;
      NothingNewFor(s, after, e);
    }
  }

  lemma LookStaysInStep(s: State, e: int, p: nat)
    requires InStep(s, e)
    ensures InStep(Step(s, Look(p)), e)
  {
    StepKeepsSound(s, Look(p));
    hide Sound, FindOpen, LastEvent, PunchesOf, AlternateWithPauses;
  }

  /** The employee's entry after an opening or a closing punch. */
  lemma ActReflected(t: Table, f: Flight, at: int)
    requires Valid(t) && f.phase.Looked? && UpToDate(t, f) && ActOn(t, f, at).Ok?
    ensures var after := ActOn(t, f, at).value;
            && (FindOpen(after, f.employee).Some? <==> f.phase.seen.None?)
            && LastEvent(after, f.employee).Some? && at <= LastEvent(after, f.employee).value
  {
    var after := ActOn(t, f, at).value;
    var id := if f.phase.seen.None? then |t| else f.phase.seen.value.id;
    assert LiveOf(after[id], f.employee) && EventOf(after[id]) == at;
    if f.phase.seen.None? {
      assert OpenOf(after[id], f.employee);
    } else {
      assert forall j :: 0 <= j < |t| && OpenOf(t[j], f.employee) ==> j == id;
      assert forall j :: 0 <= j < |t| && j != id ==> after[j] == t[j];
    }
  }

  /** Every other punch in flight found no open entry, and will be refused. */
  lemma OthersAreDoomed(s: State, e: int, p: nat, at: int)
    requires !Racing(s, e) && Flies(s, p, e) && s.flights[p].phase.Looked? && ActOn(s.rows, s.flights[p], at).Ok?
    requires s.flights[p].since <= at <= s.clock
    requires s.flights[p].phase.seen.None? ==> FindOpen(Step(s, Act(p, at)).rows, e).Some?
    ensures FlightsReady(Step(s, Act(p, at)), e)
  {
    var after := Step(s, Act(p, at));
    hide ActOn, FindOpen, Paused, UpToDate;
    forall q | Flies(after, q, e)
      ensures Doomed(after.rows, after.flights[q])
    {
      assert Flies(s, q, e) && q != p && after.flights[q] == s.flights[q];
    }
  }

  lemma ActContinues(t: Table, mine: seq<Punched>, clock: int, f: Flight, at: int)
    requires Valid(t) && AlternateWithPauses(mine) && Reflected(t, mine, f.employee, clock)
    requires Ready(t, mine, f) && f.since <= at && f.phase.Looked? && ActOn(t, f, at).Ok?
    ensures var next := Punched(f.employee, f.phase.seen.None?, at);
            AlternateWithPauses(mine + [next]) && Reflected(ActOn(t, f, at).value, mine + [next], f.employee, clock)
  {
    var next := Punched(f.employee, f.phase.seen.None?, at);
    hide AlternateWithPauses, ActOn, FindOpen, LastEvent, Valid;
    if f.phase.seen.None? {
      LateInsertIsRefused(t, f, at);
    }
    ActReflected(t, f, at);
    assert UpToDate(t, f) && Paused(mine, at);
    assert next.opening == (|mine| % 2 == 0);
    hide Reflected, Ready, UpToDate;
    NextPunch(mine, next);
    ReflectsNext(ActOn(t, f, at).value, mine, next, clock);
  }

  lemma OwnActSucceeds(s: State, e: int, p: nat, at: int)
    requires InStep(s, e) && !Racing(s, e) && Flies(s, p, e)
    requires s.flights[p].phase.Looked? && s.flights[p].since <= at <= s.clock
    requires ActOn(s.rows, s.flights[p], at).Ok?
    ensures InStep(Step(s, Act(p, at)), e)
  {
    var f := s.flights[p];
    hide ActOn, FindOpen, LastEvent, PunchesOf, AlternateWithPauses, Reflected, Ready, Valid;
    ActContinues(s.rows, PunchesOf(s.punches, e), s.clock, f, at);
    PunchesOfAppend(s.punches, Punched(e, f.phase.seen.None?, at), e);
    StepKeepsSound(s, Act(p, at));
    if f.phase.seen.None? {
      OpenAfterOwnAct(s.rows, f, at);
    }
    OthersAreDoomed(s, e, p, at);
    hide FlightsReady, FlightsFit, Racing, OwnersKept;
  }

  lemma OpenAfterOwnAct(t: Table, f: Flight, at: int)
    requires f.phase.Looked? && f.phase.seen.None? && ActOn(t, f, at).Ok?
    ensures FindOpen(ActOn(t, f, at).value, f.employee).Some?
  {
    assert OpenOf(ActOn(t, f, at).value[|t|], f.employee);
  }

  lemma OwnActStaysInStep(s: State, e: int, p: nat, at: int)
    requires InStep(s, e) && !Racing(s, e) && Flies(s, p, e)
    requires s.flights[p].phase.Looked? && s.flights[p].since <= at <= s.clock
    ensures InStep(Step(s, Act(p, at)), e)
  {
    if ActOn(s.rows, s.flights[p], at).Ok? {
      OwnActSucceeds(s, e, p, at);
    } else {
      StepKeepsSound(s, Act(p, at));
      hide InStep, Racing, Sound;
      NothingNewFor(s, Step(s, Act(p, at)), e);
    }
  }

  lemma ForeignActLeaves(t: Table, f: Flight, at: int, e: int)
    requires f.phase.Looked? && f.employee != e && ActOn(t, f, at).Ok?
    requires f.phase.seen.Some? ==> f.phase.seen.value.id < |t| && t[f.phase.seen.value.id].employee == f.employee
    ensures var after := ActOn(t, f, at).value;
            FindOpen(after, e) == FindOpen(t, e) && LastEvent(after, e) == LastEvent(t, e)
  {
    UntouchedEmployee(t, ActOn(t, f, at).value, e);
  }

  lemma ForeignStepLeaves(s: State, e: int, p: nat, at: int)
    requires FlightsFit(s.rows, s.flights, s.clock) && p in s.flights && s.flights[p].employee != e
    requires s.flights[p].phase.Looked? && s.flights[p].since <= at <= s.clock
    ensures var after := Step(s, Act(p, at));
            && FindOpen(after.rows, e) == FindOpen(s.rows, e) && LastEvent(after.rows, e) == LastEvent(s.rows, e)
            && PunchesOf(after.punches, e) == PunchesOf(s.punches, e)
  {
    var f, after := s.flights[p], Step(s, Act(p, at));
    assert f.phase.seen.Some? ==>
        f.phase.seen.value.id < |s.rows| && s.rows[f.phase.seen.value.id].employee == f.employee;
    hide FlightsFit, FindOpen, LastEvent, PunchesOf, ActOn;
    if ActOn(s.rows, f, at).Ok? {
      var next := Punched(f.employee, f.phase.seen.None?, at);
      assert after.rows == ActOn(s.rows, f, at).value && after.punches == s.punches + [next];
      hide Step;
      ForeignActLeaves(s.rows, f, at, e);
      PunchesOfAppend(s.punches, next, e);
    }
  }

  lemma ForeignActStaysInStep(s: State, e: int, p: nat, at: int)
    requires InStep(s, e) && p in s.flights && !Flies(s, p, e)
    requires s.flights[p].phase.Looked? && s.flights[p].since <= at <= s.clock
    ensures InStep(Step(s, Act(p, at)), e)
  {
    var after := Step(s, Act(p, at));
    assert Sound(s) && s.clock <= after.clock;
    assert forall q :: Flies(after, q, e) ==> Flies(s, q, e) && after.flights[q] == s.flights[q];
    StepKeepsSound(s, Act(p, at));
    ForeignStepLeaves(s, e, p, at);
    hide *;
    NothingNewFor(s, after, e);
  }

  /** Every other row of a write is as it was. */
  lemma OneRowChanges(t: Table, call: Call)
    requires !call.CallPunch? && Perform(t, call).Ok?
    ensures var after := Perform(t, call).value;
            && |t| <= |after|
            && forall i, j :: 0 <= i < |t| && 0 <= j < |after| && i != j ==>
                 after[i] == t[i] || (j < |t| && after[j] == t[j])
  {
  }

  /** So an entry that stays open is the same entry. */
  lemma SameOpenEntry(t: Table, call: Call, e: int)
    requires Valid(t) && !call.CallPunch? && Perform(t, call).Ok?
    requires FindOpen(t, e).Some? && FindOpen(Perform(t, call).value, e).Some?
    ensures FindOpen(Perform(t, call).value, e) == FindOpen(t, e)
  {
    PerformKeepsValid(t, call);
    OneRowChanges(t, call);
    var after := Perform(t, call).value;
    hide Perform;
    OnlyOneOpen(t, e);
    OnlyOneOpen(after, e);
  }

  lemma OnlyOneOpen(t: Table, e: int)
    requires Valid(t) && FindOpen(t, e).Some?
    ensures OpenOf(t[FindOpen(t, e).value], e)
    ensures forall j :: 0 <= j < |t| && OpenOf(t[j], e) ==> FindOpen(t, e) == Some(j)
  {
  }

  /** The guard of an admin write, as for punches that do not interleave. */
  ghost predicate Disturbing(s: State, call: Call, e: int) {
    Disturbs(s.rows, Step(s, Other(call)).rows, PunchesOf(s.punches, e), e, s.clock)
  }

  lemma OtherStaysInStep(s: State, e: int, call: Call)
    requires InStep(s, e) && !Disturbing(s, call, e)
    ensures InStep(Step(s, Other(call)), e)
  {
    var after := Step(s, Other(call));
    StepKeepsSound(s, Other(call));
    if Perform(s.rows, call).Ok? && !call.CallPunch? && FindOpen(s.rows, e).Some? {
      SameOpenEntry(s.rows, call, e);
    }
    assert FindOpen(after.rows, e) == FindOpen(s.rows, e);
    assert forall q :: Flies(after, q, e) ==> Flies(s, q, e);
    hide Sound, FindOpen, LastEvent, PunchesOf, AlternateWithPauses, Perform;
  }

  lemma StaysInStep(s: State, e: int, event: Event)
    requires InStep(s, e) && !Racing(s, e) && (event.Other? ==> !Disturbing(s, event.call, e))
    ensures InStep(Step(s, event), e)
  {
    StepKeepsSound(s, event);
    hide InStep, Racing, Disturbing, Sound, FindOpen, LastEvent;
    match event
    case Begin(p, x, now) => BeginStaysInStep(s, e, p, x, now);
    case Look(p) => LookStaysInStep(s, e, p);
    case Tick(now) => NothingNewFor(s, Step(s, event), e);
    case Other(call) => OtherStaysInStep(s, e, call);
    case Act(p, at) =>
      if p in s.flights && s.flights[p].phase.Looked? && s.flights[p].since <= at <= s.clock {
        if s.flights[p].employee == e {
          OwnActStaysInStep(s, e, p, at);
        } else {
          ForeignActStaysInStep(s, e, p, at);
        }
      }
  }

  /** No admin write or correction of the run disturbs the employee. */
  ghost predicate Undisturbing(s: State, events: seq<Event>, e: int) {
    forall k :: 0 <= k < |events| && events[k].Other? ==> !Disturbing(Run(s, events[..k]), events[k].call, e)
  }

  ghost predicate RacingAt(s: State, events: seq<Event>, e: int, k: nat)
    requires k <= |events|
  {
    Racing(Run(s, events[..k]), e)
  }

  /** Over any interleaving, punches that never race alternate, at least five minutes apart. */
  lemma {:induction false} PunchesStayInStep(s: State, events: seq<Event>, e: int)
    requires InStep(s, e) && Undisturbing(s, events, e)
    requires forall k :: 0 <= k < |events| ==> !RacingAt(s, events, e, k)
    ensures InStep(Run(s, events), e) && AlternateWithPauses(PunchesOf(Run(s, events).punches, e))
  {
    if events != [] {
      var k := |events| - 1;
      var earlier := events[..k];
      assert forall j :: 0 <= j <= k ==> earlier[..j] == events[..j];
      assert forall j :: 0 <= j < k ==> RacingAt(s, earlier, e, j) == RacingAt(s, events, e, j);
      PunchesStayInStep(s, earlier, e);
      assert !RacingAt(s, events, e, k);
      StaysInStep(Run(s, earlier), e, events[k]);
      hide Step, Racing, Disturbing;
    }
  }

  // ----- when a continuation gets out of step -----

  /** The punches in flight go on: no other write, no new punch of the employee. */
  ghost predicate GoesOn(events: seq<Event>, e: int) {
    forall k :: 0 <= k < |events| ==> !events[k].Other? && (events[k].Begin? ==> events[k].employee != e)
  }

  ghost predicate Derails(s: State, events: seq<Event>, e: int) {
    GoesOn(events, e) && !AlternateWithPauses(PunchesOf(Run(s, events).punches, e))
  }

  lemma CalmStep(s: State, event: Event, e: int)
    requires !Racing(s, e) && !event.Other? && (event.Begin? ==> event.employee != e)
    ensures !Racing(Step(s, event), e)
  {
    var after := Step(s, event);
    hide ActOn, CooldownLeft, Perform, Found;
    assert forall p :: Flies(after, p, e) ==>
      Flies(s, p, e) && (s.flights[p].phase == Looked(None) ==> after.flights[p].phase == Looked(None));
  }

  lemma {:induction false} CalmRun(s: State, events: seq<Event>, e: int)
    requires !Racing(s, e) && GoesOn(events, e)
    ensures !Racing(Run(s, events), e)
  {
    if events != [] {
      CalmRun(s, events[..|events| - 1], e);
      CalmStep(Run(s, events[..|events| - 1]), events[|events| - 1], e);
    }
  }

  /** The punch can still write: it has not looked, or what it needs for its write is there. */
  ghost predicate Able(s: State, p: nat, e: int) {
    && Flies(s, p, e)
    && (s.flights[p].phase.Looked? ==>
          if s.flights[p].phase.seen.None? then FindOpen(s.rows, e).None?
          else Exists(s.rows, s.flights[p].phase.seen.value.id))
  }

  ghost predicate After(found: Option<Seen>, t: Table, at: int) {
    found.Some? ==> found.value.timeIn < at && (found.value.id < |t| ==> t[found.value.id].timeIn < at)
  }

  /** Past every time in that the punch would write behind. */
  ghost predicate Due(s: State, p: nat, e: int, at: int) {
    s.clock <= at && After(Found(s.rows, e), s.rows, at)
    && (Flies(s, p, e) && s.flights[p].phase.Looked? ==> After(s.flights[p].phase.seen, s.rows, at))
  }

  /** The rest of a punch. */
  ghost function Finish(s: State, p: nat, at: int): seq<Event>
    requires p in s.flights
  {
    if s.flights[p].phase.Checked? then [Tick(at), Look(p), Act(p, at)] else [Tick(at), Act(p, at)]
  }

  /** The entry the punch closes, if it does not open one. */
  ghost function Closes(s: State, p: nat): Option<Seen>
    requires p in s.flights
  {
    if s.flights[p].phase.Looked? then s.flights[p].phase.seen else Found(s.rows, s.flights[p].employee)
  }

  ghost function Finished(s: State, p: nat, at: int): State
    requires p in s.flights
  {
    var e, found := s.flights[p].employee, Closes(s, p);
    var rows := if found.None? then s.rows + [OpenedAt(e, at)]
                else if found.value.id < |s.rows|
                then s.rows[found.value.id := s.rows[found.value.id].(timeOut := Some(at), status := Confirmed)]
                else s.rows;
    State(rows, s.flights - {p}, s.punches + [Punched(e, found.None?, at)], at)
  }

  lemma ActSucceeds(t: Table, f: Flight, at: int)
    requires Valid(t) && f.phase.Looked? && After(f.phase.seen, t, at)
    requires if f.phase.seen.None? then FindOpen(t, f.employee).None? else Exists(t, f.phase.seen.value.id)
    ensures ActOn(t, f, at).Ok?
  {
    if f.phase.seen.None? {
      LateInsertIsRefused(t, f, at);
    }
  }

  lemma FirstSteps(s: State, a: Event, b: Event, c: Event)
    ensures Run(s, [a, b]) == Step(Step(s, a), b)
    ensures Run(s, [a, b, c]) == Step(Step(Step(s, a), b), c)
  {
    hide Step;
    assert [a][..0] == [] && Run(s, [a]) == Step(s, a);
    assert [a, b][..1] == [a];
    assert [a, b, c][..2] == [a, b];
  }

  lemma FinishPunch(s: State, p: nat, e: int, at: int)
    requires Sound(s) && Able(s, p, e) && Due(s, p, e, at)
    ensures Run(s, Finish(s, p, at)) == Finished(s, p, at) && Sound(Finished(s, p, at))
  {
    var f, late := s.flights[p], s.(clock := at);
    var looked := if f.phase.Checked? then Step(late, Look(p)) else late;
    var g := looked.flights[p];
    StepKeepsSound(s, Tick(at));
    StepKeepsSound(late, Look(p));
    StepKeepsSound(looked, Act(p, at));
    ActSucceeds(s.rows, g, at);
    assert looked.flights - {p} == s.flights - {p};
    assert Step(looked, Act(p, at)) == Finished(s, p, at);
    hide Step, Sound, ActOn, FindOpen, Finished;
    FirstSteps(s, Tick(at), Look(p), Act(p, at));
    FirstSteps(s, Tick(at), Act(p, at), Look(p));
  }

  /** One punch of two that race writes; the other one then can still write. */
  lemma SecondStillAble(s: State, p: nat, q: nat, e: int, at: int)
    requires InStep(s, e) && Flies(s, p, e) && Flies(s, q, e) && p != q
    requires Able(s, p, e) && Due(s, p, e, at) && Due(s, q, e, at) && Sound(Finished(s, p, at))
    requires if FindOpen(s.rows, e).Some? then s.flights[p].phase != Looked(None) else s.flights[q].phase.Checked?
    ensures Able(Finished(s, p, at), q, e) && Due(Finished(s, p, at), q, e, at + 1)
  {
  }

  lemma RacingPair(s: State, e: int) returns (p: nat, q: nat)
    requires InStep(s, e) && Racing(s, e)
    ensures Flies(s, p, e) && Flies(s, q, e) && p != q && Able(s, p, e)
    ensures if FindOpen(s.rows, e).Some? then s.flights[p].phase != Looked(None) else s.flights[q].phase.Checked?
  {
    var a, b :| Flies(s, a, e) && Flies(s, b, e) && a != b && s.flights[a].phase != Looked(None);
    if FindOpen(s.rows, e).Some? {
      p, q := a, b;
    } else {
      p, q := b, a;
    }
  }

  ghost function Later(found: Option<Seen>, t: Table, at: int): (r: int)
    ensures at <= r && After(found, t, r)
  {
    if found.None? then at
    else
      var first := if found.value.timeIn < at then at else found.value.timeIn + 1;
      if found.value.id < |t| && first <= t[found.value.id].timeIn then t[found.value.id].timeIn + 1 else first
  }

  lemma FinishGoesOn(s: State, p: nat, e: int, at: int)
    requires p in s.flights
    ensures GoesOn(Finish(s, p, at), e)
  {
  }

  /** Two punches a millisecond apart are out of step, whatever they do. */
  lemma TooClose(punches: seq<Punched>, first: Punched, second: Punched, e: int)
    requires first.employee == second.employee == e && second.at - first.at < COOLDOWN
    ensures !AlternateWithPauses(PunchesOf(punches + [first] + [second], e))
  {
    PunchesOfAppend(punches, first, e);
    PunchesOfAppend(punches + [first], second, e);
    BrokenByNext(PunchesOf(punches, e) + [first], second);
  }

  lemma RaceRuns(s: State, p: nat, q: nat, e: int, at: int)
    requires Sound(s) && Able(s, p, e) && Due(s, p, e, at)
    requires Sound(Finished(s, p, at)) ==> Able(Finished(s, p, at), q, e) && Due(Finished(s, p, at), q, e, at + 1)
    ensures exists events :: Derails(s, events, e)
  {
    FinishPunch(s, p, e, at);
    var one := Finished(s, p, at);
    FinishPunch(one, q, e, at + 1);
    hide Sound, Due, Able, Run;
    FinishGoesOn(s, p, e, at);
    FinishGoesOn(one, q, e, at + 1);
    var events := Finish(s, p, at) + Finish(one, q, at + 1);
    RunSplit(s, Finish(s, p, at), Finish(one, q, at + 1));
    assert GoesOn(events, e);
    TooClose(s.punches, Punched(e, Closes(s, p).None?, at), Punched(e, Closes(one, q).None?, at + 1), e);
    assert Derails(s, events, e);
  }

  /** Two that race can write within a millisecond of each other. */
  lemma RacersDerail(s: State, e: int)
    requires InStep(s, e) && Racing(s, e)
    ensures exists events :: Derails(s, events, e)
  {
    var p, q := RacingPair(s, e);
    assert Sound(s);
    hide InStep, Racing, Sound, Able, FindOpen, Finished;
    var at := Later(Found(s.rows, e), s.rows, s.clock);
    at := if s.flights[p].phase.Looked? then Later(s.flights[p].phase.seen, s.rows, at) else at;
    at := if s.flights[q].phase.Looked? then Later(s.flights[q].phase.seen, s.rows, at) else at;
    FinishPunch(s, p, e, at);
    SecondStillAble(s, p, q, e, at);
    RaceRuns(s, p, q, e, at);
  }

  lemma PrefixesCalm(s: State, events: seq<Event>, e: int)
    requires !Racing(s, e) && GoesOn(events, e)
    ensures forall k :: 0 <= k <= |events| ==> !RacingAt(s, events, e, k)
  {
    forall k | 0 <= k <= |events|
      ensures !RacingAt(s, events, e, k)
    {
      CalmRun(s, events[..k], e);
    }
  }

  /**
   * Exactly when punches in flight can break the alternation on their own: with
   * no other write and no new punch, some continuation gets out of step if and
   * only if two punches of the employee race.
   */
  lemma OverlapDerailsExactly(s: State, e: int)
    requires InStep(s, e)
    ensures (exists events :: Derails(s, events, e)) <==> Racing(s, e)
  {
    if Racing(s, e) {
      RacersDerail(s, e);
    } else {
      forall events | GoesOn(events, e)
        ensures !Derails(s, events, e)
      {
        PrefixesCalm(s, events, e);
        PunchesStayInStep(s, events, e);
      }
    }
  }

  ghost predicate DerailsAt(s: State, events: seq<Event>, e: int, k: nat)
    requires k <= |events|
  {
    exists more :: Derails(Run(s, events[..k]), more, e)
  }

  /**
   * Over whole runs: where no admin write disturbs, some moment of the run has a
   * continuation out of step if and only if two punches race at some moment.
   */
  lemma RunDerailsExactly(s: State, events: seq<Event>, e: int)
    requires InStep(s, e) && Undisturbing(s, events, e)
    ensures (exists k :: 0 <= k <= |events| && DerailsAt(s, events, e, k))
            <==> (exists k :: 0 <= k <= |events| && RacingAt(s, events, e, k))
  {
    var k := FirstRace(s, events, e, |events|);
    forall j | 0 <= j <= k
      ensures DerailsAt(s, events, e, j) <==> RacingAt(s, events, e, j)
    {
      var earlier := events[..j];
      assert forall i :: 0 <= i <= j ==> earlier[..i] == events[..i];
      assert forall i :: 0 <= i < j ==> RacingAt(s, earlier, e, i) == RacingAt(s, events, e, i);
      PunchesStayInStep(s, earlier, e);
      OverlapDerailsExactly(Run(s, earlier), e);
    }
  }

  /** The first moment of a race up to `n`, or `n`. */
  lemma {:induction false} FirstRace(s: State, events: seq<Event>, e: int, n: nat) returns (k: nat)
    requires n <= |events|
    ensures k <= n && (k < n ==> RacingAt(s, events, e, k))
    ensures forall j :: 0 <= j < k ==> !RacingAt(s, events, e, j)
  {
    if n == 0 {
      k := 0;
    } else {
      k := FirstRace(s, events, e, n - 1);
      if k == n - 1 && !RacingAt(s, events, e, k) {
        k := n;
      }
    }
  }

  /** The second of them closes what the first has opened. */
  lemma RaceEnds(e: int)
    ensures Run(State([OpenedAt(e, 0)], map[1 := Flight(e, 0, Checked)], [Punched(e, true, 0)], 0),
                [Tick(1), Look(1), Act(1, 1)])
            == State([Entry(e, 0, 0, Some(1), Manual, Confirmed, false)], map[],
                     [Punched(e, true, 0), Punched(e, false, 1)], 1)
  {
    var one := State([OpenedAt(e, 0)], map[1 := Flight(e, 0, Checked)], [Punched(e, true, 0)], 0);
    FirstSteps(one, Tick(1), Look(1), Act(1, 1));
    assert FindOpen([OpenedAt(e, 0)], e) == Some(0);
    assert Step(Step(one, Tick(1)), Look(1)).flights == map[1 := Flight(e, 1, Looked(Some(Seen(0, 0))))];
    hide Run, FindOpen;
  }

  lemma RaceOpens(begun: State, e: int)
    requires begun == State([], map[0 := Flight(e, 0, Checked), 1 := Flight(e, 0, Checked)], [], 0)
    ensures Step(Step(begun, Look(0)), Act(0, 0))
            == State([OpenedAt(e, 0)], map[1 := Flight(e, 0, Checked)], [Punched(e, true, 0)], 0)
  {
    var looked := Step(begun, Look(0));
    assert looked.flights == map[0 := Flight(e, 0, Looked(None)), 1 := Flight(e, 0, Checked)];
    assert looked.flights - {0} == map[1 := Flight(e, 0, Checked)];
  }

  lemma RaceSteps(begun: State, e: int)
    requires begun == State([], map[0 := Flight(e, 0, Checked), 1 := Flight(e, 0, Checked)], [], 0)
    ensures Run(begun, [Look(0), Act(0, 0), Tick(1), Look(1), Act(1, 1)])
            == State([Entry(e, 0, 0, Some(1), Manual, Confirmed, false)], map[],
                     [Punched(e, true, 0), Punched(e, false, 1)], 1)
  {
    hide Step, Run;
    FirstSteps(begun, Look(0), Act(0, 0), Tick(1));
    RaceOpens(begun, e);
    RunSplit(begun, [Look(0), Act(0, 0)], [Tick(1), Look(1), Act(1, 1)]);
    assert [Look(0), Act(0, 0)] + [Tick(1), Look(1), Act(1, 1)] == [Look(0), Act(0, 0), Tick(1), Look(1), Act(1, 1)];
    RaceEnds(e);
  }

  /** From an empty timesheet: two punches begun at once, and the entry closed the millisecond after it is opened. */
  lemma RaceExample(e: int)
    ensures var start := State([], map[], [], 0);
            var begun := Run(start, [Begin(0, e, 0), Begin(1, e, 0)]);
            && InStep(start, e) && InStep(begun, e) && Racing(begun, e)
            && Run(begun, [Look(0), Act(0, 0), Tick(1), Look(1), Act(1, 1)])
               == State([Entry(e, 0, 0, Some(1), Manual, Confirmed, false)], map[],
                        [Punched(e, true, 0), Punched(e, false, 1)], 1)
  {
    var start := State([], map[], [], 0);
    var one := Step(start, Begin(0, e, 0));
    var begun := Step(one, Begin(1, e, 0));
    FirstSteps(start, Begin(0, e, 0), Begin(1, e, 0), Tick(0));
    StartsInStep([], e, 0);
    BeginStaysInStep(start, e, 0, e, 0);
    BeginStaysInStep(one, e, 1, e, 0);
    assert Flies(begun, 0, e) && Flies(begun, 1, e);
    RaceSteps(begun, e);
  }
}
