/**
 * The daily work window with its break, and how a half-day leave request cuts
 * that window in two. Clock times are seconds of the day; the cut may fall on
 * half a second, so it is kept in half-seconds until it is printed.
 */
module HalfDay {
  import opened Prelude
  import opened Text
  import opened ClockTime

  datatype Portion = Full | FirstHalf | SecondHalf

  datatype WorkWindow = WorkWindow(expectedIn: nat, expectedOut: nat, breakMinutes: int, breakStart: Option<nat>)

  datatype WindowError = OutNotAfterIn | NegativeBreak | BreakStartMissing | BreakBeforeIn | BreakAfterOut

  /** `WorkSchedule.assertSchedule`: the first rule the window breaks, in the order it is checked. */
  function AssertSchedule(w: WorkWindow): (e: Option<WindowError>)
    ensures e.None? <==> ValidWindow(w)
  {
    if w.expectedOut <= w.expectedIn then Some(OutNotAfterIn)
    else if w.breakMinutes < 0 then Some(NegativeBreak)
    else if w.breakMinutes > 0 && w.breakStart.None? then Some(BreakStartMissing)
    else if w.breakStart.None? then None
    else if w.breakStart.value < w.expectedIn then Some(BreakBeforeIn)
    else if w.breakStart.value + w.breakMinutes * 60 > w.expectedOut then Some(BreakAfterOut)
    else None
  }

  predicate ValidWindow(w: WorkWindow) {
    && w.expectedIn < w.expectedOut
    && 0 <= w.breakMinutes
    && match w.breakStart
       case None => w.breakMinutes == 0
       case Some(start) => w.expectedIn <= start && start + BreakSeconds(w) <= w.expectedOut
  }

  function BreakSeconds(w: WorkWindow): int {
    w.breakMinutes * 60
  }

  /** Seconds of work in the whole day. */
  function WorkSeconds(w: WorkWindow): int {
    w.expectedOut - w.expectedIn - BreakSeconds(w)
  }

  /** The instant, in half-seconds, where the second half of the work begins. */
  function SplitHalfSeconds(w: WorkWindow): (split: nat)
    requires ValidWindow(w)
    ensures 2 * w.expectedIn <= split <= 2 * w.expectedOut
  {
    var half := 2 * w.expectedIn + WorkSeconds(w);
    if w.breakStart.None? || WorkSeconds(w) <= 2 * (w.breakStart.value - w.expectedIn) then half
    else half + 2 * BreakSeconds(w)
  }

  datatype ClockWindow = ClockWindow(start: nat, end: nat)

  /** `halfDayWindow`: the clock window of one half, in the whole seconds that get printed. */
  function HalfWindow(w: WorkWindow, portion: Portion): (c: ClockWindow)
    requires ValidWindow(w) && portion != Full
    ensures w.expectedIn <= c.start <= c.end <= w.expectedOut
  {
    var split := RoundHalfSeconds(SplitHalfSeconds(w));
    if portion == FirstHalf then ClockWindow(w.expectedIn, split) else ClockWindow(split, w.expectedOut)
  }

  /** How much of the break lies in `[from, to]`, measured in half-seconds. */
  function BreakOverlap(w: WorkWindow, from: int, to: int): int
    requires ValidWindow(w)
  {
    if w.breakStart.None? then 0
    else
      var lo := if from < 2 * w.breakStart.value then 2 * w.breakStart.value else from;
      var breakEnd := 2 * (w.breakStart.value + BreakSeconds(w));
      var hi := if to < breakEnd then to else breakEnd;
      if lo < hi then hi - lo else 0
  }

  /** Half-seconds of work inside `[from, to]`. */
  function WorkInside(w: WorkWindow, from: int, to: int): int
    requires ValidWindow(w)
  {
    to - from - BreakOverlap(w, from, to)
  }

  /** The two printed halves meet at one instant and cover exactly the work window. */
  lemma HalvesTile(w: WorkWindow)
    requires ValidWindow(w)
    ensures HalfWindow(w, FirstHalf).start == w.expectedIn
    ensures HalfWindow(w, FirstHalf).end == HalfWindow(w, SecondHalf).start
    ensures HalfWindow(w, SecondHalf).end == w.expectedOut
    ensures w.breakStart.Some? ==>
              || w.breakStart.value + BreakSeconds(w) <= HalfWindow(w, FirstHalf).end
              || HalfWindow(w, SecondHalf).start <= w.breakStart.value
  {
  }

  /**
   * Before printing, each half holds exactly half of the work. The printed
   * boundary is exact when the work is an even number of seconds and half a
   * second late otherwise.
   */
  lemma HalvesShareTheWork(w: WorkWindow)
    requires ValidWindow(w)
    ensures WorkInside(w, 2 * w.expectedIn, SplitHalfSeconds(w)) == WorkSeconds(w)
    ensures WorkInside(w, SplitHalfSeconds(w), 2 * w.expectedOut) == WorkSeconds(w)
    ensures 2 * HalfWindow(w, FirstHalf).end
            == SplitHalfSeconds(w) + (if WorkSeconds(w) % 2 == 0 then 0 else 1)
    ensures var first := HalfWindow(w, FirstHalf);
            WorkInside(w, 2 * first.start, 2 * first.end)
            == WorkSeconds(w) + (if WorkSeconds(w) % 2 == 0 then 0 else 1)
    ensures var second := HalfWindow(w, SecondHalf);
            WorkInside(w, 2 * second.start, 2 * second.end)
            == WorkSeconds(w) - (if WorkSeconds(w) % 2 == 0 then 0 else 1)
  {
  }

  /** The second half begins at the first instant with half of the work behind it, before a break that starts there. */
  lemma SplitIsEarliest(w: WorkWindow, x: int)
    requires ValidWindow(w) && 2 * w.expectedIn <= x < SplitHalfSeconds(w)
    ensures WorkInside(w, 2 * w.expectedIn, x) < WorkInside(w, 2 * w.expectedIn, SplitHalfSeconds(w)) == WorkSeconds(w)
  {
  }

  /** The constructor of the stored half-day window: what it accepts on reload. */
  predicate AcceptsOnReload(portion: Portion, start: Option<string>, end: Option<string>) {
    if portion == Full then start.None? && end.None?
    else start.Some? && end.Some? && StringBefore(start.value, end.value)
  }

  /** A full day carries no times, a half day an ordered pair of them. */
  lemma ReloadDemands(portion: Portion, start: Option<string>, end: Option<string>)
    ensures AcceptsOnReload(portion, start, end) <==>
              match (start, end)
              case (None, None) => portion == Full
              case (Some(from), Some(to)) => portion != Full && StringBefore(from, to)
              case _ => false
  {
  }

  function StoredStart(w: WorkWindow, portion: Portion): Option<string>
    requires ValidWindow(w) && w.expectedOut < CLOCK_LIMIT
  {
    if portion == Full then None else Some(ToClock(HalfWindow(w, portion).start))
  }

  function StoredEnd(w: WorkWindow, portion: Portion): Option<string>
    requires ValidWindow(w) && w.expectedOut < CLOCK_LIMIT
  {
    if portion == Full then None else Some(ToClock(HalfWindow(w, portion).end))
  }

  /** The schedules whose half-day, once stored, can be loaded again. */
  predicate EnoughWork(w: WorkWindow, portion: Portion) {
    match portion
    case Full => true
    case FirstHalf => WorkSeconds(w) >= 1
    case SecondHalf =>
      || WorkSeconds(w) != 1
      || (w.breakMinutes > 0 && w.breakStart.Some? && w.breakStart.value > w.expectedIn)
  }

  /**
   * A stored half-day passes its own constructor on reload exactly when the
   * schedule has enough work; two seconds of work are always enough.
   */
  lemma StoredHalfReloads(w: WorkWindow, portion: Portion)
    requires ValidWindow(w) && w.expectedOut < CLOCK_LIMIT
    ensures AcceptsOnReload(portion, StoredStart(w, portion), StoredEnd(w, portion)) <==> EnoughWork(w, portion)
    ensures WorkSeconds(w) >= 2 ==> EnoughWork(w, portion)
  {
    if portion != Full {
      var c := HalfWindow(w, portion);
      ClockOrder(c.start, c.end);
    }
  }

  /** A one-second schedule without a break: its second half is stored but can never be loaded. */
  lemma OneSecondScheduleDoesNotReload()
    ensures var w := WorkWindow(32400, 32401, 0, None);
            && ValidWindow(w)
            && !AcceptsOnReload(SecondHalf, StoredStart(w, SecondHalf), StoredEnd(w, SecondHalf))
  {
    StoredHalfReloads(WorkWindow(32400, 32401, 0, None), SecondHalf);
  }
}
