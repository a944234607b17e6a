/** Learned source windows and payload budgets over whole runs. */
module SchedulerLimits {
  import opened Instants
  import opened Options
  import opened RetentionGap
  import opened SchedulerSpec

  // ---- What every reachable state keeps -------------------------------------------------

  predicate LearnedOk(c: Collector, learned: Duration)
  {
    learned == 0 || (c.adaptive && !c.Budgeted() && learned >= SECOND && WholeSecond(learned))
  }

  predicate BudgetOk(s: Settings, budget: Option<Reduced>)
  {
    budget.Some? ==> s.SmallestBudget() <= budget.value.bytes <= s.ConfiguredBudget()
  }

  /** A pinned window fits the current source-window limit. */
  predicate PinFits(c: Collector, e: Entry, st: State)
  {
    st.pin.Some? ==>
      && st.pin.value.from < st.pin.value.to
      && (c.adaptive ==> WholeSecond(st.pin.value.to))
      && (SourceWindowLimit(c, e, st) > 0 ==> st.pin.value.to - st.pin.value.from <= SourceWindowLimit(c, e, st))
  }

  predicate CursorOk(c: Collector, cursor: Option<Time>)
  {
    c.adaptive && cursor.Some? ==> WholeSecond(cursor.value)
  }

  predicate Bounded(s: Settings, c: Collector, e: Entry, st: State)
  {
    && LearnedOk(c, st.learned)
    && BudgetOk(s, st.budget)
    && PinFits(c, e, st)
    && CursorOk(c, st.cursor)
  }

  /** A window the scheduler may try: within the current limit, with whole-second ends for an
      adaptive collector. */
  predicate Offered(c: Collector, e: Entry, st: State, from: Time, to: Time)
  {
    && (SourceWindowLimit(c, e, st) > 0 ==> to - from <= SourceWindowLimit(c, e, st))
    && (c.adaptive ==> WholeSecond(from) && WholeSecond(to))
  }

  // ---- The two adjustments --------------------------------------------------------------

  /** A deadline failure of an offered window learns a limit of whole seconds, at least one
      second, never longer than before, and at most half of the window, of what had been learned and
      of the limit in force, unless that is less than a second; and it is the longest such. */
  lemma ReduceSourceWindowShrinks(c: Collector, e: Entry, st: State, from: Time, to: Time)
    requires c.adaptive && !c.Budgeted() && LearnedOk(c, st.learned) && Offered(c, e, st, from, to) && from < to
    ensures var next := ReduceSourceWindow(st, from, to);
      && next.learned > 0 && LearnedOk(c, next.learned)
      && (st.learned > 0 ==> next.learned <= st.learned && next.learned <= Max(SECOND, st.learned / 2))
      && next.learned <= Max(SECOND, (to - from) / 2)
      && (SourceWindowLimit(c, e, st) > 0 ==> next.learned <= Max(SECOND, SourceWindowLimit(c, e, st) / 2))
      && (next.learned != st.learned ==> (to - from) / 2 < (if next.learned == SECOND then 2 * SECOND else next.learned + SECOND))
      && (next.learned == st.learned ==> st.learned <= Max(SECOND, (to - from) / 2))
      && next == st.(learned := next.learned)
  {
  }

  /** The final clamp of the reduction never changes the result, and the reduced budget stays
      between its bounds. */
  lemma ReduceCommitBudgetClampIsDead(s: Settings, st: State, clock: Time)
    requires BudgetOk(s, st.budget)
    ensures Max(s.SmallestBudget(), CommitBudget(s, st) / 2) <= CommitBudget(s, st)
    ensures var next := ReduceCommitBudget(s, st, CommitBudget(s, st), clock);
      && BudgetOk(s, next.budget) && next.budget.Some?
      && CommitBudget(s, next) == Max(s.SmallestBudget(), CommitBudget(s, st) / 2)
  {
  }

  /** A success raises the budget only when nothing changed it for an hour, by doubling it or
      returning it to the configured one, and never above that. */
  lemma RestoreCommitBudgetWaits(s: Settings, st: State, clock: Time)
    requires BudgetOk(s, st.budget)
    ensures var next := RestoreCommitBudget(s, st, clock);
      && BudgetOk(s, next.budget)
      && CommitBudget(s, st) <= CommitBudget(s, next) <= Min(2 * CommitBudget(s, st), s.ConfiguredBudget())
      && (next != st ==>
            && st.budget.Some? && clock >= st.budget.value.since + HOUR
            && (next.budget.Some? ==> next.budget.value.since == clock))
      && (st.budget.Some? && clock >= st.budget.value.since + HOUR ==>
            CommitBudget(s, next) == Min(2 * CommitBudget(s, st), s.ConfiguredBudget()))
  {
  }

  // ---- Every reachable state is bounded -------------------------------------------------

  lemma SkipGapBounded(s: Settings, c: Collector, e: Entry, st: State, from: Time, to: Time, cause: Err,
                       w: WindowInputs)
    requires Bounded(s, c, e, st) && Offered(c, e, st, from, to)
    ensures var r := SkipGap(c, e, st, from, to, cause, w);
      && Bounded(s, c, e, r.state)
      && r.state.learned == st.learned && r.state.budget == st.budget
      && (forall t :: Persisted(t) in r.events ==> CursorOk(c, Some(t)))
      && (r.mark.Some? ==> r.mark == r.state.cursor)
  {
  }

  lemma FinishCommitBounded(s: Settings, c: Collector, e: Entry, st: State, from: Time, to: Time, mark: Time,
                            w: WindowInputs)
    requires Bounded(s, c, e, st) && Offered(c, e, st, from, to) && ValidMark(c, from, to, mark)
    ensures var r := FinishCommit(s, c, st, from, to, mark, if c.Budgeted() then CommitBudget(s, st) else 0, w);
      && Bounded(s, c, e, r.state)
      && (forall t :: Persisted(t) in r.events ==> CursorOk(c, Some(t)))
      && (r.mark.Some? ==> r.mark == r.state.cursor)
  {
    hide ReduceCommitBudget, RestoreCommitBudget, CommitBudget, SourceWindowLimit, ReduceSourceWindow;
    forall a: State, b: State | a.learned == b.learned ensures SourceWindowLimit(c, e, a) == SourceWindowLimit(c, e, b) {
      SameLimit(c, e, a, b);
    }
    if c.adaptive && !c.Budgeted() {
      ReduceSourceWindowShrinks(c, e, st, from, to);
    }
    ReduceCommitBudgetClampIsDead(s, st, w.clock);
    RestoreCommitBudgetWaits(s, st.(pin := None), w.clock);
    OnlyBudgetChanges(s, st, w.clock, CommitBudget(s, st));
    OnlyBudgetChanges(s, st.(pin := None), w.clock, 0);
  }

  lemma SameLimit(c: Collector, e: Entry, a: State, b: State)
    requires a.learned == b.learned
    ensures SourceWindowLimit(c, e, a) == SourceWindowLimit(c, e, b)
  {
  }

  lemma OnlyBudgetChanges(s: Settings, st: State, clock: Time, budget: int)
    ensures ReduceCommitBudget(s, st, budget, clock) == st.(budget := ReduceCommitBudget(s, st, budget, clock).budget)
    ensures RestoreCommitBudget(s, st, clock) == st.(budget := RestoreCommitBudget(s, st, clock).budget)
  {
  }

  lemma CommitWindowBounded(s: Settings, c: Collector, e: Entry, st: State, from: Time, to: Time, w: WindowInputs)
    requires Bounded(s, c, e, st) && Offered(c, e, st, from, to)
    ensures var r := CommitWindow(s, c, e, st, from, to, w);
      && Bounded(s, c, e, r.state)
      && (forall t :: Persisted(t) in r.events ==> CursorOk(c, Some(t)))
      && (r.mark.Some? ==> r.mark == r.state.cursor)
  {
    var (st1, to1) := Pinned(st, from, to);
    assert Bounded(s, c, e, st1) && Offered(c, e, st1, from, to1);
    hide SourceWindowLimit, FinishCommit, SkipGap;
    match w.collect(from, to1, if c.Budgeted() then CommitBudget(s, st1) else 0)
    case CollectFailed(err) =>
      SkipGapBounded(s, c, e, st1, from, to1, err, w);
    case Collected(mark) =>
      if ValidMark(c, from, to1, mark) {
        FinishCommitBounded(s, c, e, st1, from, to1, mark, w);
      }
  }

  lemma WindowEndOffered(c: Collector, e: Entry, st: State, from: Time, to: Time)
    requires c.adaptive ==> WholeSecond(from) && WholeSecond(to)
    requires c.adaptive ==> !(0 < SourceWindowLimit(c, e, st) < SECOND)
    ensures Offered(c, e, st, from, WindowEnd(SourceWindowLimit(c, e, st), from, to))
  {
  }

  lemma {:induction false} RunWindowsBounded(s: Settings, c: Collector, e: Entry, st: State, from: Time, to: Time,
                                             committed: nat, truncated: bool, windows: nat -> WindowInputs)
    requires Bounded(s, c, e, st) && (c.adaptive ==> WholeSecond(from) && WholeSecond(to))
    ensures var r := RunWindows(s, c, e, st, from, to, committed, truncated, windows);
      Bounded(s, c, e, r.state) && forall t :: Persisted(t) in r.events ==> CursorOk(c, Some(t))
    decreases MAX_WINDOWS_PER_TICK - committed
  {
    hide CommitWindow, SourceWindowLimit, PinFits;
    var limit := SourceWindowLimit(c, e, st);
    if committed >= MAX_WINDOWS_PER_TICK || from >= to || windows(committed).cancelledBefore
       || (c.adaptive && 0 < limit < SECOND)
       || (committed > 0 && !truncated && (limit <= 0 || to - from <= limit)) {
    } else {
      var windowTo := WindowEnd(limit, from, to);
      var step := CommitWindow(s, c, e, st, from, windowTo, windows(committed));
      WindowEndOffered(c, e, st, from, to);
      CommitWindowBounded(s, c, e, st, from, windowTo, windows(committed));
      if step.mark.Some? {
        var next := c.Budgeted() && step.mark.value < windowTo;
        RunWindowsBounded(s, c, e, step.state, step.mark.value, to, committed + 1, next, windows);
      }
    }
  }

  lemma TickBounded(s: Settings, c: Collector, e: Entry, st: State, t: TickInputs)
    requires Bounded(s, c, e, st)
    ensures var r := Tick(s, c, e, st, t);
      Bounded(s, c, e, r.state) && forall at :: Persisted(at) in r.events ==> CursorOk(c, Some(at))
  {
    hide RunWindows, SourceWindowLimit;
    if !t.cancelled {
      var to := UpperBound(c, t.now);
      if st.cursor.Some? {
        RunWindowsBounded(s, c, e, st, FloorSecond(st.cursor.value), to, 0, false, t.windows);
      } else if t.firstPersisted && e.initialLookback != 0 {
        var from := InitialFrom(c, e, to);
        PinFitsIgnoresCursor(c, e, st, Some(from));
        RunWindowsBounded(s, c, e, st.(cursor := Some(from)), from, to, 0, false, t.windows);
      } else {
        PinFitsIgnoresCursor(c, e, st, Some(to));
      }
    }
  }

  lemma PinFitsIgnoresCursor(c: Collector, e: Entry, st: State, cursor: Option<Time>)
    ensures SourceWindowLimit(c, e, st.(cursor := cursor)) == SourceWindowLimit(c, e, st)
  {
  }

  /** In every run: learned windows are whole seconds of at least one second; payload budgets stay
      between the smaller of the configured one and one export chunk, and the configured one; a
      pinned window fits the current limit; and an adaptive collector's durable cursors are whole
      seconds. */
  lemma {:induction false} AlwaysBounded(s: Settings, c: Collector, e: Entry, inputs: seq<RunInput>)
    ensures var r := Execute(s, c, e, inputs);
      Bounded(s, c, e, r.state) && forall t :: Persisted(t) in r.trace ==> CursorOk(c, Some(t))
  {
    if |inputs| > 0 {
      AlwaysBounded(s, c, e, inputs[..|inputs| - 1]);
      var before := Execute(s, c, e, inputs[..|inputs| - 1]);
      var last := inputs[|inputs| - 1];
      TickBounded(s, c, e, before.state, last.inputs);
      if last.Crashed? {
        CursorsArePersisted(before.trace + Prefix(Tick(s, c, e, before.state, last.inputs).events, last.calls));
      }
      hide Tick, PinFits;
      assert Bounded(s, c, e, Execute(s, c, e, inputs).state) by {
        FreshPinFits(c, e, Execute(s, c, e, inputs).state);
      }
    }
  }

  lemma FreshPinFits(c: Collector, e: Entry, st: State)
    ensures st.pin.None? ==> PinFits(c, e, st)
  {
  }

  lemma {:induction false} CursorsArePersisted(trace: Trace)
    ensures forall t :: t in Cursors(trace) ==> Persisted(t) in trace
  {
    if |trace| > 0 {
      CursorsArePersisted(trace[..|trace| - 1]);
    }
  }

  // ---- Deadline failures reach one second quickly ---------------------------------------

  function Timeouts(events: Trace): nat
  {
    if |events| == 0 then 0
    else (if events[0].Committed? && events[0].result.TimedOut? then 1 else 0) + Timeouts(events[1..])
  }

  lemma {:induction false} TimeoutsConcat(a: Trace, b: Trace)
    ensures Timeouts(a + b) == Timeouts(a) + Timeouts(b)
  {
    if |a| == 0 {
      assert a + b == b;
    } else {
      TimeoutsConcat(a[1..], b);
      assert (a + b)[1..] == a[1..] + b;
    }
  }

  /** A window halved k times, but never below one second. */
  function Halved(window: Duration, k: nat): Duration
    decreases k
  {
    if k == 0 then window else Halved(Max(SECOND, window / 2), k - 1)
  }

  lemma {:induction false} HalvedMonotone(a: Duration, b: Duration, k: nat)
    requires a <= b
    ensures Halved(a, k) <= Halved(b, k)
    decreases k
  {
    if k > 0 {
      HalvedMonotone(Max(SECOND, a / 2), Max(SECOND, b / 2), k - 1);
    }
  }

  lemma {:induction false} HalvedAdds(window: Duration, j: nat, k: nat)
    ensures Halved(Halved(window, j), k) == Halved(window, j + k)
    decreases j
  {
    if j > 0 {
      HalvedAdds(Max(SECOND, window / 2), j - 1, k);
    }
  }

  function Pow2(k: nat): nat { if k == 0 then 1 else 2 * Pow2(k - 1) }

  /** Logarithmically many halvings reach one second. */
  lemma {:induction false} HalvedReachesOneSecond(window: Duration, k: nat)
    requires SECOND <= window <= SECOND * Pow2(k)
    ensures Halved(window, k) == SECOND
    decreases k
  {
    if k > 0 {
      HalvedReachesOneSecond(Max(SECOND, window / 2), k - 1);
    }
  }

  /** How the learned window may move: never up once learned, and halved by each timeout. */
  predicate Shrinks(before: Duration, after: Duration, timeouts: nat)
  {
    before > 0 ==> 0 < after <= before && after <= Halved(before, timeouts)
  }

  lemma ShrinksChains(a: Duration, b: Duration, c: Duration, j: nat, k: nat)
    requires Shrinks(a, b, j) && Shrinks(b, c, k)
    ensures Shrinks(a, c, j + k)
  {
    if a > 0 {
      HalvedMonotone(b, Halved(a, j), k);
      HalvedAdds(a, j, k);
    }
  }

  lemma TimeoutsOfShort(events: Trace)
    requires |events| <= 2
    requires forall i :: 1 <= i < |events| ==> !events[i].Committed?
    ensures Timeouts(events) == if |events| > 0 && events[0].Committed? && events[0].result.TimedOut? then 1 else 0
  {
    if |events| > 0 {
      assert |events| == 2 ==> events[1..] == [events[1]] && Timeouts([events[1]]) == 0;
    }
  }

  lemma CommitWindowShrinks(s: Settings, c: Collector, e: Entry, st: State, from: Time, to: Time, w: WindowInputs)
    requires Bounded(s, c, e, st) && Offered(c, e, st, from, to)
    requires c.adaptive && !c.Budgeted()
    ensures var r := CommitWindow(s, c, e, st, from, to, w);
      Shrinks(st.learned, r.state.learned, Timeouts(r.events))
  {
    var (st1, to1) := Pinned(st, from, to);
    assert Bounded(s, c, e, st1) && Offered(c, e, st1, from, to1);
    hide CommitWindow;
    var r := CommitWindow(s, c, e, st, from, to, w);
    ShortTrace(s, c, e, st, from, to, w);
    TimeoutsOfShort(r.events);
    if r.events != [] && r.events[0].Committed? && r.events[0].result.TimedOut? {
      ReduceSourceWindowShrinks(c, e, st1, from, to1);
      assert Halved(st.learned, 1) == Max(SECOND, st.learned / 2);
    }
  }

  /** What one window reports, and when it learns. */
  lemma ShortTrace(s: Settings, c: Collector, e: Entry, st: State, from: Time, to: Time, w: WindowInputs)
    requires c.adaptive && !c.Budgeted()
    ensures var r := CommitWindow(s, c, e, st, from, to, w); var (st1, to1) := Pinned(st, from, to);
      && |r.events| <= 2 && (forall i :: 1 <= i < |r.events| ==> !r.events[i].Committed?)
      && r.state.learned ==
           (if r.events != [] && r.events[0].Committed? && r.events[0].result.TimedOut?
            then ReduceSourceWindow(st1, from, to1).learned else st.learned)
      && (r.events != [] && r.events[0].Committed? ==> from < to1)
  {
    hide GapMark, FirstGap, ReduceSourceWindow, CommitBudget;
  }

  lemma {:induction false} RunWindowsShrinks(s: Settings, c: Collector, e: Entry, st: State, from: Time, to: Time,
                                             committed: nat, truncated: bool, windows: nat -> WindowInputs)
    requires Bounded(s, c, e, st) && WholeSecond(from) && WholeSecond(to)
    requires c.adaptive && !c.Budgeted()
    ensures var r := RunWindows(s, c, e, st, from, to, committed, truncated, windows);
      Shrinks(st.learned, r.state.learned, Timeouts(r.events))
    decreases MAX_WINDOWS_PER_TICK - committed
  {
    hide CommitWindow, SourceWindowLimit, PinFits;
    var limit := SourceWindowLimit(c, e, st);
    if committed >= MAX_WINDOWS_PER_TICK || from >= to || windows(committed).cancelledBefore
       || 0 < limit < SECOND
       || (committed > 0 && !truncated && (limit <= 0 || to - from <= limit)) {
    } else {
      var windowTo := WindowEnd(limit, from, to);
      var step := CommitWindow(s, c, e, st, from, windowTo, windows(committed));
      WindowEndOffered(c, e, st, from, to);
      CommitWindowBounded(s, c, e, st, from, windowTo, windows(committed));
      CommitWindowShrinks(s, c, e, st, from, windowTo, windows(committed));
      if step.mark.Some? && step.mark.value > from {
        var rest := RunWindows(s, c, e, step.state, step.mark.value, to, committed + 1, false, windows);
        RunWindowsShrinks(s, c, e, step.state, step.mark.value, to, committed + 1, false, windows);
        TimeoutsConcat(step.events, rest.events);
        ShrinksChains(st.learned, step.state.learned, rest.state.learned, Timeouts(step.events), Timeouts(rest.events));
      }
    }
  }

  lemma TickShrinks(s: Settings, c: Collector, e: Entry, st: State, t: TickInputs)
    requires Bounded(s, c, e, st) && st.cursor.Some? && c.adaptive && !c.Budgeted()
    ensures var r := Tick(s, c, e, st, t);
      Shrinks(st.learned, r.state.learned, Timeouts(r.events))
  {
    hide RunWindows, SourceWindowLimit, PinFits;
    if !t.cancelled {
      RunWindowsShrinks(s, c, e, st, FloorSecond(st.cursor.value), UpperBound(c, t.now), 0, false, t.windows);
    }
  }

  lemma CommitWindowKeepsCursor(s: Settings, c: Collector, e: Entry, st: State, from: Time, to: Time, w: WindowInputs)
    requires st.cursor.Some?
    ensures CommitWindow(s, c, e, st, from, to, w).state.cursor.Some?
  {
    hide GapMark, FirstGap;
  }

  lemma {:induction false} RunWindowsKeepsCursor(s: Settings, c: Collector, e: Entry, st: State, from: Time, to: Time,
                                                 committed: nat, truncated: bool, windows: nat -> WindowInputs)
    requires st.cursor.Some?
    ensures RunWindows(s, c, e, st, from, to, committed, truncated, windows).state.cursor.Some?
    decreases MAX_WINDOWS_PER_TICK - committed
  {
    hide CommitWindow, SourceWindowLimit;
    var limit := SourceWindowLimit(c, e, st);
    var windowTo := WindowEnd(limit, from, to);
    var step := CommitWindow(s, c, e, st, from, windowTo, windows(committed));
    CommitWindowKeepsCursor(s, c, e, st, from, windowTo, windows(committed));
    if committed < MAX_WINDOWS_PER_TICK && step.mark.Some? {
      var next := c.Budgeted() && step.mark.value < windowTo;
      RunWindowsKeepsCursor(s, c, e, step.state, step.mark.value, to, committed + 1, next, windows);
    }
  }

  /** From any reachable state with a learned window, a process never lengthens it, and after k
      aggregate-deadline failures it is at most the learned window halved k times. */
  lemma {:induction false} DeadlinesHalve(s: Settings, c: Collector, e: Entry, st: State, ts: seq<TickInputs>)
    requires Bounded(s, c, e, st) && st.cursor.Some? && st.learned > 0
    ensures var r := Ticks(s, c, e, st, ts);
      && SECOND <= r.state.learned <= st.learned
      && r.state.learned <= Halved(st.learned, Timeouts(r.trace))
    ensures var r := Ticks(s, c, e, st, ts);
      Bounded(s, c, e, r.state) && r.state.cursor.Some?
  {
    hide Tick, PinFits;
    if |ts| > 0 {
      DeadlinesHalve(s, c, e, st, ts[..|ts| - 1]);
      var before := Ticks(s, c, e, st, ts[..|ts| - 1]);
      var t := ts[|ts| - 1];
      var step := Tick(s, c, e, before.state, t);
      TickBounded(s, c, e, before.state, t);
      TickShrinks(s, c, e, before.state, t);
      TickKeepsCursor(s, c, e, before.state, t);
      TimeoutsConcat(before.trace, step.events);
      ShrinksChains(st.learned, before.state.learned, step.state.learned, Timeouts(before.trace),
                    Timeouts(step.events));
    }
  }

  lemma TickKeepsCursor(s: Settings, c: Collector, e: Entry, st: State, t: TickInputs)
    requires st.cursor.Some?
    ensures Tick(s, c, e, st, t).state.cursor.Some?
  {
    RunWindowsKeepsCursor(s, c, e, st, FloorSecond(st.cursor.value), UpperBound(c, t.now), 0, false, t.windows);
  }

  /** After k aggregate-deadline failures of one process, with k the logarithm of the learned window in
      seconds, the learned window is one second. */
  lemma DeadlinesReachOneSecond(s: Settings, c: Collector, e: Entry, st: State, ts: seq<TickInputs>, k: nat)
    requires Bounded(s, c, e, st) && st.cursor.Some? && 0 < st.learned <= SECOND * Pow2(k)
    requires Timeouts(Ticks(s, c, e, st, ts).trace) >= k
    ensures Ticks(s, c, e, st, ts).state.learned == SECOND
  {
    hide Ticks, Pow2, Halved, PinFits;
    DeadlinesHalve(s, c, e, st, ts);
    HalvedEnough(st.learned, k, Timeouts(Ticks(s, c, e, st, ts).trace));
  }

  lemma HalvedEnough(window: Duration, k: nat, n: nat)
    requires SECOND <= window <= SECOND * Pow2(k) && n >= k
    ensures Halved(window, n) == SECOND
  {
    HalvedReachesOneSecond(window, k);
    HalvedAdds(window, k, n - k);
    OneSecondStays(n - k);
  }

  lemma {:induction false} OneSecondStays(k: nat)
    ensures Halved(SECOND, k) == SECOND
  {
    if k > 0 {
      OneSecondStays(k - 1);
    }
  }

  // ---- Budget increases ------------------------------------------------------------------

  /** One window's effect on the payload budget, at the clock its commit ended. */
  datatype BudgetStep = BudgetStep(before: Option<Reduced>, after: Option<Reduced>, clock: Time)

  function BudgetBytes(s: Settings, budget: Option<Reduced>): int { CommitBudget(s, FRESH.(budget := budget)) }

  predicate Raises(s: Settings, step: BudgetStep) { BudgetBytes(s, step.after) > BudgetBytes(s, step.before) }

  /** The windows of one tick, in order; they are those of RunWindows. */
  function RunSteps(s: Settings, c: Collector, e: Entry, st: State, from: Time, to: Time, committed: nat,
                    truncated: bool, windows: nat -> WindowInputs): seq<BudgetStep>
    decreases MAX_WINDOWS_PER_TICK - committed
  {
    var limit := SourceWindowLimit(c, e, st);
    if committed >= MAX_WINDOWS_PER_TICK || from >= to || windows(committed).cancelledBefore
       || (c.adaptive && 0 < limit < SECOND)
       || (committed > 0 && !truncated && (limit <= 0 || to - from <= limit)) then []
    else
      var windowTo := WindowEnd(limit, from, to);
      var step := CommitWindow(s, c, e, st, from, windowTo, windows(committed));
      var first := [BudgetStep(st.budget, step.state.budget, windows(committed).clock)];
      if step.mark.None? || step.mark.value <= from then first
      else first + RunSteps(s, c, e, step.state, step.mark.value, to, committed + 1,
                            c.Budgeted() && step.mark.value < windowTo, windows)
  }

  function TickSteps(s: Settings, c: Collector, e: Entry, st: State, t: TickInputs): seq<BudgetStep>
  {
    var to := UpperBound(c, t.now);
    if t.cancelled then []
    else if st.cursor.Some? then RunSteps(s, c, e, st, FloorSecond(st.cursor.value), to, 0, false, t.windows)
    else if !t.firstPersisted || e.initialLookback == 0 then []
    else
      var from := InitialFrom(c, e, to);
      RunSteps(s, c, e, st.(cursor := Some(from)), from, to, 0, false, t.windows)
  }

  function TicksSteps(s: Settings, c: Collector, e: Entry, st: State, ts: seq<TickInputs>): seq<BudgetStep>
  {
    if |ts| == 0 then []
    else
      var before := ts[..|ts| - 1];
      TicksSteps(s, c, e, st, before) + TickSteps(s, c, e, Ticks(s, c, e, st, before).state, ts[|ts| - 1])
  }

  /** A change remembers its clock, and a raise comes an hour after the change before it, at most
      doubles the budget and keeps to its bounds. */
  predicate Allowed(s: Settings, step: BudgetStep)
  {
    && BudgetOk(s, step.before) && BudgetOk(s, step.after)
    && (step.after == step.before || step.after.None? || step.after.value.since == step.clock)
    && (Raises(s, step) ==>
          && step.before.Some? && step.clock >= step.before.value.since + HOUR
          && BudgetBytes(s, step.after) <= 2 * BudgetBytes(s, step.before))
  }

  /** The steps lead from the one budget to the other, each allowed. */
  ghost predicate Leads(s: Settings, steps: seq<BudgetStep>, from: Option<Reduced>, to: Option<Reduced>)
  {
    && (forall i :: 0 <= i < |steps| ==> Allowed(s, steps[i]))
    && (forall i, j :: 0 <= i && j == i + 1 < |steps| ==> steps[i].after == steps[j].before)
    && (if |steps| == 0 then from == to else steps[0].before == from && steps[|steps| - 1].after == to)
  }

  lemma LeadsChains(s: Settings, a: seq<BudgetStep>, b: seq<BudgetStep>, x: Option<Reduced>, y: Option<Reduced>,
                    z: Option<Reduced>)
    requires Leads(s, a, x, y) && Leads(s, b, y, z)
    ensures Leads(s, a + b, x, z)
  {
    hide Allowed;
  }

  lemma CommitWindowAllowed(s: Settings, c: Collector, e: Entry, st: State, from: Time, to: Time, w: WindowInputs)
    requires BudgetOk(s, st.budget)
    ensures Allowed(s, BudgetStep(st.budget, CommitWindow(s, c, e, st, from, to, w).state.budget, w.clock))
  {
    hide GapMark, FirstGap, Strike, ReduceCommitBudget, RestoreCommitBudget, CommitBudget;
    var (pinned, to1) := Pinned(st, from, to);
    var cleared := pinned.(pin := None);
    ReduceCommitBudgetClampIsDead(s, pinned, w.clock);
    RestoreCommitBudgetWaits(s, cleared, w.clock);
    OnlyBudgetChanges(s, pinned, w.clock, CommitBudget(s, pinned));
    OnlyBudgetChanges(s, cleared, w.clock, 0);
    BudgetAlone(s, pinned);
    BudgetAlone(s, cleared);
    BudgetAlone(s, ReduceCommitBudget(s, pinned, CommitBudget(s, pinned), w.clock));
    BudgetAlone(s, RestoreCommitBudget(s, cleared, w.clock));
    ChangesRemember(s, pinned, CommitBudget(s, pinned), w.clock);
    ChangesRemember(s, cleared, 0, w.clock);
  }

  lemma BudgetAlone(s: Settings, st: State)
    ensures CommitBudget(s, st) == BudgetBytes(s, st.budget)
  {
  }

  lemma ChangesRemember(s: Settings, st: State, budget: int, clock: Time)
    ensures ReduceCommitBudget(s, st, budget, clock).budget.value.since == clock
    ensures var next := RestoreCommitBudget(s, st, clock).budget;
      next == st.budget || next.None? || next.value.since == clock
  {
  }

  lemma {:induction false} RunLeads(s: Settings, c: Collector, e: Entry, st: State, from: Time, to: Time,
                                    committed: nat, truncated: bool, windows: nat -> WindowInputs)
    requires BudgetOk(s, st.budget)
    ensures Leads(s, RunSteps(s, c, e, st, from, to, committed, truncated, windows), st.budget,
                  RunWindows(s, c, e, st, from, to, committed, truncated, windows).state.budget)
    decreases MAX_WINDOWS_PER_TICK - committed
  {
    hide CommitWindow, SourceWindowLimit, WindowEnd, Allowed, Leads, BudgetOk;
    var windowTo := WindowEnd(SourceWindowLimit(c, e, st), from, to);
    var step := CommitWindow(s, c, e, st, from, windowTo, windows(committed));
    var first := BudgetStep(st.budget, step.state.budget, windows(committed).clock);
    CommitWindowAllowed(s, c, e, st, from, windowTo, windows(committed));
    NoSteps(s, st.budget);
    OneStep(s, first);
    if committed < MAX_WINDOWS_PER_TICK && step.mark.Some? {
      StaysOk(s, first);
      var next := c.Budgeted() && step.mark.value < windowTo;
      RunLeads(s, c, e, step.state, step.mark.value, to, committed + 1, next, windows);
      LeadsChains(s, [first],
                  RunSteps(s, c, e, step.state, step.mark.value, to, committed + 1, next, windows), st.budget,
                  step.state.budget,
                  RunWindows(s, c, e, step.state, step.mark.value, to, committed + 1, next, windows).state.budget);
    }
  }

  lemma StaysOk(s: Settings, step: BudgetStep)
    requires Allowed(s, step)
    ensures BudgetOk(s, step.after)
  {
  }

  lemma TickLeads(s: Settings, c: Collector, e: Entry, st: State, t: TickInputs)
    requires BudgetOk(s, st.budget)
    ensures Leads(s, TickSteps(s, c, e, st, t), st.budget, Tick(s, c, e, st, t).state.budget)
  {
    var to := UpperBound(c, t.now);
    if st.cursor.Some? {
      RunLeads(s, c, e, st, FloorSecond(st.cursor.value), to, 0, false, t.windows);
    } else {
      var from := InitialFrom(c, e, to);
      RunLeads(s, c, e, st.(cursor := Some(from)), from, to, 0, false, t.windows);
    }
    hide RunWindows, RunSteps, Allowed;
  }

  /** The windows of any ticks lead from the first budget to the last, each within what is allowed. */
  lemma {:induction false} TicksLead(s: Settings, c: Collector, e: Entry, st: State, ts: seq<TickInputs>)
    requires BudgetOk(s, st.budget)
    ensures Leads(s, TicksSteps(s, c, e, st, ts), st.budget, Ticks(s, c, e, st, ts).state.budget)
  {
    hide Tick, TickSteps, Allowed, Leads;
    if |ts| == 0 {
      assert Leads(s, [], st.budget, st.budget) by { NoSteps(s, st.budget); }
    } else {
      var before := ts[..|ts| - 1];
      var middle := Ticks(s, c, e, st, before).state;
      TicksLead(s, c, e, st, before);
      LeadsOk(s, TicksSteps(s, c, e, st, before), st.budget, middle.budget);
      TickLeads(s, c, e, middle, ts[|ts| - 1]);
      LeadsChains(s, TicksSteps(s, c, e, st, before), TickSteps(s, c, e, middle, ts[|ts| - 1]), st.budget,
                  middle.budget, Tick(s, c, e, middle, ts[|ts| - 1]).state.budget);
    }
  }

  lemma OneStep(s: Settings, step: BudgetStep)
    requires Allowed(s, step)
    ensures Leads(s, [step], step.before, step.after)
  {
  }

  lemma NoSteps(s: Settings, budget: Option<Reduced>)
    ensures Leads(s, [], budget, budget)
  {
  }

  lemma LeadsOk(s: Settings, steps: seq<BudgetStep>, from: Option<Reduced>, to: Option<Reduced>)
    requires Leads(s, steps, from, to) && BudgetOk(s, from)
    ensures BudgetOk(s, to)
  {
    if |steps| > 0 {
      assert Allowed(s, steps[|steps| - 1]);
    }
  }

  /** After a raise, the budget remembers no change before it. */
  lemma {:induction false} ChangedSince(s: Settings, steps: seq<BudgetStep>, from: Option<Reduced>, to: Option<Reduced>,
                                        i: nat, j: nat)
    requires Leads(s, steps, from, to) && i < j < |steps| && Raises(s, steps[i])
    requires forall a, b :: 0 <= a < b < |steps| ==> steps[a].clock <= steps[b].clock
    ensures steps[j].before.Some? ==> steps[j].before.value.since >= steps[i].clock
    decreases j
  {
    assert steps[j - 1].after == steps[j].before && Allowed(s, steps[j - 1]);
    if j - 1 > i {
      ChangedSince(s, steps, from, to, i, j - 1);
    }
  }

  /** Over any ticks of one process whose clock never runs back, between one window that raises the
      payload budget and the next that does, whatever reductions happen meanwhile, at least an hour
      passes, and each raise at most doubles it. */
  lemma IncreasesAnHourApart(s: Settings, c: Collector, e: Entry, st: State, ts: seq<TickInputs>, i: nat, j: nat)
    requires BudgetOk(s, st.budget)
    requires var steps := TicksSteps(s, c, e, st, ts);
      && (forall a, b :: 0 <= a < b < |steps| ==> steps[a].clock <= steps[b].clock)
      && i < j < |steps| && Raises(s, steps[i]) && Raises(s, steps[j])
    ensures var steps := TicksSteps(s, c, e, st, ts);
      && steps[j].clock >= steps[i].clock + HOUR
      && BudgetBytes(s, steps[i].after) <= 2 * BudgetBytes(s, steps[i].before)
      && BudgetBytes(s, steps[j].after) <= 2 * BudgetBytes(s, steps[j].before)
  {
    var steps := TicksSteps(s, c, e, st, ts);
    var last := Ticks(s, c, e, st, ts).state.budget;
    TicksLead(s, c, e, st, ts);
    ChangedSince(s, steps, st.budget, last, i, j);
    assert Allowed(s, steps[i]) && Allowed(s, steps[j]);
  }
}
