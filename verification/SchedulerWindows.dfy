/** Which windows a tick tries, what it asks and how far it gets. */
module SchedulerWindows {
  import opened Instants
  import opened Options
  import opened RetentionGap
  import opened SchedulerSpec
  import SchedulerLimits

  // ---- The settled bound ----------------------------------------------------------------

  /** Source data is complete up to the clock less the collector's lag at that clock. */
  function Settled(c: Collector, t: TickInputs): Time { t.now - c.lagAt(t.now) }

  /** The last whole second at or before an instant. */
  predicate LastSecond(x: Time, bound: Time) { x % SECOND == 0 && x <= bound < x + SECOND }

  /** How far an event reaches. */
  function Reach(event: Event): Time
  {
    match event
    case Committed(_, to, _, _) => to
    case GapReported(_, mark, _) => mark
    case Persisted(at) => at
    case Restarted => 0
  }

  function PinEnd(st: State, otherwise: Time): Time { if st.pin.Some? then st.pin.value.to else otherwise }

  predicate IsPinned(st: State, event: Event)
  {
    event.Committed? && st.pin.Some? && event.from == st.pin.value.from && event.to == st.pin.value.to
  }

  /** Nothing reaches past the bound, except a pinned window past it to its own end. */
  ghost predicate Within(events: Trace, st: State, bound: Time)
  {
    forall ev :: ev in events && !ev.Restarted? ==> Reach(ev) <= Max(bound, PinEnd(st, bound))
  }

  /** A commit is of the pinned window, or ends at the bound, or is as long as the limit and inside it. */
  ghost predicate Cut(events: Trace, st: State, bound: Time, limit: Duration)
  {
    forall ev :: ev in events && ev.Committed? ==>
      IsPinned(st, ev) || ev.to == bound || (limit > 0 && ev.to == ev.from + limit && ev.to <= bound)
  }

  /** A window's end: the pinned one when a rejection of this start is waiting. */
  function EndOf(st: State, from: Time, to: Time): Time
  {
    if st.pin.Some? && st.pin.value.from == from then st.pin.value.to else to
  }

  /** One commit or gap report at most, and then one durable cursor at most, inside the window. */
  ghost predicate Shape(st: State, from: Time, end: Time, r: WindowStep)
  {
    && |r.events| <= 2
    && (r.events != [] ==>
          || (r.events[0].Committed? && r.events[0].from == from && r.events[0].to == end)
          || (r.events[0].GapReported? && r.events[0].from == from < r.events[0].mark <= end))
    && (r.mark.Some? ==>
          && |r.events| == 2 && r.events[1] == Persisted(r.mark.value) && from < r.mark.value <= end
          && r.state.cursor == r.mark && r.state.pin == None && r.state.learned == st.learned)
    && (r.mark.None? ==> |r.events| <= 1 && r.state.cursor == st.cursor)
    && PinFrom(st, r.events, r.state)
  }

  /** A pin is the old one or that of a window committed now. */
  ghost predicate PinFrom(st: State, events: Trace, after: State)
  {
    after.pin.Some? ==> after.pin == st.pin || exists ev :: ev in events && ev.Committed? && ev.to == after.pin.value.to
  }

  lemma FinishShape(s: Settings, c: Collector, st: State, from: Time, to: Time, mark: Time, budget: int, w: WindowInputs)
    requires from < mark <= to
    ensures Shape(st, from, to, FinishCommit(s, c, st, from, to, mark, budget, w))
  {
    hide Strike;
  }

  lemma SkipShape(c: Collector, e: Entry, st: State, from: Time, to: Time, cause: Err, w: WindowInputs)
    ensures Shape(st, from, to, SkipGap(c, e, st, from, to, cause, w))
  {
    hide GapFloor;
  }

  lemma WindowShape(s: Settings, c: Collector, e: Entry, st: State, from: Time, to: Time, w: WindowInputs)
    ensures Shape(st, from, EndOf(st, from, to), CommitWindow(s, c, e, st, from, to, w))
  {
    var (pinned, end) := Pinned(st, from, to);
    var budget := if c.Budgeted() then CommitBudget(s, pinned) else 0;
    match w.collect(from, end, budget)
    case CollectFailed(err) => SkipShape(c, e, pinned, from, end, err, w);
    case Collected(mark) =>
      if ValidMark(c, from, end, mark) {
        FinishShape(s, c, pinned, from, end, mark, budget, w);
      }
    hide SkipGap, FinishCommit, FirstGap, CommitBudget;
  }

  lemma WindowWithin(s: Settings, c: Collector, e: Entry, st: State, from: Time, to: Time, w: WindowInputs)
    ensures var r := CommitWindow(s, c, e, st, from, to, w);
      && Within(r.events, st, to) && PinFrom(st, r.events, r.state)
      && (forall ev :: ev in r.events && ev.Committed? ==> ev.from == from && (IsPinned(st, ev) || ev.to == to))
      && (r.mark.Some? ==> r.state.pin == None && r.state.learned == st.learned)
  {
    WindowShape(s, c, e, st, from, to, w);
    hide CommitWindow;
  }

  lemma {:induction false} WindowsWithin(s: Settings, c: Collector, e: Entry, st: State, from: Time, to: Time,
                                         committed: nat, truncated: bool, windows: nat -> WindowInputs)
    ensures var r := RunWindows(s, c, e, st, from, to, committed, truncated, windows);
      Within(r.events, st, to) && PinFrom(st, r.events, r.state) && Cut(r.events, st, to, SourceWindowLimit(c, e, st))
    decreases MAX_WINDOWS_PER_TICK - committed
  {
    hide CommitWindow, SourceWindowLimit;
    var limit := SourceWindowLimit(c, e, st);
    var windowTo := WindowEnd(limit, from, to);
    var step := CommitWindow(s, c, e, st, from, windowTo, windows(committed));
    WindowWithin(s, c, e, st, from, windowTo, windows(committed));
    if committed < MAX_WINDOWS_PER_TICK && from < to && step.mark.Some? {
      var next := c.Budgeted() && step.mark.value < windowTo;
      SchedulerLimits.SameLimit(c, e, st, step.state);
      WindowsWithin(s, c, e, step.state, step.mark.value, to, committed + 1, next, windows);
    }
  }

  lemma WindowsStart(s: Settings, c: Collector, e: Entry, st: State, from: Time, to: Time, committed: nat,
                     truncated: bool, windows: nat -> WindowInputs)
    ensures var r := RunWindows(s, c, e, st, from, to, committed, truncated, windows);
      r.events != [] ==> !r.events[0].Persisted? && !r.events[0].Restarted? && r.events[0].from == from
  {
    hide CommitWindow, SourceWindowLimit;
    WindowShape(s, c, e, st, from, WindowEnd(SourceWindowLimit(c, e, st), from, to), windows(committed));
  }

  /** Every window of a tick ends at the last whole second that has settled, or is as long as the limit and
      has settled, or is the pinned one; and nothing the tick does reaches past the settled instant but a
      window pinned before. */
  lemma TickSettles(s: Settings, c: Collector, e: Entry, st: State, t: TickInputs)
    requires e.initialLookback >= 0
    ensures var r := Tick(s, c, e, st, t); var settled := Settled(c, t);
      && Within(r.events, st, settled) && PinFrom(st, r.events, r.state)
      && (forall ev :: ev in r.events && ev.Committed? ==>
            || IsPinned(st, ev)
            || LastSecond(ev.to, settled)
            || (SourceWindowLimit(c, e, st) > 0 && ev.to == ev.from + SourceWindowLimit(c, e, st) && ev.to <= settled))
      && (st.cursor.Some? && r.events != [] ==>
            !r.events[0].Persisted? && !r.events[0].Restarted? && LastSecond(r.events[0].from, st.cursor.value))
  {
    hide RunWindows, SourceWindowLimit;
    var to := UpperBound(c, t.now);
    if st.cursor.Some? {
      WindowsWithin(s, c, e, st, FloorSecond(st.cursor.value), to, 0, false, t.windows);
      WindowsStart(s, c, e, st, FloorSecond(st.cursor.value), to, 0, false, t.windows);
    } else {
      var from := InitialFrom(c, e, to);
      SchedulerLimits.SameLimit(c, e, st, st.(cursor := Some(from)));
      WindowsWithin(s, c, e, st.(cursor := Some(from)), from, to, 0, false, t.windows);
    }
  }

  /** The first cursor of a collector is the last settled whole second less the lookback, in whole seconds
      for an adaptive collector. */
  lemma FirstCursor(s: Settings, c: Collector, e: Entry, st: State, t: TickInputs)
    requires st.cursor.None? && !t.cancelled
    ensures var r := Tick(s, c, e, st, t); var settled := Settled(c, t);
      if !t.firstPersisted then r.events == []
      else
        && r.events != [] && r.events[0].Persisted?
        && var at := r.events[0].at;
        if e.initialLookback == 0 then r.events == [Persisted(at)] && LastSecond(at, settled)
        else if !c.adaptive then LastSecond(at + e.initialLookback, settled)
        else at % SECOND == 0 && at <= settled - e.initialLookback < at + 2 * SECOND
  {
    hide RunWindows;
  }

  // ---- Over runs ------------------------------------------------------------------------

  /** The instant had settled for some tick of the run. */
  ghost predicate HadSettled(c: Collector, inputs: seq<RunInput>, x: Time)
  {
    exists i :: 0 <= i < |inputs| && !inputs[i].inputs.cancelled && x <= Settled(c, inputs[i].inputs)
  }

  lemma StillSettled(c: Collector, inputs: seq<RunInput>, x: Time)
    requires |inputs| > 0 && HadSettled(c, inputs[..|inputs| - 1], x)
    ensures HadSettled(c, inputs, x)
  {
    var before := inputs[..|inputs| - 1];
    var i :| 0 <= i < |before| && !before[i].inputs.cancelled && x <= Settled(c, before[i].inputs);
    assert inputs[i] == before[i];
  }

  lemma LowerSettled(c: Collector, inputs: seq<RunInput>, x: Time, y: Time)
    requires HadSettled(c, inputs, x) && y <= x
    ensures HadSettled(c, inputs, y)
  {
    var i :| 0 <= i < |inputs| && !inputs[i].inputs.cancelled && x <= Settled(c, inputs[i].inputs);
    assert y <= Settled(c, inputs[i].inputs);
  }

  /** In any run, with any clock values, failures and crashes, no window that was committed, skipped or
      made durable reaches past what had settled, at the collector's lag, for some tick before. */
  lemma {:induction false} NothingUnsettled(s: Settings, c: Collector, e: Entry, inputs: seq<RunInput>)
    requires e.initialLookback >= 0
    ensures var r := Execute(s, c, e, inputs);
      && (forall ev :: ev in r.trace && !ev.Restarted? ==> HadSettled(c, inputs, Reach(ev)))
      && (r.state.pin.Some? ==> HadSettled(c, inputs, r.state.pin.value.to))
  {
    if |inputs| > 0 {
      var last := inputs[|inputs| - 1];
      var before := Execute(s, c, e, inputs[..|inputs| - 1]);
      NothingUnsettled(s, c, e, inputs[..|inputs| - 1]);
      TickSettles(s, c, e, before.state, last.inputs);
      hide Tick, HadSettled, Settled;
      var events := Tick(s, c, e, before.state, last.inputs).events;
      forall ev | ev in before.trace && !ev.Restarted? ensures HadSettled(c, inputs, Reach(ev)) {
        StillSettled(c, inputs, Reach(ev));
      }
      if before.state.pin.Some? {
        StillSettled(c, inputs, before.state.pin.value.to);
      }
      NothingOfCancelled(s, c, e, before.state, last.inputs);
      forall ev | ev in events && !ev.Restarted? ensures HadSettled(c, inputs, Reach(ev)) {
        SettledNow(c, inputs);
        LowerSettled(c, inputs, Max(Settled(c, last.inputs), PinEnd(before.state, Settled(c, last.inputs))), Reach(ev));
      }
    }
  }

  lemma NothingOfCancelled(s: Settings, c: Collector, e: Entry, st: State, t: TickInputs)
    ensures t.cancelled ==> Tick(s, c, e, st, t) == TickStep(st, [], false)
  {
  }

  lemma SettledNow(c: Collector, inputs: seq<RunInput>)
    requires |inputs| > 0 && !inputs[|inputs| - 1].inputs.cancelled
    ensures HadSettled(c, inputs, Settled(c, inputs[|inputs| - 1].inputs))
  {
  }

  // ---- The limit in force ---------------------------------------------------------------

  /** The limit is the tighter of the configured window and what an adaptive collector has learned, in whole
      seconds if that leaves any. */
  lemma LimitIsTightest(c: Collector, e: Entry, st: State)
    ensures var limit := SourceWindowLimit(c, e, st);
      && (e.maxWindow > 0 ==> limit <= e.maxWindow)
      && (c.adaptive && st.learned > 0 ==> limit <= st.learned)
      && (c.adaptive && limit >= SECOND ==> limit % SECOND == 0)
      && (limit > 0 ==>
            || (e.maxWindow > 0 && e.maxWindow < limit + (if c.adaptive then SECOND else 1))
            || (c.adaptive && st.learned > 0 && st.learned < limit + SECOND))
      && (limit <= 0 ==> e.maxWindow <= 0 && (c.adaptive ==> st.learned <= 0))
  {
  }

  // ---- How far a tick gets --------------------------------------------------------------

  /** How many durable cursors the events wrote. */
  function Marks(events: Trace): nat
  {
    if |events| == 0 then 0 else Marks(events[..|events| - 1]) + if events[|events| - 1].Persisted? then 1 else 0
  }

  lemma {:induction false} MarksConcat(a: Trace, b: Trace)
    ensures Marks(a + b) == Marks(a) + Marks(b)
  {
    if |b| == 0 {
      assert a + b == a;
    } else {
      MarksConcat(a, b[..|b| - 1]);
      assert (a + b)[..|a + b| - 1] == a + b[..|b| - 1];
    }
  }

  predicate EndsWithMark(events: Trace)
  {
    |events| >= 2 && (events[|events| - 2].Committed? || events[|events| - 2].GapReported?)
  }

  /** Where the last window with a mark was to end. */
  function LastEnd(events: Trace, to: Time, limit: Duration): Time
    requires EndsWithMark(events)
  {
    var from := events[|events| - 2].from;
    if limit > 0 && to - from > limit then from + limit else to
  }

  /** A tick that ended well got to the bound, or made four windows, or left less than one window more
      after a window that its collector did not cut short. */
  ghost predicate GotFar(c: Collector, r: TickStep, made: nat, to: Time, limit: Duration)
    requires r.state.cursor.Some?
  {
    var cursor := r.state.cursor.value;
    || cursor >= to
    || made == 4
    || (made > 0 && (limit <= 0 || to - cursor <= limit)
        && (c.adaptive && c.budgetable && EndsWithMark(r.events) ==> cursor >= LastEnd(r.events, to, limit)))
  }

  lemma WindowMarks(s: Settings, c: Collector, e: Entry, st: State, from: Time, to: Time, w: WindowInputs)
    ensures var r := CommitWindow(s, c, e, st, from, to, w);
      && Marks(r.events) == (if r.mark.Some? then 1 else 0)
      && (r.mark.Some? ==>
            && r.mark.value > from && r.state.cursor == r.mark && r.state.learned == st.learned && |r.events| == 2
            && (r.events[0].Committed? || r.events[0].GapReported?) && r.events[0].from == from
            && r.events[1] == Persisted(r.mark.value))
      && (r.mark.None? ==> r.state.cursor == st.cursor)
  {
    WindowShape(s, c, e, st, from, to, w);
    hide CommitWindow, Marks;
    var r := CommitWindow(s, c, e, st, from, to, w);
    NoMarks();
    if |r.events| == 1 {
      OneMark(r.events[0]);
      assert r.events == [r.events[0]];
    } else if |r.events| == 2 {
      OneMark(r.events[0]);
      OneMark(r.events[1]);
      MarksConcat([r.events[0]], [r.events[1]]);
      assert r.events == [r.events[0]] + [r.events[1]];
    }
  }

  lemma OneMark(event: Event)
    ensures Marks([event]) == if event.Persisted? then 1 else 0
  {
    assert [event][..0] == [];
  }

  /** After a window with a mark, what follows may be nothing or more windows. */
  lemma FarAfter(c: Collector, step: WindowStep, rest: TickStep, from: Time, made: nat, to: Time, limit: Duration)
    requires |step.events| == 2 && step.mark.Some? && step.events[1] == Persisted(step.mark.value)
    requires (step.events[0].Committed? || step.events[0].GapReported?) && step.events[0].from == from
    requires step.state.cursor == step.mark && rest.state.cursor.Some? && rest.ok
    requires rest.events != [] ==> GotFar(c, rest, made, to, limit)
    requires rest.events == [] ==> rest.state == step.state
    requires var cursor := step.mark.value;
      rest.events != [] || cursor >= to || made == 4
      || (made > 0 && !(c.Budgeted() && cursor < WindowEnd(limit, from, to)) && (limit <= 0 || to - cursor <= limit))
    ensures GotFar(c, TickStep(rest.state, step.events + rest.events, rest.ok), made, to, limit)
  {
    if rest.events == [] {
      assert step.events + [] == step.events;
    } else {
      EndsAlike(step.events, rest.events, to, limit);
    }
  }

  lemma {:induction false} WindowsReach(s: Settings, c: Collector, e: Entry, st: State, from: Time, to: Time,
                                        committed: nat, truncated: bool, windows: nat -> WindowInputs)
    requires st.cursor.Some? && committed <= 4
    ensures var r := RunWindows(s, c, e, st, from, to, committed, truncated, windows);
      && r.state.cursor.Some? && Marks(r.events) + committed <= 4
      && (r.ok && r.events != [] ==> GotFar(c, r, committed + Marks(r.events), to, SourceWindowLimit(c, e, st)))
      && (r.ok && r.events == [] ==>
            r.state == st && (from >= to || committed == 4 || (committed > 0 && !truncated
            && (SourceWindowLimit(c, e, st) <= 0 || to - from <= SourceWindowLimit(c, e, st)))))
    decreases 4 - committed
  {
    hide CommitWindow, SourceWindowLimit, Marks, GotFar, WindowEnd;
    NoMarks();
    var limit := SourceWindowLimit(c, e, st);
    var windowTo := WindowEnd(limit, from, to);
    var step := CommitWindow(s, c, e, st, from, windowTo, windows(committed));
    WindowMarks(s, c, e, st, from, windowTo, windows(committed));
    if committed < 4 && from < to && step.mark.Some? {
      var next := c.Budgeted() && step.mark.value < windowTo;
      var rest := RunWindows(s, c, e, step.state, step.mark.value, to, committed + 1, next, windows);
      SchedulerLimits.SameLimit(c, e, st, step.state);
      WindowsReach(s, c, e, step.state, step.mark.value, to, committed + 1, next, windows);
      MarksConcat(step.events, rest.events);
      if rest.ok {
        FarAfter(c, step, rest, from, committed + 1 + Marks(rest.events), to, limit);
      }
    }
  }

  lemma {:induction false} WindowsNotCancelled(s: Settings, c: Collector, e: Entry, st: State, from: Time, to: Time,
                                               committed: nat, truncated: bool, windows: nat -> WindowInputs)
    requires committed <= 4
    ensures var r := RunWindows(s, c, e, st, from, to, committed, truncated, windows);
      && (forall k: nat :: committed <= k < committed + Marks(r.events) ==> !windows(k).cancelledBefore)
      && (committed < 4 && from < to && windows(committed).cancelledBefore ==> r == TickStep(st, [], false))
    decreases 4 - committed
  {
    hide CommitWindow, SourceWindowLimit, Marks, WindowEnd;
    NoMarks();
    var windowTo := WindowEnd(SourceWindowLimit(c, e, st), from, to);
    var step := CommitWindow(s, c, e, st, from, windowTo, windows(committed));
    WindowMarks(s, c, e, st, from, windowTo, windows(committed));
    if committed < 4 && step.mark.Some? {
      var next := c.Budgeted() && step.mark.value < windowTo;
      WindowsNotCancelled(s, c, e, step.state, step.mark.value, to, committed + 1, next, windows);
      MarksConcat(step.events, RunWindows(s, c, e, step.state, step.mark.value, to, committed + 1, next, windows).events);
    }
  }

  lemma EndsAlike(a: Trace, b: Trace, to: Time, limit: Duration)
    requires |a| > 0 && a[|a| - 1].Persisted?
    ensures |b| > 0 && EndsWithMark(a + b) ==> EndsWithMark(b) && LastEnd(a + b, to, limit) == LastEnd(b, to, limit)
  {
  }

  lemma NoMarks()
    ensures Marks([]) == 0
  {
  }

  /** No window follows a cancellation. A tick that ends well has brought the cursor to the last settled
      whole second, or made four windows, or left less than one window for the next tick after one that its
      collector did not cut short; and no tick makes more than four. */
  lemma TickReaches(s: Settings, c: Collector, e: Entry, st: State, t: TickInputs)
    requires st.cursor.Some?
    ensures var r := Tick(s, c, e, st, t);
      && r.state.cursor.Some? && Marks(r.events) <= 4
      && (forall k: nat :: k < Marks(r.events) ==> !t.windows(k).cancelledBefore)
      && (t.cancelled ==> r == TickStep(st, [], false))
      && (r.ok ==> exists to :: LastSecond(to, Settled(c, t)) && GotFar(c, r, Marks(r.events), to, SourceWindowLimit(c, e, st)))
  {
    hide RunWindows, SourceWindowLimit, Marks;
    NoMarks();
    if !t.cancelled {
      var to := UpperBound(c, t.now);
      WindowsReach(s, c, e, st, FloorSecond(st.cursor.value), to, 0, false, t.windows);
      WindowsNotCancelled(s, c, e, st, FloorSecond(st.cursor.value), to, 0, false, t.windows);
      assert LastSecond(to, Settled(c, t));
    }
  }

  // ---- One window -----------------------------------------------------------------------

  /** What the collector may be asked to keep its payload to: the reduced budget, else the configured one,
      else 16 MiB; nothing unless it is budgetable and adaptive. */
  function Asked(s: Settings, c: Collector, st: State): int
  {
    if !c.budgetable || !c.adaptive then 0
    else if st.budget.Some? && st.budget.value.bytes > 0 then st.budget.value.bytes
    else if s.budgetOverride > 0 then s.budgetOverride
    else 16 * 1024 * 1024
  }

  /** A window asks its collector once: from its start to its end, the pinned one if its start is pinned,
      within the budget in force. No other answer of the collector matters. */
  lemma AskedOnce(s: Settings, c: Collector, e: Entry, st: State, from: Time, to: Time, a: WindowInputs, b: WindowInputs)
    requires b == a.(collect := b.collect)
    requires var end := EndOf(st, from, to);
      a.collect(from, end, Asked(s, c, st)) == b.collect(from, end, Asked(s, c, st))
    ensures CommitWindow(s, c, e, st, from, to, a) == CommitWindow(s, c, e, st, from, to, b)
  {
    hide FirstGap, GapMark, Strike, RestoreCommitBudget, ReduceCommitBudget;
  }

  lemma FinishMarks(s: Settings, c: Collector, st: State, from: Time, to: Time, mark: Time, budget: int, w: WindowInputs)
    ensures var r := FinishCommit(s, c, st, from, to, mark, budget, w);
      && r.events != [] && r.events[0] == Committed(from, to, mark, w.commit)
      && (r.mark.Some? <==>
            w.persisted && ((w.commit.Acked? && w.metricsReplayed) || (w.commit.Rejected? && PriorStrikes(st, from, to) >= 2)))
      && (r.mark.Some? ==> r.mark == Some(mark))
  {
    hide RestoreCommitBudget, ReduceCommitBudget, ReduceSourceWindow;
  }

  lemma SkipMarks(c: Collector, e: Entry, st: State, from: Time, to: Time, cause: Err, w: WindowInputs)
    ensures var r := SkipGap(c, e, st, from, to, cause, w); var mark := GapMark(c, e, to, cause);
      && (r.events != [] <==> w.gapLogged && mark > from)
      && (r.events != [] ==>
            && r.events[0] == GapReported(from, mark, w.gapFlushed)
            && (r.mark.Some? <==> w.gapFlushed && w.gapCounted && w.persisted)
            && (r.mark.Some? ==> r.mark == Some(mark)))
  {
    hide GapMark;
  }

  /** A window reaches a mark exactly when it could write one after its records were acknowledged and its
      metrics replayed, after its third rejection, or after a gap was logged, flushed and counted. A commit
      needs a valid mark and no cancellation, and a gap a collector error that reports one. */
  lemma MarkExactlyWhen(s: Settings, c: Collector, e: Entry, st: State, from: Time, to: Time, w: WindowInputs)
    ensures var r := CommitWindow(s, c, e, st, from, to, w);
      var end := EndOf(st, from, to);
      var answer := w.collect(from, end, Asked(s, c, st));
      && (r.events != [] && r.events[0].Committed? <==>
            answer.Collected? && !w.cancelledAfter && from < answer.mark <= end
            && (c.adaptive ==>
                  && from % SECOND == 0 && end % SECOND == 0 && answer.mark % SECOND == 0
                  && (answer.mark == end || c.budgetable)))
      && (r.events != [] && r.events[0].Committed? ==>
            && r.events[0] == Committed(from, end, answer.mark, w.commit)
            && (r.mark.Some? <==>
                  w.persisted
                  && ((w.commit.Acked? && w.metricsReplayed) || (w.commit.Rejected? && PriorStrikes(st, from, end) >= 2)))
            && (r.mark.Some? ==> r.mark == Some(answer.mark)))
      && (r.events != [] && r.events[0].GapReported? ==>
            && answer.CollectFailed? && w.gapLogged && r.events[0].from == from && r.events[0].flushed == w.gapFlushed
            && r.events[0].mark == GapMark(c, e, end, answer.err)
            && (r.mark.Some? <==> w.gapFlushed && w.gapCounted && w.persisted)
            && (r.mark.Some? ==> r.mark == Some(r.events[0].mark)))
      && (answer.CollectFailed? ==>
            (r.events != [] <==> FirstGap(answer.err).Some? && w.gapLogged && GapMark(c, e, end, answer.err) > from))
  {
    var (pinned, end) := Pinned(st, from, to);
    var budget := if c.Budgeted() then CommitBudget(s, pinned) else 0;
    match w.collect(from, end, budget)
    case CollectFailed(err) => SkipMarks(c, e, pinned, from, end, err, w);
    case Collected(mark) => FinishMarks(s, c, pinned, from, end, mark, budget, w);
    hide FirstGap, GapMark, FinishCommit, SkipGap;
  }

  /** How often the window was rejected in a row before. */
  function PriorStrikes(st: State, from: Time, to: Time): int
  {
    if st.pin.Some? && st.pin.value.from == from && st.pin.value.to == to then st.pin.value.count else 0
  }

  /** What a commit does to the budget asked next: a missed deadline halves it, but not below the smaller of
      the configured one and 512 KiB; an acknowledgement an hour after the last change doubles it, but not
      above the configured one; anything else leaves it. */
  ghost predicate BudgetMoved(s: Settings, c: Collector, st: State, w: WindowInputs, r: WindowStep)
  {
    var configured := if s.budgetOverride > 0 then s.budgetOverride else 16 * 1024 * 1024;
    var commits := r.events != [] && r.events[0].Committed?;
    if commits && w.commit.TimedOut? then
      && Asked(s, c, r.state) == Max(Min(configured, 512 * 1024), Asked(s, c, st) / 2)
      && r.state.budget.Some? && r.state.budget.value.since == w.clock
    else if commits && w.commit.Acked? && st.budget.Some? && w.clock >= st.budget.value.since + 3600 * SECOND then
      && Asked(s, c, r.state) == Min(2 * Asked(s, c, st), configured)
      && (r.state.budget.Some? ==> r.state.budget.value.since == w.clock)
    else r.state.budget == st.budget
  }

  lemma FinishBudget(s: Settings, c: Collector, st: State, from: Time, to: Time, mark: Time, w: WindowInputs)
    requires SchedulerLimits.BudgetOk(s, st.budget) && c.budgetable && c.adaptive
    ensures BudgetMoved(s, c, st, w, FinishCommit(s, c, st, from, to, mark, CommitBudget(s, st), w))
  {
    hide Strike;
  }

  lemma BudgetMoves(s: Settings, c: Collector, e: Entry, st: State, from: Time, to: Time, w: WindowInputs)
    requires SchedulerLimits.BudgetOk(s, st.budget) && c.budgetable && c.adaptive
    ensures BudgetMoved(s, c, st, w, CommitWindow(s, c, e, st, from, to, w))
  {
    var (pinned, end) := Pinned(st, from, to);
    match w.collect(from, end, CommitBudget(s, pinned))
    case CollectFailed(err) =>
      hide FirstGap, GapMark;
    case Collected(mark) =>
      FinishBudget(s, c, pinned, from, end, mark, w);
      hide FinishCommit, ValidMark;
  }

  /** What a window leaves of a pin: the window itself after a rejection that is not its third, nothing after
      any other commit, nothing after a skip, and otherwise the pin of this start. */
  ghost predicate PinMoved(st: State, from: Time, end: Time, w: WindowInputs, r: WindowStep)
  {
    var strikes := PriorStrikes(st, from, end) + 1;
    if r.events != [] && r.events[0].Committed? then
      r.state.pin == if w.commit.Rejected? && strikes < 3 then Some(Pin(from, end, strikes)) else None
    else if r.mark.Some? then r.state.pin == None
    else r.state.pin == if st.pin.Some? && st.pin.value.from == from then st.pin else None
  }

  /** Half of the window in whole seconds, and one second at least. */
  predicate Half(retry: Duration, from: Time, to: Time)
  {
    if (to - from) / 2 < SECOND then retry == SECOND else LastSecond(retry, (to - from) / 2)
  }

  function LesserLearned(st: State, retry: Duration): Duration
  {
    if st.learned != 0 && st.learned <= retry then st.learned else retry
  }

  /** A window's length is learned from a missed deadline alone, by an adaptive collector that takes no
      budget: half of this one, if that is less than before. */
  ghost predicate Learned(c: Collector, st: State, from: Time, end: Time, w: WindowInputs, r: WindowStep)
  {
    if r.events != [] && r.events[0].Committed? && w.commit.TimedOut? && c.adaptive && !c.budgetable
    then exists retry :: Half(retry, from, end) && r.state.learned == LesserLearned(st, retry)
    else r.state.learned == st.learned
  }

  lemma BudgetAlone(s: Settings, st: State, budget: int, clock: Time)
    ensures RestoreCommitBudget(s, st, clock) == st.(budget := RestoreCommitBudget(s, st, clock).budget)
    ensures ReduceCommitBudget(s, st, budget, clock) == st.(budget := ReduceCommitBudget(s, st, budget, clock).budget)
  {
  }

  lemma WindowHalves(st: State, from: Time, to: Time)
    ensures var after := ReduceSourceWindow(st, from, to); var retry := ReducedWindow(from, to);
      && Half(retry, from, to) && after == st.(learned := after.learned)
      && after.learned == LesserLearned(st, retry)
  {
  }

  lemma FinishMoves(s: Settings, c: Collector, st: State, from: Time, to: Time, mark: Time, budget: int, w: WindowInputs)
    ensures var r := FinishCommit(s, c, st, from, to, mark, budget, w);
      PinMoved(st, from, to, w, r) && Learned(c, st, from, to, w, r)
  {
    BudgetAlone(s, st, budget, w.clock);
    BudgetAlone(s, st.(pin := None), budget, w.clock);
    WindowHalves(st, from, to);
    hide RestoreCommitBudget, ReduceCommitBudget, ReduceSourceWindow, Half;
  }

  lemma SkipMoves(c: Collector, e: Entry, st: State, from: Time, to: Time, cause: Err, w: WindowInputs)
    requires st.pin.Some? ==> st.pin.value.from == from
    ensures var r := SkipGap(c, e, st, from, to, cause, w);
      PinMoved(st, from, to, w, r) && Learned(c, st, from, to, w, r)
  {
    hide GapMark, Half;
  }

  /** The pin and the learned length after any window. */
  lemma WindowMoves(s: Settings, c: Collector, e: Entry, st: State, from: Time, to: Time, w: WindowInputs)
    ensures var r := CommitWindow(s, c, e, st, from, to, w);
      PinMoved(st, from, EndOf(st, from, to), w, r) && Learned(c, st, from, EndOf(st, from, to), w, r)
  {
    var (pinned, end) := Pinned(st, from, to);
    match w.collect(from, end, if c.Budgeted() then CommitBudget(s, pinned) else 0)
    case CollectFailed(err) => SkipMoves(c, e, pinned, from, end, err, w);
    case Collected(mark) =>
      FinishMoves(s, c, pinned, from, end, mark, if c.Budgeted() then CommitBudget(s, pinned) else 0, w);
    hide SkipGap, FinishCommit, FirstGap, CommitBudget, ValidMark, Half;
  }

  /** A skip goes to the window's end, or clears the latest retention floor by an interval, the fixed lag and
      a minute, to the whole second. */
  lemma SkipClearsTheFloor(c: Collector, e: Entry, to: Time, cause: Err)
    ensures var mark := GapMark(c, e, to, cause); var clear := GapFloor(cause) + e.interval + c.lag + 60 * SECOND;
      mark <= to && (mark < to ==> mark % SECOND == 0 && clear <= mark < clear + SECOND)
      && (mark == to ==> to < clear + SECOND)
  {
  }
}
