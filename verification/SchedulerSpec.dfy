/** What one collector's window scheduling does, as functions on values.

    Everything the scheduler reads from outside (the clock, cancellation, the collector's answer,
    the commit's outcome, whether a write succeeded) arrives as an argument, so a run is determined
    by its inputs. Each function also returns the calls the scheduler made to the outside world,
    in order, as a trace of events. */
module SchedulerSpec {
  import opened Instants
  import opened Options
  import opened RetentionGap

  const COMMIT_BUDGET_BYTES := 16 * 1024 * 1024
  const COMMIT_BUDGET_RECOVERY: Duration := HOUR
  const MAX_WINDOWS_PER_TICK := 4
  const COMMIT_CHUNK_BYTES := 512 * 1024
  const STRIKES := 3

  /** A window collector: its name, fixed lag, lag at a clock instant, and capabilities. */
  datatype Collector = Collector(name: string, lag: Duration, lagAt: Time -> Duration, adaptive: bool, budgetable: bool)
  {
    predicate Budgeted() { budgetable && adaptive }
  }

  datatype Entry = Entry(interval: Duration, initialLookback: Duration, maxWindow: Duration)

  /** A configured payload budget of zero or less keeps the default. */
  datatype Settings = Settings(budgetOverride: int)
  {
    function ConfiguredBudget(): (b: int)
      ensures b > 0
    {
      if budgetOverride > 0 then budgetOverride else COMMIT_BUDGET_BYTES
    }

    function SmallestBudget(): int { Min(ConfiguredBudget(), COMMIT_CHUNK_BYTES) }
  }

  /** A rejected window waiting for its next attempt. */
  datatype Pin = Pin(from: Time, to: Time, count: int)

  datatype Reduced = Reduced(bytes: int, since: Time)

  /** One collector's state. Only the cursor is durable. A learned window of zero means none. */
  datatype State = State(cursor: Option<Time>, pin: Option<Pin>, learned: Duration, budget: Option<Reduced>)

  // ---- The outside world ----------------------------------------------------------------

  datatype CollectResult = Collected(mark: Time) | CollectFailed(err: Err)

  /** How a commit ended. Rejected: every failure is a payload rejection. TimedOut: a required
      signal's deadline and the aggregate commit budget both expired. */
  datatype CommitResult = Acked | Rejected | TimedOut | CommitFailed

  datatype WindowInputs = WindowInputs(
    cancelledBefore: bool,
    collect: (Time, Time, int) -> CollectResult,
    cancelledAfter: bool,
    commit: CommitResult,
    metricsReplayed: bool,
    gapLogged: bool,
    gapFlushed: bool,
    gapCounted: bool,
    persisted: bool,
    clock: Time)

  datatype TickInputs = TickInputs(
    cancelled: bool,
    now: Time,
    firstPersisted: bool,
    windows: nat -> WindowInputs)

  datatype Event =
    | Committed(from: Time, to: Time, mark: Time, result: CommitResult)
    | GapReported(from: Time, mark: Time, flushed: bool)
    | Persisted(at: Time)
    | Restarted

  type Trace = seq<Event>

  // ---- Learned limits -------------------------------------------------------------------

  function EffectiveCommitWindow(e: Entry): Duration
  {
    if e.maxWindow > 0 then e.maxWindow else 0
  }

  function SourceWindowLimit(c: Collector, e: Entry, st: State): Duration
  {
    var limit := EffectiveCommitWindow(e);
    if !c.adaptive then limit
    else
      var tighter := if st.learned > 0 && (limit <= 0 || st.learned < limit) then st.learned else limit;
      if 0 < tighter < SECOND then tighter else Truncate(tighter, SECOND)
  }

  function ReducedWindow(from: Time, to: Time): Duration
  {
    Max(SECOND, FloorSecond((to - from) / 2))
  }

  function ReduceSourceWindow(st: State, from: Time, to: Time): State
  {
    var retry := ReducedWindow(from, to);
    if st.learned == 0 || retry < st.learned then st.(learned := retry) else st
  }

  function CommitBudget(s: Settings, st: State): int
  {
    if st.budget.Some? && st.budget.value.bytes > 0 then st.budget.value.bytes else s.ConfiguredBudget()
  }

  function ReduceCommitBudget(s: Settings, st: State, budget: int, clock: Time): State
  {
    var retry := Max(s.SmallestBudget(), budget / 2);
    st.(budget := Some(Reduced(if retry > budget then budget else retry, clock)))
  }

  function RestoreCommitBudget(s: Settings, st: State, clock: Time): State
  {
    if st.budget.None? || clock - st.budget.value.since < COMMIT_BUDGET_RECOVERY then st
    else if st.budget.value.bytes * 2 < s.ConfiguredBudget()
    then st.(budget := Some(Reduced(st.budget.value.bytes * 2, clock)))
    else st.(budget := None)
  }

  // ---- One window -----------------------------------------------------------------------

  /** The new state, the events, and the mark the window reached; no mark means an error. */
  datatype WindowStep = WindowStep(state: State, events: Trace, mark: Option<Time>)

  function Persist(st: State, mark: Time, events: Trace, w: WindowInputs): WindowStep
  {
    if w.persisted
    then WindowStep(st.(cursor := Some(mark)), events + [Persisted(mark)], Some(mark))
    else WindowStep(st, events, None)
  }

  function GapMargin(c: Collector, e: Entry): Duration { e.interval + c.lag + MINUTE }

  function GapMark(c: Collector, e: Entry, to: Time, cause: Err): Time
  {
    Min(to, FloorSecond(GapFloor(cause) + GapMargin(c, e) + SECOND - 1))
  }

  function SkipGap(c: Collector, e: Entry, st: State, from: Time, to: Time, cause: Err, w: WindowInputs): WindowStep
  {
    var mark := GapMark(c, e, to, cause);
    if mark <= from || !w.gapLogged then WindowStep(st, [], None)
    else if !w.gapFlushed then WindowStep(st, [GapReported(from, mark, false)], None)
    else if !w.gapCounted then WindowStep(st, [GapReported(from, mark, true)], None)
    else
      var r := Persist(st, mark, [GapReported(from, mark, true)], w);
      if r.mark.Some? then r.(state := r.state.(pin := None)) else r
  }

  /** The window a pinned rejection imposes, and the pin that stays. */
  function Pinned(st: State, from: Time, to: Time): (State, Time)
  {
    if st.pin.None? then (st, to)
    else if st.pin.value.from == from then (st, st.pin.value.to)
    else (st.(pin := None), to)
  }

  predicate ValidMark(c: Collector, from: Time, to: Time, mark: Time)
  {
    && from < mark <= to
    && (c.adaptive ==>
          WholeSecond(from) && WholeSecond(to) && WholeSecond(mark) && (mark == to || c.Budgeted()))
  }

  /** The strike count after one more payload rejection of [from, to). */
  function Strike(st: State, from: Time, to: Time): int
  {
    if st.pin.Some? && st.pin.value.from == from && st.pin.value.to == to then st.pin.value.count + 1 else 1
  }

  function FinishCommit(s: Settings, c: Collector, st: State, from: Time, to: Time, mark: Time, budget: int,
                        w: WindowInputs): WindowStep
  {
    var asked := [Committed(from, to, mark, w.commit)];
    match w.commit
    case Acked =>
      var cleared := st.(pin := None);
      var restored := if c.Budgeted() then RestoreCommitBudget(s, cleared, w.clock) else cleared;
      if !w.metricsReplayed then WindowStep(restored, asked, None) else Persist(restored, mark, asked, w)
    case Rejected =>
      var count := Strike(st, from, to);
      if count >= STRIKES then Persist(st.(pin := None), mark, asked, w)
      else WindowStep(st.(pin := Some(Pin(from, to, count))), asked, None)
    case TimedOut =>
      var reduced := if !c.adaptive then st
                     else if c.Budgeted() then ReduceCommitBudget(s, st, budget, w.clock)
                     else ReduceSourceWindow(st, from, to);
      WindowStep(reduced.(pin := None), asked, None)
    case CommitFailed =>
      WindowStep(st.(pin := None), asked, None)
  }

  function CommitWindow(s: Settings, c: Collector, e: Entry, st0: State, from: Time, to0: Time, w: WindowInputs)
    : WindowStep
  {
    var (st, to) := Pinned(st0, from, to0);
    var budget := if c.Budgeted() then CommitBudget(s, st) else 0;
    match w.collect(from, to, budget)
    case CollectFailed(err) =>
      if FirstGap(err).Some? then SkipGap(c, e, st, from, to, err, w) else WindowStep(st, [], None)
    case Collected(mark) =>
      if w.cancelledAfter || !ValidMark(c, from, to, mark) then WindowStep(st, [], None)
      else FinishCommit(s, c, st, from, to, mark, budget, w)
  }

  // ---- One tick -------------------------------------------------------------------------

  datatype TickStep = TickStep(state: State, events: Trace, ok: bool)

  function WindowEnd(limit: Duration, from: Time, to: Time): Time
  {
    if limit > 0 && to - from > limit then from + limit else to
  }

  function RunWindows(s: Settings, c: Collector, e: Entry, st: State, from: Time, to: Time, committed: nat,
                      truncated: bool, windows: nat -> WindowInputs): TickStep
    decreases MAX_WINDOWS_PER_TICK - committed
  {
    if committed >= MAX_WINDOWS_PER_TICK || from >= to then TickStep(st, [], true)
    else if windows(committed).cancelledBefore then TickStep(st, [], false)
    else
      var limit := SourceWindowLimit(c, e, st);
      if c.adaptive && 0 < limit < SECOND then TickStep(st, [], false)
      else if committed > 0 && !truncated && (limit <= 0 || to - from <= limit) then TickStep(st, [], true)
      else
        var windowTo := WindowEnd(limit, from, to);
        var step := CommitWindow(s, c, e, st, from, windowTo, windows(committed));
        if step.mark.None? then TickStep(step.state, step.events, false)
        else if step.mark.value <= from then TickStep(step.state, step.events, true)
        else
          var rest := RunWindows(s, c, e, step.state, step.mark.value, to, committed + 1,
                                 c.Budgeted() && step.mark.value < windowTo, windows);
          TickStep(rest.state, step.events + rest.events, rest.ok)
  }

  function UpperBound(c: Collector, now: Time): Time { FloorSecond(now - c.lagAt(now)) }

  function InitialFrom(c: Collector, e: Entry, to: Time): Time
  {
    if c.adaptive then FloorSecond(to - e.initialLookback) else to - e.initialLookback
  }

  function Tick(s: Settings, c: Collector, e: Entry, st: State, t: TickInputs): TickStep
  {
    if t.cancelled then TickStep(st, [], false)
    else
      var to := UpperBound(c, t.now);
      if st.cursor.Some? then
        RunWindows(s, c, e, st, FloorSecond(st.cursor.value), to, 0, false, t.windows)
      else if !t.firstPersisted then TickStep(st, [], false)
      else if e.initialLookback == 0 then TickStep(st.(cursor := Some(to)), [Persisted(to)], true)
      else
        var from := InitialFrom(c, e, to);
        var rest := RunWindows(s, c, e, st.(cursor := Some(from)), from, to, 0, false, t.windows);
        TickStep(rest.state, [Persisted(from)] + rest.events, rest.ok)
  }

  // ---- Runs -----------------------------------------------------------------------------

  /** The cursors a trace made durable, in order. */
  function Cursors(trace: Trace): seq<Time>
  {
    if |trace| == 0 then []
    else
      var before := Cursors(trace[..|trace| - 1]);
      match trace[|trace| - 1]
      case Persisted(at) => before + [at]
      case _ => before
  }

  function LastCursor(trace: Trace): Option<Time>
  {
    var cs := Cursors(trace);
    if |cs| == 0 then None else Some(cs[|cs| - 1])
  }

  /** A process ticks, or dies after the first calls of a tick and starts again with nothing but
      the durable cursor. */
  datatype RunInput = Ticked(inputs: TickInputs) | Crashed(inputs: TickInputs, calls: nat)

  datatype Run = Run(state: State, trace: Trace)

  const FRESH := State(None, None, 0, None)

  function Prefix(events: Trace, n: nat): Trace { if n < |events| then events[..n] else events }

  function Execute(s: Settings, c: Collector, e: Entry, inputs: seq<RunInput>): Run
  {
    if |inputs| == 0 then Run(FRESH, [])
    else
      var before := Execute(s, c, e, inputs[..|inputs| - 1]);
      var last := inputs[|inputs| - 1];
      var step := Tick(s, c, e, before.state, last.inputs);
      match last
      case Ticked(_) => Run(step.state, before.trace + step.events)
      case Crashed(_, calls) =>
        var trace := before.trace + Prefix(step.events, calls);
        Run(FRESH.(cursor := LastCursor(trace)), trace + [Restarted])
  }

  /** Ticks of one process, without a restart. */
  function Ticks(s: Settings, c: Collector, e: Entry, st: State, ts: seq<TickInputs>): Run
  {
    if |ts| == 0 then Run(st, [])
    else
      var before := Ticks(s, c, e, st, ts[..|ts| - 1]);
      var step := Tick(s, c, e, before.state, ts[|ts| - 1]);
      Run(step.state, before.trace + step.events)
  }
}
