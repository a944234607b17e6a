/** The window scheduler: per-collector maps updated in place, the durable store, and the pipelines a
    window's records are delivered to. */
module Scheduler {
  import opened Instants
  import opened Options
  import opened RetentionGap
  import opened Checkpoint
  import opened SchedulerSpec
  import opened Providers
  import opened Commit
  import opened Delivery

  function PinOf(pins: map<string, Pin>, name: string): Option<Pin>
  {
    if name in pins then Some(pins[name]) else None
  }

  // ---- A tick's windows, one at a time ---------------------------------------------------

  ghost function Followed(events: Trace, rest: TickStep): TickStep
  {
    TickStep(rest.state, events + rest.events, rest.ok)
  }

  lemma AfterNothing(rest: TickStep)
    ensures Followed([], rest) == rest
  {
    assert [] + rest.events == rest.events;
  }

  lemma AfterStops(events: Trace, st: State)
    ensures Followed(events, TickStep(st, [], true)) == TickStep(st, events, true)
    ensures Followed(events, TickStep(st, [], false)) == TickStep(st, events, false)
  {
    NothingMore(events);
  }

  lemma NothingMore<T>(events: seq<T>)
    ensures events + [] == events
  {
  }

  lemma AfterChains(events: Trace, more: Trace, before: Trace)
    ensures forall rest :: Followed(events, Followed(more, rest)) == Followed(events + more, rest)
    ensures before + events + more == before + (events + more)
  {
    forall rest ensures Followed(events, Followed(more, rest)) == Followed(events + more, rest) {
      assert events + (more + rest.events) == events + more + rest.events;
    }
  }

  /** What a tick does next, branch by branch. */
  lemma RunUnfolds(s: Settings, c: Collector, e: Entry, st: State, from: Time, to: Time, committed: nat,
                   truncated: bool,
                   windows: nat -> WindowInputs)
    ensures var whole := RunWindows(s, c, e, st, from, to, committed, truncated, windows);
      var limit := SourceWindowLimit(c, e, st);
      var step := CommitWindow(s, c, e, st, from, WindowEnd(limit, from, to), windows(committed));
      if committed >= MAX_WINDOWS_PER_TICK || from >= to then whole == TickStep(st, [], true)
      else if windows(committed).cancelledBefore || (c.adaptive && 0 < limit < SECOND) then whole == TickStep(st, [], false)
      else if committed > 0 && !truncated && (limit <= 0 || to - from <= limit) then whole == TickStep(st, [], true)
      else if step.mark.None? || step.mark.value <= from then
        whole == Followed(step.events, TickStep(step.state, [], step.mark.Some?))
      else
        whole == Followed(step.events, RunWindows(s, c, e, step.state, step.mark.value, to, committed + 1,
                         c.Budgeted() && step.mark.value < WindowEnd(limit, from, to), windows))
  {
    hide CommitWindow, SourceWindowLimit;
    var limit := SourceWindowLimit(c, e, st);
    var step := CommitWindow(s, c, e, st, from, WindowEnd(limit, from, to), windows(committed));
    assert step.events + [] == step.events;
  }

  // ---- A tick whose commit outcomes become known one window at a time --------------------

  /** The same inputs but for what the commits report. */
  ghost predicate OnlyOutcomesDiffer(a: nat -> WindowInputs, b: nat -> WindowInputs)
  {
    forall k :: SameButOutcome(a(k), b(k))
  }

  ghost predicate SameButOutcome(a: WindowInputs, b: WindowInputs) { a == b.(commit := a.commit) }

  lemma OutcomeReplaced(a: WindowInputs, b: WindowInputs, result: CommitResult)
    requires SameButOutcome(a, b)
    ensures a.(commit := result) == b.(commit := result) && SameButOutcome(a.(commit := result), b)
  {
  }

  ghost predicate AgreeBefore(a: nat -> WindowInputs, b: nat -> WindowInputs, n: nat)
  {
    forall k: nat :: k < n ==> a(k) == b(k)
  }

  /** Whatever the later windows bring, the tick did these events first and goes on from here. */
  ghost predicate Reached(s: Settings, c: Collector, e: Entry, st0: State, from0: Time, to: Time, ran: nat -> WindowInputs,
                          n: nat, events: Trace, st: State, from: Time, truncated: bool)
  {
    forall ws: nat -> WindowInputs :: AgreeBefore(ws, ran, n) ==>
      RunWindows(s, c, e, st0, from0, to, 0, false, ws)
        == Followed(events, RunWindows(s, c, e, st, from, to, n, truncated, ws))
  }

  lemma ReachedStart(s: Settings, c: Collector, e: Entry, st: State, from: Time, to: Time, ran: nat -> WindowInputs)
    ensures Reached(s, c, e, st, from, to, ran, 0, [], st, from, false)
  {
    forall ws: nat -> WindowInputs | AgreeBefore(ws, ran, 0)
      ensures RunWindows(s, c, e, st, from, to, 0, false, ws)
                == Followed([], RunWindows(s, c, e, st, from, to, 0, false, ws))
    {
      AfterNothing(RunWindows(s, c, e, st, from, to, 0, false, ws));
    }
  }

  /** The outcome of the next window does not change what was reached before it. */
  lemma ReachedWith(s: Settings, c: Collector, e: Entry, st0: State, from0: Time, to: Time, ran: nat -> WindowInputs,
                    n: nat, events: Trace, st: State, from: Time, truncated: bool, more: nat -> WindowInputs)
    requires Reached(s, c, e, st0, from0, to, ran, n, events, st, from, truncated) && AgreeBefore(more, ran, n)
    ensures Reached(s, c, e, st0, from0, to, more, n, events, st, from, truncated)
    ensures RunWindows(s, c, e, st0, from0, to, 0, false, more)
              == Followed(events, RunWindows(s, c, e, st, from, to, n, truncated, more))
  {
    hide RunWindows, Followed;
  }

  /** One more window that moved the cursor. */
  lemma ReachedMore(s: Settings, c: Collector, e: Entry, st0: State, from0: Time, to: Time, ran: nat -> WindowInputs,
                    n: nat, events: Trace, st: State, from: Time, truncated: bool)
    requires Reached(s, c, e, st0, from0, to, ran, n, events, st, from, truncated)
    requires n < MAX_WINDOWS_PER_TICK && from < to && !ran(n).cancelledBefore
    requires var limit := SourceWindowLimit(c, e, st);
      !(c.adaptive && 0 < limit < SECOND) && !(n > 0 && !truncated && (limit <= 0 || to - from <= limit))
    requires var step := CommitWindow(s, c, e, st, from, WindowEnd(SourceWindowLimit(c, e, st), from, to), ran(n));
      step.mark.Some? && step.mark.value > from
    ensures var windowTo := WindowEnd(SourceWindowLimit(c, e, st), from, to);
      var step := CommitWindow(s, c, e, st, from, windowTo, ran(n));
      Reached(s, c, e, st0, from0, to, ran, n + 1, events + step.events, step.state, step.mark.value,
              c.Budgeted() && step.mark.value < windowTo)
  {
    hide CommitWindow, SourceWindowLimit, RunWindows, Followed, WindowEnd;
    var windowTo := WindowEnd(SourceWindowLimit(c, e, st), from, to);
    var step := CommitWindow(s, c, e, st, from, windowTo, ran(n));
    var next := c.Budgeted() && step.mark.value < windowTo;
    forall ws: nat -> WindowInputs | AgreeBefore(ws, ran, n + 1)
      ensures RunWindows(s, c, e, st0, from0, to, 0, false, ws)
                == Followed(events + step.events, RunWindows(s, c, e, step.state, step.mark.value, to, n + 1, next, ws))
    {
      assert AgreeBefore(ws, ran, n) && ws(n) == ran(n);
      RunUnfolds(s, c, e, st, from, to, n, truncated, ws);
      AfterChains(events, step.events, []);
    }
  }

  /** Where the tick may end, when this much was reached. */
  lemma Stops(s: Settings, c: Collector, e: Entry, st0: State, from0: Time, to: Time, ran: nat -> WindowInputs, n: nat,
              events: Trace, st: State, from: Time, truncated: bool)
    requires Reached(s, c, e, st0, from0, to, ran, n, events, st, from, truncated)
    ensures var whole := RunWindows(s, c, e, st0, from0, to, 0, false, ran);
      var limit := SourceWindowLimit(c, e, st);
      var step := CommitWindow(s, c, e, st, from, WindowEnd(limit, from, to), ran(n));
      if n >= MAX_WINDOWS_PER_TICK || from >= to then whole == TickStep(st, events, true)
      else if ran(n).cancelledBefore || (c.adaptive && 0 < limit < SECOND) then whole == TickStep(st, events, false)
      else if n > 0 && !truncated && (limit <= 0 || to - from <= limit) then whole == TickStep(st, events, true)
      else if step.mark.None? || step.mark.value <= from then
        whole == TickStep(step.state, events + step.events, step.mark.Some?)
      else true
  {
    hide CommitWindow, SourceWindowLimit, RunWindows, WindowEnd;
    var limit := SourceWindowLimit(c, e, st);
    var step := CommitWindow(s, c, e, st, from, WindowEnd(limit, from, to), ran(n));
    assert AgreeBefore(ran, ran, n);
    RunUnfolds(s, c, e, st, from, to, n, truncated, ran);
    AfterStops(events, st);
    AfterChains(events, step.events, []);
    AfterStops(events + step.events, step.state);
    hide Followed;
  }

  function WithOutcome(ran: nat -> WindowInputs, n: nat, result: CommitResult): nat -> WindowInputs
  {
    (k: nat) => if k == n then ran(k).(commit := result) else ran(k)
  }

  lemma OneOutcome(ran: nat -> WindowInputs, windows: nat -> WindowInputs, n: nat, result: CommitResult)
    requires OnlyOutcomesDiffer(ran, windows)
    ensures OnlyOutcomesDiffer(WithOutcome(ran, n, result), windows) && AgreeBefore(WithOutcome(ran, n, result), ran, n)
    ensures WithOutcome(ran, n, result)(n) == windows(n).(commit := result)
  {
    hide SameButOutcome;
    assert SameButOutcome(ran(n), windows(n));
    OutcomeReplaced(ran(n), windows(n), result);
  }

  lemma SameInputs(ran: nat -> WindowInputs, windows: nat -> WindowInputs)
    requires ran == windows
    ensures OnlyOutcomesDiffer(ran, windows)
  {
  }

  lemma SameFor(ran: nat -> WindowInputs, windows: nat -> WindowInputs, n: nat)
    requires OnlyOutcomesDiffer(ran, windows)
    ensures ran(n) == windows(n).(commit := ran(n).commit)
  {
  }

  // ---- What was delivered ----------------------------------------------------------------

  /** A window of a collector that was acknowledged: what was collected for it and where its records
      are in the pipelines. */
  datatype Delivered = Delivered(name: string, from: Time, to: Time, mark: Time, budget: int, items: seq<Item>,
                                 logPlaces: seq<nat>, spanPlaces: seq<nat>)

  /** Every record of every acknowledged window is in a batch its backend accepted. */
  ghost predicate AllHeld(v: Pipes, ds: seq<Delivered>)
  {
    forall d :: d in ds ==> Held(v, d.items, d.logPlaces, d.spanPlaces, 0, 0)
  }

  predicate AckedEvent(event: Event) { event.Committed? && event.result.Acked? }

  /** Each acknowledgement in the trace is of a window that was delivered. */
  ghost predicate EachDelivered(name: string, trace: Trace, ds: seq<Delivered>)
  {
    forall event :: event in trace && AckedEvent(event) ==>
      exists d :: d in ds && d.name == name && d.from == event.from && d.to == event.to && d.mark == event.mark
  }

  /** The new deliveries are this collector's, of what it collected, and there is one for each
      acknowledgement among the events. */
  ghost predicate Extends(name: string, before: seq<Delivered>, events: Trace, after: seq<Delivered>,
                          records: (Time, Time, int) -> seq<Item>)
  {
    && before <= after && EachDelivered(name, events, after[|before|..])
    && forall d :: d in after[|before|..] ==> d.name == name && d.items == records(d.from, d.to, d.budget)
  }

  lemma ExtendsNothing(name: string, ds: seq<Delivered>, events: Trace, records: (Time, Time, int) -> seq<Item>)
    requires forall event :: event in events ==> !AckedEvent(event)
    ensures Extends(name, ds, events, ds, records)
  {
  }

  lemma ExtendsChains(name: string, a: seq<Delivered>, first: Trace, b: seq<Delivered>, second: Trace,
                      c: seq<Delivered>, records: (Time, Time, int) -> seq<Item>)
    requires Extends(name, a, first, b, records) && Extends(name, b, second, c, records)
    ensures Extends(name, a, first + second, c, records)
  {
    assert c[|a|..] == b[|a|..] + c[|b|..];
  }

  /** A window's later events acknowledge nothing more. */
  lemma OneAcknowledgement(name: string, before: seq<Delivered>, after: seq<Delivered>, events: Trace,
                           records: (Time, Time, int) -> seq<Item>)
    requires |events| > 0 && forall i :: 1 <= i < |events| ==> !AckedEvent(events[i])
    requires Extends(name, before, events[..1], after, records)
    ensures Extends(name, before, events, after, records)
  {
    ExtendsNothing(name, after, events[1..], records);
    ExtendsChains(name, before, events[..1], after, events[1..], after, records);
    assert events == events[..1] + events[1..];
  }

  lemma FinishAsksOnce(s: Settings, c: Collector, st: State, from: Time, to: Time, mark: Time, budget: int,
                       w: WindowInputs, name: string, before: seq<Delivered>, after: seq<Delivered>,
                       records: (Time, Time, int) -> seq<Item>)
    requires Extends(name, before, [Committed(from, to, mark, w.commit)], after, records)
    ensures var events := FinishCommit(s, c, st, from, to, mark, budget, w).events;
      && |events| > 0 && events[..1] == [Committed(from, to, mark, w.commit)]
      && Extends(name, before, events, after, records)
  {
    hide Strike, ReduceCommitBudget, RestoreCommitBudget, Extends;
    var events := FinishCommit(s, c, st, from, to, mark, budget, w).events;
    assert events[..1] == [Committed(from, to, mark, w.commit)];
    OneAcknowledgement(name, before, after, events, records);
  }

  lemma HeldFromStart(v: Pipes, items: seq<Item>, logPlaces: seq<nat>, spanPlaces: seq<nat>, logsFrom: nat,
                      spansFrom: nat)
    requires Held(v, items, logPlaces, spanPlaces, logsFrom, spansFrom)
    ensures Held(v, items, logPlaces, spanPlaces, 0, 0)
  {
  }

  lemma AllHeldLater(a: Pipes, b: Pipes, ds: seq<Delivered>)
    requires BothLater(a, b) && AllHeld(a, ds)
    ensures AllHeld(b, ds)
  {
    forall d | d in ds ensures Held(b, d.items, d.logPlaces, d.spanPlaces, 0, 0) {
      HeldLater(a, b, d.items, d.logPlaces, d.spanPlaces, 0, 0);
    }
  }

  /** What a window whose collection failed does. */
  function AfterFailure(c: Collector, e: Entry, st: State, from: Time, to: Time, cause: Err, w: WindowInputs): WindowStep
  {
    if FirstGap(cause).Some? then SkipGap(c, e, st, from, to, cause, w) else WindowStep(st, [], None)
  }

  /** What one window does once its pin and budget are known. */
  function Attempted(s: Settings, c: Collector, e: Entry, st: State, from: Time, to: Time, budget: int, w: WindowInputs)
    : WindowStep
  {
    match w.collect(from, to, budget)
    case CollectFailed(err) => AfterFailure(c, e, st, from, to, err, w)
    case Collected(mark) =>
      if w.cancelledAfter || !ValidMark(c, from, to, mark) then WindowStep(st, [], None)
      else FinishCommit(s, c, st, from, to, mark, budget, w)
  }

  lemma CommitUnfolds(s: Settings, c: Collector, e: Entry, st0: State, from: Time, to0: Time, w: WindowInputs)
    ensures var (st, to) := Pinned(st0, from, to0); var budget := if c.Budgeted() then CommitBudget(s, st) else 0;
      CommitWindow(s, c, e, st0, from, to0, w) == Attempted(s, c, e, st, from, to, budget, w)
  {
    hide CommitBudget, FinishCommit, Pinned, ValidMark, FirstGap, SkipGap;
  }

  /** Only a delivery looks at the outcome. */
  lemma OutcomeOfDelivery(s: Settings, c: Collector, e: Entry, st: State, from: Time, to: Time, budget: int,
                          w: WindowInputs, result: CommitResult)
    ensures Attempted(s, c, e, st, from, to, budget, w.(commit := result)) ==
        match w.collect(from, to, budget)
        case CollectFailed(err) => AfterFailure(c, e, st, from, to, err, w)
        case Collected(mark) =>
          if w.cancelledAfter || !ValidMark(c, from, to, mark) then WindowStep(st, [], None)
          else FinishCommit(s, c, st, from, to, mark, budget, w.(commit := result))
  {
    hide FinishCommit, ValidMark, FirstGap, GapMark;
  }

  lemma FailuresAcknowledgeNothing(c: Collector, e: Entry, st: State, from: Time, to: Time, cause: Err, w: WindowInputs,
                                   ds: seq<Delivered>, records: (Time, Time, int) -> seq<Item>)
    ensures Extends(c.name, ds, AfterFailure(c, e, st, from, to, cause, w).events, ds, records)
  {
    hide FirstGap, GapMark;
    ExtendsNothing(c.name, ds, AfterFailure(c, e, st, from, to, cause, w).events, records);
  }

  class WindowScheduler {
    const settings: Settings
    const store: FileStore
    const telemetry: Telemetry
    var failed400: map<string, Pin>
    var adaptiveWindows: map<string, Duration>
    var commitBudgets: map<string, Reduced>
    /** The calls made to the outside world, per collector. */
    ghost var traces: map<string, Trace>
    /** Every acknowledged window of every collector, in order. */
    ghost var delivered: seq<Delivered>

    ghost predicate Valid() reads store { store.Valid() }

    /** The pipelines hold every record of every acknowledged window. */
    ghost predicate Delivering()
      reads this`delivered, telemetry, telemetry.observer, telemetry.logs, telemetry.spans, telemetry.logs.observer,
        telemetry.spans.observer
    {
      telemetry.Valid() && AllHeld(telemetry.Seen(), delivered)
    }

    /** One collector's part of the state. */
    ghost function StateOf(name: string): State
      reads this`failed400, this`adaptiveWindows, this`commitBudgets, store
    {
      State(if name in store.values then Some(store.values[name]) else None,
            PinOf(failed400, name),
            if name in adaptiveWindows then adaptiveWindows[name] else 0,
            if name in commitBudgets then Some(commitBudgets[name]) else None)
    }

    ghost function TraceOf(name: string): Trace
      reads this`traces
    {
      if name in traces then traces[name] else []
    }

    /** Nothing of any other collector changed. */
    twostate predicate OthersKept(name: string)
      reads this`failed400, this`adaptiveWindows, this`commitBudgets, this`traces, store
    {
      forall n :: n != name ==> StateOf(n) == old(StateOf(n)) && TraceOf(n) == old(TraceOf(n))
    }

    twostate lemma NothingChanged(name: string)
      requires unchanged(this) && unchanged(store)
      ensures OthersKept(name)
    {
    }

    /** A starting process knows nothing but the durable cursors. */
    constructor (settings: Settings, store: FileStore, telemetry: Telemetry)
      requires store.Valid() && telemetry.Valid()
      ensures Valid() && this.store == store && this.settings == settings
      ensures Delivering() && this.telemetry == telemetry && delivered == []
      ensures forall n :: TraceOf(n) == []
      ensures forall n :: StateOf(n) == FRESH.(cursor := if n in store.values then Some(store.values[n]) else None)
    {
      this.settings := settings;
      this.store := store;
      this.telemetry := telemetry;
      delivered := [];
      failed400, adaptiveWindows, commitBudgets, traces := map[], map[], map[], map[];
    }

    ghost method Note(name: string, event: Event)
      requires Valid()
      modifies this`traces
      ensures Valid() && StateOf(name) == old(StateOf(name)) && TraceOf(name) == old(TraceOf(name)) + [event]
      ensures OthersKept(name)
    {
      traces := traces[name := TraceOf(name) + [event]];
    }

    method Forget(name: string)
      requires Valid()
      modifies this`failed400
      ensures Valid() && StateOf(name) == old(StateOf(name)).(pin := None) && TraceOf(name) == old(TraceOf(name))
      ensures OthersKept(name)
    {
      failed400 := failed400 - {name};
    }

    method Cursor(name: string) returns (cursor: Option<Time>)
      requires Valid()
      ensures cursor == StateOf(name).cursor
    {
      cursor := store.Get(name);
    }

    method SetCursor(name: string, t: Time, persisted: bool) returns (ok: bool)
      requires Valid()
      modifies this`traces, store
      ensures Valid() && ok == persisted
      ensures StateOf(name) == if ok then old(StateOf(name)).(cursor := Some(t)) else old(StateOf(name))
      ensures TraceOf(name) == old(TraceOf(name)) + if ok then [Persisted(t)] else []
      ensures OthersKept(name)
    {
      ok := store.Set(name, t, if persisted then None else Some(Rename));
      if ok {
        Note(name, Persisted(t));
      }
    }

    method Limit(c: Collector, e: Entry) returns (limit: Duration)
      requires Valid()
      ensures limit == SourceWindowLimit(c, e, StateOf(c.name))
    {
      limit := EffectiveCommitWindow(e);
      if !c.adaptive {
        return;
      }
      var reduced := if c.name in adaptiveWindows then adaptiveWindows[c.name] else 0;
      if reduced > 0 && (limit <= 0 || reduced < limit) {
        limit := reduced;
      }
      if 0 < limit < SECOND {
        return;
      }
      limit := Truncate(limit, SECOND);
    }

    method ReduceWindow(c: Collector, from: Time, to: Time)
      requires Valid()
      modifies this`adaptiveWindows
      ensures Valid() && StateOf(c.name) == ReduceSourceWindow(old(StateOf(c.name)), from, to)
      ensures TraceOf(c.name) == old(TraceOf(c.name)) && OthersKept(c.name)
    {
      var retry := Max(SECOND, FloorSecond((to - from) / 2));
      var current := if c.name in adaptiveWindows then adaptiveWindows[c.name] else 0;
      if current == 0 || retry < current {
        adaptiveWindows := adaptiveWindows[c.name := retry];
      }
    }

    method Budget(c: Collector) returns (bytes: int)
      requires Valid()
      ensures bytes == CommitBudget(settings, StateOf(c.name))
    {
      if c.name in commitBudgets && commitBudgets[c.name].bytes > 0 {
        return commitBudgets[c.name].bytes;
      }
      bytes := settings.ConfiguredBudget();
    }

    method ReduceBudget(c: Collector, budget: int, clock: Time)
      requires Valid()
      modifies this`commitBudgets
      ensures Valid() && StateOf(c.name) == ReduceCommitBudget(settings, old(StateOf(c.name)), budget, clock)
      ensures TraceOf(c.name) == old(TraceOf(c.name)) && OthersKept(c.name)
    {
      var retry := Max(Min(settings.ConfiguredBudget(), COMMIT_CHUNK_BYTES), budget / 2);
      if retry > budget {
        retry := budget;
      }
      commitBudgets := commitBudgets[c.name := Reduced(retry, clock)];
    }

    method RestoreBudget(c: Collector, clock: Time)
      requires Valid()
      modifies this`commitBudgets
      ensures Valid() && StateOf(c.name) == RestoreCommitBudget(settings, old(StateOf(c.name)), clock)
      ensures TraceOf(c.name) == old(TraceOf(c.name)) && OthersKept(c.name)
    {
      if c.name !in commitBudgets || clock - commitBudgets[c.name].since < COMMIT_BUDGET_RECOVERY {
        return;
      }
      var restored := commitBudgets[c.name].bytes * 2;
      if restored < settings.ConfiguredBudget() {
        commitBudgets := commitBudgets[c.name := Reduced(restored, clock)];
        return;
      }
      commitBudgets := commitBudgets - {c.name};
    }

    method Skip(c: Collector, e: Entry, from: Time, to: Time, cause: Err, w: WindowInputs) returns (ok: bool)
      requires Valid()
      modifies this`traces, this`failed400, store
      ensures Valid() && OthersKept(c.name)
      ensures var r := SkipGap(c, e, old(StateOf(c.name)), from, to, cause, w);
        && StateOf(c.name) == r.state && TraceOf(c.name) == old(TraceOf(c.name)) + r.events
        && ok == r.mark.Some? && (ok ==> StateOf(c.name).cursor == r.mark)
    {
      hide StateOf, TraceOf;
      var floor := Visit(cause, 0);
      var margin := e.interval + c.lag + MINUTE;
      var mark := FloorSecond(floor + margin + SECOND - 1);
      if mark > to {
        mark := to;
      }
      if mark <= from {
        return false;
      }
      if !w.gapLogged {
        return false;
      }
      Note(c.name, GapReported(from, mark, w.gapFlushed));
      if !w.gapFlushed || !w.gapCounted {
        return false;
      }
      ok := SetCursor(c.name, mark, w.persisted);
      if !ok {
        return;
      }
      Forget(c.name);
      assert TraceOf(c.name) == old(TraceOf(c.name)) + [GapReported(from, mark, true), Persisted(mark)];
    }

    /** One more payload rejection of the same window; the third gives the window up. */
    method CountStrike(name: string, from: Time, to: Time) returns (dropped: bool)
      requires Valid()
      modifies this`failed400
      ensures Valid() && OthersKept(name) && TraceOf(name) == old(TraceOf(name))
      ensures var count := Strike(old(StateOf(name)), from, to);
        && dropped == (count >= STRIKES)
        && StateOf(name) == old(StateOf(name)).(pin := if dropped then None else Some(Pin(from, to, count)))
    {
      var pending := if name in failed400 then failed400[name] else Pin(from, to, 0);
      if pending.from != from || pending.to != to {
        pending := Pin(from, to, 0);
      }
      pending := pending.(count := pending.count + 1);
      if pending.count < STRIKES {
        failed400 := failed400[name := pending];
        return false;
      }
      failed400 := failed400 - {name};
      return true;
    }

    /** Delivers the window's records and remembers them if they were acknowledged. */
    method Export(name: string, from: Time, to: Time, mark: Time, budget: int,
                  records: (Time, Time, int) -> seq<Item>)
      returns (result: CommitResult)
      requires Valid() && Delivering()
      modifies this`delivered, this`traces, telemetry.observer, telemetry.logs, telemetry.spans
      ensures Valid() && Delivering() && BothLater(old(telemetry.Seen()), telemetry.Seen())
      ensures StateOf(name) == old(StateOf(name)) && OthersKept(name)
      ensures TraceOf(name) == old(TraceOf(name)) + [Committed(from, to, mark, result)]
      ensures Extends(name, old(delivered), [Committed(from, to, mark, result)], delivered, records)
    {
      hide Held, BothLater, Telemetry.Valid, Telemetry.Seen, Placed, Accepted;
      var items := records(from, to, budget);
      var expired: bool := *;
      ghost var begin := telemetry.Seen();
      ghost var logPlaces, spanPlaces, since, err;
      result, err, logPlaces, spanPlaces, since := Deliver(telemetry, items, expired);
      AllHeldLater(begin, telemetry.Seen(), delivered);
      if result.Acked? {
        HeldFromStart(telemetry.Seen(), items, logPlaces, spanPlaces, |old(telemetry.logs.handed)|,
                      |old(telemetry.spans.handed)|);
        delivered := delivered + [Delivered(name, from, to, mark, budget, items, logPlaces, spanPlaces)];
      }
      Note(name, Committed(from, to, mark, result));
    }

    /** The commit and what follows it, under the export lock. The outcome is the delivery's. */
    method Finish(c: Collector, from: Time, to: Time, mark: Time, budget: int, w: WindowInputs,
                  records: (Time, Time, int) -> seq<Item>)
      returns (reached: Option<Time>, ghost result: CommitResult)
      requires Valid() && Delivering()
      modifies this, store, telemetry.observer, telemetry.logs, telemetry.spans
      ensures Valid() && OthersKept(c.name) && Delivering() && BothLater(old(telemetry.Seen()), telemetry.Seen())
      ensures var r := FinishCommit(settings, c, old(StateOf(c.name)), from, to, mark, budget, w.(commit := result));
        && StateOf(c.name) == r.state && TraceOf(c.name) == old(TraceOf(c.name)) + r.events && reached == r.mark
        && Extends(c.name, old(delivered), r.events, delivered, records)
    {
      hide Valid, Delivering, StateOf, TraceOf, FinishCommit, Telemetry.Seen, BothLater, Extends;
      ghost var before := TraceOf(c.name);
      ghost var st := StateOf(c.name);
      ghost var held := delivered;
      var outcome := Export(c.name, from, to, mark, budget, records);
      result := outcome;
      reached := Settle(c, from, to, mark, budget, w, outcome);
      FinishAsksOnce(settings, c, st, from, to, mark, budget, w.(commit := result), c.name, held, delivered, records);
      ghost var r := FinishCommit(settings, c, st, from, to, mark, budget, w.(commit := result));
      assert before + r.events == before + r.events[..1] + r.events[1..];
    }

    /** What follows the commit. */
    method Settle(c: Collector, from: Time, to: Time, mark: Time, budget: int, w: WindowInputs, outcome: CommitResult)
      returns (reached: Option<Time>)
      requires Valid()
      modifies this`failed400, this`adaptiveWindows, this`commitBudgets, this`traces, store
      ensures Valid() && OthersKept(c.name)
      ensures var r := FinishCommit(settings, c, old(StateOf(c.name)), from, to, mark, budget, w.(commit := outcome));
        StateOf(c.name) == r.state && TraceOf(c.name) == old(TraceOf(c.name)) + r.events[1..] && reached == r.mark
    {
      hide StateOf, TraceOf, Strike, ReduceCommitBudget, ReduceSourceWindow, RestoreCommitBudget;
      if outcome != Acked {
        if c.adaptive && outcome == TimedOut {
          if c.Budgeted() {
            ReduceBudget(c, budget, w.clock);
          } else {
            ReduceWindow(c, from, to);
          }
        }
        if outcome == Rejected {
          var dropped := CountStrike(c.name, from, to);
          if !dropped {
            return None;
          }
        } else {
          Forget(c.name);
          return None;
        }
      } else {
        Forget(c.name);
        if c.Budgeted() {
          RestoreBudget(c, w.clock);
        }
        if !w.metricsReplayed {
          return None;
        }
      }
      var ok := SetCursor(c.name, mark, w.persisted);
      reached := if ok then Some(mark) else None;
    }

    /** A pinned window keeps its upper bound; a pin for another start is dropped. */
    method TakePin(name: string, from: Time, to0: Time) returns (to: Time)
      requires Valid()
      modifies this`failed400
      ensures Valid() && OthersKept(name) && TraceOf(name) == old(TraceOf(name))
      ensures (StateOf(name), to) == Pinned(old(StateOf(name)), from, to0)
    {
      to := to0;
      if name in failed400 {
        if failed400[name].from == from {
          to := failed400[name].to;
        } else {
          Forget(name);
        }
      }
    }

    /** A collector's error skips a retention gap, if it reports one. */
    method Failed(c: Collector, e: Entry, from: Time, to: Time, cause: Err, w: WindowInputs) returns (reached: Option<Time>)
      requires Valid()
      modifies this`traces, this`failed400, store
      ensures Valid() && OthersKept(c.name)
      ensures var r := AfterFailure(c, e, old(StateOf(c.name)), from, to, cause, w);
        StateOf(c.name) == r.state && TraceOf(c.name) == old(TraceOf(c.name)) + r.events && reached == r.mark
    {
      hide SkipGap, StateOf, TraceOf, PinOf;
      reached := None;
      if FirstGap(cause).Some? {
        var ok := Skip(c, e, from, to, cause, w);
        if ok {
          reached := Cursor(c.name);
        }
      }
    }

    method Commit(c: Collector, e: Entry, from: Time, to0: Time, w: WindowInputs,
                  records: (Time, Time, int) -> seq<Item>)
      returns (reached: Option<Time>, ghost result: CommitResult)
      requires Valid() && Delivering()
      modifies this, store, telemetry.observer, telemetry.logs, telemetry.spans
      ensures Valid() && OthersKept(c.name) && Delivering() && BothLater(old(telemetry.Seen()), telemetry.Seen())
      ensures var r := CommitWindow(settings, c, e, old(StateOf(c.name)), from, to0, w.(commit := result));
        && StateOf(c.name) == r.state && TraceOf(c.name) == old(TraceOf(c.name)) + r.events && reached == r.mark
        && Extends(c.name, old(delivered), r.events, delivered, records)
    {
      hide Valid, Delivering, CommitWindow, Pinned, CommitBudget, StateOf, TraceOf, Telemetry.Seen, BothLater, Extends,
        Attempted;
      ghost var st := StateOf(c.name);
      var to := TakePin(c.name, from, to0);
      var budget := 0;
      if c.Budgeted() {
        budget := Budget(c);
      }
      reached, result := Attempt(c, e, from, to, budget, w, records);
      CommitUnfolds(settings, c, e, st, from, to0, w.(commit := result));
    }

    method Attempt(c: Collector, e: Entry, from: Time, to: Time, budget: int, w: WindowInputs,
                   records: (Time, Time, int) -> seq<Item>)
      returns (reached: Option<Time>, ghost result: CommitResult)
      requires Valid() && Delivering()
      modifies this, store, telemetry.observer, telemetry.logs, telemetry.spans
      ensures Valid() && OthersKept(c.name) && Delivering() && BothLater(old(telemetry.Seen()), telemetry.Seen())
      ensures var r := Attempted(settings, c, e, old(StateOf(c.name)), from, to, budget, w.(commit := result));
        && StateOf(c.name) == r.state && TraceOf(c.name) == old(TraceOf(c.name)) + r.events && reached == r.mark
        && Extends(c.name, old(delivered), r.events, delivered, records)
    {
      hide Valid, Delivering, OthersKept, FinishCommit, ValidMark, StateOf, TraceOf, Telemetry.Seen, BothLater, Extends,
        AfterFailure, Attempted;
      result := w.commit;
      ghost var st := StateOf(c.name);
      SeenLater(telemetry.Seen());
      match w.collect(from, to, budget)
      case CollectFailed(err) =>
        FailuresAcknowledgeNothing(c, e, st, from, to, err, w, delivered, records);
        reached := Failed(c, e, from, to, err, w);
        OutcomeOfDelivery(settings, c, e, st, from, to, budget, w, result);
      case Collected(mark) =>
        if w.cancelledAfter || !ValidMark(c, from, to, mark) {
          ExtendsNothing(c.name, delivered, [], records);
          NothingChanged(c.name);
          reached := None;
        } else {
          reached, result := Finish(c, from, to, mark, budget, w, records);
        }
        OutcomeOfDelivery(settings, c, e, st, from, to, budget, w, result);
    }

    /** Commits up to four windows of one collector's backlog. */
    method CatchUp(c: Collector, e: Entry, from0: Time, to: Time, windows: nat -> WindowInputs,
                   records: (Time, Time, int) -> seq<Item>)
      returns (ok: bool, ghost ran: nat -> WindowInputs)
      requires Valid() && Delivering()
      modifies this, store, telemetry.observer, telemetry.logs, telemetry.spans
      ensures Valid() && OthersKept(c.name) && Delivering() && BothLater(old(telemetry.Seen()), telemetry.Seen())
      ensures OnlyOutcomesDiffer(ran, windows)
      ensures var r := RunWindows(settings, c, e, old(StateOf(c.name)), from0, to, 0, false, ran);
        && StateOf(c.name) == r.state && TraceOf(c.name) == old(TraceOf(c.name)) + r.events && ok == r.ok
        && Extends(c.name, old(delivered), r.events, delivered, records)
    {
      hide CommitWindow, SourceWindowLimit, StateOf, TraceOf, RunWindows, Followed, WindowEnd, Reached, Valid,
        Delivering, Telemetry.Seen, BothLater, Extends, AgreeBefore, OnlyOutcomesDiffer;
      ghost var before := TraceOf(c.name);
      ghost var st0 := StateOf(c.name);
      ghost var begin := telemetry.Seen();
      ghost var held := delivered;
      ghost var events: Trace := [];
      var from, truncated, committed := from0, false, 0;
      ran := windows;
      ReachedStart(settings, c, e, st0, from0, to, ran);
      SeenLater(begin);
      ExtendsNothing(c.name, held, events, records);
      SameInputs(ran, windows);
      assert before + [] == before;
      while committed < MAX_WINDOWS_PER_TICK && from < to
        invariant 0 <= committed <= MAX_WINDOWS_PER_TICK
        invariant Valid() && OthersKept(c.name) && TraceOf(c.name) == before + events
        invariant Delivering() && BothLater(begin, telemetry.Seen()) && Extends(c.name, held, events, delivered, records)
        invariant OnlyOutcomesDiffer(ran, windows)
        invariant Reached(settings, c, e, st0, from0, to, ran, committed, events, StateOf(c.name), from, truncated)
        decreases MAX_WINDOWS_PER_TICK - committed
      {
        ghost var st := StateOf(c.name);
        ghost var ds := delivered;
        ghost var between := telemetry.Seen();
        Stops(settings, c, e, st0, from0, to, ran, committed, events, st, from, truncated);
        var w := windows(committed);
        SameFor(ran, windows, committed);
        if w.cancelledBefore {
          return false, ran;
        }
        var limit := Limit(c, e);
        if c.adaptive && 0 < limit < SECOND {
          return false, ran;
        }
        if committed > 0 && !truncated && (limit <= 0 || to - from <= limit) {
          return true, ran;
        }
        var windowTo := WindowEnd(limit, from, to);
        ghost var result;
        var mark;
        mark, result := Commit(c, e, from, windowTo, w, records);
        ghost var more := WithOutcome(ran, committed, result);
        OneOutcome(ran, windows, committed, result);
        ReachedWith(settings, c, e, st0, from0, to, ran, committed, events, st, from, truncated, more);
        ran := more;
        ghost var step := CommitWindow(settings, c, e, st, from, windowTo, ran(committed));
        assert step == CommitWindow(settings, c, e, st, from, windowTo, w.(commit := result));
        BothLaterChains(begin, between, telemetry.Seen());
        ExtendsChains(c.name, held, events, ds, step.events, delivered, records);
        AfterChains(events, step.events, before);
        Stops(settings, c, e, st0, from0, to, ran, committed, events, st, from, truncated);
        events := events + step.events;
        if mark.None? {
          return false, ran;
        }
        if mark.value <= from {
          return true, ran;
        }
        ReachedMore(settings, c, e, st0, from0, to, ran, committed, events[..|events| - |step.events|], st, from, truncated);
        truncated := c.Budgeted() && mark.value < windowTo;
        from := mark.value;
        committed := committed + 1;
      }
      Stops(settings, c, e, st0, from0, to, ran, committed, events, StateOf(c.name), from, truncated);
      ok := true;
    }

    /** One tick. Each window's outcome is that of its delivery; the scheduler does what is specified for
        those outcomes, and every window it acknowledges has all its collected records accepted. */
    method RunWindow(c: Collector, e: Entry, t: TickInputs, records: (Time, Time, int) -> seq<Item>)
      returns (ok: bool, ghost ran: nat -> WindowInputs)
      requires Valid() && Delivering()
      modifies this, store, telemetry.observer, telemetry.logs, telemetry.spans
      ensures Valid() && OthersKept(c.name) && Delivering() && BothLater(old(telemetry.Seen()), telemetry.Seen())
      ensures OnlyOutcomesDiffer(ran, t.windows)
      ensures var r := Tick(settings, c, e, old(StateOf(c.name)), t.(windows := ran));
        && StateOf(c.name) == r.state && TraceOf(c.name) == old(TraceOf(c.name)) + r.events && ok == r.ok
        && Extends(c.name, old(delivered), r.events, delivered, records)
    {
      hide Valid, Delivering, StateOf, TraceOf, RunWindows, Telemetry.Seen, BothLater, Extends, OnlyOutcomesDiffer;
      ran := t.windows;
      SameInputs(ran, t.windows);
      SeenLater(telemetry.Seen());
      if t.cancelled {
        ExtendsNothing(c.name, delivered, [], records);
        return false, ran;
      }
      var to := FloorSecond(t.now - c.lagAt(t.now));
      var from;
      ghost var first: Trace := [];
      var cursor := Cursor(c.name);
      if cursor.Some? {
        from := FloorSecond(cursor.value);
      } else {
        if e.initialLookback == 0 {
          ExtendsNothing(c.name, delivered, if t.firstPersisted then [Persisted(to)] else [], records);
          ok := SetCursor(c.name, to, t.firstPersisted);
          return;
        }
        from := to - e.initialLookback;
        if c.adaptive {
          from := FloorSecond(from);
        }
        ExtendsNothing(c.name, delivered, if t.firstPersisted then [Persisted(from)] else [], records);
        var saved := SetCursor(c.name, from, t.firstPersisted);
        if !saved {
          return false, ran;
        }
        first := [Persisted(from)];
      }
      ExtendsNothing(c.name, delivered, first, records);
      ghost var held := delivered;
      ghost var st := StateOf(c.name);
      ok, ran := CatchUp(c, e, from, to, t.windows, records);
      ExtendsChains(c.name, held, first, held, RunWindows(settings, c, e, st, from, to, 0, false, ran).events, delivered,
                    records);
    }
  }
}
