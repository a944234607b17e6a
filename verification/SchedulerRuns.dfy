/** Safety and progress of window scheduling over whole runs, with failures and restarts. */
module SchedulerRuns {
  import opened Instants
  import opened Options
  import opened RetentionGap
  import opened SchedulerSpec

  // ---- What a trace says about an instant -----------------------------------------------

  /** How many times in a row [from, to) was rejected at the end of the trace. Any other commit
      outcome, a durable cursor or a restart breaks the row. */
  function Rejections(trace: Trace, from: Time, to: Time): nat
  {
    if |trace| == 0 then 0
    else
      var before := trace[..|trace| - 1];
      match trace[|trace| - 1]
      case Committed(f, t, _, r) => if r.Rejected? && f == from && t == to then Rejections(before, from, to) + 1 else 0
      case GapReported(_, _, _) => Rejections(before, from, to)
      case Persisted(_) => 0
      case Restarted => 0
  }

  /** Event k accounts for instant x: its window was delivered and acknowledged, or rejected for
      at least the third time in a row, or skipped with a flushed gap event. */
  predicate Accounts(trace: Trace, k: nat, x: Time)
    requires k < |trace|
  {
    match trace[k]
    case Committed(from, to, mark, Acked) => from <= x < mark
    case Committed(from, to, mark, Rejected) => from <= x < mark && Rejections(trace[..k + 1], from, to) >= 3
    case GapReported(from, mark, true) => from <= x < mark
    case _ => false
  }

  ghost predicate Accounted(trace: Trace, x: Time)
  {
    exists k: nat :: k < |trace| && Accounts(trace, k, x)
  }

  lemma AccountedGrows(trace: Trace, more: Trace, x: Time)
    requires Accounted(trace, x)
    ensures Accounted(trace + more, x)
  {
    var k: nat :| k < |trace| && Accounts(trace, k, x);
    assert (trace + more)[..k + 1] == trace[..k + 1];
    assert Accounts(trace + more, k, x);
  }

  lemma AccountedNow(trace: Trace, k: nat, x: Time)
    requires k < |trace| && Accounts(trace, k, x)
    ensures Accounted(trace, x)
  {
  }

  lemma CursorsAppend(trace: Trace, event: Event)
    ensures Cursors(trace + [event]) == if event.Persisted? then Cursors(trace) + [event.at] else Cursors(trace)
  {
    assert (trace + [event])[..|trace|] == trace;
  }

  lemma RejectionsAppend(trace: Trace, event: Event, from: Time, to: Time)
    ensures Rejections(trace + [event], from, to) ==
            match event
            case Committed(f, t, _, r) => if r.Rejected? && f == from && t == to then Rejections(trace, from, to) + 1 else 0
            case GapReported(_, _, _) => Rejections(trace, from, to)
            case Persisted(_) => 0
            case Restarted => 0
  {
    assert (trace + [event])[..|trace|] == trace;
  }

  // ---- The invariant --------------------------------------------------------------------

  /** Every instant from the first durable cursor to the last is accounted for, and the second of
      the cursor never moved back. */
  ghost predicate NoHole(trace: Trace)
  {
    var cs := Cursors(trace);
    && (forall x :: |cs| > 0 && cs[0] <= x < cs[|cs| - 1] ==> Accounted(trace, x))
    && (forall i, j :: 0 <= i <= j < |cs| ==> FloorSecond(cs[i]) <= FloorSecond(cs[j]))
  }

  /** At the end of the trace and at every point before it. */
  ghost predicate NeverHole(trace: Trace)
  {
    NoHole(trace) && (|trace| > 0 ==> NeverHole(trace[..|trace| - 1]))
  }

  lemma {:induction false} NeverHoleBefore(trace: Trace, n: nat)
    requires NeverHole(trace) && n <= |trace|
    ensures NeverHole(trace[..n])
    decreases |trace|
  {
    if n < |trace| {
      NeverHoleBefore(trace[..|trace| - 1], n);
      assert trace[..|trace| - 1][..n] == trace[..n];
    } else {
      assert trace[..n] == trace;
    }
  }

  ghost predicate PinCounted(pin: Option<Pin>, trace: Trace)
  {
    pin.Some? ==>
      && pin.value.from < pin.value.to
      && 1 <= pin.value.count < STRIKES
      && pin.value.count <= Rejections(trace, pin.value.from, pin.value.to)
  }

  ghost predicate Sound(st: State, trace: Trace)
  {
    && NeverHole(trace)
    && st.cursor == LastCursor(trace)
    && PinCounted(st.pin, trace)
  }

  lemma QuietEventKeepsNeverHole(trace: Trace, event: Event)
    requires NeverHole(trace) && !event.Persisted?
    ensures NeverHole(trace + [event]) && LastCursor(trace + [event]) == LastCursor(trace)
  {
    CursorsAppend(trace, event);
    var cs := Cursors(trace);
    forall x | |cs| > 0 && cs[0] <= x < cs[|cs| - 1] ensures Accounted(trace + [event], x) {
      AccountedGrows(trace, [event], x);
    }
    assert (trace + [event])[..|trace|] == trace;
  }

  /** The event after the trace accounts for every instant of [from, mark). */
  ghost predicate AccountsAll(trace: Trace, event: Event, from: Time, mark: Time)
  {
    forall x :: from <= x < mark ==> Accounts(trace + [event], |trace|, x)
  }

  lemma PersistKeepsNoHole(cursor: Time, trace: Trace, event: Event, from: Time, mark: Time)
    requires NoHole(trace) && LastCursor(trace) == Some(cursor) && !event.Persisted?
    requires FloorSecond(cursor) <= from <= cursor && from < mark
    requires AccountsAll(trace, event, from, mark)
    ensures NoHole(trace + [event] + [Persisted(mark)])
    ensures LastCursor(trace + [event] + [Persisted(mark)]) == Some(mark)
  {
    var t1 := trace + [event];
    var t2 := t1 + [Persisted(mark)];
    var cs := Cursors(trace);
    CursorsAppend(trace, event);
    CursorsAppend(t1, Persisted(mark));
    hide Cursors, Accounts, Accounted;
    assert Cursors(t2) == cs + [mark];
    forall x | cs[0] <= x < mark ensures Accounted(t2, x) {
      if x < from {
        AccountedGrows(trace, [event], x);
      } else {
        AccountedNow(t1, |trace|, x);
      }
      AccountedGrows(t1, [Persisted(mark)], x);
    }
  }

  /** A durable write may follow an event that accounts for every instant of [from, mark). */
  lemma PersistKeepsNeverHole(cursor: Time, trace: Trace, event: Event, from: Time, mark: Time)
    requires NeverHole(trace) && LastCursor(trace) == Some(cursor) && !event.Persisted?
    requires FloorSecond(cursor) <= from <= cursor && from < mark
    requires AccountsAll(trace, event, from, mark)
    ensures NeverHole(trace + [event] + [Persisted(mark)])
    ensures LastCursor(trace + [event] + [Persisted(mark)]) == Some(mark)
  {
    var t1 := trace + [event];
    PersistKeepsNoHole(cursor, trace, event, from, mark);
    QuietEventKeepsNeverHole(trace, event);
    assert (t1 + [Persisted(mark)])[..|t1|] == t1;
    hide NoHole, Cursors;
  }

  lemma FirstPersistKeepsNeverHole(trace: Trace, mark: Time)
    requires NeverHole(trace) && LastCursor(trace) == None
    ensures NeverHole(trace + [Persisted(mark)]) && LastCursor(trace + [Persisted(mark)]) == Some(mark)
  {
    CursorsAppend(trace, Persisted(mark));
    assert (trace + [Persisted(mark)])[..|trace|] == trace;
  }

  // ---- One window keeps it --------------------------------------------------------------

  /** Where a window may start: at the durable cursor, or at the whole second it lies in. */
  predicate StartsAt(st: State, from: Time)
  {
    st.cursor.Some? && FloorSecond(st.cursor.value) <= from <= st.cursor.value
  }

  lemma SkipGapSound(c: Collector, e: Entry, st: State, from: Time, to: Time, cause: Err, w: WindowInputs, trace: Trace)
    requires Sound(st, trace) && StartsAt(st, from)
    ensures var r := SkipGap(c, e, st, from, to, cause, w);
      && Sound(r.state, trace + r.events)
      && (r.mark.Some? ==> r.mark.value > from && r.state.cursor == r.mark)
      && (r.mark.None? ==> r.state.cursor == st.cursor)
  {
    var r := SkipGap(c, e, st, from, to, cause, w);
    if r.events == [] {
      assert trace + r.events == trace;
    } else {
      var event := r.events[0];
      QuietEventKeepsNeverHole(trace, event);
      if st.pin.Some? {
        RejectionsAppend(trace, event, st.pin.value.from, st.pin.value.to);
      }
      if r.mark.Some? {
        PersistKeepsNeverHole(st.cursor.value, trace, event, from, r.mark.value);
        assert trace + r.events == trace + [event] + [Persisted(r.mark.value)];
      } else {
        assert r.events == [event];
      }
    }
  }

  lemma FinishCommitSound(s: Settings, c: Collector, st: State, from: Time, to: Time, mark: Time, budget: int,
                          w: WindowInputs, trace: Trace)
    requires Sound(st, trace) && StartsAt(st, from) && from < mark <= to
    ensures var r := FinishCommit(s, c, st, from, to, mark, budget, w);
      && Sound(r.state, trace + r.events)
      && (r.mark.Some? ==> r.mark.value > from && r.state.cursor == r.mark)
      && (r.mark.None? ==> r.state.cursor == st.cursor)
  {
    var r := FinishCommit(s, c, st, from, to, mark, budget, w);
    var event := Committed(from, to, mark, w.commit);
    QuietEventKeepsNeverHole(trace, event);
    RejectionsAppend(trace, event, from, to);
    assert (trace + [event])[..|trace| + 1] == trace + [event];
    if r.mark.Some? {
      PersistKeepsNeverHole(st.cursor.value, trace, event, from, mark);
      assert trace + r.events == trace + [event] + [Persisted(mark)];
    } else {
      assert r.events == [event];
    }
  }

  lemma CommitWindowSound(s: Settings, c: Collector, e: Entry, st: State, from: Time, to: Time, w: WindowInputs,
                          trace: Trace)
    requires Sound(st, trace) && StartsAt(st, from)
    ensures var r := CommitWindow(s, c, e, st, from, to, w);
      && Sound(r.state, trace + r.events)
      && (r.mark.Some? ==> r.mark.value > from && r.state.cursor == r.mark)
      && (r.mark.None? ==> r.state.cursor == st.cursor)
  {
    var (st1, to1) := Pinned(st, from, to);
    var budget := if c.Budgeted() then CommitBudget(s, st1) else 0;
    assert trace + [] == trace;
    match w.collect(from, to1, budget)
    case CollectFailed(err) =>
      if FirstGap(err).Some? {
        SkipGapSound(c, e, st1, from, to1, err, w, trace);
      }
    case Collected(mark) =>
      if !w.cancelledAfter && ValidMark(c, from, to1, mark) {
        FinishCommitSound(s, c, st1, from, to1, mark, budget, w, trace);
      }
  }

  lemma {:induction false} RunWindowsSound(s: Settings, c: Collector, e: Entry, st: State, from: Time, to: Time,
                                           committed: nat, truncated: bool, windows: nat -> WindowInputs, trace: Trace)
    requires Sound(st, trace) && StartsAt(st, from)
    ensures var r := RunWindows(s, c, e, st, from, to, committed, truncated, windows);
      Sound(r.state, trace + r.events) && r.state.cursor.Some?
    decreases MAX_WINDOWS_PER_TICK - committed
  {
    hide CommitWindow, SourceWindowLimit, NeverHole, LastCursor, PinCounted;
    var limit := SourceWindowLimit(c, e, st);
    assert trace + [] == trace;
    if committed >= MAX_WINDOWS_PER_TICK || from >= to || windows(committed).cancelledBefore
       || (c.adaptive && 0 < limit < SECOND)
       || (committed > 0 && !truncated && (limit <= 0 || to - from <= limit)) {
    } else {
      var windowTo := WindowEnd(limit, from, to);
      var step := CommitWindow(s, c, e, st, from, windowTo, windows(committed));
      CommitWindowSound(s, c, e, st, from, windowTo, windows(committed), trace);
      if step.mark.Some? {
        var next := c.Budgeted() && step.mark.value < windowTo;
        var rest := RunWindows(s, c, e, step.state, step.mark.value, to, committed + 1, next, windows);
        RunWindowsSound(s, c, e, step.state, step.mark.value, to, committed + 1, next, windows, trace + step.events);
        assert trace + (step.events + rest.events) == trace + step.events + rest.events;
      }
    }
  }

  lemma TickSound(s: Settings, c: Collector, e: Entry, st: State, t: TickInputs, trace: Trace)
    requires Sound(st, trace) && (st.cursor.None? ==> st.pin.None?)
    ensures var r := Tick(s, c, e, st, t);
      Sound(r.state, trace + r.events) && (r.state.cursor.None? ==> r.state.pin.None?)
  {
    hide RunWindows, NeverHole, LastCursor;
    assert trace + [] == trace;
    if !t.cancelled {
      var to := UpperBound(c, t.now);
      if st.cursor.Some? {
        RunWindowsSound(s, c, e, st, FloorSecond(st.cursor.value), to, 0, false, t.windows, trace);
      } else if t.firstPersisted {
        var from := if e.initialLookback == 0 then to else InitialFrom(c, e, to);
        FirstPersistKeepsNeverHole(trace, from);
        if e.initialLookback != 0 {
          var st1 := st.(cursor := Some(from));
          var rest := RunWindows(s, c, e, st1, from, to, 0, false, t.windows);
          RunWindowsSound(s, c, e, st1, from, to, 0, false, t.windows, trace + [Persisted(from)]);
          assert trace + ([Persisted(from)] + rest.events) == trace + [Persisted(from)] + rest.events;
        }
      }
    }
  }

  lemma {:induction false} ExecuteSound(s: Settings, c: Collector, e: Entry, inputs: seq<RunInput>)
    ensures var r := Execute(s, c, e, inputs);
      Sound(r.state, r.trace) && (r.state.cursor.None? ==> r.state.pin.None?)
  {
    hide Tick, LastCursor;
    if |inputs| == 0 {
      assert LastCursor([]) == None by { LastCursorOfNothing(); }
    } else {
      ExecuteSound(s, c, e, inputs[..|inputs| - 1]);
      var before := Execute(s, c, e, inputs[..|inputs| - 1]);
      var last := inputs[|inputs| - 1];
      TickSound(s, c, e, before.state, last.inputs, before.trace);
      if last.Crashed? {
        var events := Tick(s, c, e, before.state, last.inputs).events;
        var trace := before.trace + Prefix(events, last.calls);
        NeverHoleBefore(before.trace + events, |trace|);
        assert (before.trace + events)[..|trace|] == trace;
        QuietEventKeepsNeverHole(trace, Restarted);
      }
    }
  }

  lemma LastCursorOfNothing()
    ensures LastCursor([]) == None
  {
  }

  lemma LastOfCursors(trace: Trace)
    ensures LastCursor(trace) == (if |Cursors(trace)| == 0 then None else Some(Cursors(trace)[|Cursors(trace)| - 1]))
  {
  }

  // ---- Main result: no silent hole ------------------------------------------------------

  /** Over any run, with any clock values, collector errors, export failures, failed writes and
      crashes: every instant from the first durable cursor to the current one was delivered and
      acknowledged, dropped after three payload rejections of its window, or skipped with a
      flushed gap event; and the second of the durable cursor never moves back. */
  lemma NoSilentHole(s: Settings, c: Collector, e: Entry, inputs: seq<RunInput>)
    ensures var r := Execute(s, c, e, inputs); var cs := Cursors(r.trace);
      && r.state.cursor == (if |cs| == 0 then None else Some(cs[|cs| - 1]))
      && (forall x :: |cs| > 0 && cs[0] <= x < cs[|cs| - 1] ==> Accounted(r.trace, x))
      && (forall i, j :: 0 <= i <= j < |cs| ==> FloorSecond(cs[i]) <= FloorSecond(cs[j]))
  {
    hide Execute, Accounted, Cursors, FloorSecond;
    ExecuteSound(s, c, e, inputs);
    LastOfCursors(Execute(s, c, e, inputs).trace);
  }
}
