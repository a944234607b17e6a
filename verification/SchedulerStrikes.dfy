/** Windows whose payload the exporter rejects, over any ticks of one process. */
module SchedulerStrikes {
  import opened Instants
  import opened Options
  import opened RetentionGap
  import opened SchedulerSpec

  /** What one more payload rejection leaves: the window is pinned with one more strike, or, at the
      third strike, given up by moving the durable cursor to the mark. */
  function AfterRejection(st: State, event: Event, w: WindowInputs): WindowStep
    requires event.Committed?
  {
    var count := Strike(st, event.from, event.to);
    if count < STRIKES then WindowStep(st.(pin := Some(Pin(event.from, event.to, count))), [event], None)
    else Persist(st.(pin := None), event.mark, [event], w)
  }

  /** Neither a commit nor a durable cursor. */
  ghost predicate Quiet(events: Trace)
  {
    forall i :: 0 <= i < |events| ==> !events[i].Committed? && !events[i].Persisted?
  }

  /** Whatever the collector returns for the window: a rejected commit is of the pinned window when
      one is pinned from this start, with a mark inside it, and counts one strike; and a window that
      neither commits nor moves the cursor leaves a pin for its start alone. */
  lemma PoisonRejected(s: Settings, c: Collector, e: Entry, st: State, from: Time, to0: Time, w: WindowInputs)
    ensures var (pinned, to) := Pinned(st, from, to0); var r := CommitWindow(s, c, e, st, from, to0, w);
      && (r.events != [] && r.events[0].Committed? ==>
            && r.events[0].from == from && r.events[0].to == to && ValidMark(c, from, to, r.events[0].mark)
            && (r.events[0].result.Rejected? ==> r == AfterRejection(pinned, r.events[0], w)))
      && (Quiet(r.events) ==> r.state == pinned && r.mark.None?)
  {
    hide GapMark, FirstGap, CommitBudget, Strike, RestoreCommitBudget, ReduceCommitBudget;
    var events := CommitWindow(s, c, e, st, from, to0, w).events;
    assert |events| == 2 ==> events[1].Persisted?;
    assert events != [] ==> events[0].Committed? || events[0].GapReported?;
  }

  /** A window that reaches a mark ends with the durable write of it; another leaves the cursor. */
  lemma StepMark(s: Settings, c: Collector, e: Entry, st: State, from: Time, to0: Time, w: WindowInputs)
    ensures var r := CommitWindow(s, c, e, st, from, to0, w);
      && |r.events| <= 2
      && (if r.mark.Some?
          then |r.events| == 2 && r.events[1].Persisted? && r.state.cursor == r.mark && r.state.pin == None
          else r.state.cursor == st.cursor && |r.events| <= 1)
  {
    hide GapMark, FirstGap, CommitBudget, Strike;
  }

  /** Where the first window of a tick ends, and what it does. */
  function FirstStep(s: Settings, c: Collector, e: Entry, st: State, t: TickInputs): WindowStep
    requires st.cursor.Some?
  {
    var from := FloorSecond(st.cursor.value);
    CommitWindow(s, c, e, st, from, WindowEnd(SourceWindowLimit(c, e, st), from, UpperBound(c, t.now)), t.windows(0))
  }

  /** A tick with a cursor does nothing, or begins with its first window and ends with it unless that
      window reached a mark. */
  lemma FirstWindow(s: Settings, c: Collector, e: Entry, st: State, t: TickInputs)
    requires st.cursor.Some?
    ensures var r := Tick(s, c, e, st, t); var step := FirstStep(s, c, e, st, t);
      || (r.events == [] && r.state == st)
      || (if step.mark.Some? then step.events <= r.events else r.events == step.events && r.state == step.state)
  {
    hide CommitWindow, SourceWindowLimit;
  }

  /** A window whose strike is the first: nothing is pinned from its start. */
  predicate Unpinned(st: State, from: Time) { st.pin.None? || st.pin.value.from != from }

  /** The cursor is where a window starts, or in the whole second where it does. */
  predicate CursorAt(cursor: Option<Time>, from: Time)
  {
    cursor.Some? && (cursor.value == from || FloorSecond(cursor.value) == from)
  }

  /** A rejected commit at the end of a tick, in whichever of its windows, pins that window and leaves
      the cursor at its start. */
  lemma {:induction false} EndsRejected(s: Settings, c: Collector, e: Entry, st: State, from: Time, to: Time,
                                        committed: nat, truncated: bool, windows: nat -> WindowInputs, last: Event)
    requires CursorAt(st.cursor, from)
    requires last.Committed? && last.result.Rejected? && Unpinned(st, last.from)
    requires var r := RunWindows(s, c, e, st, from, to, committed, truncated, windows);
      r.events != [] && r.events[|r.events| - 1] == last
    ensures var r := RunWindows(s, c, e, st, from, to, committed, truncated, windows);
      && ValidMark(c, last.from, last.to, last.mark)
      && r.state.pin == Some(Pin(last.from, last.to, 1)) && CursorAt(r.state.cursor, last.from)
    decreases MAX_WINDOWS_PER_TICK - committed
  {
    var w := windows(committed);
    var windowTo := WindowEnd(SourceWindowLimit(c, e, st), from, to);
    var step := CommitWindow(s, c, e, st, from, windowTo, w);
    PoisonRejected(s, c, e, st, from, windowTo, w);
    StepMark(s, c, e, st, from, windowTo, w);
    hide CommitWindow, SourceWindowLimit, ValidMark;
    if step.mark.Some? && step.mark.value > from {
      var next := c.Budgeted() && step.mark.value < windowTo;
      var rest := RunWindows(s, c, e, step.state, step.mark.value, to, committed + 1, next, windows);
      if rest.events != [] {
        assert (step.events + rest.events)[|step.events + rest.events| - 1] == rest.events[|rest.events| - 1];
        EndsRejected(s, c, e, step.state, step.mark.value, to, committed + 1, next, windows, last);
      }
    }
  }

  lemma TickEndsRejected(s: Settings, c: Collector, e: Entry, st: State, t: TickInputs, last: Event)
    requires last.Committed? && last.result.Rejected? && Unpinned(st, last.from)
    requires var r := Tick(s, c, e, st, t); r.events != [] && r.events[|r.events| - 1] == last
    ensures var r := Tick(s, c, e, st, t);
      && ValidMark(c, last.from, last.to, last.mark)
      && r.state.pin == Some(Pin(last.from, last.to, 1)) && CursorAt(r.state.cursor, last.from)
  {
    hide RunWindows, ValidMark;
    var to := UpperBound(c, t.now);
    if st.cursor.Some? {
      EndsRejected(s, c, e, st, FloorSecond(st.cursor.value), to, 0, false, t.windows, last);
    } else {
      var from := InitialFrom(c, e, to);
      EndsRejected(s, c, e, st.(cursor := Some(from)), from, to, 0, false, t.windows, last);
    }
  }

  /** Ticks that neither commit nor move the cursor keep the pin of the window at the cursor, and
      never pin another. */
  lemma {:induction false} QuietTicks(s: Settings, c: Collector, e: Entry, st: State, ts: seq<TickInputs>)
    requires st.cursor.Some? && Quiet(Ticks(s, c, e, st, ts).trace)
    ensures var r := Ticks(s, c, e, st, ts).state;
      if Unpinned(st, FloorSecond(st.cursor.value))
      then r.cursor == st.cursor && Unpinned(r, FloorSecond(st.cursor.value))
      else r == st
  {
    if |ts| > 0 {
      var before := Ticks(s, c, e, st, ts[..|ts| - 1]);
      var t := ts[|ts| - 1];
      var trace := before.trace + Tick(s, c, e, before.state, t).events;
      assert forall i :: 0 <= i < |before.trace| ==> trace[i] == before.trace[i];
      QuietTicks(s, c, e, st, ts[..|ts| - 1]);
      assert Quiet(Tick(s, c, e, before.state, t).events) by {
        assert forall i :: 0 <= i < |trace| - |before.trace| ==>
            trace[|before.trace| + i] == Tick(s, c, e, before.state, t).events[i];
      }
      QuietTick(s, c, e, before.state, t);
    }
  }

  lemma QuietTick(s: Settings, c: Collector, e: Entry, st: State, t: TickInputs)
    requires st.cursor.Some? && Quiet(Tick(s, c, e, st, t).events)
    ensures var r := Tick(s, c, e, st, t).state; var from := FloorSecond(st.cursor.value);
      if Unpinned(st, from) then r.cursor == st.cursor && Unpinned(r, from) else r == st
  {
    var from := FloorSecond(st.cursor.value);
    var windowTo := WindowEnd(SourceWindowLimit(c, e, st), from, UpperBound(c, t.now));
    FirstWindow(s, c, e, st, t);
    PoisonRejected(s, c, e, st, from, windowTo, t.windows(0));
    StepMark(s, c, e, st, from, windowTo, t.windows(0));
    hide Tick, CommitWindow, SourceWindowLimit;
  }

  /** A tick whose first event is a rejected commit. */
  predicate Rejects(events: Trace) { events != [] && events[0].Committed? && events[0].result.Rejected? }

  lemma RejectingTick(s: Settings, c: Collector, e: Entry, st: State, t: TickInputs)
    requires st.cursor.Some? && Rejects(Tick(s, c, e, st, t).events)
    ensures var r := Tick(s, c, e, st, t); var event := r.events[0]; var from := FloorSecond(st.cursor.value);
      && event.from == from < event.mark <= event.to
      && (!Unpinned(st, from) ==> event.to == st.pin.value.to)
      && var count := if Unpinned(st, from) then 1 else st.pin.value.count + 1;
         if count < STRIKES
         then r.events == [event] && r.state == st.(pin := Some(Pin(from, event.to, count)))
         else if t.windows(0).persisted then |r.events| > 1 && r.events[1] == Persisted(event.mark)
         else r.events == [event] && r.state == st.(pin := None)
  {
    var from := FloorSecond(st.cursor.value);
    var windowTo := WindowEnd(SourceWindowLimit(c, e, st), from, UpperBound(c, t.now));
    FirstWindow(s, c, e, st, t);
    PoisonRejected(s, c, e, st, from, windowTo, t.windows(0));
    StepMark(s, c, e, st, from, windowTo, t.windows(0));
    hide Tick, CommitWindow, SourceWindowLimit;
  }

  /** The first commit after any quiet ticks, when it is rejected too. */
  lemma NextRejection(s: Settings, c: Collector, e: Entry, st: State, quiet: seq<TickInputs>, t: TickInputs)
    requires st.cursor.Some?
    requires var between := Ticks(s, c, e, st, quiet);
      Quiet(between.trace) && Rejects(Tick(s, c, e, between.state, t).events)
    ensures var r := Tick(s, c, e, Ticks(s, c, e, st, quiet).state, t); var from := FloorSecond(st.cursor.value);
      && var event := r.events[0];
      && event.from == from < event.mark <= event.to && event.result.Rejected?
      && (!Unpinned(st, from) ==> event.to == st.pin.value.to)
      && var count := if Unpinned(st, from) then 1 else st.pin.value.count + 1;
         if count < STRIKES
         then r.events == [event] && r.state.pin == Some(Pin(from, event.to, count)) && r.state.cursor == st.cursor
         else if t.windows(0).persisted then |r.events| > 1 && r.events[1] == Persisted(event.mark)
         else r.events == [event] && r.state.cursor == st.cursor
  {
    hide Tick, Ticks, Quiet;
    QuietTicks(s, c, e, st, quiet);
    RejectingTick(s, c, e, Ticks(s, c, e, st, quiet).state, t);
  }

  /** Three ticks with any number of others between them. */
  datatype Attempts = Attempts(first: TickStep, quiet1: Run, second: TickStep, quiet2: Run, third: TickStep)
  {
    /** The first ends with this rejection, the next two begin with one, and the ticks between them
        neither commit nor move the cursor. */
    ghost predicate AllReject(rejection: Event)
    {
      && rejection.Committed? && rejection.result.Rejected?
      && first.events != [] && first.events[|first.events| - 1] == rejection
      && Quiet(quiet1.trace) && Rejects(second.events) && Quiet(quiet2.trace) && Rejects(third.events)
    }
  }

  function Tried(s: Settings, c: Collector, e: Entry, st: State, t1: TickInputs, quiet1: seq<TickInputs>,
                 t2: TickInputs, quiet2: seq<TickInputs>, t3: TickInputs): Attempts
  {
    var first := Tick(s, c, e, st, t1);
    var between1 := Ticks(s, c, e, first.state, quiet1);
    var second := Tick(s, c, e, between1.state, t2);
    var between2 := Ticks(s, c, e, second.state, quiet2);
    Attempts(first, between1, second, between2, Tick(s, c, e, between2.state, t3))
  }

  /** A window is rejected for the first time at the end of a tick, as whichever of that tick's
      windows. After any number of ticks that commit nothing, the next commit is rejected too, and
      so is the one after it. When the window starts at a whole second, as an adaptive collector's
      always does, all three tried the same window and the third, if it can write, moves the cursor
      to its mark, however the clock, the collector's marks and the limits moved meanwhile. When it
      does not, the second and third try the window from the whole second below and nothing is
      dropped yet. */
  lemma PoisonDroppedOnThirdAttempt(s: Settings, c: Collector, e: Entry, st: State, t1: TickInputs,
                                    quiet1: seq<TickInputs>, t2: TickInputs, quiet2: seq<TickInputs>, t3: TickInputs,
                                    rejection: Event)
    requires Tried(s, c, e, st, t1, quiet1, t2, quiet2, t3).AllReject(rejection) && Unpinned(st, rejection.from)
    ensures var a := Tried(s, c, e, st, t1, quiet1, t2, quiet2, t3);
      var start := FloorSecond(rejection.from); var to := a.second.events[0].to;
      var m2, m3 := a.second.events[0].mark, a.third.events[0].mark;
      && start < m2 <= to && start < m3 <= to
      && a.second.events == [Committed(start, to, m2, Rejected)] && a.second.state.cursor == a.first.state.cursor
      && a.third.events[0] == Committed(start, to, m3, Rejected)
      && (WholeSecond(rejection.from) ==> start == rejection.from && to == rejection.to)
      && (t3.windows(0).persisted ==>
            (|a.third.events| > 1 && a.third.events[1] == Persisted(m3) <==> WholeSecond(rejection.from)))
      && (!WholeSecond(rejection.from) ==> |a.third.events| == 1 && a.third.state.cursor == a.first.state.cursor)
    ensures c.adaptive ==> WholeSecond(rejection.from)
  {
    var a := Tried(s, c, e, st, t1, quiet1, t2, quiet2, t3);
    hide Tick, Ticks, Quiet;
    TickEndsRejected(s, c, e, st, t1, rejection);
    NextRejection(s, c, e, a.first.state, quiet1, t2);
    NextRejection(s, c, e, a.second.state, quiet2, t3);
    assert a.first.state.pin == Some(Pin(rejection.from, rejection.to, 1));
    assert WholeSecond(rejection.from) <==> FloorSecond(rejection.from) == rejection.from;
  }

  /** A tick at ten seconds whose first window reaches the mark and has the first outcome; each later
      window is collected whole and has the other. */
  function Answers(mark: Time, first: CommitResult, others: CommitResult): TickInputs
  {
    TickInputs(false, 10 * SECOND, true, (k: nat) =>
      WindowInputs(false, (from, to, budget) => Collected(if k == 0 then mark else to), false,
                   if k == 0 then first else others, true, true, true, true, true, 10 * SECOND))
  }

  /** With windows of two seconds and a collector whose first mark is half past one, the window from
      there is rejected in three ticks running and still holds the cursor. */
  lemma FractionalStartLosesAStrike()
    ensures var c := Collector("plain", 0, now => 0, false, false); var e := Entry(MINUTE, 0, 2 * SECOND);
      var st := FRESH.(cursor := Some(0)); var from := 3 * SECOND / 2;
      var again := Answers(3 * SECOND, Rejected, Rejected);
      var a := Tried(Settings(0), c, e, st, Answers(from, Acked, Rejected), [], again, [], again);
      && a.AllReject(Committed(from, from + 2 * SECOND, from + 2 * SECOND, Rejected)) && !WholeSecond(from)
      && a.third.events == [Committed(SECOND, 3 * SECOND, 3 * SECOND, Rejected)]
      && a.third.state.cursor == Some(from)
  {
    var c := Collector("plain", 0, now => 0, false, false);
    var e := Entry(MINUTE, 0, 2 * SECOND);
    var from := 3 * SECOND / 2;
    var to := from + 2 * SECOND;
    var s := Settings(0);
    var st := FRESH.(cursor := Some(0));
    var t1 := Answers(from, Acked, Rejected);
    var after := st.(cursor := Some(from));
    assert CommitWindow(s, c, e, st, 0, 2 * SECOND, t1.windows(0)) ==
      WindowStep(after, [Committed(0, 2 * SECOND, from, Acked), Persisted(from)], Some(from));
    var pinned := after.(pin := Some(Pin(from, to, 1)));
    assert CommitWindow(s, c, e, after, from, to, t1.windows(1)) ==
      WindowStep(pinned, [Committed(from, to, to, Rejected)], None);
    assert Tick(s, c, e, st, t1).state == pinned;
    var t := Answers(3 * SECOND, Rejected, Rejected);
    var again := Committed(SECOND, 3 * SECOND, 3 * SECOND, Rejected);
    var twice := after.(pin := Some(Pin(SECOND, 3 * SECOND, 1)));
    assert Tick(s, c, e, pinned, t) == TickStep(twice, [again], false);
    assert Tick(s, c, e, twice, t) == TickStep(twice.(pin := Some(Pin(SECOND, 3 * SECOND, 2))), [again], false);
  }
}
