/** Any ticks of any collectors, with other goroutines at work on the same pipelines. */
module DeliveryRuns {
  import opened Instants
  import opened SchedulerSpec
  import opened SchedulerRuns
  import opened Providers
  import opened Commit
  import opened Delivery
  import opened Scheduler

  /** One collector's tick, and what it collects for each window and budget. */
  datatype Turn = Turn(c: Collector, e: Entry, inputs: TickInputs, records: (Time, Time, int) -> seq<Item>)

  /** The instant was collected in a window all of whose records the pipelines hold, accepted; or its
      window was dropped after three rejections; or a flushed event reported it lost. */
  ghost predicate DeliveredOrReported(v: Pipes, name: string, trace: Trace, ds: seq<Delivered>, x: Time)
  {
    exists k: nat :: k < |trace| && Accounts(trace, k, x) &&
      (AckedEvent(trace[k]) ==>
         exists d :: d in ds && d.name == name && d.from <= x < d.mark
                     && Held(v, d.items, d.logPlaces, d.spanPlaces, 0, 0))
  }

  /** For every collector: each instant from its first durable cursor to its last is delivered or
      reported, and the second of the cursor never moved back. */
  ghost predicate NothingLost(w: WindowScheduler)
    reads w, w.store, w.telemetry, w.telemetry.observer, w.telemetry.logs, w.telemetry.spans,
      w.telemetry.logs.observer, w.telemetry.spans.observer
  {
    forall n :: var trace := w.TraceOf(n); var cs := Cursors(trace);
      && w.StateOf(n).cursor == LastCursor(trace)
      && (forall x :: |cs| > 0 && cs[0] <= x < cs[|cs| - 1] ==>
            DeliveredOrReported(w.telemetry.Seen(), n, trace, w.delivered, x))
      && (forall i, j :: 0 <= i <= j < |cs| ==> FloorSecond(cs[i]) <= FloorSecond(cs[j]))
  }

  ghost predicate SoundFor(st: State, trace: Trace) { Sound(st, trace) && (st.cursor.None? ==> st.pin.None?) }

  ghost predicate Running(w: WindowScheduler)
    reads w, w.store, w.telemetry, w.telemetry.observer, w.telemetry.logs, w.telemetry.spans,
      w.telemetry.logs.observer, w.telemetry.spans.observer
  {
    && w.Valid() && w.Delivering()
    && (forall n :: SoundFor(w.StateOf(n), w.TraceOf(n)))
    && (forall n :: EachDelivered(n, w.TraceOf(n), w.delivered))
  }

  /** A process with an empty store begins like this. */
  lemma RunningAtFirst(w: WindowScheduler)
    requires w.Valid() && w.Delivering() && w.delivered == []
    requires forall n :: w.TraceOf(n) == [] && w.StateOf(n) == FRESH
    ensures Running(w)
  {
    forall n ensures SoundFor(w.StateOf(n), w.TraceOf(n)) {
      LastCursorOfNothing();
      assert w.StateOf(n) == FRESH && w.TraceOf(n) == [];
    }
  }

  /** A tick of one collector keeps every collector's acknowledgements delivered. */
  lemma Grows(n: string, trace: Trace, before: seq<Delivered>, own: Trace, after: seq<Delivered>,
              records: (Time, Time, int) -> seq<Item>, name: string, events: Trace)
    requires Extends(name, before, events, after, records) && EachDelivered(n, trace, before)
    requires own == if n == name then events else []
    ensures EachDelivered(n, trace + own, after)
    ensures own == [] ==> trace + own == trace
  {
  }

  lemma InstantDelivered(v: Pipes, name: string, trace: Trace, ds: seq<Delivered>, x: Time)
    requires Accounted(trace, x) && EachDelivered(name, trace, ds) && AllHeld(v, ds)
    ensures DeliveredOrReported(v, name, trace, ds, x)
  {
    var k: nat :| k < |trace| && Accounts(trace, k, x);
    assert trace[k] in trace;
  }

  lemma RunningLosesNothing(w: WindowScheduler)
    requires Running(w)
    ensures NothingLost(w)
  {
    forall n ensures var trace := w.TraceOf(n); var cs := Cursors(trace);
      && w.StateOf(n).cursor == LastCursor(trace)
      && (forall x :: |cs| > 0 && cs[0] <= x < cs[|cs| - 1] ==>
            DeliveredOrReported(w.telemetry.Seen(), n, trace, w.delivered, x))
      && (forall i, j :: 0 <= i <= j < |cs| ==> FloorSecond(cs[i]) <= FloorSecond(cs[j]))
    {
      var trace := w.TraceOf(n);
      var cs := Cursors(trace);
      assert SoundFor(w.StateOf(n), trace) && EachDelivered(n, trace, w.delivered);
      forall x | |cs| > 0 && cs[0] <= x < cs[|cs| - 1]
        ensures DeliveredOrReported(w.telemetry.Seen(), n, trace, w.delivered, x)
      {
        InstantDelivered(w.telemetry.Seen(), n, trace, w.delivered, x);
      }
    }
  }

  /** Anything other goroutines do to the pipelines. */
  method Interfere(w: WindowScheduler)
    requires Running(w)
    modifies w.telemetry.observer, w.telemetry.logs, w.telemetry.spans
    ensures Running(w)
  {
    hide AllHeld, Sound, EachDelivered, BothLater, Telemetry.Valid, Telemetry.Seen;
    ghost var begin := w.telemetry.Seen();
    w.telemetry.Interfere();
    AllHeldLater(begin, w.telemetry.Seen(), w.delivered);
  }

  /** One tick of one collector: it does what is specified for the outcomes of its deliveries, leaves every
      other collector's state and calls alone, and the process goes on as before. */
  method Serve(w: WindowScheduler, turn: Turn) returns (ghost ran: nat -> WindowInputs)
    requires Running(w)
    modifies w, w.store, w.telemetry.observer, w.telemetry.logs, w.telemetry.spans
    ensures Running(w) && old(w.delivered) <= w.delivered && OnlyOutcomesDiffer(ran, turn.inputs.windows)
    ensures forall n :: Continues(w.settings, turn, ran, n, old(w.StateOf(n)), old(w.TraceOf(n)), w.StateOf(n), w.TraceOf(n))
  {
    hide AllHeld, Sound, EachDelivered, BothLater, Tick, Extends, Telemetry.Valid, Telemetry.Seen;
    var name := turn.c.name;
    ghost var st, trace, held := w.StateOf(name), w.TraceOf(name), w.delivered;
    assert SoundFor(st, trace) && EachDelivered(name, trace, held);
    var ok;
    ok, ran := w.RunWindow(turn.c, turn.e, turn.inputs, turn.records);
    ghost var t := turn.inputs.(windows := ran);
    TickSound(w.settings, turn.c, turn.e, st, t, trace);
    ghost var events := Tick(w.settings, turn.c, turn.e, st, t).events;
    forall n ensures SoundFor(w.StateOf(n), w.TraceOf(n)) && EachDelivered(n, w.TraceOf(n), w.delivered) {
      assert old(SoundFor(w.StateOf(n), w.TraceOf(n)) && EachDelivered(n, w.TraceOf(n), w.delivered));
      Grows(n, old(w.TraceOf(n)), held, if n == name then events else [], w.delivered, turn.records, name, events);
    }
    ExtendsIsLonger(name, held, events, w.delivered, turn.records);
  }

  lemma ExtendsIsLonger(name: string, before: seq<Delivered>, events: Trace, after: seq<Delivered>,
                        records: (Time, Time, int) -> seq<Item>)
    requires Extends(name, before, events, after, records)
    ensures before <= after
  {
  }

  // ---- What each collector did ------------------------------------------------------------

  /** What a turn makes of one collector: its own tick, or nothing if it is another's turn. */
  function OwnStep(s: Settings, turn: Turn, ran: nat -> WindowInputs, n: string, st: State): TickStep
  {
    if turn.c.name == n then Tick(s, turn.c, turn.e, st, turn.inputs.(windows := ran)) else TickStep(st, [], true)
  }

  ghost predicate Continues(s: Settings, turn: Turn, ran: nat -> WindowInputs, n: string, before: State,
                            trace: Trace, after: State, longer: Trace)
  {
    var step := OwnStep(s, turn, ran, n, before);
    after == step.state && longer == trace + step.events
  }

  /** The ticks of one collector among the turns, one after another. */
  function OwnTurns(s: Settings, turns: seq<Turn>, ran: seq<nat -> WindowInputs>, n: string, st: State): Run
    requires |ran| == |turns|
  {
    if |turns| == 0 then Run(st, [])
    else
      var k := |turns| - 1;
      var before := OwnTurns(s, turns[..k], ran[..k], n, st);
      var step := OwnStep(s, turns[k], ran[k], n, before.state);
      Run(step.state, before.trace + step.events)
  }

  lemma OneTurnMore(s: Settings, turns: seq<Turn>, ran: seq<nat -> WindowInputs>, last: nat -> WindowInputs, n: string,
                    st: State, trace: Trace, after: State, longer: Trace)
    requires |turns| == |ran| + 1
    requires var r := OwnTurns(s, turns[..|ran|], ran, n, st);
      Continues(s, turns[|ran|], last, n, r.state, trace + r.trace, after, longer)
    ensures var r := OwnTurns(s, turns, ran + [last], n, st); after == r.state && longer == trace + r.trace
  {
    hide OwnStep;
    assert (ran + [last])[..|ran|] == ran;
    var r := OwnTurns(s, turns[..|ran|], ran, n, st);
    var step := OwnStep(s, turns[|ran|], last, n, r.state);
    assert trace + r.trace + step.events == trace + (r.trace + step.events);
  }

  /** After any ticks of any collectors, in any order, whatever other goroutines exported, flushed or
      lost between them: each collector's state and calls are those of its own ticks; nothing between two
      durable cursors was lost in silence; and what counts as delivered has every collected record in a
      batch its backend accepted. */
  method ServeAll(w: WindowScheduler, turns: seq<Turn>) returns (ghost ran: seq<nat -> WindowInputs>)
    requires Running(w)
    modifies w, w.store, w.telemetry.observer, w.telemetry.logs, w.telemetry.spans
    ensures Running(w) && NothingLost(w) && old(w.delivered) <= w.delivered
    ensures |ran| == |turns| && forall i :: 0 <= i < |turns| ==> OnlyOutcomesDiffer(ran[i], turns[i].inputs.windows)
    ensures forall n :: var r := OwnTurns(w.settings, turns, ran, n, old(w.StateOf(n)));
      w.StateOf(n) == r.state && w.TraceOf(n) == old(w.TraceOf(n)) + r.trace
  {
    hide Running, NothingLost, OwnTurns, Continues, OnlyOutcomesDiffer;
    ran := [];
    NoTurns(w.settings);
    for i := 0 to |turns|
      invariant Running(w) && old(w.delivered) <= w.delivered && |ran| == i
      invariant forall k :: 0 <= k < i ==> OnlyOutcomesDiffer(ran[k], turns[k].inputs.windows)
      invariant forall n :: var r := OwnTurns(w.settings, turns[..i], ran, n, old(w.StateOf(n)));
        w.StateOf(n) == r.state && w.TraceOf(n) == old(w.TraceOf(n)) + r.trace
    {
      Interfere(w);
      ghost var last := Serve(w, turns[i]);
      assert turns[..i + 1][..i] == turns[..i];
      forall n ensures var r := OwnTurns(w.settings, turns[..i + 1], ran + [last], n, old(w.StateOf(n)));
        w.StateOf(n) == r.state && w.TraceOf(n) == old(w.TraceOf(n)) + r.trace
      {
        OneTurnMore(w.settings, turns[..i + 1], ran, last, n, old(w.StateOf(n)), old(w.TraceOf(n)), w.StateOf(n),
                    w.TraceOf(n));
      }
      ran := ran + [last];
    }
    assert turns[..|turns|] == turns;
    RunningLosesNothing(w);
  }

  lemma NoTurns(s: Settings)
    ensures forall n, st :: OwnTurns(s, [], [], n, st) == Run(st, [])
    ensures forall trace: Trace :: trace + [] == trace
  {
  }
}
