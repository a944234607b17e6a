/** The commit barrier over both required signals. */
module Providers {
  import opened Options
  import opened ExportObserver
  import opened LogBatch
  import opened SpanQueue

  datatype Pipes = Pipes(logs: View<Record>, spans: View<int>)

  ghost predicate BothLater(a: Pipes, b: Pipes)
  {
    Later(a.logs, b.logs) && Later(a.spans, b.spans)
  }

  lemma BothLaterChains(a: Pipes, b: Pipes, c: Pipes)
    requires BothLater(a, b) && BothLater(b, c)
    ensures BothLater(a, c)
  {
    LaterChains(a.logs, b.logs, c.logs);
    LaterChains(a.spans, b.spans, c.spans);
  }

  /** What a failed flush joins together: each signal's own error, and the failures recorded since the
      commit began. */
  datatype FlushFailure = FlushFailure(logs: Option<Kind>, traces: Option<Kind>, background: Option<Report>)

  /** A failure that reports what was recorded since the snapshot, and reports something. */
  ghost predicate Accurate(f: FlushFailure, history: seq<Failure>, since: nat)
  {
    Tells(f.background, history, since) && (f.logs.Some? || f.traces.Some? || f.background.Some?)
  }

  /** The flush reports exactly what the two signals' own flushes last returned. */
  ghost predicate OwnErrors(failure: Option<FlushFailure>, logs: seq<Option<Kind>>, spans: seq<Option<Kind>>)
  {
    && |logs| > 0 && |spans| > 0
    && logs[|logs| - 1] == (if failure.Some? then failure.value.logs else None)
    && spans[|spans| - 1] == (if failure.Some? then failure.value.traces else None)
  }

  /** What the commits' flushes of each signal returned. */
  datatype Forced = Forced(logs: seq<Option<Kind>>, spans: seq<Option<Kind>>)

  /** Both signals were flushed n more times, never with an error of their own. */
  ghost predicate Flushed(before: Forced, after: Forced, n: nat)
  {
    FlushedOne(before.logs, after.logs, n) && FlushedOne(before.spans, after.spans, n)
  }

  ghost predicate FlushedOne(before: seq<Option<Kind>>, after: seq<Option<Kind>>, n: nat)
  {
    |after| == |before| + n && before <= after && forall i :: |before| <= i < |after| ==> after[i].None?
  }

  lemma FlushedChains(a: Forced, b: Forced, c: Forced, m: nat, n: nat)
    requires Flushed(a, b, m) && Flushed(b, c, n)
    ensures Flushed(a, c, m + n)
  {
  }

  class Telemetry {
    const observer: Observer
    const logs: BoundedLogExporter
    const spans: SpanExporter

    ghost predicate Valid()
      reads this, observer, logs, spans
    {
      && logs.observer == observer && spans.observer == observer
      && logs.Valid() && spans.Valid()
    }

    ghost function Seen(): Pipes
      reads this, logs, spans, logs.observer, spans.observer
    {
      Pipes(logs.Seen(), spans.Seen())
    }

    ghost function Answers(): Forced
      reads logs, spans
    {
      Forced(logs.forced, spans.forced)
    }

    constructor (observer: Observer, logs: BoundedLogExporter, spans: SpanExporter)
      requires logs.observer == observer && spans.observer == observer && logs.Valid() && spans.Valid()
      ensures Valid() && this.observer == observer && this.logs == logs && this.spans == spans
    {
      this.observer, this.logs, this.spans := observer, logs, spans;
    }

    /** What other goroutines may do between two lock sections of this one: background flushes and
        exports, and records from other collectors, any number of times. */
    method Interfere()
      requires Valid()
      modifies observer, logs, spans
      ensures Valid() && BothLater(old(Seen()), Seen())
      ensures logs.forced == old(logs.forced) && spans.forced == old(spans.forced)
    {
      var steps: int := *;
      while steps > 0
        invariant Valid() && BothLater(old(Seen()), Seen())
        invariant logs.forced == old(logs.forced) && spans.forced == old(spans.forced)
        decreases steps
      {
        steps := steps - 1;
        ghost var before := Seen();
        InterfereOnce();
        hide BothLater;
        BothLaterChains(old(Seen()), before, Seen());
      }
    }

    method InterfereOnce()
      requires Valid()
      modifies observer, logs, spans
      ensures Valid() && BothLater(old(Seen()), Seen())
      ensures logs.forced == old(logs.forced) && spans.forced == old(spans.forced)
    {
      var choice: int := *;
      if choice == 0 {
        var _ := logs.Flush();
      } else if choice == 1 {
        var foreign: seq<Record> := *;
        var _, _ := logs.Export(foreign);
      } else if choice == 2 {
        var foreign: int := *;
        spans.Enqueue(foreign);
      } else {
        spans.ExportOldest();
      }
    }

    method FlushLogs() returns (failure: Option<Kind>)
      requires Valid()
      modifies observer, logs
      ensures Valid() && BothLater(old(Seen()), Seen())
      ensures |old(logs.handed)| <= |logs.outcomes|
      ensures logs.forced == old(logs.forced) + [failure]
    {
      failure := logs.ForceFlush();
    }

    method FlushSpans() returns (failure: Option<Kind>)
      requires Valid()
      modifies observer, spans
      ensures Valid() && BothLater(old(Seen()), Seen())
      ensures failure.None? ==> |old(spans.handed)| <= |spans.outcomes|
      ensures spans.forced == old(spans.forced) + [failure]
    {
      failure := spans.ForceFlush();
    }

    method BeginCommit() returns (since: nat)
      requires Valid()
      ensures since == observer.count
    {
      since := observer.count;
    }

    /** Success means: nothing failed since the snapshot, and every log record and span handed over
        before the call has been settled, so each one not refused was delivered. A failure joins what
        both flushes and every export recorded since the snapshot reported. */
    method FlushCommit(since: nat) returns (failure: Option<FlushFailure>)
      requires Valid() && since <= observer.count
      modifies observer, logs, spans
      ensures Valid() && BothLater(old(Seen()), Seen())
      ensures failure.None? ==> observer.count == since
      ensures failure.None? ==> |old(logs.handed)| <= |logs.outcomes| && |old(spans.handed)| <= |spans.outcomes|
      ensures failure.Some? ==> Accurate(failure.value, observer.history, since)
      ensures |logs.forced| == |old(logs.forced)| + 1 && |spans.forced| == |old(spans.forced)| + 1
      ensures OwnErrors(failure, logs.forced, spans.forced)
      ensures failure.None? ==> Flushed(old(Answers()), Answers(), 1)
    {
      Interfere();
      ghost var before := Seen();
      var logsFailure, tracesFailure := FlushBoth();
      ghost var flushed := Seen();
      BothLaterChains(old(Seen()), before, flushed);
      Interfere();
      BothLaterChains(old(Seen()), flushed, Seen());
      var background := observer.FailedSince(since);
      failure := if logsFailure.None? && tracesFailure.None? && background.None? then None
                 else Some(FlushFailure(logsFailure, tracesFailure, background));
    }

    /** Both signals flush concurrently, in either order. */
    method FlushBoth() returns (logsFailure: Option<Kind>, tracesFailure: Option<Kind>)
      requires Valid()
      modifies observer, logs, spans
      ensures Valid() && BothLater(old(Seen()), Seen())
      ensures |old(logs.handed)| <= |logs.outcomes|
      ensures tracesFailure.None? ==> |old(spans.handed)| <= |spans.outcomes|
      ensures logs.forced == old(logs.forced) + [logsFailure] && spans.forced == old(spans.forced) + [tracesFailure]
    {
      var logsFirst: bool := *;
      if logsFirst {
        logsFailure := FlushLogs();
        ghost var flushed := Seen();
        Interfere();
        ghost var between := Seen();
        BothLaterChains(old(Seen()), flushed, between);
        tracesFailure := FlushSpans();
        BothLaterChains(old(Seen()), between, Seen());
      } else {
        tracesFailure := FlushSpans();
        ghost var flushed := Seen();
        Interfere();
        ghost var between := Seen();
        BothLaterChains(old(Seen()), flushed, between);
        logsFailure := FlushLogs();
        BothLaterChains(old(Seen()), between, Seen());
      }
    }
  }
}
