/** The record of failed exports, shared by every signal's exporter. */
module ExportObserver {
  import opened Options

  const MAX_OBSERVED_FAILURES := 1024

  datatype Signal = Logs | Traces | Metrics

  /** Why an export failed: the backend refused the payload, a deadline passed, or anything else. */
  datatype Kind = PayloadRejection | Deadline | OtherKind

  datatype Failure = Failure(seqno: nat, signal: Signal, kind: Kind)

  /** What a commit learns about exports since it began. */
  datatype Report = Report(omitted: bool, failures: seq<Failure>)

  /** One signal's pipeline as a commit sees it: every item handed over, in order; for each item no
      longer pending, whether it was in a batch the backend accepted; and the failures recorded. */
  datatype View<T> = View(handed: seq<T>, outcomes: seq<bool>, failures: nat)

  /** How a pipeline may move: items, outcomes and failures only accumulate, and no item is refused
      or skipped without a recorded failure. */
  ghost predicate Later<T>(a: View<T>, b: View<T>)
  {
    && a.handed <= b.handed
    && a.outcomes <= b.outcomes
    && a.failures <= b.failures
    && (a.failures == b.failures ==> forall i :: |a.outcomes| <= i < |b.outcomes| ==> b.outcomes[i])
  }

  lemma LaterChains<T>(a: View<T>, b: View<T>, c: View<T>)
    requires Later(a, b) && Later(b, c)
    ensures Later(a, c)
  {
  }

  /** What a report since a snapshot says about all the failures ever recorded: nothing exactly when
      there is no later one; else the later failures the ring still holds, and that some were omitted
      exactly when some were. */
  ghost predicate Tells(report: Option<Report>, history: seq<Failure>, since: nat)
  {
    && since <= |history|
    && (report.None? <==> since == |history|)
    && (report.Some? ==>
          && report.value.failures ==
               history[if since + MAX_OBSERVED_FAILURES < |history| then |history| - MAX_OBSERVED_FAILURES else since..]
          && (report.value.omitted <==> |report.value.failures| < |history| - since))
  }

  class Observer {
    var count: nat
    var failures: seq<Failure>
    /** Every failure ever recorded; the ring keeps the last of them. */
    ghost var history: seq<Failure>

    ghost predicate Valid()
      reads this
    {
      && |history| == count
      && (forall i :: 0 <= i < count ==> history[i].seqno == i + 1)
      && failures == history[if count <= MAX_OBSERVED_FAILURES then 0 else count - MAX_OBSERVED_FAILURES..]
    }

    constructor ()
      ensures Valid() && count == 0
    {
      count, failures, history := 0, [], [];
    }

    /** Only a failed log or trace export counts: those signals gate a checkpoint. */
    method Record(signal: Signal, failure: Option<Kind>)
      requires Valid()
      modifies this
      ensures Valid()
      ensures history ==
        if failure != None && signal != Metrics then old(history) + [Failure(old(count) + 1, signal, failure.value)]
        else old(history)
      ensures count == old(count) + if failure != None && signal != Metrics then 1 else 0
    {
      if failure != None && signal != Metrics {
        count := count + 1;
        failures := failures + [Failure(count, signal, failure.value)];
        history := history + [Failure(count, signal, failure.value)];
        if |failures| > MAX_OBSERVED_FAILURES {
          failures := failures[|failures| - MAX_OBSERVED_FAILURES..];
        }
      }
    }

    /** Reports a failure exactly when one was recorded after the snapshot, even when the ring no
        longer holds it; lists exactly the later failures the ring still holds, and says that some
        were omitted exactly when some were. */
    method FailedSince(since: nat) returns (r: Option<Report>)
      requires Valid() && since <= count
      ensures Tells(r, history, since)
    {
      if count == since {
        return None;
      }
      var omitted := |failures| == 0 || since + 1 < failures[0].seqno;
      var later: seq<Failure> := [];
      ghost var base := count - |failures|;
      ghost var oldest := if since + MAX_OBSERVED_FAILURES < count then count - MAX_OBSERVED_FAILURES else since;
      for i := 0 to |failures|
        invariant later == if base + i <= since then [] else history[oldest..base + i]
      {
        if failures[i].seqno > since {
          later := later + [failures[i]];
        }
      }
      r := Some(Report(omitted, later));
    }
  }
}
