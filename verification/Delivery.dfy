/** How the scheduler reads the end of a commit. */
module Delivery {
  import opened Options
  import opened ExportObserver
  import opened Providers
  import opened Commit
  import S = SchedulerSpec

  // ---- What a failed flush amounts to ---------------------------------------------------

  function Own(error: Option<Kind>): seq<Kind> { if error.Some? then [error.value] else [] }

  function Recorded(f: FlushFailure): seq<Failure>
  {
    if f.background.Some? then f.background.value.failures else []
  }

  /** Every cause the failure joins. */
  function Causes(f: FlushFailure): seq<Kind>
  {
    Own(f.logs) + Own(f.traces) + Kinds(Recorded(f))
  }

  predicate Omits(f: FlushFailure) { f.background.Some? && f.background.value.omitted }

  predicate OnlyRejections(f: FlushFailure)
  {
    !Omits(f) && Causes(f) != [] && forall i :: 0 <= i < |Causes(f)| ==> Causes(f)[i] == PayloadRejection
  }

  predicate HasDeadline(f: FlushFailure) { Deadline in Causes(f) }

  /** Reads the joined causes one by one; an omitted failure may be anything. */
  method PayloadRejected(f: FlushFailure) returns (rejected: bool)
    ensures rejected <==> OnlyRejections(f)
  {
    if Omits(f) {
      return false;
    }
    var causes := Causes(f);
    var seen := false;
    for i := 0 to |causes|
      invariant seen <==> i > 0
      invariant forall k :: 0 <= k < i ==> causes[k] == PayloadRejection
    {
      if causes[i] != PayloadRejection {
        return false;
      }
      seen := true;
    }
    rejected := seen;
  }

  predicate Refused(error: Option<Kind>) { error.Some? ==> error.value == PayloadRejection }

  /** A failed flush is a payload rejection exactly when each signal's own error is one and so is every
      failure recorded since the snapshot, none of them lost from the ring. */
  lemma RejectedExactlyWhen(f: FlushFailure, history: seq<Failure>, since: nat)
    requires Accurate(f, history, since)
    ensures OnlyRejections(f) <==>
      && Refused(f.logs) && Refused(f.traces) && |history| - since <= MAX_OBSERVED_FAILURES
      && forall i :: since <= i < |history| ==> history[i].kind == PayloadRejection
  {
    CausesSplit(f);
    hide Causes;
    if !Omits(f) {
      assert Recorded(f) == history[since..];
      assert forall i :: since <= i < |history| ==> history[i] == Recorded(f)[i - since];
    }
  }

  lemma CausesSplit(f: FlushFailure)
    ensures |Causes(f)| == |Own(f.logs)| + |Own(f.traces)| + |Recorded(f)|
    ensures (forall i :: 0 <= i < |Causes(f)| ==> Causes(f)[i] == PayloadRejection) <==>
      Refused(f.logs) && Refused(f.traces) && forall k :: 0 <= k < |Recorded(f)| ==> Recorded(f)[k].kind == PayloadRejection
  {
    var own := Own(f.logs) + Own(f.traces);
    var causes := Causes(f);
    assert forall k :: 0 <= k < |Recorded(f)| ==> causes[|own| + k] == Recorded(f)[k].kind;
    assert forall i :: |own| <= i < |causes| ==> causes[i] == Recorded(f)[i - |own|].kind;
    assert f.logs.Some? ==> causes[0] == f.logs.value;
    assert f.traces.Some? ==> causes[|own| - 1] == f.traces.value;
  }

  lemma DeadlineAmong(f: FlushFailure)
    ensures HasDeadline(f) <==>
      || f.logs == Some(Deadline) || f.traces == Some(Deadline)
      || exists k :: 0 <= k < |Recorded(f)| && Recorded(f)[k].kind == Deadline
  {
    var own, recorded := Own(f.logs) + Own(f.traces), Kinds(Recorded(f));
    assert Causes(f) == own + recorded;
    assert Deadline in Own(f.logs) <==> f.logs == Some(Deadline);
    assert Deadline in Own(f.traces) <==> f.traces == Some(Deadline);
    KindsHave(Recorded(f), Deadline);
  }

  function Kinds(fs: seq<Failure>): seq<Kind> { seq(|fs|, i requires 0 <= i < |fs| => fs[i].kind) }

  lemma KindsHave(fs: seq<Failure>, kind: Kind)
    ensures kind in Kinds(fs) <==> exists k :: 0 <= k < |fs| && fs[k].kind == kind
  {
    forall k | 0 <= k < |fs| ensures fs[k].kind in Kinds(fs) {
      assert Kinds(fs)[k] == fs[k].kind;
    }
  }

  lemma Reported(f: FlushFailure, history: seq<Failure>, since: nat)
    requires Accurate(f, history, since)
    ensures since <= |history|
  {
  }

  /** The first failure since the snapshot that the ring still holds. */
  function FirstHeld(failures: nat, since: nat): nat { if failures > since + 1024 then failures - 1024 else since }

  /** A deadline is among the causes when a signal's own flush reported one or a failure still held is one. */
  lemma DeadlineExactlyWhen(f: FlushFailure, history: seq<Failure>, since: nat)
    requires Accurate(f, history, since)
    ensures HasDeadline(f) <==>
      || f.logs == Some(Deadline) || f.traces == Some(Deadline)
      || exists i :: FirstHeld(|history|, since) <= i < |history| && history[i].kind == Deadline
  {
    hide HasDeadline;
    DeadlineAmong(f);
    var later, first := Recorded(f), FirstHeld(|history|, since);
    assert later == history[first..];
    forall i | first <= i < |history| ensures history[i] == later[i - first] {
    }
    assert forall k :: 0 <= k < |later| ==> later[k] == history[first + k];
  }

  /** A rejected window and one that missed its deadline are never the same. */
  lemma RejectionsHaveNoDeadline(f: FlushFailure)
    ensures !(OnlyRejections(f) && HasDeadline(f))
  {
  }

  /** An over-size record is an ordinary failure, never a payload rejection, so it does not count as a
      strike against its window. A deadline counts only when the whole commit's budget expired too. */
  method Read(err: CommitError, expired: bool) returns (result: S.CommitResult)
    ensures result.Acked? <==> err.Done?
    ensures result.Rejected? <==> err.FlushFailed? && OnlyRejections(err.failure)
    ensures result.TimedOut? <==> err.FlushFailed? && HasDeadline(err.failure) && expired
  {
    match err
    case Done => result := S.Acked;
    case TooLarge => result := S.CommitFailed;
    case ReplayFailed => result := S.CommitFailed;
    case FlushFailed(failure) =>
      RejectionsHaveNoDeadline(failure);
      var rejected := PayloadRejected(failure);
      result := if rejected then S.Rejected
                else if expired && HasDeadline(failure) then S.TimedOut
                else S.CommitFailed;
  }

  // ---- Delivering a window --------------------------------------------------------------

  /** Every log record and span of the items is at its place in the pipelines, accepted. */
  ghost predicate Held(v: Pipes, items: seq<Item>, logPlaces: seq<nat>, spanPlaces: seq<nat>, logsFrom: nat, spansFrom: nat)
  {
    && Placed(v.logs, logPlaces, AllLogs(items), logsFrom) && Accepted(v.logs, logPlaces)
    && Placed(v.spans, spanPlaces, AllSpans(items), spansFrom) && Accepted(v.spans, spanPlaces)
  }

  lemma HeldLater(a: Pipes, b: Pipes, items: seq<Item>, logPlaces: seq<nat>, spanPlaces: seq<nat>, logsFrom: nat,
                  spansFrom: nat)
    requires BothLater(a, b) && Held(a, items, logPlaces, spanPlaces, logsFrom, spansFrom)
    ensures Held(b, items, logPlaces, spanPlaces, logsFrom, spansFrom)
  {
    PlacedLater(a.logs, b.logs, logPlaces, AllLogs(items), logsFrom);
    PlacedLater(a.spans, b.spans, spanPlaces, AllSpans(items), spansFrom);
  }

  /** What a signal's last flush returned was nothing worse than a payload rejection. */
  ghost predicate LastRefused(forced: seq<Option<Kind>>) { |forced| > 0 && Refused(forced[|forced| - 1]) }

  ghost predicate LastExpired(forced: seq<Option<Kind>>) { |forced| > 0 && forced[|forced| - 1] == Some(Deadline) }

  /** An acknowledged window is one whose every log record and span was in an accepted batch, handed
      over during the call; a rejected one is one whose last flush failed by payload rejections alone,
      its own two errors and every failure recorded since its last chunk began; one that timed out has a
      deadline among them; and a record too large to export never counts as a rejection. */
  method Deliver(t: Telemetry, items: seq<Item>, expired: bool)
    returns (result: S.CommitResult, err: CommitError, ghost logPlaces: seq<nat>, ghost spanPlaces: seq<nat>,
             ghost since: nat)
    requires t.Valid()
    modifies t.observer, t.logs, t.spans
    ensures t.Valid() && BothLater(old(t.Seen()), t.Seen())
    ensures result.Acked? ==>
      && Held(t.Seen(), items, logPlaces, spanPlaces, |old(t.logs.handed)|, |old(t.spans.handed)|)
      && forall item :: item in items ==> Exportable(item) && item.stamped
    ensures result.Acked? <==> err.Done?
    ensures err.TooLarge? ==> result.CommitFailed? && exists item :: item in items && !Exportable(item)
    ensures err.FlushFailed? ==> old(t.observer.count) <= since <= |t.observer.history|
    ensures result.Rejected? <==>
      && err.FlushFailed?
      && LastRefused(t.logs.forced) && LastRefused(t.spans.forced)
      && |t.observer.history| - since <= 1024
      && forall i :: since <= i < |t.observer.history| ==> t.observer.history[i].kind == PayloadRejection
    ensures result.TimedOut? <==>
      && expired && err.FlushFailed?
      && (LastExpired(t.logs.forced) || LastExpired(t.spans.forced)
          || exists i :: FirstHeld(|t.observer.history|, since) <= i < |t.observer.history|
                         && t.observer.history[i].kind == Deadline)
  {
    hide Telemetry.Valid, Telemetry.Seen, Placed, Accepted, BothLater, OnlyRejections, HasDeadline, Accurate;
    ghost var chunks;
    err, chunks, logPlaces, spanPlaces, since := Commit.Commit(t, items);
    result := Read(err, expired);
    if err.FlushFailed? {
      RejectedExactlyWhen(err.failure, t.observer.history, since);
      DeadlineExactlyWhen(err.failure, t.observer.history, since);
      Reported(err.failure, t.observer.history, since);
    }
  }
}
