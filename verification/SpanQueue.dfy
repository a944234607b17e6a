/** The trace SDK's blocking batch queue, reduced to what a commit relies on: a queued span stays
    queued until an export takes it, an export accepts its batch or fails and is observed, and a
    forced flush that reports success leaves nothing queued. */
module SpanQueue {
  import opened Options
  import opened ExportObserver
  import opened LogBatch

  class SpanExporter {
    const observer: Observer
    var pending: seq<int>
    ghost var handed: seq<int>
    ghost var outcomes: seq<bool>
    /** What each commit's flush returned. */
    ghost var forced: seq<Option<Kind>>

    ghost predicate Valid()
      reads this, observer
    {
      && observer.Valid()
      && |outcomes| <= |handed| && pending == handed[|outcomes|..]
    }

    ghost function Seen(): View<int>
      reads this, observer
    {
      View(handed, outcomes, observer.count)
    }

    constructor (observer: Observer)
      requires observer.Valid()
      ensures Valid() && this.observer == observer && handed == []
    {
      this.observer := observer;
      pending, handed, outcomes, forced := [], [], [], [];
    }

    method Enqueue(span: int)
      requires Valid()
      modifies this
      ensures Valid() && Later(old(Seen()), Seen()) && handed == old(handed) + [span] && outcomes == old(outcomes)
      ensures forced == old(forced)
    {
      pending := pending + [span];
      handed := handed + [span];
    }

    /** One export of some queued spans, oldest first. */
    method ExportOldest()
      requires Valid()
      modifies this, observer
      ensures Valid() && Later(old(Seen()), Seen()) && handed == old(handed)
      ensures |old(pending)| > 0 ==> |pending| < |old(pending)|
      ensures forced == old(forced) && old(observer.history) <= observer.history
      ensures forall i :: |old(observer.history)| <= i < |observer.history| ==> observer.history[i].signal == Traces
    {
      var n: int := *;
      if n <= 0 || n > |pending| {
        n := |pending|;
      }
      pending := pending[n..];
      var failure: Option<Kind> := *;
      outcomes := outcomes + Repeat(n, failure.None?);
      observer.Record(Traces, failure);
    }

    /** Exports until the queue is empty or the deadline passes. */
    method ForceFlush() returns (failure: Option<Kind>)
      requires Valid()
      modifies this, observer
      ensures Valid() && Later(old(Seen()), Seen()) && handed == old(handed)
      ensures failure.None? ==> pending == []
      ensures pending != [] ==> failure == Some(Deadline)
      ensures forced == old(forced) + [failure]
    {
      var expired: bool := *;
      while |pending| > 0 && !expired
        invariant Valid() && Later(old(Seen()), Seen()) && handed == old(handed) && forced == old(forced)
        decreases |pending|
      {
        ExportOldest();
        expired := *;
      }
      if expired {
        failure := Some(Deadline);
      } else {
        failure := *;
      }
      forced := forced + [failure];
    }
  }
}
