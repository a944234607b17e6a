/** Synchronous batching of log records, with a background flush. */
module LogBatch {
  import opened Options
  import opened ExportObserver
  import opened Sequences

  const LOG_BATCH_ITEMS := 64
  const LOG_BATCH_BYTES := 400 * 1024

  /** A record with its estimated export size. */
  datatype Record = Record(id: int, bytes: nat)

  function TotalBytes(rs: seq<Record>): nat
  {
    if |rs| == 0 then 0 else TotalBytes(rs[..|rs| - 1]) + rs[|rs| - 1].bytes
  }

  lemma TotalBytesSnoc(rs: seq<Record>, r: Record)
    ensures TotalBytes(rs + [r]) == TotalBytes(rs) + r.bytes
  {
    assert (rs + [r])[..|rs|] == rs;
  }

  /** A batch within the item and byte bounds, or one record alone. */
  predicate WithinBounds(batch: seq<Record>)
  {
    && 0 < |batch| <= 64
    && (TotalBytes(batch) <= 400 * 1024 || |batch| == 1)
  }

  /** A batch that goes out before this record is full, or the record does not fit beside it. */
  predicate SentFor(batch: seq<Record>, r: Record)
  {
    |batch| >= 64 || TotalBytes(batch) >= 400 * 1024 || TotalBytes(batch) + r.bytes > 400 * 1024
  }

  /** Each batch sent since then went out for one of these records. */
  ghost predicate SentSince(before: seq<seq<Record>>, after: seq<seq<Record>>, records: seq<Record>)
  {
    before <= after && forall batch :: batch in after[|before|..] ==> exists r :: r in records && SentFor(batch, r)
  }

  lemma NothingSent(batches: seq<seq<Record>>, records: seq<Record>)
    ensures SentSince(batches, batches, records)
  {
  }

  lemma OneSent(batches: seq<seq<Record>>, batch: seq<Record>, r: Record)
    requires SentFor(batch, r)
    ensures SentSince(batches, batches + [batch], [r])
  {
    hide SentFor;
    assert r in [r];
  }

  lemma SentChains(a: seq<seq<Record>>, b: seq<seq<Record>>, c: seq<seq<Record>>, first: seq<Record>,
                   second: seq<Record>, records: seq<Record>)
    requires SentSince(a, b, first) && SentSince(b, c, second)
    requires forall r :: r in first || r in second ==> r in records
    ensures SentSince(a, c, records)
  {
    hide SentFor;
    assert c[|a|..] == b[|a|..] + c[|b|..];
  }

  ghost predicate AllWithinBounds(batches: seq<seq<Record>>)
  {
    forall batch :: batch in batches ==> WithinBounds(batch)
  }

  /** n equal outcomes. */
  function Repeat(n: nat, outcome: bool): (r: seq<bool>)
    ensures |r| == n && forall i :: 0 <= i < n ==> r[i] == outcome
  {
    seq(n, _ => outcome)
  }

  lemma NextOnes(before: seq<Record>, records: seq<Record>, i: nat, n: nat)
    requires i < |records| && n <= 1
    ensures before + records[..i] + [records[i]][..n] == before + records[..i + n]
  {
  }

  /** A failed log export was recorded with its kind, and nothing else was. */
  ghost predicate Recorded(before: seq<Failure>, failure: Option<Kind>, after: seq<Failure>)
  {
    if failure.None? then after == before
    else after == before + [Failure(|before| + 1, Logs, failure.value)]
  }

  lemma FullIsSent(batch: seq<Record>, r: Record)
    requires |batch| >= LOG_BATCH_ITEMS || TotalBytes(batch) >= LOG_BATCH_BYTES || TotalBytes(batch) + r.bytes > LOG_BATCH_BYTES
    ensures SentFor(batch, r)
  {
  }

  class BoundedLogExporter {
    const observer: Observer
    var pending: seq<Record>
    var bytes: nat
    /** Every record handed over, in order; the pending ones are the last of them. */
    ghost var handed: seq<Record>
    /** What became of each record that is no longer pending: true when it was in a batch that the
        backend accepted, false when its batch was refused or a failed call skipped it. */
    ghost var outcomes: seq<bool>
    /** Every batch sent to the backend, accepted or refused. */
    ghost var batches: seq<seq<Record>>
    /** What each commit's flush returned. */
    ghost var forced: seq<Option<Kind>>

    ghost predicate Consistent()
      reads this, observer
    {
      && observer.Valid()
      && bytes == TotalBytes(pending)
      && |outcomes| <= |handed| && pending == handed[|outcomes|..]
      && AllWithinBounds(batches)
    }

    /** The records sent so far, batch by batch, and the pending ones after them. */
    ghost function Queued(): seq<Record>
      reads this
    {
      Concat(batches) + pending
    }

    ghost predicate Valid()
      reads this, observer
    {
      Consistent() && |pending| < LOG_BATCH_ITEMS && bytes < LOG_BATCH_BYTES
    }

    ghost function Seen(): View<Record>
      reads this, observer
    {
      View(handed, outcomes, observer.count)
    }

    constructor (observer: Observer)
      requires observer.Valid()
      ensures Valid() && this.observer == observer && handed == [] && batches == []
    {
      this.observer := observer;
      pending, bytes, handed, outcomes, batches, forced := [], 0, [], [], [], [];
    }

    /** Sends the pending batch. The backend may refuse it; the batch is gone either way. */
    method FlushLocked() returns (failure: Option<Kind>)
      requires Consistent()
      requires |pending| > 0 ==> WithinBounds(pending)
      modifies this, observer
      ensures Valid() && Later(old(Seen()), Seen()) && pending == [] && handed == old(handed)
      ensures outcomes == old(outcomes) + Repeat(|old(pending)|, failure.None?)
      ensures batches == old(batches) + (if |old(pending)| == 0 then [] else [old(pending)])
      ensures Queued() == old(Queued()) && forced == old(forced)
      ensures failure.None? <==> observer.count == old(observer.count)
      ensures Recorded(old(observer.history), failure, observer.history)
    {
      ghost var batch := |pending|;
      if |pending| == 0 {
        failure := None;
        return;
      }
      ConcatSnoc(batches, pending);
      batches := batches + [pending];
      pending, bytes := [], 0;
      failure := *;
      outcomes := outcomes + Repeat(batch, failure.None?);
      observer.Record(Logs, failure);
    }

    /** One record of an export call. A failed flush before it leaves it skipped. */
    method Take(r: Record) returns (ok: bool, ghost queued: nat)
      requires Valid()
      modifies this, observer
      ensures Valid() && Later(old(Seen()), Seen()) && handed == old(handed) + [r]
      ensures ok <==> observer.count == old(observer.count)
      ensures !ok ==> pending == []
      ensures forced == old(forced) && SentSince(old(batches), batches, [r])
      ensures (ok ==> queued == 1) && queued <= 1 && Queued() == old(Queued()) + [r][..queued]
    {
      hide Observer.Valid, WithinBounds, AllWithinBounds, TotalBytes, Concat, Queued, SentSince, SentFor;
      queued := 0;
      ok := MakeRoom(r);
      if !ok {
        Skip([r]);
        return;
      }
      ghost var between, sent := Seen(), batches;
      NothingSent(sent, [r]);
      Append(r);
      queued := 1;
      if |pending| >= LOG_BATCH_ITEMS || bytes >= LOG_BATCH_BYTES {
        FullIsSent(pending, r);
        OneSent(sent, pending, r);
        var failure := FlushLocked();
        ok := failure.None?;
      } else {
        ok := true;
      }
      SentChains(old(batches), sent, batches, [r], [r], [r]);
      LaterChains(old(Seen()), between, Seen());
    }

    /** Flushes first when the pending batch has no room for one more record. */
    method MakeRoom(r: Record) returns (ok: bool)
      requires Valid()
      modifies this, observer
      ensures Valid() && Later(old(Seen()), Seen()) && handed == old(handed)
      ensures ok <==> observer.count == old(observer.count)
      ensures if ok then |pending| > 0 ==> bytes + r.bytes <= LOG_BATCH_BYTES else pending == []
      ensures Queued() == old(Queued()) && forced == old(forced)
      ensures SentSince(old(batches), batches, [r])
    {
      hide Observer.Valid, WithinBounds, AllWithinBounds, TotalBytes, Concat, Queued;
      ok := true;
      NothingSent(batches, [r]);
      if |pending| > 0 && (|pending| >= LOG_BATCH_ITEMS || bytes + r.bytes > LOG_BATCH_BYTES) {
        FullIsSent(pending, r);
        OneSent(batches, pending, r);
        var failure := FlushLocked();
        ok := failure.None?;
      }
    }

    method Append(r: Record)
      requires Valid() && (|pending| > 0 ==> bytes + r.bytes <= LOG_BATCH_BYTES)
      modifies this
      ensures Consistent() && WithinBounds(pending)
      ensures pending == old(pending) + [r] && handed == old(handed) + [r] && outcomes == old(outcomes)
      ensures batches == old(batches) && Queued() == old(Queued()) + [r] && forced == old(forced)
    {
      hide Observer.Valid, AllWithinBounds, TotalBytes, Concat;
      TotalBytesSnoc(pending, r);
      pending := pending + [r];
      bytes := bytes + r.bytes;
      handed := handed + [r];
    }

    /** Takes the records in order, into batches within the bounds. On an error the batch that failed
        and the records after it are refused or skipped, and the failure was recorded. */
    method Export(records: seq<Record>) returns (ok: bool, ghost reached: nat)
      requires Valid()
      modifies this, observer
      ensures Valid() && Later(old(Seen()), Seen()) && handed == old(handed) + records
      ensures ok <==> observer.count == old(observer.count)
      ensures AllWithinBounds(batches) && SentSince(old(batches), batches, records) && forced == old(forced)
      ensures reached <= |records| && Queued() == old(Queued()) + records[..reached]
      ensures if ok then reached == |records| else pending == []
    {
      hide Observer.Valid, WithinBounds, AllWithinBounds, TotalBytes, Concat, Queued, SentSince;
      NothingSent(batches, records);
      for i := 0 to |records|
        invariant Valid() && Later(old(Seen()), Seen()) && observer.count == old(observer.count)
        invariant handed == old(handed) + records[..i]
        invariant SentSince(old(batches), batches, records) && forced == old(forced)
        invariant Queued() == old(Queued()) + records[..i]
      {
        ghost var before, sent := Seen(), batches;
        ghost var queued;
        ok, queued := Take(records[i]);
        LaterChains(old(Seen()), before, Seen());
        SentChains(old(batches), sent, batches, records, [records[i]], records);
        NextOnes(old(Queued()), records, i, queued);
        if !ok {
          reached := i + queued;
          Skip(records[i + 1..]);
          return;
        }
      }
      ok, reached := true, |records|;
    }

    /** The records a failed call never reached. */
    ghost method Skip(rest: seq<Record>)
      requires Valid() && pending == []
      modifies this`handed, this`outcomes
      ensures Valid() && handed == old(handed) + rest
      ensures outcomes == old(outcomes) + Repeat(|rest|, false) && Queued() == old(Queued())
    {
      handed := handed + rest;
      outcomes := outcomes + Repeat(|rest|, false);
    }

    /** The background ticker and the flush of a commit both hold the lock for one flush. */
    method Flush() returns (failure: Option<Kind>)
      requires Valid()
      modifies this, observer
      ensures Valid() && Later(old(Seen()), Seen()) && pending == [] && handed == old(handed)
      ensures failure.None? <==> observer.count == old(observer.count)
      ensures forced == old(forced) && Recorded(old(observer.history), failure, observer.history)
    {
      failure := FlushLocked();
    }

    /** A commit's flush. */
    method ForceFlush() returns (failure: Option<Kind>)
      requires Valid()
      modifies this, observer
      ensures Valid() && Later(old(Seen()), Seen()) && pending == [] && handed == old(handed)
      ensures failure.None? <==> observer.count == old(observer.count)
      ensures forced == old(forced) + [failure] && Recorded(old(observer.history), failure, observer.history)
    {
      failure := Flush();
      forced := forced + [failure];
    }
  }
}
