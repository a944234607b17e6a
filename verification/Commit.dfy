/** Chunked export of one window's records, and what a successful commit means. */
module Commit {
  import opened Options
  import opened ExportObserver
  import opened LogBatch
  import opened Sequences
  import opened Providers
  import SchedulerSpec

  const MAX_SINGLE_SPAN_BYTES := 1024 * 1024
  const COMMIT_CHUNK_ITEMS := 512

  /** A buffered record with its approximate size: a log event, or a span with its own logs. Its instants may
      be missing or out of order, which the emitter refuses. */
  datatype Item =
    | LogItem(record: Record, size: nat, stamped: bool)
    | SpanItem(span: int, logs: seq<Record>, size: nat, stamped: bool)

  datatype CommitError = Done | TooLarge | ReplayFailed | FlushFailed(failure: FlushFailure)

  function LogsOf(item: Item): seq<Record> { if item.LogItem? then [item.record] else item.logs }

  function SpansOf(item: Item): seq<int> { if item.LogItem? then [] else [item.span] }

  function AllLogs(items: seq<Item>): seq<Record>
  {
    if |items| == 0 then [] else AllLogs(items[..|items| - 1]) + LogsOf(items[|items| - 1])
  }

  function AllSpans(items: seq<Item>): seq<int>
  {
    if |items| == 0 then [] else AllSpans(items[..|items| - 1]) + SpansOf(items[|items| - 1])
  }

  function TotalSize(items: seq<Item>): nat
  {
    if |items| == 0 then 0 else TotalSize(items[..|items| - 1]) + items[|items| - 1].size
  }

  lemma Snoc(items: seq<Item>, item: Item)
    ensures AllLogs(items + [item]) == AllLogs(items) + LogsOf(item)
    ensures AllSpans(items + [item]) == AllSpans(items) + SpansOf(item)
    ensures TotalSize(items + [item]) == TotalSize(items) + item.size
  {
    assert (items + [item])[..|items|] == items;
  }

  predicate Exportable(item: Item)
  {
    item.size <= 512 * 1024 || (item.SpanItem? && item.size <= 1024 * 1024)
  }

  /** A chunk within the item and byte bounds, or one large span alone. */
  predicate ChunkOk(chunk: seq<Item>)
  {
    || (|chunk| <= 512 && TotalSize(chunk) <= 512 * 1024)
    || (|chunk| == 1 && chunk[0].SpanItem? && chunk[0].size <= 1024 * 1024)
  }

  /** The chunk could not have taken the next one's first item too. */
  predicate FullFor(chunk: seq<Item>, next: seq<Item>)
  {
    |next| > 0 ==> next[0].size > 512 * 1024 || |chunk| >= 512 || TotalSize(chunk) + next[0].size > 512 * 1024
  }

  ghost predicate AllFull(chunks: seq<seq<Item>>)
  {
    forall i, j :: 0 <= i < |chunks| && j == i + 1 < |chunks| ==> FullFor(chunks[i], chunks[j])
  }

  /** Full chunks and the current one; after an item alone the current one is empty. */
  ghost predicate Greedy(chunks: seq<seq<Item>>, chunk: seq<Item>)
  {
    && AllFull(chunks)
    && (|chunks| > 0 ==>
          var last := chunks[|chunks| - 1]; if |chunk| > 0 then FullFor(last, chunk) else TotalSize(last) > 512 * 1024)
  }

  lemma AllFullSnoc(chunks: seq<seq<Item>>, chunk: seq<Item>)
    requires AllFull(chunks) && (|chunks| > 0 ==> FullFor(chunks[|chunks| - 1], chunk))
    ensures AllFull(chunks + [chunk])
  {
    hide FullFor;
    var more := chunks + [chunk];
    forall i, j | 0 <= i < |more| && j == i + 1 < |more| ensures FullFor(more[i], more[j]) {
      if j < |chunks| {
        assert FullFor(chunks[i], chunks[j]);
      }
    }
  }

  lemma GreedyStarts()
    ensures Greedy([], [])
  {
  }

  lemma GreedyMore(chunks: seq<seq<Item>>, chunk: seq<Item>, item: Item)
    requires Greedy(chunks, chunk)
    ensures Greedy(chunks, chunk + [item])
  {
  }

  lemma GreedyFlushed(chunks: seq<seq<Item>>, chunk: seq<Item>, item: Item)
    requires Greedy(chunks, chunk) && |chunk| > 0 && FullFor(chunk, [item])
    ensures Greedy(chunks + [chunk], [] + [item])
  {
    AllFullSnoc(chunks, chunk);
    assert [] + [item] == [item];
  }

  lemma GreedyAlone(chunks: seq<seq<Item>>, chunk: seq<Item>, item: Item)
    requires Greedy(chunks, chunk) && item.size > 512 * 1024
    ensures Greedy(chunks + (if |chunk| > 0 then [chunk] else []) + [[item]], [])
  {
    var before := chunks + if |chunk| > 0 then [chunk] else [];
    if |chunk| > 0 {
      AllFullSnoc(chunks, chunk);
    } else {
      assert before == chunks;
    }
    AllFullSnoc(before, [item]);
    OneSize(item);
  }

  lemma OneSize(item: Item)
    ensures TotalSize([item]) == item.size
  {
    assert [item][..0] == [];
  }

  lemma GreedyEnds(chunks: seq<seq<Item>>, chunk: seq<Item>)
    requires Greedy(chunks, chunk)
    ensures AllFull(chunks + [chunk])
  {
    AllFullSnoc(chunks, chunk);
  }

  // ---- Where records went ---------------------------------------------------------------

  /** xs were handed over in order, at these positions, the first of them not before lo. */
  ghost predicate Placed<T>(v: View<T>, places: seq<nat>, xs: seq<T>, lo: nat)
  {
    && |places| == |xs|
    && (forall i :: 0 <= i < |xs| ==> lo <= places[i] < |v.handed| && v.handed[places[i]] == xs[i])
    && (forall i, j :: 0 <= i < j < |xs| ==> places[i] < places[j])
  }

  /** The items at these positions were in batches the backend accepted. */
  ghost predicate Accepted<T>(v: View<T>, places: seq<nat>)
  {
    forall i :: 0 <= i < |places| ==> places[i] < |v.outcomes| && v.outcomes[places[i]]
  }

  lemma PlacedLater<T>(a: View<T>, b: View<T>, places: seq<nat>, xs: seq<T>, lo: nat)
    requires Later(a, b) && Placed(a, places, xs, lo)
    ensures Placed(b, places, xs, lo)
    ensures Accepted(a, places) ==> Accepted(b, places)
  {
  }

  lemma PlacedConcat<T>(v: View<T>, p: seq<nat>, xs: seq<T>, lo: nat, q: seq<nat>, ys: seq<T>, mid: nat)
    requires Placed(v, p, xs, lo) && Placed(v, q, ys, mid) && lo <= mid
    requires forall i :: 0 <= i < |p| ==> p[i] < mid
    ensures Placed(v, p + q, xs + ys, lo)
  {
  }

  lemma AcceptedConcat<T>(v: View<T>, p: seq<nat>, q: seq<nat>)
    requires Accepted(v, p) && Accepted(v, q)
    ensures Accepted(v, p + q)
  {
  }

  /** When no failure was recorded since the snapshot, everything handed over after it and settled
      by now was accepted. */
  lemma NoFailureMeansAccepted<T>(start: View<T>, v: View<T>, places: seq<nat>, xs: seq<T>, handedBefore: nat)
    requires Later(start, v) && start.failures == v.failures
    requires Placed(v, places, xs, |start.outcomes|)
    requires forall i :: 0 <= i < |places| ==> places[i] < handedBefore
    requires handedBefore <= |v.outcomes|
    ensures Accepted(v, places)
  {
  }

  // ---- One signal's progress through a commit --------------------------------------------

  /** The view when the current chunk began, the places of the acknowledged chunks' items, and the
      places of the current chunk's items. */
  datatype Progress<T> = Progress(start: View<T>, done: seq<nat>, current: seq<nat>)

  ghost predicate OnTrack<T>(p: Progress<T>, v: View<T>, acked: seq<T>, chunk: seq<T>, lo: nat)
  {
    && Later(p.start, v)
    && |p.start.outcomes| <= |p.start.handed|
    && lo <= |p.start.handed|
    && Placed(v, p.done, acked, lo) && Accepted(v, p.done)
    && (forall i :: 0 <= i < |p.done| ==> p.done[i] < |p.start.handed|)
    && Placed(v, p.current, chunk, |p.start.handed|)
  }

  lemma OnTrackLater<T>(p: Progress<T>, a: View<T>, b: View<T>, acked: seq<T>, chunk: seq<T>, lo: nat)
    requires OnTrack(p, a, acked, chunk, lo) && Later(a, b)
    ensures OnTrack(p, b, acked, chunk, lo)
  {
    LaterChains(p.start, a, b);
    PlacedLater(a, b, p.done, acked, lo);
    PlacedLater(a, b, p.current, chunk, |p.start.handed|);
  }

  lemma OnTrackReplay<T>(p: Progress<T>, a: View<T>, b: View<T>, acked: seq<T>, chunk: seq<T>, lo: nat,
                         places: seq<nat>, xs: seq<T>)
    requires OnTrack(p, a, acked, chunk, lo) && Later(a, b) && Placed(b, places, xs, |a.handed|)
    ensures OnTrack(p.(current := p.current + places), b, acked, chunk + xs, lo)
  {
    OnTrackLater(p, a, b, acked, chunk, lo);
    PlacedConcat(b, p.current, chunk, |p.start.handed|, places, xs, |a.handed|);
  }

  /** A flush without a failure acknowledges the chunk. */
  lemma OnTrackFlush<T>(p: Progress<T>, a: View<T>, b: View<T>, acked: seq<T>, chunk: seq<T>, lo: nat)
    requires OnTrack(p, a, acked, chunk, lo) && Later(a, b)
    requires p.start.failures == b.failures && |a.handed| <= |b.outcomes| <= |b.handed|
    ensures OnTrack(Progress(b, p.done + p.current, []), b, acked + chunk, [], lo)
  {
    OnTrackLater(p, a, b, acked, chunk, lo);
    NoFailureMeansAccepted(p.start, b, p.current, chunk, |a.handed|);
    PlacedConcat(b, p.done, acked, lo, p.current, chunk, |p.start.handed|);
    AcceptedConcat(b, p.done, p.current);
  }

  // ---- The commit -----------------------------------------------------------------------

  /** Hands one item to the pipelines; other goroutines may run between its parts. The emitter refuses an
      item with a wrong instant before it hands anything over. */
  method Replay(t: Telemetry, item: Item)
    returns (emitted: bool, ghost logPlaces: seq<nat>, ghost spanPlaces: seq<nat>)
    requires t.Valid()
    modifies t.observer, t.logs, t.spans
    ensures t.Valid() && BothLater(old(t.Seen()), t.Seen())
    ensures emitted <==> item.stamped
    ensures emitted ==> Placed(t.Seen().logs, logPlaces, LogsOf(item), |old(t.logs.handed)|)
    ensures emitted ==> Placed(t.Seen().spans, spanPlaces, SpansOf(item), |old(t.spans.handed)|)
    ensures !emitted ==> t.Seen() == old(t.Seen())
    ensures t.Answers() == old(t.Answers())
  {
    logPlaces, spanPlaces, emitted := [], [], item.stamped;
    if !emitted {
      return;
    }
    t.Interfere();
    if item.SpanItem? {
      spanPlaces := [|t.spans.handed|];
      t.spans.Enqueue(item.span);
    }
    var logs := LogsOf(item);
    for i := 0 to |logs|
      invariant t.Valid() && BothLater(old(t.Seen()), t.Seen()) && t.Answers() == old(t.Answers())
      invariant Placed(t.Seen().logs, logPlaces, logs[..i], |old(t.logs.handed)|)
      invariant Placed(t.Seen().spans, spanPlaces, SpansOf(item), |old(t.spans.handed)|)
    {
      ghost var before := t.Seen();
      ghost var place := EmitLog(t, logs[i]);
      BothLaterChains(old(t.Seen()), before, t.Seen());
      PlacedLater(before.logs, t.Seen().logs, logPlaces, logs[..i], |old(t.logs.handed)|);
      PlacedLater(before.spans, t.Seen().spans, spanPlaces, SpansOf(item), |old(t.spans.handed)|);
      PlacedConcat(t.Seen().logs, logPlaces, logs[..i], |old(t.logs.handed)|, [place], [logs[i]], |before.logs.handed|);
      logPlaces := logPlaces + [place];
      FirstMore(logs, i);
    }
    FirstAll(logs);
  }

  lemma FirstMore<T>(s: seq<T>, i: nat)
    requires i < |s|
    ensures s[..i] + [s[i]] == s[..i + 1]
  {
  }

  lemma FirstAll<T>(s: seq<T>)
    ensures s[..|s|] == s
  {
  }

  method EmitLog(t: Telemetry, record: Record) returns (ghost place: nat)
    requires t.Valid()
    modifies t.observer, t.logs, t.spans
    ensures t.Valid() && BothLater(old(t.Seen()), t.Seen())
    ensures Placed(t.Seen().logs, [place], [record], |old(t.logs.handed)|)
    ensures t.Answers() == old(t.Answers())
  {
    t.Interfere();
    ghost var before := t.Seen();
    place := |t.logs.handed|;
    var _, _ := t.logs.Export([record]);
    BothLaterChains(old(t.Seen()), before, t.Seen());
  }

  /** Everything known between two records of a commit. */
  ghost predicate InCommit(v: Pipes, since: nat, chunks: seq<seq<Item>>, chunk: seq<Item>, logs: Progress<Record>,
                           spans: Progress<int>, begin: Pipes)
  {
    && logs.start.failures == spans.start.failures == since
    && (forall c :: c in chunks ==> ChunkOk(c))
    && OnTrack(logs, v.logs, AllLogs(Concat(chunks)), AllLogs(chunk), |begin.logs.handed|)
    && OnTrack(spans, v.spans, AllSpans(Concat(chunks)), AllSpans(chunk), |begin.spans.handed|)
  }

  lemma {:induction false} AllLogsConcat(a: seq<Item>, b: seq<Item>)
    ensures AllLogs(a + b) == AllLogs(a) + AllLogs(b)
  {
    if |b| == 0 {
      assert a + b == a;
    } else {
      var front, last := b[..|b| - 1], b[|b| - 1];
      AllLogsConcat(a, front);
      assert (a + b)[..|a + b| - 1] == a + front;
    }
  }

  lemma {:induction false} AllSpansConcat(a: seq<Item>, b: seq<Item>)
    ensures AllSpans(a + b) == AllSpans(a) + AllSpans(b)
  {
    if |b| == 0 {
      assert a + b == a;
    } else {
      var front, last := b[..|b| - 1], b[|b| - 1];
      AllSpansConcat(a, front);
      assert (a + b)[..|a + b| - 1] == a + front;
    }
  }

  /** Waits for both signals and starts the next chunk. */
  method FlushChunk(t: Telemetry, since: nat, ghost chunks: seq<seq<Item>>, ghost chunk: seq<Item>,
                    ghost logs: Progress<Record>, ghost spans: Progress<int>, ghost begin: Pipes)
    returns (failure: Option<FlushFailure>, next: nat, ghost logs': Progress<Record>, ghost spans': Progress<int>)
    requires t.Valid() && since <= t.observer.count && ChunkOk(chunk)
    requires InCommit(t.Seen(), since, chunks, chunk, logs, spans, begin)
    modifies t.observer, t.logs, t.spans
    ensures t.Valid() && BothLater(old(t.Seen()), t.Seen())
    ensures since <= next <= t.observer.count && (failure.Some? ==> next == since)
    ensures failure.None? ==>
      next == t.observer.count && InCommit(t.Seen(), next, chunks + [chunk], [], logs', spans', begin)
    ensures failure.Some? ==>
      Accurate(failure.value, t.observer.history, since) && OwnErrors(failure, t.logs.forced, t.spans.forced)
    ensures failure.None? ==> Flushed(old(t.Answers()), t.Answers(), 1)
  {
    hide InCommit, BothLater, Accurate, OwnErrors, Flushed, Telemetry.Valid;
    ghost var before := t.Seen();
    ViewBounds(t);
    failure := t.FlushCommit(since);
    next, logs', spans' := since, logs, spans;
    ghost var flushed := t.Seen();
    ViewBounds(t);
    if failure.Some? {
      FailuresLater(before, flushed);
      return;
    }
    t.Interfere();
    next := t.BeginCommit();
    ghost var v := t.Seen();
    logs' := Progress(v.logs, logs.done + logs.current, []);
    spans' := Progress(v.spans, spans.done + spans.current, []);
    BothLaterChains(before, flushed, v);
    FailuresLater(flushed, v);
    ViewBounds(t);
    ChunkFlushed(before, flushed, v, since, next, chunks, chunk, logs, spans, begin);
  }

  lemma ViewBounds(t: Telemetry)
    requires t.Valid()
    ensures t.Seen().logs.failures == t.Seen().spans.failures == t.observer.count
    ensures |t.Seen().logs.outcomes| <= |t.Seen().logs.handed| && |t.Seen().spans.outcomes| <= |t.Seen().spans.handed|
  {
  }

  /** A flush that saw no failure moves the chunk to the acknowledged ones. */
  lemma ChunkFlushed(before: Pipes, flushed: Pipes, v: Pipes, since: nat, next: nat, chunks: seq<seq<Item>>,
                     chunk: seq<Item>, logs: Progress<Record>, spans: Progress<int>, begin: Pipes)
    requires InCommit(before, since, chunks, chunk, logs, spans, begin) && ChunkOk(chunk)
    requires BothLater(before, flushed) && BothLater(flushed, v)
    requires flushed.logs.failures == flushed.spans.failures == since && v.logs.failures == v.spans.failures == next
    requires |before.logs.handed| <= |flushed.logs.outcomes| <= |flushed.logs.handed|
    requires |before.spans.handed| <= |flushed.spans.outcomes| <= |flushed.spans.handed|
    requires |v.logs.outcomes| <= |v.logs.handed| && |v.spans.outcomes| <= |v.spans.handed|
    ensures InCommit(v, next, chunks + [chunk], [], Progress(v.logs, logs.done + logs.current, []),
                     Progress(v.spans, spans.done + spans.current, []), begin)
  {
    hide OnTrack, ChunkOk, AllLogs, AllSpans, Concat, Later;
    var acked, sent := AllLogs(Concat(chunks)), AllSpans(Concat(chunks));
    OnTrackFlush(logs, before.logs, flushed.logs, acked, AllLogs(chunk), |begin.logs.handed|);
    OnTrackFlush(spans, before.spans, flushed.spans, sent, AllSpans(chunk), |begin.spans.handed|);
    ConcatSnoc(chunks, chunk);
    AllLogsConcat(Concat(chunks), chunk);
    AllSpansConcat(Concat(chunks), chunk);
    NoItems();
    StartChunk(logs.done + logs.current, flushed.logs, v.logs, acked + AllLogs(chunk), |begin.logs.handed|);
    StartChunk(spans.done + spans.current, flushed.spans, v.spans, sent + AllSpans(chunk), |begin.spans.handed|);
  }

  lemma NoItems()
    ensures AllLogs([]) == [] && AllSpans([]) == []
  {
  }

  /** A new chunk begins at a later snapshot than the flush that ended the last one. */
  lemma StartChunk<T>(done: seq<nat>, a: View<T>, b: View<T>, acked: seq<T>, lo: nat)
    requires OnTrack(Progress(a, done, []), a, acked, [], lo) && Later(a, b) && |b.outcomes| <= |b.handed|
    ensures OnTrack(Progress(b, done, []), b, acked, [], lo)
  {
    PlacedLater(a, b, done, acked, lo);
  }

  /** Replays one item into the current chunk. */
  method ReplayInto(t: Telemetry, item: Item, ghost since: nat, ghost chunks: seq<seq<Item>>, ghost chunk: seq<Item>,
                    ghost logs: Progress<Record>, ghost spans: Progress<int>, ghost begin: Pipes)
    returns (emitted: bool, ghost logs': Progress<Record>, ghost spans': Progress<int>)
    requires t.Valid() && InCommit(t.Seen(), since, chunks, chunk, logs, spans, begin)
    modifies t.observer, t.logs, t.spans
    ensures t.Valid() && BothLater(old(t.Seen()), t.Seen()) && t.observer.count >= old(t.observer.count)
    ensures emitted <==> item.stamped
    ensures emitted ==> InCommit(t.Seen(), since, chunks, chunk + [item], logs', spans', begin)
    ensures t.Answers() == old(t.Answers())
  {
    ghost var before := t.Seen();
    ghost var logPlaces, spanPlaces;
    emitted, logPlaces, spanPlaces := Replay(t, item);
    if !emitted {
      logs', spans' := logs, spans;
      return;
    }
    OnTrackReplay(logs, before.logs, t.Seen().logs, AllLogs(Concat(chunks)), AllLogs(chunk), |begin.logs.handed|,
                  logPlaces, LogsOf(item));
    OnTrackReplay(spans, before.spans, t.Seen().spans, AllSpans(Concat(chunks)), AllSpans(chunk), |begin.spans.handed|,
                  spanPlaces, SpansOf(item));
    logs' := logs.(current := logs.current + logPlaces);
    spans' := spans.(current := spans.current + spanPlaces);
    Snoc(chunk, item);
  }

  /** Exports a window's records in chunks, each followed by a flush of both signals. Success means
      that every log record and span of the window was in a batch its backend accepted during this
      commit, whatever other goroutines exported, flushed or lost meanwhile; and that the chunks are
      the window's records in order, each within its bounds and as long as they allow. */
  method Commit(t: Telemetry, items: seq<Item>)
    returns (err: CommitError, ghost chunks: seq<seq<Item>>, ghost logPlaces: seq<nat>, ghost spanPlaces: seq<nat>,
             ghost since: nat)
    requires t.Valid()
    modifies t.observer, t.logs, t.spans
    ensures t.Valid() && BothLater(old(t.Seen()), t.Seen())
    ensures err.Done? ==>
      && Concat(chunks) == items && (forall c :: c in chunks ==> ChunkOk(c)) && AllFull(chunks)
      && Placed(t.Seen().logs, logPlaces, AllLogs(items), |old(t.logs.handed)|) && Accepted(t.Seen().logs, logPlaces)
      && Placed(t.Seen().spans, spanPlaces, AllSpans(items), |old(t.spans.handed)|) && Accepted(t.Seen().spans, spanPlaces)
    ensures err.Done? ==> |chunks| > 0 && Flushed(old(t.Answers()), t.Answers(), |chunks|)
    ensures err.Done? ==> forall item :: item in items ==> Exportable(item) && item.stamped
    ensures err.TooLarge? ==> exists item :: item in items && !Exportable(item)
    ensures err.ReplayFailed? ==> exists item :: item in items && !item.stamped
    ensures err.FlushFailed? ==>
      && old(t.observer.count) <= since && Accurate(err.failure, t.observer.history, since)
      && OwnErrors(Some(err.failure), t.logs.forced, t.spans.forced)
  {
    hide OwnErrors, AllFull, Greedy, FullFor, BothLater, Accurate, InCommit, OnTrack, AllLogs, AllSpans, Concat,
      Telemetry.Valid, Telemetry.Seen, Telemetry.Answers, Flushed, Placed, Accepted, SoFar, ChunkOk, Exportable;
    ghost var begin, answers := t.Seen(), t.Answers();
    NotFlushed(answers);
    var seqno: nat := t.BeginCommit();
    var n: nat, bytes: nat := 0, 0;
    ghost var chunk: seq<Item> := [];
    ghost var logs, spans := Progress(begin.logs, [], []), Progress(begin.spans, [], []);
    chunks, logPlaces, spanPlaces, since := [], [], [], seqno;
    BeginsInCommit(t, begin);
    SeenHanded(t);
    SoFarStarts(items);
    GreedyStarts();
    var failure, emitted;
    SeenLater(begin);
    for i := 0 to |items|
      invariant t.Valid() && BothLater(begin, t.Seen()) && begin.logs.failures <= seqno <= t.observer.count
      invariant InCommit(t.Seen(), seqno, chunks, chunk, logs, spans, begin)
      invariant SoFar(chunks, chunk, items[..i], n, bytes) && Greedy(chunks, chunk)
      invariant Flushed(answers, t.Answers(), |chunks|)
    {
      var item := items[i];
      SoFarFacts(chunks, chunk, items[..i], n, bytes, items, item);
      if item.size > SchedulerSpec.COMMIT_CHUNK_BYTES {
        if !item.SpanItem? || item.size > MAX_SINGLE_SPAN_BYTES {
          return TooLarge, chunks, [], [], seqno;
        }
        ghost var was, answered := chunks, t.Answers();
        ghost var before := t.Seen();
        err, seqno, chunks, logs, spans := ReplayAlone(t, item, seqno, n, chunks, chunk, logs, spans, begin);
        BothLaterChains(begin, before, t.Seen());
        if !err.Done? {
          return err, chunks, [], [], seqno;
        }
        FlushedChains(answers, answered, t.Answers(), |was|, if n > 0 then 2 else 1);
        SoFarAlone(was, chunk, items, i, n, bytes, chunks);
        GreedyAlone(was, chunk, item);
        chunk := [];
        n, bytes := 0, 0;
        continue;
      }
      if n > 0 && (n + 1 > COMMIT_CHUNK_ITEMS || bytes + item.size > SchedulerSpec.COMMIT_CHUNK_BYTES) {
        ghost var before, answered := t.Seen(), t.Answers();
        failure, seqno, logs, spans := FlushChunk(t, seqno, chunks, chunk, logs, spans, begin);
        BothLaterChains(begin, before, t.Seen());
        if failure.Some? {
          return FlushFailed(failure.value), chunks, [], [], seqno;
        }
        FlushedChains(answers, answered, t.Answers(), |chunks|, 1);
        SoFarFlushed(chunks, chunk, items[..i], n, bytes);
        FullNow(chunk, item);
        GreedyFlushed(chunks, chunk, item);
        chunks, chunk := chunks + [chunk], [];
        n, bytes := 0, 0;
      } else {
        GreedyMore(chunks, chunk, item);
      }
      ghost var before := t.Seen();
      emitted, logs, spans := ReplayInto(t, item, seqno, chunks, chunk, logs, spans, begin);
      BothLaterChains(begin, before, t.Seen());
      if !emitted {
        return ReplayFailed, chunks, [], [], seqno;
      }
      SoFarMore(chunks, chunk, items, i, n, bytes);
      chunk := chunk + [item];
      n, bytes := n + 1, bytes + item.size;
    }
    SoFarEnds(chunks, chunk, items, n, bytes);
    GreedyEnds(chunks, chunk);
    ghost var last, answered := t.Seen(), t.Answers();
    failure, seqno, logs, spans := FlushChunk(t, seqno, chunks, chunk, logs, spans, begin);
    BothLaterChains(begin, last, t.Seen());
    if failure.Some? {
      return FlushFailed(failure.value), chunks, [], [], seqno;
    }
    FlushedChains(answers, answered, t.Answers(), |chunks|, 1);
    chunks := chunks + [chunk];
    err, logPlaces, spanPlaces := Done, logs.done, spans.done;
    InCommitDone(t.Seen(), seqno, chunks, logs, spans, begin);
  }

  /** The flushed chunks and the current one are the items replayed so far, and the counters are the
      current chunk's. */
  ghost predicate SoFar(chunks: seq<seq<Item>>, chunk: seq<Item>, written: seq<Item>, n: nat, bytes: nat)
  {
    && Concat(chunks) + chunk == written
    && n == |chunk| <= COMMIT_CHUNK_ITEMS && bytes == TotalSize(chunk) <= SchedulerSpec.COMMIT_CHUNK_BYTES
    && forall item :: item in written ==> Exportable(item) && item.stamped
  }

  lemma SoFarStarts(items: seq<Item>)
    ensures SoFar([], [], items[..0], 0, 0)
  {
    assert Concat([]) + [] == items[..0];
  }

  lemma SoFarFacts(chunks: seq<seq<Item>>, chunk: seq<Item>, written: seq<Item>, n: nat, bytes: nat, items: seq<Item>,
                   item: Item)
    requires SoFar(chunks, chunk, written, n, bytes) && item in items
    ensures n == |chunk| <= COMMIT_CHUNK_ITEMS && ChunkOk(chunk) && (n == 0 ==> bytes == 0) && bytes == TotalSize(chunk)
    ensures Exportable(item) <==>
      item.size <= SchedulerSpec.COMMIT_CHUNK_BYTES || (item.SpanItem? && item.size <= MAX_SINGLE_SPAN_BYTES)
    ensures item.SpanItem? && item.size <= MAX_SINGLE_SPAN_BYTES ==> ChunkOk([item])
    ensures ChunkOk([])
  {
  }

  lemma SoFarAlone(chunks: seq<seq<Item>>, chunk: seq<Item>, items: seq<Item>, i: nat, n: nat, bytes: nat,
                   next: seq<seq<Item>>)
    requires i < |items| && SoFar(chunks, chunk, items[..i], n, bytes) && Exportable(items[i]) && items[i].stamped
    requires Concat(next) == Concat(chunks) + chunk + [items[i]]
    ensures SoFar(next, [], items[..i + 1], 0, 0)
  {
    hide Concat;
    assert items[..i + 1] == items[..i] + [items[i]];
    assert Concat(next) + [] == items[..i + 1];
  }

  lemma SoFarFlushed(chunks: seq<seq<Item>>, chunk: seq<Item>, written: seq<Item>, n: nat, bytes: nat)
    requires SoFar(chunks, chunk, written, n, bytes)
    ensures SoFar(chunks + [chunk], [], written, 0, 0)
  {
    ConcatSnoc(chunks, chunk);
    hide Concat;
    assert Concat(chunks + [chunk]) + [] == written;
  }

  lemma SoFarMore(chunks: seq<seq<Item>>, chunk: seq<Item>, items: seq<Item>, i: nat, n: nat, bytes: nat)
    requires i < |items| && SoFar(chunks, chunk, items[..i], n, bytes) && items[i].stamped
    requires n + 1 <= COMMIT_CHUNK_ITEMS && bytes + items[i].size <= SchedulerSpec.COMMIT_CHUNK_BYTES
    ensures SoFar(chunks, chunk + [items[i]], items[..i + 1], n + 1, bytes + items[i].size)
  {
    hide Concat, TotalSize, Exportable;
    Snoc(chunk, items[i]);
    FitsAlone(items[i]);
    FirstMore(items, i);
    Associates(Concat(chunks), chunk, [items[i]]);
  }

  lemma Associates<T>(a: seq<T>, b: seq<T>, c: seq<T>)
    ensures a + (b + c) == a + b + c
  {
  }

  lemma FitsAlone(item: Item)
    ensures item.size <= SchedulerSpec.COMMIT_CHUNK_BYTES ==> Exportable(item)
  {
  }

  lemma FullNow(chunk: seq<Item>, item: Item)
    requires |chunk| + 1 > COMMIT_CHUNK_ITEMS || TotalSize(chunk) + item.size > SchedulerSpec.COMMIT_CHUNK_BYTES
    ensures FullFor(chunk, [item])
  {
  }

  lemma SoFarEnds(chunks: seq<seq<Item>>, chunk: seq<Item>, items: seq<Item>, n: nat, bytes: nat)
    requires SoFar(chunks, chunk, items[..|items|], n, bytes)
    ensures Concat(chunks + [chunk]) == items && ChunkOk(chunk)
    ensures forall item :: item in items ==> Exportable(item) && item.stamped
  {
    assert items[..|items|] == items;
    ConcatSnoc(chunks, chunk);
  }

  /** A large span gets a chunk of its own, after the chunk before it is flushed. */
  method ReplayAlone(t: Telemetry, item: Item, since: nat, n: nat, ghost chunks: seq<seq<Item>>, ghost chunk: seq<Item>,
                     ghost logs: Progress<Record>, ghost spans: Progress<int>, ghost begin: Pipes)
    returns (err: CommitError, next: nat, ghost chunks': seq<seq<Item>>, ghost logs': Progress<Record>,
             ghost spans': Progress<int>)
    requires t.Valid() && since <= t.observer.count && n == |chunk| && ChunkOk(chunk) && ChunkOk([item])
    requires InCommit(t.Seen(), since, chunks, chunk, logs, spans, begin)
    modifies t.observer, t.logs, t.spans
    ensures t.Valid() && BothLater(old(t.Seen()), t.Seen()) && since <= next <= t.observer.count
    ensures !err.TooLarge?
    ensures err.FlushFailed? ==>
      Accurate(err.failure, t.observer.history, next) && OwnErrors(Some(err.failure), t.logs.forced, t.spans.forced)
    ensures err.ReplayFailed? ==> !item.stamped
    ensures err.Done? ==> item.stamped && InCommit(t.Seen(), next, chunks', [], logs', spans', begin)
    ensures err.Done? ==> chunks' == chunks + (if n > 0 then [chunk] else []) + [[item]]
    ensures err.Done? ==> Flushed(old(t.Answers()), t.Answers(), if n > 0 then 2 else 1)
    ensures err.Done? ==> Concat(chunks') == Concat(chunks) + chunk + [item]
  {
    hide OwnErrors, BothLater, Accurate, InCommit, OnTrack, AllLogs, AllSpans, Concat, Telemetry.Valid, Placed, Accepted,
      Telemetry.Answers, Flushed;
    ghost var answers := t.Answers();
    NotFlushed(answers);
    next, chunks', logs', spans' := since, chunks, logs, spans;
    var failure, emitted;
    ghost var begun := t.Seen();
    SeenLater(begun);
    if n > 0 {
      failure, next, logs', spans' := FlushChunk(t, next, chunks, chunk, logs, spans, begin);
      if failure.Some? {
        err := FlushFailed(failure.value);
        return;
      }
      ConcatSnoc(chunks, chunk);
      chunks' := chunks + [chunk];
    }
    ghost var flushed, answered := t.Seen(), t.Answers();
    emitted, logs', spans' := ReplayInto(t, item, next, chunks', [], logs', spans', begin);
    BothLaterChains(begun, flushed, t.Seen());
    if !emitted {
      err := ReplayFailed;
      return;
    }
    assert [] + [item] == [item];
    ghost var replayed := t.Seen();
    failure, next, logs', spans' := FlushChunk(t, next, chunks', [item], logs', spans', begin);
    BothLaterChains(begun, replayed, t.Seen());
    ConcatSnoc(chunks', [item]);
    chunks' := chunks' + [[item]];
    if failure.None? {
      FlushedChains(answers, answered, t.Answers(), if n > 0 then 1 else 0, 1);
    }
    err := if failure.None? then Done else FlushFailed(failure.value);
  }

  lemma NotFlushed(answers: Forced)
    ensures Flushed(answers, answers, 0)
  {
  }

  lemma SeenLater(v: Pipes)
    ensures BothLater(v, v)
  {
  }

  lemma FailuresLater(a: Pipes, b: Pipes)
    requires BothLater(a, b)
    ensures a.logs.failures <= b.logs.failures
  {
  }

  lemma SeenHanded(t: Telemetry)
    requires t.Valid()
    ensures t.Seen().logs.failures == t.observer.count
    ensures t.Seen().logs.handed == t.logs.handed && t.Seen().spans.handed == t.spans.handed
  {
  }

  lemma BeginsInCommit(t: Telemetry, begin: Pipes)
    requires t.Valid() && begin == t.Seen()
    ensures InCommit(begin, t.observer.count, [], [], Progress(begin.logs, [], []), Progress(begin.spans, [], []), begin)
    ensures Concat<Item>([]) == []
  {
  }

  lemma InCommitDone(v: Pipes, since: nat, chunks: seq<seq<Item>>, logs: Progress<Record>, spans: Progress<int>,
                     begin: Pipes)
    requires InCommit(v, since, chunks, [], logs, spans, begin)
    ensures forall c :: c in chunks ==> ChunkOk(c)
    ensures Placed(v.logs, logs.done, AllLogs(Concat(chunks)), |begin.logs.handed|) && Accepted(v.logs, logs.done)
    ensures Placed(v.spans, spans.done, AllSpans(Concat(chunks)), |begin.spans.handed|) && Accepted(v.spans, spans.done)
  {
  }
}
