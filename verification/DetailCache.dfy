/** Fetched log details kept between calls, and the bounded window of fetches ahead of the consumer. */
module DetailCache {
  import opened Instants
  import opened Options
  import opened Sets

  const MAX_ENTRIES := 6
  const MAX_BYTES := 16 * 1024 * 1024
  const TTL: Duration := 5 * MINUTE
  const CONCURRENCY := 3

  /** A log row's stable identity. */
  datatype Identity = Identity(gateway: string, id: string, createdAt: Time)

  /** A fetched detail; settled unless it is an error or a missing body may still appear. */
  datatype Fetched = Fetched(fetchedAt: Time, settled: bool, size: nat)

  datatype Entry = Entry(row: Identity, result: Fetched)

  function Bytes(es: seq<Entry>): nat
  {
    if |es| == 0 then 0 else Bytes(es[..|es| - 1]) + es[|es| - 1].result.size
  }

  lemma {:induction false} BytesConcat(a: seq<Entry>, b: seq<Entry>)
    ensures Bytes(a + b) == Bytes(a) + Bytes(b)
  {
    if |b| == 0 {
      assert a + b == a;
    } else {
      BytesConcat(a, b[..|b| - 1]);
      assert (a + b)[..|a + b| - 1] == a + b[..|b| - 1];
    }
  }

  lemma BytesWithout(es: seq<Entry>, i: nat)
    requires i < |es|
    ensures Bytes(es[..i] + es[i + 1..]) == Bytes(es) - es[i].result.size
  {
    hide Bytes;
    BytesOfOne(es[i]);
    Around(es, i);
    BytesConcat(es[..i], es[i + 1..]);
    BytesConcat(es[..i], [es[i]] + es[i + 1..]);
    BytesConcat([es[i]], es[i + 1..]);
  }

  lemma Around<T>(s: seq<T>, i: nat)
    requires i < |s|
    ensures s == s[..i] + ([s[i]] + s[i + 1..])
  {
  }

  lemma BytesOfOne(e: Entry)
    ensures Bytes([e]) == e.result.size && Bytes([]) == 0
  {
    assert [e][..0] == [];
  }

  predicate Expired(e: Entry, now: Time) { now - e.result.fetchedAt >= TTL }

  /** An entry of the row no older than five minutes. */
  predicate IsHit(e: Entry, row: Identity, now: Time) { e.row == row && now - e.result.fetchedAt < 5 * MINUTE }

  /** The entries that are neither expired nor of this identity, in order. */
  function Others(es: seq<Entry>, row: Identity, now: Time): seq<Entry>
  {
    if |es| == 0 then [] else
      var before := Others(es[..|es| - 1], row, now);
      var last := es[|es| - 1];
      if last.row == row || Expired(last, now) then before else before + [last]
  }

  lemma {:induction false} OthersConcat(a: seq<Entry>, b: seq<Entry>, row: Identity, now: Time)
    ensures Others(a + b, row, now) == Others(a, row, now) + Others(b, row, now)
  {
    if |b| == 0 {
      assert a + b == a;
    } else {
      OthersConcat(a, b[..|b| - 1], row, now);
      assert (a + b)[..|a + b| - 1] == a + b[..|b| - 1];
    }
  }

  lemma OthersWithout(es: seq<Entry>, i: nat, row: Identity, now: Time)
    requires i < |es| && (es[i].row == row || Expired(es[i], now))
    ensures Others(es[..i] + es[i + 1..], row, now) == Others(es, row, now)
  {
    OthersOfOne(es[i], row, now);
    hide Others;
    Around(es, i);
    OthersConcat(es[..i], es[i + 1..], row, now);
    OthersConcat(es[..i], [es[i]] + es[i + 1..], row, now);
    OthersConcat([es[i]], es[i + 1..], row, now);
  }

  lemma OthersOfOne(e: Entry, row: Identity, now: Time)
    ensures Others([e], row, now) == if e.row == row || Expired(e, now) then [] else [e]
  {
    assert [e][..0] == [];
  }

  lemma {:induction false} OthersOnly(es: seq<Entry>, row: Identity, now: Time)
    requires forall e :: e in es ==> e.row != row && !Expired(e, now)
    ensures Others(es, row, now) == es
  {
    if |es| > 0 {
      OthersOnly(es[..|es| - 1], row, now);
    }
  }

  /** The entries of rows at or after the mark, in order. */
  function Since(es: seq<Entry>, mark: Time): seq<Entry>
  {
    if |es| == 0 then [] else
      var before := Since(es[..|es| - 1], mark);
      var last := es[|es| - 1];
      if last.row.createdAt >= mark then before + [last] else before
  }

  lemma {:induction false} SinceConcat(a: seq<Entry>, b: seq<Entry>, mark: Time)
    ensures Since(a + b, mark) == Since(a, mark) + Since(b, mark)
  {
    if |b| == 0 {
      assert a + b == a;
    } else {
      SinceConcat(a, b[..|b| - 1], mark);
      assert (a + b)[..|a + b| - 1] == a + b[..|b| - 1];
    }
  }

  lemma SinceWithout(es: seq<Entry>, i: nat, mark: Time)
    requires i < |es| && es[i].row.createdAt < mark
    ensures Since(es[..i] + es[i + 1..], mark) == Since(es, mark)
  {
    assert [es[i]][..0] == [] && Since([es[i]], mark) == [];
    hide Since;
    Around(es, i);
    SinceConcat(es[..i], es[i + 1..], mark);
    SinceConcat(es[..i], [es[i]] + es[i + 1..], mark);
    SinceConcat([es[i]], es[i + 1..], mark);
  }

  lemma {:induction false} SinceOnly(es: seq<Entry>, mark: Time)
    requires forall i :: 0 <= i < |es| ==> es[i].row.createdAt >= mark
    ensures Since(es, mark) == es
  {
    if |es| > 0 {
      SinceOnly(es[..|es| - 1], mark);
    }
  }

  lemma {:induction false} SinceMembers(es: seq<Entry>, mark: Time)
    ensures forall e :: e in Since(es, mark) <==> e in es && e.row.createdAt >= mark
  {
    if |es| > 0 {
      SinceMembers(es[..|es| - 1], mark);
    }
  }

  predicate Fits(es: seq<Entry>, size: nat) { |es| < 6 && Bytes(es) + size <= 16 * 1024 * 1024 }

  ghost predicate OnePerIdentity(es: seq<Entry>)
  {
    forall i, j :: 0 <= i < j < |es| ==> es[i].row != es[j].row
  }

  /** The entry came after as many of the kept ones as had room, the oldest going first. */
  ghost predicate PutAfter(kept: seq<Entry>, e: Entry, entries: seq<Entry>)
  {
    exists n :: 0 <= n <= |kept| && entries == kept[n..] + [e] && (n > 0 ==> !Fits(kept[n - 1..], e.result.size))
  }

  lemma Kept(kept: seq<Entry>, n: nat, e: Entry, entries: seq<Entry>)
    requires n <= |kept| && entries == kept[n..] + [e] && (n > 0 ==> !Fits(kept[n - 1..], e.result.size))
    ensures PutAfter(kept, e, entries)
  {
  }

  // ---- What each operation leaves in the cache ------------------------------------------

  /** The oldest entries gone until one of this size fits. */
  function Evicted(es: seq<Entry>, size: nat): seq<Entry>
  {
    if |es| == 0 || Fits(es, size) then es else Evicted(es[1..], size)
  }

  predicate Keepable(result: Fetched, now: Time)
  {
    result.settled && now - result.fetchedAt < TTL && result.size <= MAX_BYTES
  }

  function AfterPut(es: seq<Entry>, row: Identity, result: Fetched, now: Time): seq<Entry>
  {
    if Keepable(result, now) then Evicted(Others(es, row, now), result.size) + [Entry(row, result)] else es
  }

  /** Without the row's entry and the expired ones before it. */
  function AfterTake(es: seq<Entry>, row: Identity, now: Time): seq<Entry>
  {
    if |es| == 0 then []
    else if Expired(es[0], now) then AfterTake(es[1..], row, now)
    else if es[0].row == row then es[1..]
    else [es[0]] + AfterTake(es[1..], row, now)
  }

  lemma BytesDrop(es: seq<Entry>)
    requires |es| > 0
    ensures Bytes(es) == es[0].result.size + Bytes(es[1..])
  {
    hide Bytes;
    BytesWithout(es, 0);
    assert es[..0] + es[1..] == es[1..];
  }

  /** Evicting stops where an entry first fits. */
  lemma {:induction false} EvictedIs(es: seq<Entry>, n: nat, size: nat)
    requires n <= |es| && Fits(es[n..], size) && (n > 0 ==> !Fits(es[n - 1..], size))
    ensures Evicted(es, size) == es[n..]
    ensures n > 0 ==> !Fits(es, size)
  {
    if n > 0 {
      assert es[1..][n - 1..] == es[n..];
      assert n > 1 ==> es[1..][n - 2..] == es[n - 1..];
      EvictedIs(es[1..], n - 1, size);
      BytesDrop(es);
      assert n == 1 ==> es[n - 1..] == es;
    } else {
      assert es[0..] == es;
    }
  }

  /** One step of the search, as seen from the whole list. */
  lemma TakeStep(es: seq<Entry>, i: nat, row: Identity, now: Time)
    requires i < |es|
    ensures var rest := es[..i] + es[i + 1..];
      es[..i] + AfterTake(es[i..], row, now) ==
        if Expired(es[i], now) then rest[..i] + AfterTake(rest[i..], row, now)
        else if es[i].row == row then rest
        else es[..i + 1] + AfterTake(es[i + 1..], row, now)
  {
    assert es[i..][1..] == es[i + 1..];
    assert (es[..i] + es[i + 1..])[..i] == es[..i] && (es[..i] + es[i + 1..])[i..] == es[i + 1..];
    assert es[..i + 1] == es[..i] + [es[i]];
  }

  lemma TakeNothing(es: seq<Entry>, row: Identity, now: Time)
    ensures es[..|es|] + AfterTake(es[|es|..], row, now) == es
  {
  }

  /** Taking a row leaves every other row's unexpired entries, in order. */
  lemma {:induction false} TakeKeepsOthers(es: seq<Entry>, row: Identity, now: Time)
    ensures Others(AfterTake(es, row, now), row, now) == Others(es, row, now)
  {
    if |es| > 0 {
      assert es == [es[0]] + es[1..];
      OthersConcat([es[0]], es[1..], row, now);
      OthersOfOne(es[0], row, now);
      TakeKeepsOthers(es[1..], row, now);
      OthersConcat([es[0]], AfterTake(es[1..], row, now), row, now);
    }
  }

  lemma FirstGone(es: seq<Entry>, n: nat)
    requires n < |es|
    ensures es[n..][..0] + es[n..][1..] == es[n + 1..]
  {
  }

  class Cache {
    var entries: seq<Entry>
    var bytes: nat

    ghost predicate Valid()
      reads this
    {
      bytes == Bytes(entries) <= 16 * 1024 * 1024 && |entries| <= 6 && OnePerIdentity(entries)
    }

    constructor ()
      ensures Valid() && entries == []
    {
      entries, bytes := [], 0;
    }

    method Remove(i: nat) returns (e: Entry)
      requires Valid() && i < |entries|
      modifies this
      ensures Valid() && e == old(entries)[i] && entries == old(entries)[..i] + old(entries)[i + 1..]
    {
      BytesWithout(entries, i);
      e := entries[i];
      bytes := bytes - e.result.size;
      entries := entries[..i] + entries[i + 1..];
    }

    /** Finds an unexpired entry of the row and takes it out. Every unexpired entry of another row stays. */
    method Take(row: Identity, now: Time) returns (r: Option<Fetched>)
      requires Valid()
      modifies this
      ensures Valid() && Others(entries, row, now) == Others(old(entries), row, now)
      ensures r.Some? <==> exists e :: e in old(entries) && IsHit(e, row, now)
      ensures r.Some? ==> IsHit(Entry(row, r.value), row, now) && Entry(row, r.value) in old(entries)
      ensures forall e :: e in entries ==> e in old(entries) && e.row != row
      ensures entries == AfterTake(old(entries), row, now)
    {
      hide AfterTake, Others, Bytes;
      TakeKeepsOthers(entries, row, now);
      var i := 0;
      while i < |entries|
        invariant 0 <= i <= |entries| && Valid()
        invariant AfterTake(old(entries), row, now) == entries[..i] + AfterTake(entries[i..], row, now)
        invariant forall e :: e in entries ==> e in old(entries)
        invariant forall k :: 0 <= k < i ==> entries[k].row != row
        invariant forall e :: e in old(entries) && e !in entries ==> Expired(e, now)
        decreases |entries| - i
      {
        var e := entries[i];
        TakeStep(entries, i, row, now);
        Around(entries, i);
        if Expired(e, now) {
          var _ := Remove(i);
        } else if e.row == row {
          var taken := Remove(i);
          return Some(taken.result);
        } else {
          i := i + 1;
        }
      }
      TakeNothing(entries, row, now);
      return None;
    }

    /** Drops the row's old entry and expired ones, then the oldest entries until the new one fits, and
        no more than that. */
    method Put(row: Identity, result: Fetched, now: Time)
      requires Valid()
      modifies this
      ensures Valid()
      ensures !MayStay(result, now) ==> entries == old(entries)
      ensures MayStay(result, now) ==>
        PutAfter(Others(old(entries), row, now), Entry(row, result), entries)
      ensures entries == AfterPut(old(entries), row, result, now)
    {
      if !result.settled || now - result.fetchedAt >= TTL || result.size > MAX_BYTES {
        return;
      }
      hide Others, PutAfter, Bytes, Evicted;
      DropStale(row, now);
      ghost var kept := entries;
      ghost var n := MakeRoom(row, result.size);
      EvictedIs(kept, n, result.size);
      Append(Entry(row, result));
      Kept(kept, n, Entry(row, result), entries);
    }

    method Append(e: Entry)
      requires Valid() && Fits(entries, e.result.size) && forall x :: x in entries ==> x.row != e.row
      modifies this
      ensures Valid() && entries == old(entries) + [e]
    {
      BytesConcat(entries, [e]);
      BytesOfOne(e);
      hide Bytes;
      entries := entries + [e];
      bytes := bytes + e.result.size;
    }

    /** Evicts the oldest entries until one of this size fits, and no more than that. */
    method MakeRoom(row: Identity, size: nat) returns (ghost n: nat)
      requires Valid() && size <= MAX_BYTES && forall e :: e in entries ==> e.row != row
      modifies this
      ensures Valid() && n <= |old(entries)| && entries == old(entries)[n..] && Fits(entries, size)
      ensures forall e :: e in entries ==> e.row != row
      ensures n > 0 ==> !Fits(old(entries)[n - 1..], size)
    {
      hide Bytes, OnePerIdentity;
      n := 0;
      while |entries| >= MAX_ENTRIES || bytes + size > MAX_BYTES
        invariant Valid() && 0 <= n <= |old(entries)| && entries == old(entries)[n..]
        invariant n > 0 ==> !Fits(old(entries)[n - 1..], size)
        decreases |entries|
      {
        EvictionHasAnEntry(entries, size);
        FirstGone(old(entries), n);
        var _ := Remove(0);
        n := n + 1;
      }
    }

    method DropStale(row: Identity, now: Time)
      requires Valid()
      modifies this
      ensures Valid() && entries == Others(old(entries), row, now)
      ensures forall e :: e in entries ==> e.row != row
    {
      var i := 0;
      while i < |entries|
        invariant 0 <= i <= |entries| && Valid()
        invariant Others(entries, row, now) == Others(old(entries), row, now)
        invariant forall k :: 0 <= k < i ==> entries[k].row != row && !Expired(entries[k], now)
        decreases |entries| - i
      {
        if entries[i].row == row || Expired(entries[i], now) {
          OthersWithout(entries, i, row, now);
          var _ := Remove(i);
        } else {
          i := i + 1;
        }
      }
      OthersOnly(entries, row, now);
    }

    /** Forgets the rows before the mark and keeps the others. */
    method PruneBefore(mark: Time)
      requires Valid()
      modifies this
      ensures Valid() && entries == Since(old(entries), mark)
      ensures forall e :: e in entries <==> e in old(entries) && e.row.createdAt >= mark
    {
      hide Bytes, OnePerIdentity, Since;
      var i := 0;
      while i < |entries|
        invariant 0 <= i <= |entries| && Valid()
        invariant Since(entries, mark) == Since(old(entries), mark)
        invariant forall k :: 0 <= k < i ==> entries[k].row.createdAt >= mark
        decreases |entries| - i
      {
        if entries[i].row.createdAt < mark {
          SinceWithout(entries, i, mark);
          var _ := Remove(i);
        } else {
          i := i + 1;
        }
      }
      SinceOnly(entries, mark);
      SinceMembers(old(entries), mark);
    }
  }

  /** Eviction never looks for an oldest entry in an empty cache. */
  lemma EvictionHasAnEntry(es: seq<Entry>, size: nat)
    requires size <= MAX_BYTES && !Fits(es, size)
    ensures |es| > 0
  {
  }

  // ---- The window of fetches ahead ------------------------------------------------------

  /** The cache after putting the delivered results of the first n rows, in order. */
  function PutAll(es: seq<Entry>, rows: seq<Identity>, delivered: map<nat, Fetched>, n: nat, clock: nat -> Time)
    : seq<Entry>
    requires n <= |rows|
  {
    if n == 0 then es else
      var before := PutAll(es, rows, delivered, n - 1, clock);
      if n - 1 in delivered then AfterPut(before, rows[n - 1], delivered[n - 1], clock(n - 1)) else before
  }

  /** What is put is among the delivered, and the last one that may be kept is there, last. */
  lemma {:induction false} PutAllKeeps(es: seq<Entry>, rows: seq<Identity>, delivered: map<nat, Fetched>, n: nat,
                                       clock: nat -> Time)
    requires n <= |rows|
    ensures forall e :: e in PutAll(es, rows, delivered, n, clock) ==>
      e in es || exists i: nat :: i < n && i in delivered && e == Entry(rows[i], delivered[i])
    ensures forall i: nat :: LastToStay(delivered, n, clock, i) ==>
      var out := PutAll(es, rows, delivered, n, clock); |out| > 0 && out[|out| - 1] == Entry(rows[i], delivered[i])
  {
    if n > 0 {
      PutAllKeeps(es, rows, delivered, n - 1, clock);
      if n - 1 in delivered {
        OthersAreOld(PutAll(es, rows, delivered, n - 1, clock), rows[n - 1], delivered[n - 1], clock(n - 1));
      }
      hide AfterPut;
    }
  }

  /** A settled detail no older than five minutes and no larger than 16 MiB. */
  predicate MayStay(result: Fetched, now: Time)
  {
    result.settled && now - result.fetchedAt < 5 * MINUTE && result.size <= 16 * 1024 * 1024
  }

  /** The last of the first n results that may be kept. */
  ghost predicate LastToStay(delivered: map<nat, Fetched>, n: nat, clock: nat -> Time, i: nat)
  {
    && i < n && i in delivered && MayStay(delivered[i], clock(i))
    && forall j :: i < j < n && j in delivered ==> !MayStay(delivered[j], clock(j))
  }

  lemma OthersAreOld(es: seq<Entry>, row: Identity, result: Fetched, now: Time)
    ensures var out := AfterPut(es, row, result, now);
      && (MayStay(result, now) ==> |out| > 0 && out[|out| - 1] == Entry(row, result))
      && (!MayStay(result, now) ==> out == es)
      && forall e :: e in out ==> e in es || e == Entry(row, result)
  {
    OthersAmong(es, row, now);
    EvictedAmong(Others(es, row, now), result.size);
  }

  lemma {:induction false} OthersAmong(es: seq<Entry>, row: Identity, now: Time)
    ensures forall e :: e in Others(es, row, now) ==> e in es
  {
    if |es| > 0 {
      OthersAmong(es[..|es| - 1], row, now);
    }
  }

  lemma {:induction false} EvictedAmong(es: seq<Entry>, size: nat)
    ensures forall e :: e in Evicted(es, size) ==> e in es
    decreases |es|
  {
    if |es| > 0 && !Fits(es, size) {
      EvictedAmong(es[1..], size);
    }
  }

  /** A started row is delivered from the cache exactly when that has it, fresh, and then with what it has. */
  ghost predicate Began(es: seq<Entry>, row: Identity, now: Time, i: nat, results: map<nat, Fetched>)
  {
    && (i in results <==> exists e :: e in es && IsHit(e, row, now))
    && (i in results ==> Entry(row, results[i]) in es && IsHit(Entry(row, results[i]), row, now))
  }

  class Prefetch {
    const rows: seq<Identity>
    const retained: Cache
    const retain: bool
    var started: nat
    var consumed: nat
    var stopped: bool
    /** Fetches whose goroutine has not delivered, and results that were delivered but not read. */
    var running: set<nat>
    var results: map<nat, Fetched>

    /** The window is full until the rows run out; each started and unread row is either still being
        fetched or delivered. */
    ghost predicate Valid()
      reads this, retained
    {
      && retained.Valid() && consumed <= |rows|
      && started == Min(consumed + CONCURRENCY, |rows|)
      && (if stopped then running == {} && results == map[] else InFlight(consumed))
    }

    ghost predicate InFlight(from: nat)
      reads this
    {
      running !! results.Keys && forall i :: i in running || i in results <==> from <= i < started
    }

    constructor (rows: seq<Identity>, retained: Cache, retain: bool, now: Time)
      requires retained.Valid()
      modifies retained
      ensures Valid() && !stopped && consumed == 0
      ensures this.rows == rows && this.retained == retained && this.retain == retain
      ensures forall i :: i in results ==> Entry(rows[i], results[i]) in old(retained.entries)
                                           && IsHit(Entry(rows[i], results[i]), rows[i], now)
    {
      this.rows, this.retained, this.retain := rows, retained, retain;
      started, consumed, stopped, running, results := 0, 0, false, {}, map[];
      new;
      while started < Min(CONCURRENCY, |rows|)
        invariant started <= Min(CONCURRENCY, |rows|) && consumed == 0 && !stopped
        invariant retained.Valid() && InFlight(0)
        invariant forall e :: e in retained.entries ==> e in old(retained.entries)
        invariant forall i :: i in results ==> Entry(rows[i], results[i]) in old(retained.entries)
                                               && IsHit(Entry(rows[i], results[i]), rows[i], now)
      {
        Start(0, now);
      }
    }

    /** Delivers from the cache at once or starts a fetch. */
    method Start(ghost from: nat, now: Time)
      requires from <= started < |rows| && retained.Valid() && InFlight(from)
      modifies this`started, this`running, this`results, retained
      ensures retained.Valid() && started == old(started) + 1 && InFlight(from)
      ensures running <= old(running) + {old(started)}
      ensures retained.entries == AfterTake(old(retained.entries), rows[old(started)], now)
      ensures Began(old(retained.entries), rows[old(started)], now, old(started), results)
      ensures results.Keys <= old(results).Keys + {old(started)}
      ensures forall e :: e in retained.entries ==> e in old(retained.entries)
      ensures forall i :: i in old(results) ==> i in results && results[i] == old(results)[i]
    {
      var hit := retained.Take(rows[started], now);
      if hit.Some? {
        results := results[started := hit.value];
      } else {
        running := running + {started};
      }
      started := started + 1;
    }

    /** A running fetch delivers its result, or its error. */
    method Deliver(i: nat, result: Fetched)
      requires i in running && i !in results
      modifies this`running, this`results
      ensures running == old(running) - {i} && results == old(results)[i := result]
    {
      running := running - {i};
      results := results[i := result];
    }

    /** Reads the next row's delivered result, retains it if asked to, and starts one more fetch. */
    method Get(now: Time) returns (result: Fetched)
      requires Valid() && !stopped && consumed < |rows| && consumed in results
      modifies this`started, this`consumed, this`running, this`results, retained
      ensures Valid() && !stopped && consumed == old(consumed) + 1 && result == old(results)[old(consumed)]
      ensures |running| <= 3 && started == Min(consumed + 3, |rows|)
      ensures forall i :: i in old(results) && i != old(consumed) ==> i in results && results[i] == old(results)[i]
      ensures var read := old(consumed);
        var put := if retain then AfterPut(old(retained.entries), rows[read], result, now) else old(retained.entries);
        if read + 3 < |rows|
        then retained.entries == AfterTake(put, rows[read + 3], now) && Began(put, rows[read + 3], now, read + 3, results)
        else retained.entries == put
    {
      hide AfterPut, AfterTake, Others, PutAfter, Bytes, Began, IsHit, MayStay, Cache.Valid;
      result := results[consumed];
      results := results - {consumed};
      if retain {
        retained.Put(rows[consumed], result, now);
      }
      var next := consumed + CONCURRENCY;
      consumed := consumed + 1;
      if next < |rows| {
        Start(consumed, now);
      }
      FewRunning(running, consumed, started);
    }

    /** Waits until every fetch in flight has delivered, in whatever order they do. */
    method AwaitAll()
      requires InFlight(consumed)
      modifies this`running, this`results
      ensures running == {} && forall i: nat :: i in results <==> consumed <= i < started
      ensures forall i :: i in old(results) ==> i in results && results[i] == old(results)[i]
    {
      while running != {}
        invariant InFlight(consumed)
        invariant forall i :: i in old(results) ==> i in results && results[i] == old(results)[i]
        decreases |running|
      {
        ghost var some := Member(running);
        var i :| i in running;
        var result: Fetched := *;
        Deliver(i, result);
      }
      assert forall i: nat :: i in results <==> i in running || i in results;
    }

    /** Reads every delivered result, in the order of the rows, and retains it if asked to. */
    method Drain(clock: nat -> Time)
      requires retained.Valid() && forall i :: i in results ==> i < |rows|
      modifies this`results, retained
      ensures retained.Valid() && results == map[]
      ensures retained.entries ==
        if retain then PutAll(old(retained.entries), rows, old(results), |rows|, clock) else old(retained.entries)
    {
      hide AfterPut, Others, PutAfter, Bytes;
      for i := 0 to |rows|
        invariant retained.Valid()
        invariant forall k: nat :: k in results <==> k in old(results) && k >= i
        invariant forall k :: k in results ==> results[k] == old(results)[k]
        invariant retained.entries ==
          if retain then PutAll(old(retained.entries), rows, old(results), i, clock) else old(retained.entries)
      {
        if i in results {
          if retain {
            retained.Put(rows[i], results[i], clock(i));
          }
          results := results - {i};
        }
      }
      assert results == map[];
    }

    /** Cancels the fetches, waits until each has delivered, and then retains every result that was
        never read, in the order of the rows, if asked to. A second call does nothing. */
    method Stop(clock: nat -> Time) returns (delivered: map<nat, Fetched>)
      requires Valid()
      modifies this`stopped, this`running, this`results, retained
      ensures Valid() && stopped
      ensures old(stopped) ==> delivered == map[]
      ensures !old(stopped) ==> forall i: nat :: i in delivered <==> consumed <= i < started
      ensures forall i :: i in old(results) ==> i in delivered && delivered[i] == old(results)[i]
      ensures retained.entries ==
        if retain then PutAll(old(retained.entries), rows, delivered, |rows|, clock) else old(retained.entries)
    {
      hide AfterPut, PutAll, Others, PutAfter, Bytes;
      if stopped {
        PutNothing(retained.entries, rows, |rows|, clock);
        return map[];
      }
      stopped := true;
      AwaitAll();
      delivered := results;
      Drain(clock);
    }
  }

  lemma {:induction false} PutNothing(es: seq<Entry>, rows: seq<Identity>, n: nat, clock: nat -> Time)
    requires n <= |rows|
    ensures PutAll(es, rows, map[], n, clock) == es
  {
    if n > 0 {
      PutNothing(es, rows, n - 1, clock);
    }
  }

  lemma FewRunning(running: set<nat>, low: nat, high: nat)
    requires low <= high <= low + CONCURRENCY && forall i :: i in running ==> low <= i < high
    ensures |running| <= CONCURRENCY
  {
    assert running <= {low, low + 1, low + 2};
    assert {low, low + 1, low + 2} == running + ({low, low + 1, low + 2} - running);
  }
}
