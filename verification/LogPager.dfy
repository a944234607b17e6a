/** One gateway's window, listed page by page in ascending time. */
module LogPager {
  import opened Instants
  import opened Options
  import opened LogRows

  const PAGE_LIMIT := 10000

  lemma AppendRow(rows: seq<Row>, row: Row)
    ensures Rows(rows + [row]) == Rows(rows) + {row} && Ids(rows + [row]) == Ids(rows) + {row.id}
  {
    assert (rows + [row])[|rows|] == row;
    forall r | r in rows ensures r in rows + [row] {
      var i :| 0 <= i < |rows| && rows[i] == r;
      assert (rows + [row])[i] == r;
    }
  }

  function Ids(rows: seq<Row>): set<int> { set r | r in rows :: r.id }

  /** Every listed row is named after the gateway it was requested from. */
  ghost predicate Named(pages: seq<Page>, gateway: nat)
  {
    forall i, r :: 0 <= i < |pages| && pages[i].Some? && r in pages[i].value ==> r.gateway == gateway
  }

  /** The rows of a page that fall in the window and whose id was not seen before, in order. */
  function FirstSeen(rows: seq<Row>, seen: set<int>, from: Time, to: Time): seq<Row>
  {
    if |rows| == 0 then [] else
      var before, last := FirstSeen(rows[..|rows| - 1], seen, from, to), rows[|rows| - 1];
      if InWindow(last, from, to) && last.id !in seen + Ids(before) then before + [last] else before
  }

  lemma {:induction false} FirstSeenGrows(rows: seq<Row>, n: nat, seen: set<int>, from: Time, to: Time)
    requires n <= |rows|
    ensures FirstSeen(rows[..n], seen, from, to) <= FirstSeen(rows, seen, from, to)
    decreases |rows|
  {
    if n < |rows| {
      FirstSeenGrows(rows[..|rows| - 1], n, seen, from, to);
      assert rows[..|rows| - 1][..n] == rows[..n];
    } else {
      assert rows[..n] == rows;
    }
  }

  lemma FirstSeenStep(rows: seq<Row>, i: nat, seen: set<int>, from: Time, to: Time)
    requires i < |rows|
    ensures var before := FirstSeen(rows[..i], seen, from, to);
      FirstSeen(rows[..i + 1], seen, from, to) ==
        if InWindow(rows[i], from, to) && rows[i].id !in seen + Ids(before) then before + [rows[i]] else before
  {
    assert rows[..i + 1][..i] == rows[..i];
  }

  /** They are rows of the page in the window, no id twice or seen before, and no such id is missing. */
  lemma {:induction false} FirstSeenExactly(rows: seq<Row>, seen: set<int>, from: Time, to: Time)
    ensures forall r :: r in FirstSeen(rows, seen, from, to) ==> r in rows && from <= r.at < to && r.id !in seen
    ensures forall r :: r in rows && from <= r.at < to ==> r.id in seen + Ids(FirstSeen(rows, seen, from, to))
    ensures IdsDiffer(FirstSeen(rows, seen, from, to))
  {
    if |rows| > 0 {
      FirstSeenExactly(rows[..|rows| - 1], seen, from, to);
      var before, last := FirstSeen(rows[..|rows| - 1], seen, from, to), rows[|rows| - 1];
      AppendRow(before, last);
      if last.id !in Ids(before) {
        OneMoreId(before, last);
      }
    }
  }

  ghost predicate IdsDiffer(rows: seq<Row>)
  {
    forall i, j :: 0 <= i < j < |rows| ==> rows[i].id != rows[j].id
  }

  lemma OneMoreId(rows: seq<Row>, row: Row)
    requires IdsDiffer(rows) && row.id !in Ids(rows)
    ensures IdsDiffer(rows + [row])
  {
    assert forall r :: r in rows ==> r.id in Ids(rows);
    assert forall i :: 0 <= i < |rows| ==> rows[i] in rows;
  }

  /** What may be wrong with a page. */
  ghost predicate Faulty(rows: seq<Row>, seen: set<int>, from: Time, to: Time, horizon: Time)
  {
    exists r :: r in rows && (r.id == 0 || r.at == 0 || (from <= r.at < to && r.at < horizon && r.id !in seen))
  }

  lemma FaultyUnlessInOrder(rows: seq<Row>, seen: set<int>, from: Time, to: Time, horizon: Time)
    ensures !InOrder(rows, seen, from, to, horizon) ==> Faulty(rows, seen, from, to, horizon)
    ensures InOrder(rows, seen, from, to, horizon) ==>
      forall r :: r in FirstSeen(rows, seen, from, to) ==> r.at >= horizon && r.id != 0 && r.at != 0
  {
    FirstSeenExactly(rows, seen, from, to);
    hide FirstSeen;
  }

  /** Every row is named and none that is new is before the horizon, where rows may have been emitted. */
  ghost predicate InOrder(rows: seq<Row>, seen: set<int>, from: Time, to: Time, horizon: Time)
  {
    && (forall r :: r in rows ==> r.id != 0 && r.at != 0)
    && (forall r :: r in FirstSeen(rows, seen, from, to) ==> r.at >= horizon)
  }

  /** A row that breaks the order so far breaks it for the whole page. */
  lemma OutOfOrder(rows: seq<Row>, i: nat, seen: set<int>, from: Time, to: Time, horizon: Time)
    requires i < |rows|
    requires rows[i].id == 0 || rows[i].at == 0 ||
             (rows[i] in FirstSeen(rows[..i + 1], seen, from, to) && rows[i].at < horizon)
    ensures !InOrder(rows, seen, from, to, horizon)
  {
    FirstSeenGrows(rows, i + 1, seen, from, to);
    assert rows[i] in rows;
  }

  lemma NewRow(pending: seq<Row>, seen: set<int>, row: Row)
    requires Distinct(pending) && Ids(pending) <= seen && row.id !in seen
    ensures Distinct(pending + [row]) && Ids(pending + [row]) <= seen + {row.id}
  {
    AppendRow(pending, row);
    assert forall r :: r in pending ==> r.id in Ids(pending);
  }

  /** The page is empty or reaches past the window. */
  ghost predicate EndsListing(rows: seq<Row>, to: Time) { |rows| == 0 || Past(rows, to) }

  ghost predicate Past(rows: seq<Row>, to: Time) { exists r :: r in rows && r.at >= to }

  lemma EndsExactlyWhen(rows: seq<Row>, to: Time)
    ensures EndsListing(rows, to) <==> rows == [] || exists r :: r in rows && r.at >= to
  {
  }

  lemma PastStep(rows: seq<Row>, i: nat, to: Time)
    requires i < |rows|
    ensures Past(rows[..i + 1], to) <==> Past(rows[..i], to) || rows[i].at >= to
    ensures !Past([], to)
  {
    assert rows[..i + 1] == rows[..i] + [rows[i]];
  }

  lemma AllInOrder(rows: seq<Row>, seen: set<int>, from: Time, to: Time, horizon: Time)
    requires forall r :: r in rows ==> r.id != 0 && r.at != 0
    requires forall r :: r in FirstSeen(rows, seen, from, to) ==> r.at >= horizon
    ensures InOrder(rows, seen, from, to, horizon)
  {
  }

  lemma NothingSeen(seen: set<int>, from: Time, to: Time)
    ensures FirstSeen([], seen, from, to) == [] && Ids([]) == {} && !Past([], to)
  {
  }

  class Pager {
    const gateway: nat
    const from: Time
    const to: Time
    /** The server's answers to this call's page requests; every later page is empty. */
    const pages: seq<Page>
    var page: nat
    var seen: set<int>
    var pending: seq<Row>
    var last: Time
    var done: bool

    constructor (gateway: nat, from: Time, to: Time, pages: seq<Page>)
      requires from < to && Named(pages, gateway)
      ensures Valid() && Fresh()
      ensures (forall r :: r in Listed(pages) ==> r.at > 0) ==> Exact()
      ensures this.gateway == gateway && this.from == from && this.to == to && this.pages == pages
    {
      this.gateway, this.from, this.to, this.pages := gateway, from, to, pages;
      page, seen, pending, last, done := 0, {}, [], 0, false;
    }

    predicate Fresh()
      reads this
    {
      page == 0 && pending == [] && !done
    }

    /** The rows of the pages read so far. */
    ghost function Read(): seq<Row>
      reads this
    {
      Listed(if page < |pages| then pages[..page] else pages)
    }

    ghost predicate Core()
      reads this
    {
      && from < to && Named(pages, gateway)
      && Distinct(pending) && Ids(pending) <= seen
      && (forall r :: r in pending ==> InWindow(r, from, to) && r.gateway == gateway)
    }

    ghost predicate Valid()
      reads this
    {
      && Core()
      && page <= |pages| + 1
      && (page > |pages| ==> done)
    }

    /** What holds as long as the listing keeps its promise: the pending rows are exactly the rows of
        the window read so far, and every row not read yet is no earlier than the last one read, or
        is outside the window once the listing is done. */
    ghost predicate ExactAt(read: seq<Row>)
      reads this
    {
      && read <= Listed(pages)
      && Rows(pending) == Within(Rows(read), from, to)
      && seen == Ids(pending)
      && (forall i :: |read| <= i < |Listed(pages)| ==> last <= Listed(pages)[i].at)
      && (done ==> forall r :: r in Listed(pages) && InWindow(r, from, to) ==> r in read)
    }

    ghost predicate Exact()
      reads this
    {
      ExactAt(Read())
    }

    /** The earliest instant whose rows may still be unlisted. */
    function Horizon(): Time
      reads this
    {
      if done then to else Min(Max(FloorSecond(last), from), to)
    }

    /** The horizon is the last listed row's second, inside the window, or the end of a finished listing. */
    lemma HorizonIsLatest()
      requires from < to
      ensures done ==> Horizon() == to
      ensures !done && from < Horizon() < to ==> Horizon() % SECOND == 0 && Horizon() <= last < Horizon() + SECOND
      ensures !done && Horizon() == to ==> last >= to
      ensures !done && Horizon() == from ==> last < from + SECOND
      ensures from <= Horizon() <= to
    {
    }

    /** Every row of the window before the horizon is pending. */
    lemma HorizonIsSafe(log: set<Row>)
      requires Valid() && Faithful(pages, gateway, log, from, to) && Exact()
      ensures Within(Rows(pending), from, Horizon()) == Within(log, from, Horizon())
      ensures Rows(pending) <= Within(log, from, to)
    {
      var all := Rows(Listed(pages));
      assert Within(all, from, to) == Within(log, from, to);
      forall r | r in Within(log, from, Horizon()) ensures r in pending {
        assert r in Within(all, from, to);
        var i :| 0 <= i < |Listed(pages)| && Listed(pages)[i] == r;
        if i < |Read()| || done {
          assert i < |Read()| ==> Read()[i] == r;
          assert r in Within(Rows(Read()), from, to);
        }
      }
      forall r | r in Rows(pending) ensures r in Within(log, from, to) {
        assert r in Within(Rows(Read()), from, to);
        assert r in Within(all, from, to);
      }
    }

    /** Reading one more row of a faithful listing adds it to the window's rows. */
    lemma ReadOneMore(log: set<Row>, read: seq<Row>, rows: seq<Row>, i: nat)
      requires i < |rows| && read + rows <= Listed(pages) && Faithful(pages, gateway, log, from, to)
      ensures Rows(read + rows[..i + 1]) == Rows(read + rows[..i]) + {rows[i]}
      ensures Listed(pages)[|read| + i] == rows[i] && rows[i] in Listed(pages)
      ensures forall r :: r in read + rows[..i] ==> r in Listed(pages)
    {
      var all := Listed(pages);
      assert rows[..i + 1] == rows[..i] + [rows[i]];
      assert all[|read| + i] == (read + rows)[|read| + i];
      forall r | r in read + rows[..i] ensures r in all {
        var k :| 0 <= k < |read + rows[..i]| && (read + rows[..i])[k] == r;
        assert all[k] == (read + rows)[k] == r;
      }
    }

    /** A row of a faithful listing whose id was seen is the pending row with that id. */
    lemma SeenRowIsPending(log: set<Row>, known: seq<Row>, row: Row)
      requires Faithful(pages, gateway, log, from, to) && row.id in Ids(pending)
      requires Rows(pending) == Within(Rows(known), from, to) && forall r :: r in known ==> r in Listed(pages)
      requires row in Listed(pages) && InWindow(row, from, to)
      ensures row in pending
    {
      var r :| r in pending && r.id == row.id;
      assert r in Rows(pending);
      var all := Within(Rows(Listed(pages)), from, to);
      assert r in all && row in all;
      assert r in Within(log, from, to) && row in Within(log, from, to);
    }

    /** The rows of one answered page, in order. A row at or past the end of the window is noted, a
        row before it or already seen is passed over, and a new row earlier than the horizon is an
        error, because rows before the horizon may already have been emitted. */
    method Absorb(rows: seq<Row>, horizon: Time, ghost read: seq<Row>, ghost log: set<Row>) returns (ok: bool,
        pastTo: bool)
      requires Core() && !done && horizon == Horizon()
      requires forall r :: r in rows ==> r.gateway == gateway
      modifies this`seen, this`pending
      ensures Core() && old(pending) <= pending
      ensures ok ==> (pastTo <==> Past(rows, to))
      ensures ok <==> InOrder(rows, old(seen), from, to, horizon)
      ensures ok ==> pending == old(pending) + FirstSeen(rows, old(seen), from, to)
      ensures ok ==> seen == old(seen) + Ids(FirstSeen(rows, old(seen), from, to))
      ensures Faithful(pages, gateway, log, from, to) && old(ExactAt(read)) && read + rows <= Listed(pages) ==>
        ok && Rows(pending) == Within(Rows(read + rows), from, to) && seen == Ids(pending)
    {
      ghost var good := Faithful(pages, gateway, log, from, to) && ExactAt(read) && read + rows <= Listed(pages);
      hide FirstSeen, Ids, InOrder, Past, Distinct;
      pastTo := false;
      assert read + rows[..0] == read;
      ghost var added := FirstSeen(rows[..0], seen, from, to);
      NothingSeen(seen, from, to);
      assert rows[..0] == [];
      for i := 0 to |rows|
        invariant added == FirstSeen(rows[..i], old(seen), from, to)
        invariant pending == old(pending) + added && seen == old(seen) + Ids(added)
        invariant forall r :: r in rows[..i] ==> r.id != 0 && r.at != 0
        invariant forall r :: r in added ==> r.at >= horizon
        invariant Core() && old(pending) <= pending
        invariant pastTo <==> Past(rows[..i], to)
        invariant good ==> Rows(pending) == Within(Rows(read + rows[..i]), from, to) && seen == Ids(pending)
      {
        var row := rows[i];
        assert rows[..i + 1] == rows[..i] + [row];
        if good {
          ReadOneMore(log, read, rows, i);
          assert last <= row.at;
        }
        FirstSeenStep(rows, i, old(seen), from, to);
        PastStep(rows, i, to);
        if row.id == 0 || row.at == 0 {
          OutOfOrder(rows, i, old(seen), from, to, horizon);
          return false, pastTo;
        }
        if row.at >= to {
          pastTo := true;
          continue;
        }
        if row.at < from {
          continue;
        }
        if row.id in seen {
          if good {
            SeenRowIsPending(log, read + rows[..i], row);
          }
          continue;
        }
        if row.at < horizon {
          OutOfOrder(rows, i, old(seen), from, to, horizon);
          return false, pastTo;
        }
        ghost var before := pending;
        NewRow(pending, seen, row);
        AppendRow(added, row);
        added := added + [row];
        seen := seen + {row.id};
        pending := pending + [row];
        assert Rows(pending) == Rows(before) + {row} && Ids(pending) == Ids(before) + {row.id} by {
          AppendRow(before, row);
        }
      }
      assert rows[..|rows|] == rows;
      ok := true;
      AllInOrder(rows, old(seen), from, to, horizon);
    }

    /** The server's answer to the next request. */
    function Answer(): Page
      reads this
    {
      if page < |pages| then pages[page] else Some([])
    }

    /** Requests the next page. It fails exactly on an error, a row without name or instant, a new row
        before the horizon, or the page limit. Otherwise the page's new rows of the window are added,
        the last instant moves up to its last row's, and the listing ends with an empty page or a row
        past the window. On a faithful listing of fewer pages than the limit it always succeeds and
        stays exact. */
    method Next(ghost log: set<Row>) returns (ok: bool)
      requires Valid() && !done
      modifies this
      ensures old(pending) <= pending
      ensures ok ==> Valid() && page == old(page) + 1
      ensures ok <==>
        && old(Answer()).Some? && InOrder(old(Answer()).value, old(seen), from, to, old(Horizon()))
        && (old(page) + 1 != PAGE_LIMIT || EndsListing(old(Answer()).value, to))
      ensures ok ==> var rows := old(Answer()).value;
        && pending == old(pending) + FirstSeen(rows, old(seen), from, to)
        && last == (if |rows| > 0 then Max(old(last), rows[|rows| - 1].at) else old(last))
        && (done <==> rows == [] || exists r :: r in rows && r.at >= to)
        && seen == old(seen) + Ids(FirstSeen(rows, old(seen), from, to))
      ensures ok ==> forall r :: r in pending[|old(pending)|..] ==>
        && r in old(Answer()).value && from <= r.at < to && r.at >= old(Horizon())
        && r.id !in old(seen) && r.id != 0 && r.at != 0
      ensures ok ==> forall r :: r in old(Answer()).value && from <= r.at < to ==> r.id in seen
      ensures !ok ==>
        || old(Answer()).None? || Faulty(old(Answer()).value, old(seen), from, to, old(Horizon()))
        || old(page) + 1 == 10000
      ensures ok && Faithful(pages, gateway, log, from, to) && old(Exact()) ==> Exact()
      ensures Faithful(pages, gateway, log, from, to) && old(Exact()) && |pages| < PAGE_LIMIT ==> ok
    {
      hide Faithful, Distinct, InOrder, FirstSeen, Past, Ids, Within, Listed, Faulty;
      ghost var good := Faithful(pages, gateway, log, from, to) && Exact();
      ghost var read := Read();
      var answer: Page := Answer();
      if page < |pages| {
        ListedSplit(pages, page);
        assert page + 1 >= |pages| ==> pages[..page + 1] == pages;
      } else {
        assert read + [] == read;
      }
      if good {
        NextPage(log);
      }
      page := page + 1;
      if answer.None? {
        return false;
      }
      var rows := answer.value;
      var pastTo;
      ok, pastTo := Absorb(rows, Horizon(), read, log);
      EndsExactlyWhen(rows, to);
      FaultyUnlessInOrder(rows, old(seen), from, to, old(Horizon()));
      FirstSeenExactly(rows, old(seen), from, to);
      if !ok {
        return;
      }
      if |rows| > 0 && rows[|rows| - 1].at > last {
        last := rows[|rows| - 1].at;
      }
      if pastTo || |rows| == 0 {
        done := true;
      } else if page == PAGE_LIMIT {
        return false;
      }
      if good {
        NextStaysExact(log, read, rows);
      }
    }

    lemma NextPage(log: set<Row>)
      requires Faithful(pages, gateway, log, from, to) && Exact() && page <= |pages|
      ensures page < |pages| ==>
        && pages[page].Some? && |pages[page].value| > 0
        && Read() + pages[page].value <= Listed(pages)
        && pages[page].value[|pages[page].value| - 1].at >= last
    {
      if page < |pages| {
        ListedSplit(pages, page);
        var rows := pages[page].value;
        var now := Read() + rows;
        assert Listed(pages)[|now| - 1] == now[|now| - 1] == rows[|rows| - 1];
      }
    }

    lemma NextStaysExact(log: set<Row>, read: seq<Row>, rows: seq<Row>)
      requires Faithful(pages, gateway, log, from, to) && Read() == read + rows <= Listed(pages)
      requires Rows(pending) == Within(Rows(read + rows), from, to) && seen == Ids(pending)
      requires |rows| > 0 ==> last == rows[|rows| - 1].at
      requires |rows| == 0 ==> page > |pages|
      requires done <==> EndsListing(rows, to)
      ensures Exact()
    {
      var all, now := Listed(pages), read + rows;
      assert forall k :: |read| <= k < |now| ==> all[k] == now[k] == rows[k - |read|];
      assert |rows| > 0 ==> all[|now| - 1].at == last;
      assert |rows| == 0 ==> now == all;
      if done && |rows| > 0 {
        var late :| late in rows && late.at >= to;
        var k :| 0 <= k < |rows| && rows[k] == late;
        assert all[|read| + k] == late;
        forall r | r in all && InWindow(r, from, to) ensures r in now {
          var i :| 0 <= i < |all| && all[i] == r;
          assert i < |now| ==> now[i] == r;
        }
      }
    }
  }
}
