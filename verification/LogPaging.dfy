/** One budgeted collection of every gateway's log, and repeated collections. */
module LogPaging {
  import opened Instants
  import opened LogRows
  import opened LogPager
  import opened LogEmission

  const LIST_ROW_CAP := 500

  datatype Result = Mark(mark: Time) | Failed

  /** The rows of one gateway. */
  function OfGateway(log: set<Row>, gateway: nat): set<Row>
  {
    set r | r in log && r.gateway == gateway
  }

  ghost predicate AllNamed(sources: seq<seq<Page>>)
  {
    forall i :: 0 <= i < |sources| ==> Named(sources[i], i)
  }

  /** Every gateway's listing keeps its promise about the log. */
  ghost predicate AllFaithful(sources: seq<seq<Page>>, log: set<Row>, from: Time, to: Time)
  {
    && (forall i :: 0 <= i < |sources| ==> Faithful(sources[i], i, OfGateway(log, i), from, to))
    && (forall r :: r in log ==> r.gateway < |sources|)
  }

  // ---- The pagers of one call -----------------------------------------------------------

  ghost predicate Ready(ps: seq<Pager>, sources: seq<seq<Page>>, from: Time, to: Time)
    reads ps
  {
    && |ps| == |sources|
    && (forall i :: 0 <= i < |ps| ==>
          ps[i].gateway == i && ps[i].from == from && ps[i].to == to && ps[i].pages == sources[i] && ps[i].Valid())
    && (forall i, j :: 0 <= i < j < |ps| ==> ps[i] != ps[j])
  }

  ghost predicate AllExact(ps: seq<Pager>)
    reads ps
  {
    forall i :: 0 <= i < |ps| ==> ps[i].Exact()
  }

  /** How many requests each pager may still make: one past its last page ends it. */
  ghost predicate Counts(ps: seq<Pager>, left: seq<nat>)
    reads ps
  {
    |left| == |ps| && forall i :: 0 <= i < |ps| ==> left[i] == |ps[i].pages| + 1 - ps[i].page
  }

  function Sum(left: seq<nat>): nat
  {
    if |left| == 0 then 0 else Sum(left[..|left| - 1]) + left[|left| - 1]
  }

  lemma {:induction false} SumDrops(left: seq<nat>, k: nat)
    requires k < |left| && left[k] > 0
    ensures Sum(left[k := left[k] - 1]) == Sum(left) - 1
  {
    var front, next := left[..|left| - 1], left[k := left[k] - 1];
    if k < |left| - 1 {
      SumDrops(front, k);
      assert next[..|left| - 1] == front[k := left[k] - 1];
    } else {
      assert next[..|left| - 1] == front;
    }
  }

  method OpenPagers(sources: seq<seq<Page>>, from: Time, to: Time, ghost log: set<Row>) returns (ps: seq<Pager>)
    requires from < to && AllNamed(sources)
    ensures fresh(ps) && Ready(ps, sources, from, to)
    ensures forall i :: 0 <= i < |ps| ==> ps[i].Fresh()
    ensures AllFaithful(sources, log, from, to) ==> AllExact(ps)
  {
    ps := [];
    for g := 0 to |sources|
      invariant |ps| == g && fresh(ps)
      invariant Ready(ps, sources[..g], from, to)
      invariant forall i :: 0 <= i < g ==> ps[i].Fresh()
      invariant AllFaithful(sources, log, from, to) ==> AllExact(ps)
    {
      var p := new Pager(g, from, to, sources[g]);
      ps := ps + [p];
    }
    assert sources[..|sources|] == sources;
  }

  /** The earliest horizon of all pagers, and a pager that has it when it is before the end. */
  method Horizon(ps: seq<Pager>, sources: seq<seq<Page>>, from: Time, to: Time) returns (horizon: Time, ghost who: nat)
    requires Ready(ps, sources, from, to)
    ensures horizon <= to && forall i :: 0 <= i < |ps| ==> horizon <= ps[i].Horizon()
    ensures horizon < to ==> who < |ps| && ps[who].Horizon() == horizon && !ps[who].done
    ensures from < to && WholeSecond(to) && from < horizon ==> WholeSecond(horizon)
    ensures from < horizon < to ==> WholeSecond(horizon)
  {
    horizon, who := to, 0;
    for i := 0 to |ps|
      invariant horizon <= to && forall j :: 0 <= j < i ==> horizon <= ps[j].Horizon()
      invariant horizon < to ==> who < i && ps[who].Horizon() == horizon && !ps[who].done
      invariant from < to && WholeSecond(to) && from < horizon ==> WholeSecond(horizon)
      invariant from < horizon < to ==> WholeSecond(horizon)
    {
      var h := ps[i].Horizon();
      if h < horizon {
        horizon, who := h, i;
      }
    }
  }

  // ---- What is waiting ------------------------------------------------------------------

  /** Every pager's pending rows. */
  ghost function Waiting(ps: seq<Pager>): (r: seq<seq<Row>>)
    reads ps
    ensures |r| == |ps|
  {
    seq(|ps|, i requires 0 <= i < |ps| reads ps => ps[i].pending)
  }

  function Total(waiting: seq<seq<Row>>): nat
  {
    if |waiting| == 0 then 0 else Total(waiting[..|waiting| - 1]) + |waiting[|waiting| - 1]|
  }

  lemma {:induction false} TotalUpdated(waiting: seq<seq<Row>>, i: nat, rows: seq<Row>)
    requires i < |waiting|
    ensures Total(waiting[i := rows]) == Total(waiting) - |waiting[i]| + |rows|
    decreases |waiting|
  {
    var n := |waiting| - 1;
    if i < n {
      TotalUpdated(waiting[..n], i, rows);
      assert waiting[i := rows][..n] == waiting[..n][i := rows];
    } else {
      assert waiting[i := rows][..n] == waiting[..n];
    }
  }

  /** Distinct rows of different gateways, all of them among these. */
  ghost predicate AllAmong(waiting: seq<seq<Row>>, rows: set<Row>)
  {
    forall i :: 0 <= i < |waiting| ==> Distinct(waiting[i]) && forall r :: r in waiting[i] ==> r in rows && r.gateway == i
  }

  lemma {:induction false} TotalAmong(waiting: seq<seq<Row>>, rows: set<Row>)
    requires AllAmong(waiting, rows)
    ensures Total(waiting) <= |rows|
    decreases |waiting|
  {
    if |waiting| > 0 {
      var n := |waiting| - 1;
      var last := Rows(waiting[n]);
      DistinctSize(waiting[n]);
      assert forall r :: r in last ==> r in waiting[n];
      assert forall i :: 0 <= i < n ==> waiting[..n][i] == waiting[i];
      TotalAmong(waiting[..n], rows - last);
      assert rows == last + (rows - last);
    }
  }

  lemma WaitingAmong(ps: seq<Pager>, sources: seq<seq<Page>>, log: set<Row>, from: Time, to: Time)
    requires Ready(ps, sources, from, to) && AllFaithful(sources, log, from, to) && AllExact(ps)
    ensures Total(Waiting(ps)) <= |Within(log, from, to)|
  {
    forall i | 0 <= i < |ps|
      ensures Distinct(ps[i].pending) && forall r :: r in ps[i].pending ==> r in Within(log, from, to) && r.gateway == i
    {
      ps[i].HorizonIsSafe(OfGateway(log, i));
      assert forall r :: r in ps[i].pending ==> r in Rows(ps[i].pending);
    }
    TotalAmong(Waiting(ps), Within(log, from, to));
  }

  // ---- Listing further ------------------------------------------------------------------

  /** Requests one pager's next page and leaves the others alone. */
  method ListOne(ps: seq<Pager>, sources: seq<seq<Page>>, from: Time, to: Time, i: nat, ghost log: set<Row>,
                 ghost left: seq<nat>)
    returns (ok: bool, added: nat, ghost left': seq<nat>)
    requires Ready(ps, sources, from, to) && Counts(ps, left) && i < |ps| && !ps[i].done
    modifies ps[i]
    ensures ok ==> Ready(ps, sources, from, to) && Counts(ps, left') && Sum(left') < Sum(left)
    ensures ok ==> ps[i].page == old(ps[i].page) + 1 && Total(Waiting(ps)) == Total(old(Waiting(ps))) + added
    ensures ok && AllFaithful(sources, log, from, to) && old(AllExact(ps)) ==> AllExact(ps)
    ensures AllFaithful(sources, log, from, to) && old(AllExact(ps)) && (forall s :: s in sources ==> |s| < PAGE_LIMIT) ==> ok
  {
    hide Faithful, Pager.Exact, Pager.Core, OfGateway, Sum, Total, Pager.Horizon;
    var p := ps[i];
    var before := |p.pending|;
    ghost var waiting := Waiting(ps);
    added, left' := 0, left;
    ok := p.Next(OfGateway(log, i));
    if ok {
      added := |p.pending| - before;
      SumDrops(left, i);
      left' := left[i := left[i] - 1];
      assert forall j :: 0 <= j < |ps| && j != i ==> unchanged(ps[j]);
      TotalUpdated(waiting, i, p.pending);
      assert Waiting(ps) == waiting[i := p.pending];
    }
  }

  /** Whether a pager holds the horizon back. */
  predicate Behind(p: Pager, horizon: Time)
    reads p
  {
    !p.done && p.Horizon() <= horizon
  }

  /** Requests one more page of every pager that holds the horizon back, at least one of them, and of no
      other; only while no second is known or fewer than 500 rows are waiting. */
  method ListFurther(ps: seq<Pager>, sources: seq<seq<Page>>, from: Time, to: Time, horizon: Time, ghost who: nat,
                     ghost log: set<Row>, ghost left: seq<nat>)
    returns (ok: bool, added: nat, ghost left': seq<nat>)
    requires Ready(ps, sources, from, to) && Counts(ps, left)
    requires who < |ps| && ps[who].Horizon() == horizon && !ps[who].done
    requires horizon <= from || Total(Waiting(ps)) < 500
    modifies ps
    ensures ok ==> forall i :: 0 <= i < |ps| ==>
      if old(ps[i].done) || old(ps[i].Horizon()) > horizon then unchanged(ps[i]) else ps[i].page == old(ps[i].page) + 1
    ensures ok ==> Ready(ps, sources, from, to) && Counts(ps, left') && Sum(left') < Sum(left)
    ensures ok ==> Total(Waiting(ps)) == Total(old(Waiting(ps))) + added
    ensures ok && AllFaithful(sources, log, from, to) && old(AllExact(ps)) ==> AllExact(ps)
    ensures AllFaithful(sources, log, from, to) && old(AllExact(ps)) && (forall s :: s in sources ==> |s| < PAGE_LIMIT) ==> ok
  {
    hide Faithful, Pager.Exact, Pager.Valid, OfGateway, Sum, Total, Pager.Horizon, Counts, Waiting, AllFaithful, AllExact;
    ghost var good := AllFaithful(sources, log, from, to) && AllExact(ps);
    added, left' := 0, left;
    for i := 0 to |ps|
      invariant Ready(ps, sources, from, to) && Counts(ps, left')
      invariant good ==> AllExact(ps)
      invariant forall j :: i <= j < |ps| ==> unchanged(ps[j])
      invariant forall j :: 0 <= j < i ==>
        if old(Behind(ps[j], horizon)) then ps[j].page == old(ps[j].page) + 1 else unchanged(ps[j])
      invariant Total(Waiting(ps)) == Total(old(Waiting(ps))) + added
      invariant Sum(left') <= Sum(left) && (i > who ==> Sum(left') < Sum(left))
    {
      var p := ps[i];
      if !p.done && p.Horizon() <= horizon {
        var more;
        ok, more, left' := ListOne(ps, sources, from, to, i, log, left');
        if !ok {
          return;
        }
        added := added + more;
      }
    }
    ok := true;
  }

  // ---- Taking and emitting --------------------------------------------------------------

  /** Removes every pending row before the limit, compacting each pager's rows in place. */
  method Drain(p: Pager, limit: Time) returns (taken: seq<Row>)
    requires p.Valid()
    modifies p`pending
    ensures p.Valid() && Distinct(taken)
    ensures forall r :: r in taken <==> r in old(p.pending) && r.at < limit
    ensures forall r :: r in p.pending <==> r in old(p.pending) && r.at >= limit
  {
    var kept: seq<Row> := [];
    taken := [];
    var all := p.pending;
    for i := 0 to |all|
      invariant Distinct(taken) && Distinct(kept)
      invariant forall r :: r in taken <==> r in all[..i] && r.at < limit
      invariant forall r :: r in kept <==> r in all[..i] && r.at >= limit
    {
      assert all[..i + 1] == all[..i] + [all[i]];
      assert all[i] !in all[..i];
      if all[i].at < limit {
        taken := taken + [all[i]];
      } else {
        kept := kept + [all[i]];
      }
    }
    assert all[..|all|] == all;
    p.pending := kept;
  }

  ghost predicate WaitsBefore(r: Row, waiting: seq<seq<Row>>, limit: Time)
  {
    r.at < limit && exists i :: 0 <= i < |waiting| && r in waiting[i]
  }

  /** Exactly the waiting rows before the limit. */
  ghost predicate Taken(rows: seq<Row>, waiting: seq<seq<Row>>, limit: Time)
  {
    forall r :: r in rows <==> WaitsBefore(r, waiting, limit)
  }

  ghost predicate Remains(now: seq<Row>, was: seq<Row>, limit: Time)
  {
    forall r :: r in now <==> r in was && r.at >= limit
  }

  /** Exactly the waiting rows at or after the limit are left with each pager. */
  ghost predicate Left(now: seq<seq<Row>>, waiting: seq<seq<Row>>, limit: Time)
  {
    |now| == |waiting| && forall i :: 0 <= i < |now| ==> Remains(now[i], waiting[i], limit)
  }

  /** Each pager's rows are its own gateway's and in the window. */
  ghost predicate OwnRows(waiting: seq<seq<Row>>, from: Time, to: Time)
  {
    forall i, r :: 0 <= i < |waiting| && r in waiting[i] ==> r.gateway == i && InWindow(r, from, to)
  }

  /** Every listed row before the limit, in emission order; every other one stays pending. */
  method TakeBefore(ps: seq<Pager>, sources: seq<seq<Page>>, from: Time, to: Time, limit: Time, ghost log: set<Row>)
    returns (rows: seq<Row>)
    requires Ready(ps, sources, from, to) && limit <= to
    requires AllFaithful(sources, log, from, to) ==> AllExact(ps)
    requires forall i :: 0 <= i < |ps| ==> limit <= ps[i].Horizon()
    modifies ps
    ensures Ascending(rows) && Distinct(rows)
    ensures forall r :: r in rows ==> InWindow(r, from, limit)
    ensures Taken(rows, old(Waiting(ps)), limit) && Left(Waiting(ps), old(Waiting(ps)), limit)
    ensures AllFaithful(sources, log, from, to) ==> Rows(rows) == Within(log, from, limit)
  {
    ghost var waiting := Waiting(ps);
    assert OwnRows(waiting, from, to);
    ghost var good := AllFaithful(sources, log, from, to);
    if good {
      forall i | 0 <= i < |ps|
        ensures forall r {:trigger r in log} :: InWindow(r, from, limit) ==> (r in waiting[i] <==> r in log && r.gateway == i)
      {
        TakenIsExact(ps[i], i, log, from, limit);
      }
    }
    hide OwnRows, Taken, Left, AllFaithful, AllExact, OfGateway, Pager.Exact, Pager.Horizon, Distinct;
    var unsorted: seq<Row> := [];
    ghost var now := waiting;
    NothingTaken(limit);
    assert waiting[..0] == [];
    for i := 0 to |ps|
      invariant forall j :: i <= j < |ps| ==> unchanged(ps[j])
      invariant |now| == |ps| && (forall j :: 0 <= j < |ps| ==> ps[j].pending == now[j])
      invariant Left(now[..i], waiting[..i], limit)
      invariant Distinct(unsorted) && Taken(unsorted, waiting[..i], limit)
    {
      var p := ps[i];
      var taken := Drain(p, limit);
      TakenMore(unsorted, waiting, i, taken, from, to, limit);
      LeftMore(now, waiting, i, p.pending, limit);
      now := now[i := p.pending];
      unsorted := unsorted + taken;
    }
    assert waiting[..|ps|] == waiting && now[..|ps|] == now && now == Waiting(ps);
    rows := SortRows(unsorted);
    SameRows(rows, unsorted, waiting, from, to, limit);
    if good {
      TakenIsLog(rows, waiting, sources, log, from, to, limit);
    }
  }

  lemma NothingTaken(limit: Time)
    ensures Taken([], [], limit) && Left([], [], limit) && Distinct([])
  {
  }

  /** Two pagers never hold the same row. */
  lemma TakenMore(rows: seq<Row>, waiting: seq<seq<Row>>, i: nat, taken: seq<Row>, from: Time, to: Time, limit: Time)
    requires i < |waiting| && OwnRows(waiting, from, to) && Distinct(rows) && Taken(rows, waiting[..i], limit)
    requires Distinct(taken) && forall r :: r in taken <==> r in waiting[i] && r.at < limit
    ensures Distinct(rows + taken) && Taken(rows + taken, waiting[..i + 1], limit)
  {
    forall r | r in rows ensures r.gateway < i {
      var k :| 0 <= k < i && r in waiting[..i][k];
    }
    forall r ensures WaitsBefore(r, waiting[..i + 1], limit) <==>
                     WaitsBefore(r, waiting[..i], limit) || (r in waiting[i] && r.at < limit)
    {
      OneMoreWaiting(r, waiting, i, limit);
    }
    hide WaitsBefore, OwnRows;
    assert forall r :: r in rows + taken <==> r in rows || r in taken;
  }

  lemma OneMoreWaiting(r: Row, waiting: seq<seq<Row>>, i: nat, limit: Time)
    requires i < |waiting|
    ensures WaitsBefore(r, waiting[..i + 1], limit) <==>
            WaitsBefore(r, waiting[..i], limit) || (r in waiting[i] && r.at < limit)
  {
    assert waiting[..i + 1] == waiting[..i] + [waiting[i]];
  }

  lemma LeftMore(now: seq<seq<Row>>, waiting: seq<seq<Row>>, i: nat, rest: seq<Row>, limit: Time)
    requires i < |now| == |waiting| && Left(now[..i], waiting[..i], limit)
    requires forall r :: r in rest <==> r in waiting[i] && r.at >= limit
    ensures Left(now[i := rest][..i + 1], waiting[..i + 1], limit)
  {
    LeftConcat(now[..i], waiting[..i], [rest], [waiting[i]], limit);
    assert now[i := rest][..i + 1] == now[..i] + [rest] && waiting[..i + 1] == waiting[..i] + [waiting[i]];
  }

  lemma LeftConcat(a: seq<seq<Row>>, b: seq<seq<Row>>, c: seq<seq<Row>>, d: seq<seq<Row>>, limit: Time)
    requires Left(a, b, limit) && Left(c, d, limit)
    ensures Left(a + c, b + d, limit)
  {
    hide Remains;
  }

  lemma SameRows(rows: seq<Row>, unsorted: seq<Row>, waiting: seq<seq<Row>>, from: Time, to: Time, limit: Time)
    requires OwnRows(waiting, from, to) && Taken(unsorted, waiting, limit) && Rows(rows) == Rows(unsorted)
    ensures Taken(rows, waiting, limit) && forall r :: r in rows ==> InWindow(r, from, limit)
  {
    forall r ensures r in rows <==> r in unsorted {
      assert r in Rows(rows) <==> r in Rows(unsorted);
    }
  }

  /** On a faithful listing the rows taken before a safe limit are the log's. */
  lemma TakenIsLog(rows: seq<Row>, waiting: seq<seq<Row>>, sources: seq<seq<Page>>, log: set<Row>, from: Time, to: Time,
                   limit: Time)
    requires OwnRows(waiting, from, to) && |sources| == |waiting| && AllFaithful(sources, log, from, to)
    requires forall i :: 0 <= i < |waiting| ==> forall r {:trigger r in log} ::
      InWindow(r, from, limit) ==> (r in waiting[i] <==> r in log && r.gateway == i)
    requires Taken(rows, waiting, limit)
    ensures Rows(rows) == Within(log, from, limit)
  {
    forall r ensures r in Rows(rows) <==> r in Within(log, from, limit) {
      if r in rows {
        var i :| 0 <= i < |waiting| && r in waiting[i];
        assert InWindow(r, from, limit) && r in log;
      }
      if r in Within(log, from, limit) {
        assert r in log && r in waiting[r.gateway];
      }
    }
  }

  lemma TakenIsExact(p: Pager, i: nat, log: set<Row>, from: Time, limit: Time)
    requires p.Valid() && p.gateway == i && p.from == from && limit <= p.Horizon() <= p.to
    requires Faithful(p.pages, i, OfGateway(log, i), from, p.to) && p.Exact()
    ensures forall r {:trigger r in log} :: InWindow(r, from, limit) ==> (r in p.pending <==> r in log && r.gateway == i)
  {
    p.HorizonIsSafe(OfGateway(log, i));
    var rows, mine := Rows(p.pending), OfGateway(log, i);
    forall r | InWindow(r, from, limit) ensures r in p.pending <==> r in log && r.gateway == i {
      assert r in p.pending <==> r in rows;
      assert r in Within(rows, from, p.Horizon()) <==> r in Within(mine, from, p.Horizon());
    }
  }

  /** No listing reaches the page limit and every row can be emitted. */
  ghost predicate CanComplete(sources: seq<seq<Page>>, log: set<Row>)
  {
    && (forall s :: s in sources ==> |s| < PAGE_LIMIT)
    && (forall r :: r in log ==> r.bytes.Some?)
  }

  // ---- One call -------------------------------------------------------------------------

  /** The collector's promise: the buffer holds every row before the mark and none at or after it,
      in emission order, and the mark is a source second inside the window. */
  ghost predicate ExactCall(log: set<Row>, from: Time, to: Time, mark: Time, out: seq<Row>)
  {
    && from < mark <= to
    && (WholeSecond(to) ==> WholeSecond(mark))
    && Ascending(out) && Distinct(out)
    && Rows(out) == Within(log, from, mark)
  }

  /** At most the budget, or the first source second alone. */
  predicate WithinBudget(out: seq<Row>, budget: int)
  {
    Bytes(out) <= Max(budget, Bytes(out[..FirstSecond(out)]))
  }

  /** The rows of the second that starts at the mark, listed in order. */
  ghost predicate NextSecond(next: seq<Row>, log: set<Row>, mark: Time, to: Time)
  {
    Ascending(next) && Distinct(next) && Rows(next) == Within(log, mark, Min(mark + SECOND, to))
  }

  /** Why a call may end before its window does: one more whole second would have exceeded the budget, or
      the window has at least 500 rows. */
  ghost predicate MayStop(log: set<Row>, from: Time, to: Time, mark: Time, out: seq<Row>, budget: int)
  {
    || |Within(log, from, to)| >= 500
    || exists next :: NextSecond(next, log, mark, to) && Bytes(out) + Bytes(next) > budget
  }

  /** A row is in the second of row n exactly when it is among the next ones. */
  lemma InSecondOf(rows: seq<Row>, n: nat, i: nat)
    requires Ascending(rows) && n <= i < |rows|
    ensures rows[i].at < FloorSecond(rows[n].at) + SECOND <==> i < n + FirstSecond(rows[n..])
    ensures rows[i].at >= FloorSecond(rows[n].at)
  {
    var tail := rows[n..];
    var k := FirstSecond(tail);
    FirstSecondSpan(tail);
    assert tail[i - n] == rows[i] && tail[0] == rows[n];
    assert i > n ==> NotAfter(rows[n], rows[i]);
    if i - n >= k {
      assert tail[k] == rows[n + k] && NotAfter(rows[n], rows[n + k]);
      assert i > n + k ==> NotAfter(rows[n + k], rows[i]);
    }
  }

  /** The rows that did not fit are those of the mark's second. */
  lemma CutBeforeSecond(log: set<Row>, from: Time, to: Time, horizon: Time, rows: seq<Row>, n: nat, mark: Time)
    requires ExactCall(log, from, to, horizon, rows) && (horizon < to ==> WholeSecond(horizon))
    requires 0 < n < |rows| && mark == FloorSecond(rows[n].at) && CutAt(rows, n, mark)
    ensures var k := n + FirstSecond(rows[n..]); k <= |rows| && NextSecond(rows[n..k], log, mark, to)
  {
    hide FirstSecond, NotAfter, Distinct;
    var k := n + FirstSecond(rows[n..]);
    var next := rows[n..k];
    assert rows[0] in Rows(rows) && rows[n] in Rows(rows);
    assert from < mark < horizon;
    forall r ensures r in next <==> r in Within(log, mark, Min(mark + SECOND, to)) {
      if r in Within(log, mark, Min(mark + SECOND, to)) {
        assert r.at < horizon && r in Rows(rows);
        var i :| 0 <= i < |rows| && rows[i] == r;
        InSecondOf(rows, n, i);
        assert next[i - n] == r;
      }
      if r in next {
        var i :| 0 <= i < |next| && next[i] == r;
        assert rows[n + i] == r && r in Rows(rows);
        InSecondOf(rows, n, n + i);
      }
    }
    assert Rows(next) == Within(log, mark, Min(mark + SECOND, to));
    SliceInOrder(rows, n, k);
  }

  lemma SliceInOrder(rows: seq<Row>, i: nat, j: nat)
    requires i <= j <= |rows| && Ascending(rows) && Distinct(rows)
    ensures Ascending(rows[i..j]) && Distinct(rows[i..j])
  {
    hide NotAfter;
  }

  lemma TakenCall(log: set<Row>, from: Time, to: Time, horizon: Time, rows: seq<Row>)
    requires from < horizon <= to && (WholeSecond(to) ==> WholeSecond(horizon))
    requires Ascending(rows) && Distinct(rows) && Rows(rows) == Within(log, from, horizon)
    ensures ExactCall(log, from, to, horizon, rows)
  {
  }

  /** A cut lies between the start and the horizon. */
  lemma CutInside(rows: seq<Row>, from: Time, horizon: Time, n: nat, mark: Time)
    requires forall r :: r in rows ==> InWindow(r, from, horizon)
    requires 0 < n < |rows| && mark == FloorSecond(rows[n].at) && CutAt(rows, n, mark)
    ensures from < mark <= horizon && WholeSecond(mark)
  {
    assert rows[0] in rows && rows[n] in rows;
  }

  lemma {:induction false} FirstSecondOfPrefix(rows: seq<Row>, n: nat)
    requires FirstSecond(rows) <= n <= |rows|
    ensures FirstSecond(rows[..n]) == FirstSecond(rows)
  {
    if |rows| > 1 && n > 1 && SameSecond(rows[0], rows[1]) {
      FirstSecondOfPrefix(rows[1..], n - 1);
      assert rows[..n][1..] == rows[1..][..n - 1];
    }
  }

  lemma CutIsExact(log: set<Row>, from: Time, to: Time, horizon: Time, rows: seq<Row>, n: nat, mark: Time)
    requires ExactCall(log, from, to, horizon, rows)
    requires 0 < n < |rows| && mark == FloorSecond(rows[n].at) && CutAt(rows, n, mark)
    ensures ExactCall(log, from, to, mark, rows[..n])
  {
    assert rows[0] in Rows(rows) && rows[n] in Rows(rows);
    forall r ensures r in Rows(rows[..n]) <==> r in Within(log, from, mark) {
      if r in Within(log, from, mark) {
        assert r in Rows(rows);
        var i :| 0 <= i < |rows| && rows[i] == r;
        assert rows[..n][i] == r;
      }
      if r in rows[..n] {
        assert r in Rows(rows);
      }
    }
  }

  lemma OverBudget(log: set<Row>, from: Time, to: Time, horizon: Time, rows: seq<Row>, n: nat, mark: Time, budget: int)
    returns (next: seq<Row>)
    requires ExactCall(log, from, to, horizon, rows) && (horizon < to ==> WholeSecond(horizon))
    requires 0 < n < |rows| && mark == FloorSecond(rows[n].at) && CutAt(rows, n, mark)
    requires Bytes(rows[..n + FirstSecond(rows[n..])]) > budget
    ensures NextSecond(next, log, mark, to) && Bytes(rows[..n]) + Bytes(next) > budget
  {
    hide ExactCall, NextSecond, CutAt, FirstSecond, Bytes;
    CutBeforeSecond(log, from, to, horizon, rows, n, mark);
    var k := n + FirstSecond(rows[n..]);
    next := rows[n..k];
    assert rows[..k] == rows[..n] + next;
    BytesConcat(rows[..n], next);
  }

  /** Emits the listed rows before the horizon and says where the call ends. */
  method EmitBefore(ps: seq<Pager>, sources: seq<seq<Page>>, from: Time, to: Time, horizon: Time, budget: int,
                    ghost log: set<Row>)
    returns (result: Result, out: seq<Row>, stopped: bool)
    requires Ready(ps, sources, from, to) && from < horizon <= to
    requires (WholeSecond(to) ==> WholeSecond(horizon)) && (horizon < to ==> WholeSecond(horizon))
    requires AllFaithful(sources, log, from, to) ==> AllExact(ps)
    requires forall i :: 0 <= i < |ps| ==> horizon <= ps[i].Horizon()
    modifies ps
    ensures result.Mark? && !stopped ==> result.mark == horizon
    ensures result.Mark? && stopped && AllFaithful(sources, log, from, to) ==>
      exists next :: NextSecond(next, log, result.mark, to) && Bytes(out) + Bytes(next) > budget
    ensures result.Mark? ==> WithinBudget(out, budget)
    ensures result.Mark? && AllFaithful(sources, log, from, to) ==> ExactCall(log, from, to, result.mark, out)
    ensures result.Mark? ==> from < result.mark <= horizon && (WholeSecond(to) ==> WholeSecond(result.mark))
    ensures AllFaithful(sources, log, from, to) && (forall r :: r in log ==> r.bytes.Some?) ==> result.Mark?
  {
    hide Taken, Left, NextSecond, CutAt, ExactCall, Bytes, FirstSecond, Distinct, NotAfter, AllFaithful, AllExact,
      Pager.Horizon, Emittable;
    var rows := TakeBefore(ps, sources, from, to, horizon, log);
    ghost var good := AllFaithful(sources, log, from, to);
    if good {
      TakenCall(log, from, to, horizon, rows);
      RowsCanGo(rows, log, from, horizon);
    }
    var ok, cut, mark, n := EmitSeconds(rows, budget);
    if !ok {
      return Failed, [], false;
    }
    FirstSecondOfPrefix(rows, n);
    assert rows[..n][..FirstSecond(rows)] == rows[..FirstSecond(rows)];
    if cut {
      CutInside(rows, from, horizon, n, mark);
      if good {
        CutIsExact(log, from, to, horizon, rows, n, mark);
        ghost var next := OverBudget(log, from, to, horizon, rows, n, mark, budget);
      }
      return Mark(mark), rows[..n], true;
    }
    assert rows[..n] == rows;
    result, out, stopped := Mark(horizon), rows, false;
  }

  lemma RowsCanGo(rows: seq<Row>, log: set<Row>, from: Time, limit: Time)
    requires Rows(rows) == Within(log, from, limit)
    ensures (forall r :: r in log ==> r.bytes.Some?) ==> Emittable(rows)
  {
    assert forall r :: r in rows ==> r in Rows(rows);
  }

  /** A call with a positive byte budget. The loop lists until some whole second is known and either
      the window or the row cap is reached, and then emits exactly once: after an emission that did
      not stop early, one of the two ways out always applies. */
  method CollectWindowBudget(sources: seq<seq<Page>>, from: Time, to: Time, budget: int, ghost log: set<Row>)
    returns (result: Result, out: seq<Row>)
    requires AllNamed(sources) && budget > 0
    ensures from >= to ==> result.Failed?
    ensures result.Mark? ==> WithinBudget(out, budget)
    ensures result.Mark? && AllFaithful(sources, log, from, to) ==> ExactCall(log, from, to, result.mark, out)
    ensures result.Mark? && AllFaithful(sources, log, from, to) && result.mark < to ==>
      MayStop(log, from, to, result.mark, out, budget)
    ensures result.Mark? ==> from < result.mark <= to && (WholeSecond(to) ==> WholeSecond(result.mark))
    ensures from < to && AllFaithful(sources, log, from, to) && CanComplete(sources, log) ==> result.Mark?
  {
    hide Faithful, Pager.Exact, Pager.Valid, Pager.Horizon, OfGateway, Sum, ExactCall, WithinBudget, Total, NextSecond,
      Waiting;
    if from >= to {
      return Failed, [];
    }
    var ps := OpenPagers(sources, from, to, log);
    ghost var left: seq<nat> := seq(|ps|, i requires 0 <= i < |ps| reads ps => |ps[i].pages| + 1);
    var pos, listed := from, 0;
    out := [];
    NoneWaiting(ps);
    while true
      invariant fresh(ps) && Ready(ps, sources, from, to) && Counts(ps, left)
      invariant AllFaithful(sources, log, from, to) ==> AllExact(ps)
      invariant pos == from && listed == Total(Waiting(ps))
      decreases Sum(left)
    {
      var horizon, who := Horizon(ps, sources, from, to);
      if horizon <= pos || (horizon < to && listed < LIST_ROW_CAP) {
        var ok, added;
        ok, added, left := ListFurther(ps, sources, from, to, horizon, who, log, left);
        if !ok {
          return Failed, [];
        }
        listed := listed + added;
        continue;
      }
      if AllFaithful(sources, log, from, to) {
        WaitingAmong(ps, sources, log, from, to);
      }
      var stopped;
      result, out, stopped := EmitBefore(ps, sources, from, to, horizon, budget, log);
      if result.Failed? || stopped {
        return;
      }
      pos := horizon;
      if pos >= to || listed >= LIST_ROW_CAP {
        return;
      }
    }
  }

  lemma NoneWaiting(ps: seq<Pager>)
    requires forall i :: 0 <= i < |ps| ==> ps[i].Fresh()
    ensures Total(Waiting(ps)) == 0
  {
    NoneIn(Waiting(ps));
  }

  lemma {:induction false} NoneIn(waiting: seq<seq<Row>>)
    requires forall i :: 0 <= i < |waiting| ==> waiting[i] == []
    ensures Total(waiting) == 0
  {
    if |waiting| > 0 {
      NoneIn(waiting[..|waiting| - 1]);
    }
  }

  /** A call without a byte budget lists everything first and then emits every row of the window. */
  method CollectWindow(sources: seq<seq<Page>>, from: Time, to: Time, ghost log: set<Row>)
    returns (result: Result, out: seq<Row>)
    requires AllNamed(sources)
    ensures from >= to ==> result.Failed?
    ensures result.Mark? ==> result.mark == to
    ensures result.Mark? && AllFaithful(sources, log, from, to) ==> ExactCall(log, from, to, to, out)
    ensures from < to && AllFaithful(sources, log, from, to) && CanComplete(sources, log) ==> result.Mark?
  {
    if from >= to {
      return Failed, [];
    }
    var ps := OpenPagers(sources, from, to, log);
    var ok := ListAll(ps, sources, from, to, log);
    if !ok {
      return Failed, [];
    }
    out := TakeBefore(ps, sources, from, to, to, log);
    assert forall r :: r in out ==> r in Rows(out);
    if exists r :: r in out && r.bytes.None? {
      return Failed, [];
    }
    result := Mark(to);
  }

  method ListAll(ps: seq<Pager>, sources: seq<seq<Page>>, from: Time, to: Time, ghost log: set<Row>) returns (ok: bool)
    requires Ready(ps, sources, from, to)
    modifies ps
    ensures ok ==> Ready(ps, sources, from, to) && forall i :: 0 <= i < |ps| ==> ps[i].done
    ensures ok && AllFaithful(sources, log, from, to) && old(AllExact(ps)) ==> AllExact(ps)
    ensures AllFaithful(sources, log, from, to) && old(AllExact(ps)) && (forall s :: s in sources ==> |s| < PAGE_LIMIT) ==> ok
  {
    hide Faithful, Pager.Exact, Pager.Core, OfGateway;
    ghost var good := AllFaithful(sources, log, from, to) && AllExact(ps);
    for i := 0 to |ps|
      invariant Ready(ps, sources, from, to) && (good ==> AllExact(ps))
      invariant forall j :: 0 <= j < i ==> ps[j].done
    {
      var p := ps[i];
      while !p.done
        invariant Ready(ps, sources, from, to) && (good ==> AllExact(ps))
        invariant forall j :: 0 <= j < i ==> ps[j].done
        decreases |p.pages| + 1 - p.page
      {
        label calling:
        ok := p.Next(OfGateway(log, i));
        if !ok {
          return;
        }
        assert forall j :: 0 <= j < |ps| && j != i ==> unchanged@calling(ps[j]);
      }
    }
    ok := true;
  }

  // ---- Repeated calls -------------------------------------------------------------------

  /** One budgeted call of a series: where it started, its mark, and what it emitted. */
  datatype Call = Call(from: Time, mark: Time, out: seq<Row>)

  /** Each call starts at the mark of the one before it, and the last reaches the end. */
  ghost predicate Series(calls: seq<Call>, log: set<Row>, from: Time, to: Time)
  {
    if |calls| == 0 then from == to
    else
      && calls[0].from == from
      && ExactCall(log, from, to, calls[0].mark, calls[0].out)
      && Series(calls[1..], log, calls[0].mark, to)
  }

  function Emitted(calls: seq<Call>): seq<Row>
  {
    if |calls| == 0 then [] else calls[0].out + Emitted(calls[1..])
  }

  lemma {:induction false} SeriesIsExact(calls: seq<Call>, log: set<Row>, from: Time, to: Time)
    requires Series(calls, log, from, to)
    ensures Ascending(Emitted(calls)) && Distinct(Emitted(calls)) && Rows(Emitted(calls)) == Within(log, from, to)
    ensures from <= to
  {
    if |calls| > 0 {
      SeriesIsExact(calls[1..], log, calls[0].mark, to);
      JoinExact(log, from, calls[0].mark, to, calls[0].out, Emitted(calls[1..]));
    }
  }

  lemma JoinExact(log: set<Row>, from: Time, mid: Time, to: Time, a: seq<Row>, b: seq<Row>)
    requires from <= mid <= to
    requires Ascending(a) && Distinct(a) && Rows(a) == Within(log, from, mid)
    requires Ascending(b) && Distinct(b) && Rows(b) == Within(log, mid, to)
    ensures Ascending(a + b) && Distinct(a + b) && Rows(a + b) == Within(log, from, to)
  {
    assert forall i :: 0 <= i < |a| ==> a[i] in Rows(a);
    assert forall i :: 0 <= i < |b| ==> b[i] in Rows(b);
    assert Rows(a + b) == Rows(a) + Rows(b);
  }

  /** On a fixed log, budgeted calls repeated from each returned mark until they reach the end emit
      exactly the rows of the one unbudgeted call, none lost or repeated; in the same order too when
      no two rows of the window share both their instant and id. */
  lemma RepeatedCallsEqualOneCall(calls: seq<Call>, log: set<Row>, from: Time, to: Time, whole: seq<Row>)
    requires Series(calls, log, from, to) && ExactCall(log, from, to, to, whole)
    ensures Rows(Emitted(calls)) == Rows(whole) && Distinct(Emitted(calls)) && |Emitted(calls)| == |whole|
    ensures UniqueKeys(Within(log, from, to)) ==> Emitted(calls) == whole
  {
    SeriesIsExact(calls, log, from, to);
    SameLength(Emitted(calls), whole);
    if UniqueKeys(Within(log, from, to)) {
      OneOrder(Emitted(calls), whole);
    }
  }

  lemma SameLength(a: seq<Row>, b: seq<Row>)
    requires Distinct(a) && Distinct(b) && Rows(a) == Rows(b)
    ensures |a| == |b|
  {
    DistinctSize(a);
    DistinctSize(b);
  }

  lemma {:induction false} DistinctSize(a: seq<Row>)
    requires Distinct(a)
    ensures |Rows(a)| == |a|
  {
    if |a| > 0 {
      DistinctSize(a[1..]);
      RestRows(a);
    }
  }

  /** The series a scheduler makes: each call starts at the last mark. Every call moves the mark, so
      the end is reached. */
  method CollectAll(sources: Time -> seq<seq<Page>>, from: Time, to: Time, budget: int, ghost log: set<Row>)
    returns (ok: bool, out: seq<Row>, ghost calls: seq<Call>)
    requires from <= to && budget > 0
    requires forall at :: AllNamed(sources(at))
    requires forall at :: from <= at < to ==> AllFaithful(sources(at), log, at, to)
    ensures (forall at :: from <= at < to ==> CanComplete(sources(at), log)) ==> ok
    ensures ok ==> Series(calls, log, from, to) && out == Emitted(calls)
    decreases (to - from)
  {
    if from == to {
      return true, [], [];
    }
    var result, first := CollectWindowBudget(sources(from), from, to, budget, log);
    if result.Failed? {
      return false, [], [];
    }
    var rest;
    ghost var more;
    ok, rest, more := CollectAll(sources, result.mark, to, budget, log);
    out, calls := first + rest, [Call(from, result.mark, first)] + more;
  }
}
