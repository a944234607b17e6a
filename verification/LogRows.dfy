/** AI Gateway log rows, the order they are emitted in, and the listing a server pages out. */
module LogRows {
  import opened Instants
  import opened Options

  /** A listed row. Emitting it buffers records of the given size, or fails. An empty id is zero;
      ids keep the order of the source's strings. */
  datatype Row = Row(gateway: nat, id: int, at: Time, bytes: Option<nat>)

  // ---- Emission order -------------------------------------------------------------------

  /** The comparison the rows are sorted by, read as "not after". */
  predicate NotAfter(a: Row, b: Row)
  {
    a.at < b.at || (a.at == b.at && a.id <= b.id)
  }

  ghost predicate Ascending(rows: seq<Row>)
  {
    forall i, j :: 0 <= i < j < |rows| ==> NotAfter(rows[i], rows[j])
  }

  /** Earlier rows come first, and rows of one instant by their ids. */
  lemma AscendingExactlyWhen(rows: seq<Row>)
    ensures Ascending(rows) <==>
      forall i, j :: 0 <= i < j < |rows| ==>
        rows[i].at < rows[j].at || (rows[i].at == rows[j].at && rows[i].id <= rows[j].id)
  {
    forall i, j | 0 <= i < j < |rows|
      ensures NotAfter(rows[i], rows[j]) <==>
        rows[i].at < rows[j].at || (rows[i].at == rows[j].at && rows[i].id <= rows[j].id)
    {
    }
    hide NotAfter;
  }

  ghost predicate Distinct(rows: seq<Row>)
  {
    forall i, j :: 0 <= i < j < |rows| ==> rows[i] != rows[j]
  }

  function Rows(rows: seq<Row>): set<Row> { set r | r in rows }

  /** No two rows share their instant and id; ids are unique within a gateway, so only rows of
      different gateways could. */
  ghost predicate UniqueKeys(rows: set<Row>)
  {
    forall r, s :: r in rows && s in rows && r.at == s.at && r.id == s.id ==> r == s
  }

  /** With unique keys there is only one emission order. */
  lemma {:induction false} OneOrder(a: seq<Row>, b: seq<Row>)
    requires Ascending(a) && Ascending(b) && Distinct(a) && Distinct(b)
    requires Rows(a) == Rows(b) && UniqueKeys(Rows(a))
    ensures a == b
  {
    assert |a| > 0 ==> a[0] in Rows(a);
    assert |b| > 0 ==> b[0] in Rows(b);
    if |a| > 0 {
      FirstIsLeast(a, b[0]);
      FirstIsLeast(b, a[0]);
      RestRows(a);
      RestRows(b);
      assert UniqueKeys(Rows(a[1..]));
      OneOrder(a[1..], b[1..]);
      assert a == [a[0]] + a[1..] && b == [b[0]] + b[1..];
    }
  }

  lemma FirstIsLeast(a: seq<Row>, r: Row)
    requires Ascending(a) && r in a
    ensures NotAfter(a[0], r)
  {
  }

  lemma RestRows(a: seq<Row>)
    requires |a| > 0 && Distinct(a)
    ensures Rows(a[1..]) == Rows(a) - {a[0]}
  {
    forall r | r in Rows(a) - {a[0]} ensures r in Rows(a[1..]) {
      var i :| 0 <= i < |a| && a[i] == r;
      assert a[1..][i - 1] == r;
    }
  }

  /** The emission order of some rows is open exactly when two of them share their key: then any
      arrangement in order has another one beside it. */
  lemma OrderIsOpenExactlyWhen(a: seq<Row>)
    requires Ascending(a) && Distinct(a)
    ensures !UniqueKeys(Rows(a)) <==> exists b :: b != a && Ascending(b) && Distinct(b) && Rows(b) == Rows(a)
  {
    if b :| b != a && Ascending(b) && Distinct(b) && Rows(b) == Rows(a) && UniqueKeys(Rows(a)) {
      OneOrder(a, b);
    }
    if !UniqueKeys(Rows(a)) {
      var i, j := SameKey(a);
      Exchanged(a, i, j);
    }
  }

  lemma SameKey(a: seq<Row>) returns (i: nat, j: nat)
    requires !UniqueKeys(Rows(a))
    ensures i < j < |a| && a[i].at == a[j].at && a[i].id == a[j].id
  {
    var r, s :| r in Rows(a) && s in Rows(a) && r.at == s.at && r.id == s.id && r != s;
    i :| i < |a| && a[i] == r;
    j :| j < |a| && a[j] == s;
    if j < i {
      i, j := j, i;
    }
  }

  /** Exchanging two rows with one key keeps the order. */
  lemma Exchanged(a: seq<Row>, i: nat, j: nat)
    requires Ascending(a) && Distinct(a) && i < j < |a| && a[i].at == a[j].at && a[i].id == a[j].id
    ensures var b := a[i := a[j]][j := a[i]];
      b != a && Ascending(b) && Distinct(b) && Rows(b) == Rows(a)
  {
    var b := a[i := a[j]][j := a[i]];
    assert b[i] != a[i];
    forall k, l | 0 <= k < l < |b| ensures NotAfter(b[k], b[l]) {
      assert NotAfter(a[k], a[l]);
      assert k < i ==> NotAfter(a[k], a[i]) && NotAfter(a[k], a[j]);
      assert i <= k <= j ==> NotAfter(a[i], a[k]) || k == i;
      assert l < j ==> NotAfter(a[l], a[j]);
      assert i < l ==> NotAfter(a[i], a[l]);
    }
    forall r | r in Rows(a) ensures r in Rows(b) {
      var k :| 0 <= k < |a| && a[k] == r;
      assert b[if k == i then j else if k == j then i else k] == r;
    }
    forall r | r in Rows(b) ensures r in Rows(a) {
      var k :| 0 <= k < |b| && b[k] == r;
      assert a[if k == i then j else if k == j then i else k] == r;
    }
  }

  /** sort.Slice: some ascending rearrangement. */
  method SortRows(rows: seq<Row>) returns (sorted: seq<Row>)
    ensures Ascending(sorted) && Rows(sorted) == Rows(rows)
    ensures Distinct(rows) ==> Distinct(sorted)
  {
    sorted := [];
    for i := 0 to |rows|
      invariant Ascending(sorted) && Rows(sorted) == Rows(rows[..i])
      invariant Distinct(rows) ==> Distinct(sorted)
    {
      var k := 0;
      while k < |sorted| && NotAfter(sorted[k], rows[i])
        invariant 0 <= k <= |sorted|
        invariant forall j :: 0 <= j < k ==> NotAfter(sorted[j], rows[i])
      {
        k := k + 1;
      }
      ghost var before := sorted;
      sorted := sorted[..k] + [rows[i]] + sorted[k..];
      InsertRows(before, k, rows[i]);
      assert Rows(rows[..i + 1]) == Rows(rows[..i]) + {rows[i]};
      if Distinct(rows) {
        assert rows[i] !in Rows(rows[..i]);
        assert Distinct(sorted);
      }
    }
    assert rows[..|rows|] == rows;
  }

  lemma InsertRows(rows: seq<Row>, k: nat, r: Row)
    requires k <= |rows|
    ensures Rows(rows[..k] + [r] + rows[k..]) == Rows(rows) + {r}
  {
    forall x | x in rows ensures x in rows[..k] + [r] + rows[k..] {
      var i :| 0 <= i < |rows| && rows[i] == x;
      if i >= k {
        assert rows[k..][i - k] == x;
      }
    }
  }

  // ---- Listings -------------------------------------------------------------------------

  /** A page of a listing, or a request error. */
  type Page = Option<seq<Row>>

  function Listed(pages: seq<Page>): seq<Row>
  {
    if |pages| == 0 then []
    else Listed(pages[..|pages| - 1]) + (if pages[|pages| - 1].Some? then pages[|pages| - 1].value else [])
  }

  predicate InWindow(r: Row, from: Time, to: Time) { from <= r.at < to }

  /** The rows of a log inside a window. */
  function Within(log: set<Row>, from: Time, to: Time): set<Row>
  {
    set r | r in log && InWindow(r, from, to)
  }

  ghost predicate TimeOrdered(rows: seq<Row>)
  {
    forall i, j :: 0 <= i < j < |rows| ==> rows[i].at <= rows[j].at
  }

  /** What the gateway promises: pages that are never empty before the end, in ascending time, that
      together hold every row of the window and no other row inside it. The page size is the
      server's choice, rows may repeat, and rows outside the window may appear. */
  ghost predicate Faithful(pages: seq<Page>, gateway: nat, log: set<Row>, from: Time, to: Time)
  {
    && (forall i :: 0 <= i < |pages| ==> pages[i].Some? && |pages[i].value| > 0)
    && TimeOrdered(Listed(pages))
    && Within(Rows(Listed(pages)), from, to) == Within(log, from, to)
    && (forall r :: r in Listed(pages) ==> r.id != 0 && r.at > 0 && r.gateway == gateway)
    && (forall r, s :: r in log && s in log && r.id == s.id ==> r == s)
  }

  lemma {:induction false} ListedSplit(pages: seq<Page>, n: nat)
    requires n < |pages|
    ensures Listed(pages[..n + 1]) == Listed(pages[..n]) + (if pages[n].Some? then pages[n].value else [])
    ensures Listed(pages[..n + 1]) <= Listed(pages)
    decreases |pages| - n
  {
    assert pages[..n + 1][..n] == pages[..n];
    if n + 1 < |pages| {
      ListedSplit(pages, n + 1);
    } else {
      assert pages[..n + 1] == pages;
    }
  }
}
