/** D1 metric values by database name, with a bounded set of names. */
module NamedSeries {
  import opened Instants
  import opened Options
  import opened ResourceNames

  const BUCKET: Duration := 5 * MINUTE

  /** A source row: its bucket, the database it belongs to, and the metric values it carries. */
  datatype Row = Row(bucket: Option<Time>, id: string, values: map<string, real>)

  /** A dataset's metrics, all summed or all gauges. */
  datatype Spec = Spec(counter: bool, metrics: seq<string>)
  {
    ghost predicate Distinct() { forall i, j :: 0 <= i < j < |metrics| ==> metrics[i] != metrics[j] }
  }

  datatype Point = Point(metric: string, name: string, value: real)

  // ---- Combining values -----------------------------------------------------------------

  function MaxReal(a: real, b: real): real { if a >= b then a else b }

  /** Counters add, gauges keep the larger value, and nothing leaves the other unchanged. */
  function Combine(counter: bool, a: Option<real>, b: Option<real>): Option<real>
  {
    if a.None? then b else if b.None? then a
    else Some(if counter then a.value + b.value else MaxReal(a.value, b.value))
  }

  lemma CombineLaws(counter: bool, a: Option<real>, b: Option<real>, c: Option<real>)
    ensures Combine(counter, a, b) == Combine(counter, b, a)
    ensures Combine(counter, Combine(counter, a, b), c) == Combine(counter, a, Combine(counter, b, c))
  {
  }

  predicate InWindow(r: Row, from: Time, to: Time)
  {
    r.bucket.Some? && from <= r.bucket.value < to && r.bucket.value + BUCKET <= to
  }

  /** The row's five minutes are inside the window. */
  predicate Complete(r: Row, from: Time, to: Time)
  {
    r.bucket.Some? && from <= r.bucket.value && r.bucket.value + 300 * SECOND <= to
  }

  /** The latest bucket inside the window, or the zero time. */
  function Latest(rows: seq<Row>, from: Time, to: Time): Time
  {
    if |rows| == 0 then 0 else
      var before := Latest(rows[..|rows| - 1], from, to);
      var last := rows[|rows| - 1];
      if Complete(last, from, to) then Max(before, last.bucket.value) else before
  }

  /** What a row contributes: a gauge counts in one bucket only. */
  function Share(s: Spec, r: Row, m: string, from: Time, to: Time, latest: Time): Option<real>
  {
    if Complete(r, from, to) && m in r.values && (s.counter || r.bucket.value == latest) then Some(r.values[m]) else None
  }

  function TotalAt(s: Spec, rows: seq<Row>, m: string, from: Time, to: Time, latest: Time): Option<real>
  {
    if |rows| == 0 then None else
      Combine(s.counter, TotalAt(s, rows[..|rows| - 1], m, from, to, latest), Share(s, rows[|rows| - 1], m, from, to, latest))
  }

  /** The sum, or the maximum in the latest bucket, of a metric over the rows. */
  function Total(s: Spec, rows: seq<Row>, m: string, from: Time, to: Time): Option<real>
  {
    TotalAt(s, rows, m, from, to, Latest(rows, from, to))
  }

  /** The values of a metric in the window, added up. */
  function Added(rows: seq<Row>, m: string, from: Time, to: Time): real
  {
    if |rows| == 0 then 0.0 else
      var last := rows[|rows| - 1];
      Added(rows[..|rows| - 1], m, from, to) + if Complete(last, from, to) && m in last.values then last.values[m] else 0.0
  }

  /** A counter's total is the sum of its values in the window, if there are any. */
  lemma {:induction false} CounterTotal(s: Spec, rows: seq<Row>, m: string, from: Time, to: Time, latest: Time)
    requires s.counter
    ensures var total := TotalAt(s, rows, m, from, to, latest);
      && (total.Some? <==> exists r :: r in rows && Complete(r, from, to) && m in r.values)
      && Added(rows, m, from, to) == if total.Some? then total.value else 0.0
  {
    if |rows| > 0 {
      var before, last := rows[..|rows| - 1], rows[|rows| - 1];
      CounterTotal(s, before, m, from, to, latest);
      assert rows == before + [last];
    }
  }

  /** A row of the metric in the given bucket, inside the window. */
  predicate InBucket(r: Row, m: string, from: Time, to: Time, bucket: Time)
  {
    Complete(r, from, to) && m in r.values && r.bucket.value == bucket
  }

  /** A gauge's total is the largest of its values in one bucket, if there are any. */
  lemma {:induction false} GaugeTotal(s: Spec, rows: seq<Row>, m: string, from: Time, to: Time, bucket: Time)
    requires !s.counter
    ensures var total := TotalAt(s, rows, m, from, to, bucket);
      && (total.Some? ==> exists r :: r in rows && InBucket(r, m, from, to, bucket) && r.values[m] == total.value)
      && forall r :: r in rows && InBucket(r, m, from, to, bucket) ==> total.Some? && r.values[m] <= total.value
  {
    if |rows| > 0 {
      var before, last := rows[..|rows| - 1], rows[|rows| - 1];
      GaugeTotal(s, before, m, from, to, bucket);
      assert rows == before + [last];
    }
  }

  /** The bucket a gauge is read from is the latest one inside the window. */
  lemma {:induction false} LatestIs(rows: seq<Row>, from: Time, to: Time)
    ensures var latest := Latest(rows, from, to);
      && (forall r :: r in rows && Complete(r, from, to) ==> r.bucket.value <= latest)
      && (latest != 0 ==> exists r :: r in rows && Complete(r, from, to) && r.bucket.value == latest)
      && latest >= 0
  {
    if |rows| > 0 {
      var before, last := rows[..|rows| - 1], rows[|rows| - 1];
      LatestIs(before, from, to);
      assert rows == before + [last];
    }
  }

  /** A gauge's total is the largest of its values in the latest bucket wholly inside the window, if there
      are any. */
  lemma GaugeIsLatest(s: Spec, rows: seq<Row>, m: string, from: Time, to: Time)
    requires !s.counter
    ensures var total, latest := Total(s, rows, m, from, to), Latest(rows, from, to);
      && (forall r :: r in rows && Complete(r, from, to) ==> r.bucket.value <= latest)
      && (total.Some? ==> exists r :: r in rows && InBucket(r, m, from, to, latest) && r.values[m] == total.value)
      && forall r :: r in rows && InBucket(r, m, from, to, latest) ==> total.Some? && r.values[m] <= total.value
  {
    LatestIs(rows, from, to);
    GaugeTotal(s, rows, m, from, to, Latest(rows, from, to));
  }

  /** The rows of the databases with this name, in order. */
  function NamedAs(rows: seq<Row>, names: map<string, string>, n: string): seq<Row>
  {
    if |rows| == 0 then [] else
      var before, last := NamedAs(rows[..|rows| - 1], names, n), rows[|rows| - 1];
      if last.id in names && names[last.id] == n then before + [last] else before
  }

  /** What a name's own rows total: all of them, or the gauge's latest bucket of any database. */
  function OwnTotal(s: Spec, rows: seq<Row>, names: map<string, string>, n: string, m: string, from: Time, to: Time)
    : Option<real>
  {
    TotalAt(s, NamedAs(rows, names, n), m, from, to, Latest(rows, from, to))
  }

  /** The points of one metric, or of one series. */
  datatype Selector = Metric(metric: string) | Series(metric: string, name: string)

  predicate Selects(sel: Selector, p: Point) { p.metric == sel.metric && (sel.Series? ==> p.name == sel.name) }

  function Of(p: Point, sel: Selector): Option<real> { if Selects(sel, p) then Some(p.value) else None }

  function PointTotal(counter: bool, points: seq<Point>, sel: Selector): Option<real>
  {
    if |points| == 0 then None else
      Combine(counter, PointTotal(counter, points[..|points| - 1], sel), Of(points[|points| - 1], sel))
  }

  // ---- One group of rows ----------------------------------------------------------------

  predicate RowOk(s: Spec, r: Row, from: Time, to: Time)
  {
    r.bucket.Some? && (Complete(r, from, to) ==> forall m :: m in s.metrics ==> m in r.values)
  }

  ghost predicate RowsOk(s: Spec, rows: seq<Row>, from: Time, to: Time)
  {
    forall r :: r in rows ==> RowOk(s, r, from, to)
  }

  method AddRow(s: Spec, values: map<string, real>, r: Row) returns (out: map<string, real>)
    requires forall m :: m in s.metrics ==> m in r.values
    ensures forall m :: m in s.metrics ==>
      m in out && Some(out[m]) == Combine(s.counter, Held(values, m), Some(r.values[m]))
  {
    out := values;
    var i := 0;
    ghost var done: set<string> := {};
    while i < |s.metrics|
      invariant 0 <= i <= |s.metrics| && done == set m | m in s.metrics[..i]
      invariant forall m :: m in done ==> m in out && Some(out[m]) == Combine(s.counter, Held(values, m), Some(r.values[m]))
      invariant forall m :: m !in done ==> Held(out, m) == Held(values, m)
    {
      var m := s.metrics[i];
      assert s.metrics[..i + 1] == s.metrics[..i] + [m];
      out := out[m := Combine(s.counter, Held(values, m), Some(r.values[m])).value];
      done := done + {m};
      i := i + 1;
    }
    assert s.metrics[..i] == s.metrics;
  }

  function Held(values: map<string, real>, m: string): Option<real> { if m in values then Some(values[m]) else None }

  ghost predicate Totals(s: Spec, values: map<string, real>, rows: seq<Row>, from: Time, to: Time)
  {
    forall m :: m in s.metrics ==> Held(values, m) == Total(s, rows, m, from, to)
  }

  lemma {:induction false} EarlierBuckets(s: Spec, rows: seq<Row>, m: string, from: Time, to: Time, later: Time)
    requires !s.counter && later > Latest(rows, from, to)
    ensures TotalAt(s, rows, m, from, to, later) == None
  {
    if |rows| > 0 {
      EarlierBuckets(s, rows[..|rows| - 1], m, from, to, later);
    }
  }

  lemma {:induction false} CountersIgnoreLatest(s: Spec, rows: seq<Row>, m: string, from: Time, to: Time, a: Time,
                                                b: Time)
    requires s.counter
    ensures TotalAt(s, rows, m, from, to, a) == TotalAt(s, rows, m, from, to, b)
  {
    if |rows| > 0 {
      CountersIgnoreLatest(s, rows[..|rows| - 1], m, from, to, a, b);
    }
  }

  /** One more row's effect on the total. */
  lemma TotalStep(s: Spec, rows: seq<Row>, r: Row, m: string, from: Time, to: Time)
    ensures var before, latest := Total(s, rows, m, from, to), Latest(rows, from, to);
      Total(s, rows + [r], m, from, to) ==
        if !InWindow(r, from, to) then before
        else if s.counter then Combine(true, before, Held(r.values, m))
        else if r.bucket.value > latest then Held(r.values, m)
        else if r.bucket.value == latest then Combine(false, before, Held(r.values, m))
        else before
  {
    assert (rows + [r])[..|rows|] == rows;
    var latest, next := Latest(rows, from, to), Latest(rows + [r], from, to);
    if s.counter {
      CountersIgnoreLatest(s, rows, m, from, to, latest, next);
    } else if next > latest {
      EarlierBuckets(s, rows, m, from, to, next);
    }
  }

  /** Fails exactly when a row has no bucket or lacks a metric in the window. */
  method Aggregate(s: Spec, rows: seq<Row>, from: Time, to: Time) returns (r: Option<seq<Point>>)
    requires s.Distinct()
    ensures r.Some? <==> RowsOk(s, rows, from, to)
    ensures r.Some? ==> forall m :: m in s.metrics ==> PointTotal(s.counter, r.value, Metric(m)) == Total(s, rows, m, from, to)
    ensures r.Some? ==> forall p :: p in r.value ==> p.metric in s.metrics
    ensures r.Some? ==> forall i, j :: 0 <= i < j < |r.value| ==> r.value[i].metric != r.value[j].metric
  {
    var values: map<string, real>, latest, i := map[], 0, 0;
    while i < |rows|
      invariant 0 <= i <= |rows| && RowsOk(s, rows[..i], from, to)
      invariant s.counter || latest == Latest(rows[..i], from, to)
      invariant Totals(s, values, rows[..i], from, to)
    {
      var row := rows[i];
      assert rows[..i + 1] == rows[..i] + [row];
      ghost var before := values;
      if row.bucket.None? {
        assert row in rows;
        return None;
      }
      if InWindow(row, from, to) {
        if m :| m in s.metrics && m !in row.values {
          assert row in rows && !RowOk(s, row, from, to);
          return None;
        }
        if s.counter {
          values := AddRow(s, values, row);
        } else {
          if row.bucket.value > latest {
            latest := row.bucket.value;
            values := map[];
          }
          if row.bucket.value == latest {
            values := AddRow(s, values, row);
          }
        }
      }
      forall m | m in s.metrics ensures Held(values, m) == Total(s, rows[..i] + [row], m, from, to) {
        TotalStep(s, rows[..i], row, m, from, to);
        assert Held(before, m) == Total(s, rows[..i], m, from, to);
      }
      i := i + 1;
    }
    assert rows[..i] == rows;
    var points := Points(s, values);
    r := Some(points);
  }

  method Points(s: Spec, values: map<string, real>) returns (points: seq<Point>)
    requires s.Distinct()
    ensures forall m :: m in s.metrics ==> PointTotal(s.counter, points, Metric(m)) == Held(values, m)
    ensures forall p :: p in points ==> p.metric in s.metrics
    ensures forall i, j :: 0 <= i < j < |points| ==> points[i].metric != points[j].metric
  {
    points := [];
    var i := 0;
    NoPoints(s.counter);
    hide PointTotal;
    while i < |s.metrics|
      invariant 0 <= i <= |s.metrics|
      invariant forall m :: PointTotal(s.counter, points, Metric(m)) == if m in s.metrics[..i] then Held(values, m) else None
      invariant forall p :: p in points ==> p.metric in s.metrics[..i]
      invariant forall i, j :: 0 <= i < j < |points| ==> points[i].metric != points[j].metric
    {
      var m := s.metrics[i];
      assert s.metrics[..i + 1] == s.metrics[..i] + [m];
      if m in values {
        OnePointMore(s.counter, points, Point(m, "", values[m]));
        points := points + [Point(m, "", values[m])];
      }
      i := i + 1;
    }
    assert s.metrics[..i] == s.metrics;
  }

  lemma NoPoints(counter: bool)
    ensures forall sel :: PointTotal(counter, [], sel) == None
  {
  }

  // ---- Groups by name -------------------------------------------------------------------

  function NameOf(names: map<string, string>, r: Row): string
  {
    if r.id in names && names[r.id] != "" then names[r.id] else OTHER
  }

  /** A gauge keeps the rows of the latest bucket only. */
  predicate Kept(s: Spec, r: Row, latest: Time)
  {
    s.counter || r.bucket.None? || r.bucket.value == latest
  }

  /** The kept rows whose name is one of these, in order. */
  function Pick(s: Spec, rows: seq<Row>, names: map<string, string>, chosen: set<string>, latest: Time): seq<Row>
  {
    if |rows| == 0 then [] else
      var last := rows[|rows| - 1];
      var before := Pick(s, rows[..|rows| - 1], names, chosen, latest);
      if Kept(s, last, latest) && NameOf(names, last) in chosen then before + [last] else before
  }

  type Groups = map<string, seq<Row>>

  ghost predicate Grouped(s: Spec, rows: seq<Row>, names: map<string, string>, latest: Time, groups: Groups)
  {
    && (forall n :: n in groups ==> groups[n] == Pick(s, rows, names, {n}, latest))
    && (forall r :: r in rows && Kept(s, r, latest) ==> NameOf(names, r) in groups)
  }

  ghost predicate NoOthers(s: Spec, rows: seq<Row>, names: map<string, string>, latest: Time, groups: Groups)
  {
    forall n :: n !in groups ==> Pick(s, rows, names, {n}, latest) == []
  }

  lemma NoGroups(s: Spec, names: map<string, string>, latest: Time)
    ensures Grouped(s, [], names, latest, map[]) && NoOthers(s, [], names, latest, map[])
  {
  }

  lemma GroupStep(s: Spec, rows: seq<Row>, i: nat, names: map<string, string>, latest: Time, groups: Groups)
    requires i < |rows| && Grouped(s, rows[..i], names, latest, groups) && NoOthers(s, rows[..i], names, latest, groups)
    ensures var name := NameOf(names, rows[i]);
      var next := if !Kept(s, rows[i], latest) then groups
        else groups[name := (if name in groups then groups[name] else []) + [rows[i]]];
      Grouped(s, rows[..i + 1], names, latest, next) && NoOthers(s, rows[..i + 1], names, latest, next)
  {
    hide NameOf, Kept;
    var name := NameOf(names, rows[i]);
    assert rows[..i + 1] == rows[..i] + [rows[i]];
    forall n ensures Pick(s, rows[..i + 1], names, {n}, latest) ==
      Pick(s, rows[..i], names, {n}, latest) + (if Kept(s, rows[i], latest) && name == n then [rows[i]] else [])
    {
      PickStep(s, rows, i, names, n, latest);
    }
    hide Pick;
    var next := if !Kept(s, rows[i], latest) then groups
      else groups[name := (if name in groups then groups[name] else []) + [rows[i]]];
    forall n | n in next ensures next[n] == Pick(s, rows[..i + 1], names, {n}, latest) {
      assert n !in groups ==> Pick(s, rows[..i], names, {n}, latest) == [];
    }
  }

  lemma PickStep(s: Spec, rows: seq<Row>, i: nat, names: map<string, string>, n: string, latest: Time)
    requires i < |rows|
    ensures Pick(s, rows[..i + 1], names, {n}, latest) == Pick(s, rows[..i], names, {n}, latest)
      + (if Kept(s, rows[i], latest) && NameOf(names, rows[i]) == n then [rows[i]] else [])
  {
    hide NameOf, Kept;
    assert rows[..i + 1][..i] == rows[..i];
  }

  method LatestBucket(rows: seq<Row>, from: Time, to: Time) returns (latest: Time)
    ensures latest == Latest(rows, from, to)
  {
    latest := 0;
    var i := 0;
    while i < |rows|
      invariant 0 <= i <= |rows| && latest == Latest(rows[..i], from, to)
    {
      assert rows[..i + 1][..i] == rows[..i];
      if InWindow(rows[i], from, to) && rows[i].bucket.value > latest {
        latest := rows[i].bucket.value;
      }
      i := i + 1;
    }
    assert rows[..i] == rows;
  }

  method NamedRows(s: Spec, rows: seq<Row>, names: map<string, string>, from: Time, to: Time) returns (groups: Groups)
    ensures Grouped(s, rows, names, if s.counter then 0 else Latest(rows, from, to), groups)
  {
    var latest := 0;
    if !s.counter {
      latest := LatestBucket(rows, from, to);
    }
    groups := map[];
    var i := 0;
    hide Pick, Kept, NameOf, Grouped, NoOthers;
    NoGroups(s, names, latest);
    assert rows[..0] == [];
    while i < |rows|
      invariant 0 <= i <= |rows| && Grouped(s, rows[..i], names, latest, groups)
      invariant NoOthers(s, rows[..i], names, latest, groups)
    {
      var row := rows[i];
      GroupStep(s, rows, i, names, latest, groups);
      if Kept(s, row, latest) {
        var name := NameOf(names, row);
        groups := groups[name := (if name in groups then groups[name] else []) + [row]];
      }
      i := i + 1;
    }
    assert rows[..i] == rows;
  }

  // ---- Grouping loses nothing -----------------------------------------------------------

  lemma TotalAppend(s: Spec, rows: seq<Row>, r: Row, m: string, from: Time, to: Time, at: Time)
    ensures TotalAt(s, rows + [r], m, from, to, at) ==
      Combine(s.counter, TotalAt(s, rows, m, from, to, at), Share(s, r, m, from, to, at))
  {
    assert (rows + [r])[..|rows|] == rows;
  }

  /** Splitting the chosen names splits the total. */
  lemma {:induction false} PickSplits(s: Spec, rows: seq<Row>, names: map<string, string>, chosen: set<string>,
                                      n: string,
                                      m: string, from: Time, to: Time, latest: Time, at: Time)
    requires n !in chosen
    ensures TotalAt(s, Pick(s, rows, names, chosen + {n}, latest), m, from, to, at) ==
      Combine(s.counter, TotalAt(s, Pick(s, rows, names, chosen, latest), m, from, to, at),
                         TotalAt(s, Pick(s, rows, names, {n}, latest), m, from, to, at))
  {
    if |rows| > 0 {
      var before, last := rows[..|rows| - 1], rows[|rows| - 1];
      PickSplits(s, before, names, chosen, n, m, from, to, latest, at);
      var a, b := Pick(s, before, names, chosen, latest), Pick(s, before, names, {n}, latest);
      var both := Pick(s, before, names, chosen + {n}, latest);
      PickSnoc(s, rows, names, chosen, latest);
      PickSnoc(s, rows, names, {n}, latest);
      PickSnoc(s, rows, names, chosen + {n}, latest);
      hide Kept, NameOf, Share, Pick, TotalAt, Combine;
      TotalAppend(s, a, last, m, from, to, at);
      TotalAppend(s, b, last, m, from, to, at);
      TotalAppend(s, both, last, m, from, to, at);
      Regroup(s.counter, TotalAt(s, a, m, from, to, at), TotalAt(s, b, m, from, to, at),
              Share(s, last, m, from, to, at));
    } else {
      assert Combine(s.counter, None, None) == None;
    }
  }

  lemma PickSnoc(s: Spec, rows: seq<Row>, names: map<string, string>, chosen: set<string>, latest: Time)
    requires |rows| > 0
    ensures var before, last := Pick(s, rows[..|rows| - 1], names, chosen, latest), rows[|rows| - 1];
      Pick(s, rows, names, chosen, latest) ==
        if Kept(s, last, latest) && NameOf(names, last) in chosen then before + [last] else before
  {
  }

  lemma Regroup(counter: bool, x: Option<real>, y: Option<real>, z: Option<real>)
    ensures Combine(counter, Combine(counter, x, y), z) == Combine(counter, Combine(counter, x, z), y)
    ensures Combine(counter, Combine(counter, x, y), z) == Combine(counter, x, Combine(counter, y, z))
  {
  }

  /** Choosing every name keeps the whole total. */
  lemma {:induction false} PickAll(s: Spec, rows: seq<Row>, names: map<string, string>, chosen: set<string>, m: string,
                                   from: Time, to: Time, latest: Time)
    requires forall r :: r in rows && Kept(s, r, latest) ==> NameOf(names, r) in chosen
    ensures TotalAt(s, Pick(s, rows, names, chosen, latest), m, from, to, latest) == TotalAt(s, rows, m, from, to, latest)
  {
    if |rows| > 0 {
      var before, last := rows[..|rows| - 1], rows[|rows| - 1];
      PickAll(s, before, names, chosen, m, from, to, latest);
      var a := Pick(s, before, names, chosen, latest);
      assert (a + [last])[..|a|] == a;
    }
  }

  /** A group's own latest bucket is the overall one wherever the group counts at all. */
  lemma GroupTotal(s: Spec, rows: seq<Row>, names: map<string, string>, chosen: set<string>, m: string, from: Time,
                   to: Time,
                   latest: Time)
    requires !s.counter && latest >= 0
    ensures var g := Pick(s, rows, names, chosen, latest); Total(s, g, m, from, to) == TotalAt(s, g, m, from, to, latest)
  {
    PickKeeps(s, rows, names, chosen, latest);
    LatestOfOneBucket(Pick(s, rows, names, chosen, latest), from, to, latest);
    NothingInWindow(s, Pick(s, rows, names, chosen, latest), m, from, to);
  }

  lemma {:induction false} PickKeeps(s: Spec, rows: seq<Row>, names: map<string, string>, chosen: set<string>,
                                     latest: Time)
    ensures forall r :: r in Pick(s, rows, names, chosen, latest) ==> r in rows && Kept(s, r, latest)
  {
    if |rows| > 0 {
      PickKeeps(s, rows[..|rows| - 1], names, chosen, latest);
    }
  }

  lemma {:induction false} LatestOfOneBucket(rows: seq<Row>, from: Time, to: Time, latest: Time)
    requires latest >= 0 && forall r :: r in rows ==> r.bucket.None? || r.bucket.value == latest
    ensures Latest(rows, from, to) == latest || (Latest(rows, from, to) == 0 && forall r :: r in rows ==> !Complete(r, from, to))
  {
    if |rows| > 0 {
      var before, last := rows[..|rows| - 1], rows[|rows| - 1];
      LatestOfOneBucket(before, from, to, latest);
      assert rows == before + [last];
    }
  }

  lemma {:induction false} NothingInWindow(s: Spec, rows: seq<Row>, m: string, from: Time, to: Time)
    ensures (forall r :: r in rows ==> !Complete(r, from, to)) ==>
      forall at :: TotalAt(s, rows, m, from, to, at) == None
  {
    if |rows| > 0 {
      NothingInWindow(s, rows[..|rows| - 1], m, from, to);
    }
  }

  // ---- Points of all groups, merged under admission -------------------------------------

  lemma {:induction false} PointsConcat(counter: bool, a: seq<Point>, b: seq<Point>, sel: Selector)
    ensures PointTotal(counter, a + b, sel) == Combine(counter, PointTotal(counter, a, sel), PointTotal(counter, b, sel))
  {
    if |b| == 0 {
      assert a + b == a;
    } else {
      var n, last := |b| - 1, b[|b| - 1];
      PointsConcat(counter, a, b[..n], sel);
      assert (a + b)[..|a + b| - 1] == a + b[..n];
      CombineLaws(counter, PointTotal(counter, a, sel), PointTotal(counter, b[..n], sel), Of(last, sel));
    }
  }

  function Relabelled(points: seq<Point>, name: string): (r: seq<Point>)
    ensures |r| == |points|
  {
    seq(|points|, i requires 0 <= i < |points| => points[i].(name := name))
  }

  lemma {:induction false} RelabelKeeps(counter: bool, points: seq<Point>, name: string, m: string)
    ensures PointTotal(counter, Relabelled(points, name), Metric(m)) == PointTotal(counter, points, Metric(m))
    ensures PointTotal(counter, Relabelled(points, name), Series(m, name)) == PointTotal(counter, points, Metric(m))
    ensures forall n :: n != name ==> PointTotal(counter, Relabelled(points, name), Series(m, n)) == None
  {
    if |points| > 0 {
      RelabelKeeps(counter, points[..|points| - 1], name, m);
      assert Relabelled(points, name)[..|points| - 1] == Relabelled(points[..|points| - 1], name);
    }
  }

  /** The bucket a spec's groups are cut to. */
  function Cut(s: Spec, rows: seq<Row>, from: Time, to: Time): Time { if s.counter then 0 else Latest(rows, from, to) }

  lemma {:induction false} LatestNotNegative(rows: seq<Row>, from: Time, to: Time)
    ensures Latest(rows, from, to) >= 0
  {
    if |rows| > 0 {
      LatestNotNegative(rows[..|rows| - 1], from, to);
    }
  }

  /** Adding one group's points adds its share of the total. */
  lemma GroupAdds(s: Spec, rows: seq<Row>, names: map<string, string>, done: set<string>, n: string, m: string,
                  from: Time,
                  to: Time, points: seq<Point>, group: seq<Point>)
    requires n !in done
    requires PointTotal(s.counter, points, Metric(m)) ==
      TotalAt(s, Pick(s, rows, names, done, Cut(s, rows, from, to)), m, from, to, Cut(s, rows, from, to))
    requires PointTotal(s.counter, group, Metric(m)) == Total(s, Pick(s, rows, names, {n}, Cut(s, rows, from, to)), m, from, to)
    ensures PointTotal(s.counter, points + Relabelled(group, n), Metric(m)) ==
      TotalAt(s, Pick(s, rows, names, done + {n}, Cut(s, rows, from, to)), m, from, to, Cut(s, rows, from, to))
  {
    var cut := Cut(s, rows, from, to);
    var g := Pick(s, rows, names, {n}, cut);
    PointsConcat(s.counter, points, Relabelled(group, n), Metric(m));
    RelabelKeeps(s.counter, group, n, m);
    PickSplits(s, rows, names, done, n, m, from, to, cut, cut);
    if s.counter {
      CountersIgnoreLatest(s, g, m, from, to, Latest(g, from, to), cut);
    } else {
      LatestNotNegative(rows, from, to);
      GroupTotal(s, rows, names, {n}, m, from, to, cut);
    }
  }

  lemma WholeTotal(s: Spec, rows: seq<Row>, names: map<string, string>, all: set<string>, m: string, from: Time,
                   to: Time)
    requires forall r :: r in rows && Kept(s, r, Cut(s, rows, from, to)) ==> NameOf(names, r) in all
    ensures TotalAt(s, Pick(s, rows, names, all, Cut(s, rows, from, to)), m, from, to, Cut(s, rows, from, to))
         == Total(s, rows, m, from, to)
  {
    PickAll(s, rows, names, all, m, from, to, Cut(s, rows, from, to));
    if s.counter {
      CountersIgnoreLatest(s, rows, m, from, to, Latest(rows, from, to), Cut(s, rows, from, to));
    }
  }

  lemma {:induction false} PickNobody(s: Spec, rows: seq<Row>, names: map<string, string>, latest: Time)
    ensures Pick(s, rows, names, {}, latest) == []
  {
    if |rows| > 0 {
      PickNobody(s, rows[..|rows| - 1], names, latest);
    }
  }

  /** Each name's points total what its own rows do. */
  ghost predicate NamesTotal(s: Spec, points: seq<Point>, rows: seq<Row>, names: map<string, string>, from: Time, to: Time)
  {
    forall m, n :: m in s.metrics ==>
      PointTotal(s.counter, points, Series(m, n)) == Total(s, Pick(s, rows, names, {n}, Cut(s, rows, from, to)), m, from, to)
  }

  method GroupPoints(s: Spec, rows: seq<Row>, names: map<string, string>, from: Time, to: Time, groups: Groups)
    returns (points: seq<Point>)
    requires s.Distinct() && RowsOk(s, rows, from, to) && Grouped(s, rows, names, Cut(s, rows, from, to), groups)
    ensures forall m :: m in s.metrics ==> PointTotal(s.counter, points, Metric(m)) == Total(s, rows, m, from, to)
    ensures NamesTotal(s, points, rows, names, from, to)
  {
    hide Grouped, RowsOk, Total, TotalAt, PointTotal, Pick, Cut;
    ghost var cut := Cut(s, rows, from, to);
    points := [];
    ghost var done: set<string> := {};
    var todo := groups.Keys;
    Nothing(s, rows, names, from, to);
    while todo != {}
      invariant todo <= groups.Keys && done == groups.Keys - todo
      invariant forall m :: m in s.metrics ==>
        PointTotal(s.counter, points, Metric(m)) == TotalAt(s, Pick(s, rows, names, done, cut), m, from, to, cut)
      invariant forall m, n :: m in s.metrics ==>
        (PointTotal(s.counter, points, Series(m, n)) ==
           if n in done then Total(s, Pick(s, rows, names, {n}, cut), m, from, to) else None)
      decreases |todo|
    {
      var n :| n in todo;
      GroupOk(s, rows, names, from, to, groups, n);
      var group := Aggregate(s, groups[n], from, to);
      forall m | m in s.metrics
        ensures PointTotal(s.counter, points + Relabelled(group.value, n), Metric(m))
             == TotalAt(s, Pick(s, rows, names, done + {n}, cut), m, from, to, cut)
      {
        GroupAdds(s, rows, names, done, n, m, from, to, points, group.value);
      }
      GroupNames(s, points, group.value, n);
      points := points + Relabelled(group.value, n);
      todo := todo - {n};
      done := done + {n};
    }
    assert done == groups.Keys;
    forall m | m in s.metrics ensures PointTotal(s.counter, points, Metric(m)) == Total(s, rows, m, from, to) {
      AllNamed(s, rows, names, cut, groups);
      WholeTotal(s, rows, names, groups.Keys, m, from, to);
    }
    forall m, n | m in s.metrics && n !in done ensures Total(s, Pick(s, rows, names, {n}, cut), m, from, to) == None {
      AllNamed(s, rows, names, cut, groups);
      Unnamed(s, rows, names, n, m, from, to, cut);
    }
  }

  lemma GroupNames(s: Spec, points: seq<Point>, group: seq<Point>, name: string)
    ensures forall m, n ::
      (PointTotal(s.counter, points + Relabelled(group, name), Series(m, n)) ==
         Combine(s.counter, PointTotal(s.counter, points, Series(m, n)),
                 if n == name then PointTotal(s.counter, group, Metric(m)) else None))
  {
    forall m, n
      ensures PointTotal(s.counter, points + Relabelled(group, name), Series(m, n)) ==
        Combine(s.counter, PointTotal(s.counter, points, Series(m, n)),
                if n == name then PointTotal(s.counter, group, Metric(m)) else None)
    {
      PointsConcat(s.counter, points, Relabelled(group, name), Series(m, n));
      RelabelKeeps(s.counter, group, name, m);
    }
  }

  lemma {:induction false} Unnamed(s: Spec, rows: seq<Row>, names: map<string, string>, n: string, m: string, from: Time,
                                   to: Time, latest: Time)
    requires forall r :: r in rows && Kept(s, r, latest) ==> NameOf(names, r) != n
    ensures Pick(s, rows, names, {n}, latest) == [] && Total(s, Pick(s, rows, names, {n}, latest), m, from, to) == None
  {
    if |rows| > 0 {
      Unnamed(s, rows[..|rows| - 1], names, n, m, from, to, latest);
    }
  }

  lemma Nothing(s: Spec, rows: seq<Row>, names: map<string, string>, from: Time, to: Time)
    ensures forall m, at :: TotalAt(s, Pick(s, rows, names, {}, Cut(s, rows, from, to)), m, from, to, at) == None
    ensures forall sel :: PointTotal(s.counter, [], sel) == None
  {
    PickNobody(s, rows, names, Cut(s, rows, from, to));
  }

  lemma GroupOk(s: Spec, rows: seq<Row>, names: map<string, string>, from: Time, to: Time, groups: Groups, n: string)
    requires RowsOk(s, rows, from, to) && Grouped(s, rows, names, Cut(s, rows, from, to), groups) && n in groups
    ensures groups[n] == Pick(s, rows, names, {n}, Cut(s, rows, from, to)) && RowsOk(s, groups[n], from, to)
  {
    PickKeeps(s, rows, names, {n}, Cut(s, rows, from, to));
  }

  lemma AllNamed(s: Spec, rows: seq<Row>, names: map<string, string>, latest: Time, groups: Groups)
    requires Grouped(s, rows, names, latest, groups)
    ensures forall r :: r in rows && Kept(s, r, latest) ==> NameOf(names, r) in groups.Keys
  {
  }

  function Updated(counter: bool, points: seq<Point>, i: nat, v: real): (r: seq<Point>)
    requires i < |points|
    ensures |r| == |points|
    ensures forall k :: 0 <= k < |r| ==> r[k].metric == points[k].metric && r[k].name == points[k].name
  {
    points[i := points[i].(value := Combine(counter, Some(points[i].value), Some(v)).value)]
  }

  lemma {:induction false} UpdateAdds(counter: bool, points: seq<Point>, i: nat, v: real, sel: Selector)
    requires i < |points|
    ensures PointTotal(counter, Updated(counter, points, i, v), sel)
         == Combine(counter, PointTotal(counter, points, sel), if Selects(sel, points[i]) then Some(v) else None)
    decreases |points|
  {
    var n, last := |points| - 1, points[|points| - 1];
    var next := Updated(counter, points, i, v);
    var before := PointTotal(counter, points[..n], sel);
    if i < n {
      UpdateAdds(counter, points[..n], i, v, sel);
      assert next[..n] == Updated(counter, points[..n], i, v);
      var x, y := Of(last, sel), if Selects(sel, points[i]) then Some(v) else None;
      CombineLaws(counter, before, x, y);
      CombineLaws(counter, before, y, x);
      CombineLaws(counter, x, y, None);
    } else {
      assert next[..n] == points[..n];
      CombineLaws(counter, before, Some(last.value), Some(v));
    }
  }

  /** One point per metric and name. */
  ghost predicate SeriesDistinct(points: seq<Point>)
  {
    forall i, j :: 0 <= i < j < |points| ==> (points[i].metric, points[i].name) != (points[j].metric, points[j].name)
  }

  ghost predicate SlotsOk(slots: map<(string, string), nat>, result: seq<Point>)
  {
    && (forall k :: k in slots ==> slots[k] < |result| && (result[slots[k]].metric, result[slots[k]].name) == k)
    && (forall i :: 0 <= i < |result| ==>
          (result[i].metric, result[i].name) in slots && slots[(result[i].metric, result[i].name)] == i)
  }

  ghost predicate NamesAdmitted(points: seq<Point>, admission: NameAdmission)
    reads admission
  {
    forall p :: p in points ==> p.name == OTHER || p.name in admission.Admitted(p.metric)
  }

  /** An admitted name has the total of exactly the points that carry it, and no other name but the
      remainder's is shown. */
  ghost predicate NamesKept(counter: bool, result: seq<Point>, points: seq<Point>, metrics: map<string, set<string>>)
  {
    forall m, n :: n != OTHER ==>
      PointTotal(counter, result, Series(m, n)) ==
        if n in AdmittedIn(metrics, m) then PointTotal(counter, points, Series(m, n)) else None
  }

  /** A name is turned away only when its metric is full. */
  ghost predicate AdmittedIfRoom(points: seq<Point>, metrics: map<string, set<string>>)
  {
    forall p :: p in points ==>
      p.name in {"", OTHER} || p.name in AdmittedIn(metrics, p.metric) || |AdmittedIn(metrics, p.metric)| == MAX_NAMES
  }

  /** Names beyond the bound go into one remainder per metric; no value is lost or counted twice. */
  method MergeAdmitted(counter: bool, points: seq<Point>, admission: NameAdmission) returns (result: seq<Point>)
    requires admission.Valid()
    modifies admission
    ensures admission.Valid() && forall m :: old(admission.Admitted(m)) <= admission.Admitted(m)
    ensures forall m :: PointTotal(counter, result, Metric(m)) == PointTotal(counter, points, Metric(m))
    ensures SeriesDistinct(result) && NamesAdmitted(result, admission)
    ensures NamesKept(counter, result, points, admission.metrics) && AdmittedIfRoom(points, admission.metrics)
  {
    hide PointTotal, Combine, Updated, SlotsOk, SeriesDistinct, NamesKept, AdmittedIfRoom;
    result := [];
    NoSlots();
    NothingKept(counter, admission.metrics);
    var slots: map<(string, string), nat>, i := map[], 0;
    assert points[..0] == [];
    while i < |points|
      invariant 0 <= i <= |points| && admission.Valid()
      invariant forall m :: old(admission.Admitted(m)) <= admission.Admitted(m)
      invariant forall m :: PointTotal(counter, result, Metric(m)) == PointTotal(counter, points[..i], Metric(m))
      invariant NamesKept(counter, result, points[..i], admission.metrics) && AdmittedIfRoom(points[..i], admission.metrics)
      invariant SlotsOk(slots, result) && NamesAdmitted(result, admission)
    {
      var point := points[i];
      ghost var before, earlier := admission.metrics, result;
      var name := admission.Admit(point.metric, point.name);
      var key := (point.metric, name);
      PointAdds(counter, points, i);
      if key in slots {
        SlotFound(slots, result, key);
        var at := slots[key];
        Slotted(counter, result, at, point.(name := name));
        SlotKept(counter, slots, result, at, point.value);
        result := Updated(counter, result, at, point.value);
      } else {
        OnePointMore(counter, result, point.(name := name));
        SlotAdded(slots, result, point.(name := name));
        slots := slots[key := |result|];
        result := result + [point.(name := name)];
      }
      StillKept(counter, earlier, result, points, i, name, before, admission.metrics);
      i := i + 1;
    }
    assert points[..i] == points;
    SlotsMeanDistinct(slots, result);
  }

  lemma NothingKept(counter: bool, metrics: map<string, set<string>>)
    ensures NamesKept(counter, [], [], metrics) && AdmittedIfRoom([], metrics)
  {
  }

  lemma {:induction false} NoneSelected(counter: bool, points: seq<Point>, sel: Selector)
    requires forall p :: p in points ==> !Selects(sel, p)
    ensures PointTotal(counter, points, sel) == None
  {
    if |points| > 0 {
      NoneSelected(counter, points[..|points| - 1], sel);
    }
  }

  /** The points read before a name was first admitted did not carry it: the metric was not full. */
  lemma NotCarried(counter: bool, points: seq<Point>, m: string, name: string, before: map<string, set<string>>,
                   after: map<string, set<string>>)
    requires AdmittedIfRoom(points, before) && AdmitStep(m, name, name, before, after)
    requires name != OTHER && name !in AdmittedIn(before, m)
    ensures PointTotal(counter, points, Series(m, name)) == None
  {
    assert |AdmittedIn(before, m) + {name}| == |AdmittedIn(before, m)| + 1;
    NoneSelected(counter, points, Series(m, name));
  }

  lemma RoomKept(points: seq<Point>, p: Point, name: string, before: map<string, set<string>>, after: map<string, set<string>>)
    requires AdmitStep(p.metric, p.name, name, before, after) && AdmittedIfRoom(points, before)
    ensures AdmittedIfRoom(points + [p], after)
  {
    hide AdmittedIn;
    NoneLost(p, name, before, after);
    forall q | q in points + [p]
      ensures q.name in {"", OTHER} || q.name in AdmittedIn(after, q.metric) || |AdmittedIn(after, q.metric)| == MAX_NAMES
    {
      assert q in points || q == p;
    }
  }

  /** A step keeps every admitted name, and a full metric full. */
  lemma NoneLost(p: Point, name: string, before: map<string, set<string>>, after: map<string, set<string>>)
    requires AdmitStep(p.metric, p.name, name, before, after)
    ensures forall m :: AdmittedIn(before, m) <= AdmittedIn(after, m)
    ensures forall m :: |AdmittedIn(before, m)| == MAX_NAMES ==> AdmittedIn(after, m) == AdmittedIn(before, m)
  {
    hide AdmittedIn;
    if name != OTHER && name !in AdmittedIn(before, p.metric) {
      assert |AdmittedIn(before, p.metric) + {name}| == |AdmittedIn(before, p.metric)| + 1;
    }
  }

  lemma StillKept(counter: bool, result: seq<Point>, next: seq<Point>, points: seq<Point>, i: nat, name: string,
                  before: map<string, set<string>>, after: map<string, set<string>>)
    requires i < |points| && AdmitStep(points[i].metric, points[i].name, name, before, after)
    requires NamesKept(counter, result, points[..i], before) && AdmittedIfRoom(points[..i], before)
    requires forall sel ::
      (PointTotal(counter, next, sel) == Combine(counter, PointTotal(counter, result, sel), Of(points[i].(name := name), sel)))
    ensures NamesKept(counter, next, points[..i + 1], after) && AdmittedIfRoom(points[..i + 1], after)
  {
    var p := points[i];
    assert points[..i + 1] == points[..i] + [p];
    PointAdds(counter, points, i);
    RoomKept(points[..i], p, name, before, after);
    if name != OTHER && name !in AdmittedIn(before, p.metric) {
      NotCarried(counter, points[..i], p.metric, name, before, after);
    }
    NothingAdded(counter);
    hide PointTotal, AdmittedIfRoom, AdmittedIn, Combine;
    forall m, n | n != OTHER
      ensures PointTotal(counter, next, Series(m, n)) ==
        if n in AdmittedIn(after, m) then PointTotal(counter, points[..i + 1], Series(m, n)) else None
    {
      if m != p.metric || n != p.name {
        assert Of(p, Series(m, n)) == None && Of(p.(name := name), Series(m, n)) == None;
      }
    }
  }

  lemma NothingAdded(counter: bool)
    ensures forall x :: Combine(counter, x, None) == x
  {
  }

  lemma NoSlots()
    ensures SlotsOk(map[], [])
  {
  }

  lemma SlotFound(slots: map<(string, string), nat>, result: seq<Point>, key: (string, string))
    requires SlotsOk(slots, result) && key in slots
    ensures slots[key] < |result| && result[slots[key]].metric == key.0 && result[slots[key]].name == key.1
  {
  }

  lemma SlotKept(counter: bool, slots: map<(string, string), nat>, result: seq<Point>, i: nat, v: real)
    requires SlotsOk(slots, result) && i < |result|
    ensures SlotsOk(slots, Updated(counter, result, i, v))
  {
  }

  lemma SlotAdded(slots: map<(string, string), nat>, result: seq<Point>, p: Point)
    requires SlotsOk(slots, result) && (p.metric, p.name) !in slots
    ensures SlotsOk(slots[(p.metric, p.name) := |result|], result + [p])
  {
  }

  lemma SlotsMeanDistinct(slots: map<(string, string), nat>, result: seq<Point>)
    requires SlotsOk(slots, result)
    ensures SeriesDistinct(result)
  {
  }

  lemma PointAdds(counter: bool, points: seq<Point>, i: nat)
    requires i < |points|
    ensures forall sel ::
      (PointTotal(counter, points[..i + 1], sel) == Combine(counter, PointTotal(counter, points[..i], sel), Of(points[i], sel)))
  {
    assert points[..i + 1][..i] == points[..i];
  }

  lemma OnePointMore(counter: bool, points: seq<Point>, p: Point)
    ensures forall sel :: PointTotal(counter, points + [p], sel) == Combine(counter, PointTotal(counter, points, sel), Of(p, sel))
  {
    assert (points + [p])[..|points|] == points;
  }

  lemma Slotted(counter: bool, points: seq<Point>, i: nat, p: Point)
    requires i < |points| && points[i].metric == p.metric && points[i].name == p.name
    ensures forall sel ::
      (PointTotal(counter, Updated(counter, points, i, p.value), sel) == Combine(counter, PointTotal(counter, points, sel), Of(p, sel)))
  {
    forall sel
      ensures PointTotal(counter, Updated(counter, points, i, p.value), sel) ==
              Combine(counter, PointTotal(counter, points, sel), Of(p, sel))
    {
      UpdateAdds(counter, points, i, p.value, sel);
    }
  }

  /** For every metric the named points combine to exactly what the rows total without names, each
      admitted name's to exactly what its own rows total, and a name is turned away only when its metric
      is full; a bad row fails the call before any name is admitted. */
  method AggregateNamed(s: Spec, rows: seq<Row>, names: map<string, string>, from: Time, to: Time,
                        admission: NameAdmission)
    returns (r: Option<seq<Point>>)
    requires s.Distinct() && admission.Valid()
    modifies admission
    ensures admission.Valid() && forall m :: old(admission.Admitted(m)) <= admission.Admitted(m)
    ensures r.Some? <==> RowsOk(s, rows, from, to)
    ensures r.None? ==> admission.metrics == old(admission.metrics)
    ensures r.Some? ==> forall m :: m in s.metrics ==> PointTotal(s.counter, r.value, Metric(m)) == Total(s, rows, m, from, to)
    ensures r.Some? ==> SeriesDistinct(r.value) && NamesAdmitted(r.value, admission)
    ensures r.Some? ==> ByName(s, r.value, rows, names, from, to, admission.metrics)
  {
    var whole := Aggregate(s, rows, from, to);
    if whole.None? {
      return None;
    }
    var groups := NamedRows(s, rows, names, from, to);
    var points := GroupPoints(s, rows, names, from, to, groups);
    hide PointTotal, Total, SeriesDistinct, RowsOk, Pick, Cut, NamesTotal, NamesKept, AdmittedIfRoom, ByName, Grouped;
    var result := MergeAdmitted(s.counter, points, admission);
    NamesComeThrough(s, result, points, rows, names, from, to, admission.metrics);
    r := Some(result);
  }

  /** Each name's own value is kept apart while there is room for it. */
  ghost predicate ByName(s: Spec, result: seq<Point>, rows: seq<Row>, names: map<string, string>, from: Time, to: Time,
                         metrics: map<string, set<string>>)
  {
    forall m, n :: m in s.metrics && n != "" && n != "other" ==>
      var own := OwnTotal(s, rows, names, n, m, from, to);
      && PointTotal(s.counter, result, Series(m, n)) == (if n in AdmittedIn(metrics, m) then own else None)
      && (own.Some? && n !in AdmittedIn(metrics, m) ==> |AdmittedIn(metrics, m)| == 49)
  }

  lemma NamesComeThrough(s: Spec, result: seq<Point>, points: seq<Point>, rows: seq<Row>, names: map<string, string>,
                         from: Time, to: Time, metrics: map<string, set<string>>)
    requires NamesTotal(s, points, rows, names, from, to)
    requires NamesKept(s.counter, result, points, metrics) && AdmittedIfRoom(points, metrics)
    ensures ByName(s, result, rows, names, from, to, metrics)
  {
    forall m, n | m in s.metrics && n != OTHER && n != "" && n !in AdmittedIn(metrics, m)
      ensures PointTotal(s.counter, points, Series(m, n)).Some? ==> |AdmittedIn(metrics, m)| == MAX_NAMES
    {
      if forall p :: p in points ==> !Selects(Series(m, n), p) {
        NoneSelected(s.counter, points, Series(m, n));
      }
    }
    forall m, n | n != "" && n != "other"
      ensures Total(s, Pick(s, rows, names, {n}, Cut(s, rows, from, to)), m, from, to) ==
              OwnTotal(s, rows, names, n, m, from, to)
    {
      OwnIsPicked(s, rows, names, n, m, from, to);
    }
    hide PointTotal, Total, Pick, Cut, OwnTotal;
  }

  /** A name's group has its own rows' total. */
  lemma OwnIsPicked(s: Spec, rows: seq<Row>, names: map<string, string>, n: string, m: string, from: Time, to: Time)
    requires n != "" && n != "other"
    ensures Total(s, Pick(s, rows, names, {n}, Cut(s, rows, from, to)), m, from, to) ==
            OwnTotal(s, rows, names, n, m, from, to)
  {
    var cut, latest := Cut(s, rows, from, to), Latest(rows, from, to);
    var g := Pick(s, rows, names, {n}, cut);
    PickedIsNamed(s, rows, names, n, m, from, to, cut);
    if s.counter {
      CountersIgnoreLatest(s, g, m, from, to, Latest(g, from, to), cut);
      CountersIgnoreLatest(s, NamedAs(rows, names, n), m, from, to, latest, cut);
    } else {
      LatestNotNegative(rows, from, to);
      GroupTotal(s, rows, names, {n}, m, from, to, cut);
    }
  }

  lemma {:induction false} PickedIsNamed(s: Spec, rows: seq<Row>, names: map<string, string>, n: string, m: string,
                                         from: Time, to: Time, at: Time)
    requires n != "" && n != "other"
    ensures TotalAt(s, Pick(s, rows, names, {n}, at), m, from, to, at) ==
            TotalAt(s, NamedAs(rows, names, n), m, from, to, at)
  {
    if |rows| > 0 {
      var before, last := rows[..|rows| - 1], rows[|rows| - 1];
      PickedIsNamed(s, before, names, n, m, from, to, at);
      PickSnoc(s, rows, names, {n}, at);
      NamedSnoc(s, rows, names, n, m, from, to, at);
      hide TotalAt, Pick, NamedAs, Share, Kept, NameOf;
      TotalAppend(s, Pick(s, before, names, {n}, at), last, m, from, to, at);
      TotalAppend(s, NamedAs(before, names, n), last, m, from, to, at);
    }
  }

  /** A row goes to its name's group when it is of that name, unless it contributes nothing. */
  lemma NamedSnoc(s: Spec, rows: seq<Row>, names: map<string, string>, n: string, m: string, from: Time, to: Time,
                  at: Time)
    requires |rows| > 0 && n != "" && n != "other"
    ensures var before, last := NamedAs(rows[..|rows| - 1], names, n), rows[|rows| - 1];
      && NamedAs(rows, names, n) == (if NameOf(names, last) == n then before + [last] else before)
      && (!Kept(s, last, at) ==> Share(s, last, m, from, to, at) == None)
      && forall x :: Combine(s.counter, x, None) == x
  {
  }

  // ---- The process's life ---------------------------------------------------------------

  datatype Call = Call(rows: seq<Row>, names: map<string, string>, from: Time, to: Time)

  /** The call's answer: none exactly for a bad row, else every metric's total, each name's own total kept
      apart as far as these names are admitted. */
  ghost predicate Answers(s: Spec, call: Call, r: Option<seq<Point>>, metrics: map<string, set<string>>)
  {
    && (r.Some? <==> RowsOk(s, call.rows, call.from, call.to))
    && (r.Some? ==>
          && (forall m :: m in s.metrics ==>
                PointTotal(s.counter, r.value, Metric(m)) == Total(s, call.rows, m, call.from, call.to))
          && SeriesDistinct(r.value) && ByName(s, r.value, call.rows, call.names, call.from, call.to, metrics))
  }

  /** The names shown for a metric by any of the results. */
  ghost function Shown(results: seq<Option<seq<Point>>>, m: string): set<string>
  {
    set r, p | r in results && r.Some? && p in r.value && p.metric == m :: p.name
  }

  /** However many calls a collector makes, each gets its answer, for the names admitted by then, and a
      metric only ever shows 50 names. */
  method CollectForever(s: Spec, calls: seq<Call>, admission: NameAdmission)
    returns (results: seq<Option<seq<Point>>>, ghost admitted: seq<map<string, set<string>>>)
    requires s.Distinct() && admission.Valid()
    modifies admission
    ensures admission.Valid() && |results| == |admitted| == |calls|
    ensures forall i :: 0 <= i < |calls| ==> Answers(s, calls[i], results[i], admitted[i])
    ensures forall i, m :: 0 <= i < |calls| ==> AdmittedIn(admitted[i], m) <= admission.Admitted(m)
    ensures forall m :: |Shown(results, m)| <= 50
  {
    hide Total, PointTotal, RowsOk, SeriesDistinct, ByName;
    results, admitted := [], [];
    for i := 0 to |calls|
      invariant admission.Valid() && |results| == |admitted| == i
      invariant forall k :: 0 <= k < i ==> Answers(s, calls[k], results[k], admitted[k])
      invariant forall k, m :: 0 <= k < i ==> AdmittedIn(admitted[k], m) <= admission.Admitted(m)
      invariant forall r :: r in results && r.Some? ==> NamesAdmitted(r.value, admission)
    {
      var r := AggregateNamed(s, calls[i].rows, calls[i].names, calls[i].from, calls[i].to, admission);
      results, admitted := results + [r], admitted + [admission.metrics];
    }
    forall m ensures |Shown(results, m)| <= MAX_NAMES + 1 {
      AdmittedOrOther(admission, results, m);
    }
  }

  lemma AdmittedOrOther(admission: NameAdmission, results: seq<Option<seq<Point>>>, m: string)
    requires admission.Valid() && forall r :: r in results && r.Some? ==> NamesAdmitted(r.value, admission)
    ensures |Shown(results, m)| <= MAX_NAMES + 1
  {
    var allowed := admission.Admitted(m) + {OTHER};
    assert Shown(results, m) <= allowed;
    assert allowed == Shown(results, m) + (allowed - Shown(results, m));
  }
}
