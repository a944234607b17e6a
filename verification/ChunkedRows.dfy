/** The rows of a field-chunked query, rebuilt by folding the join over the chunks. */
module ChunkedRows {
  import opened Options
  import opened JsonText
  import opened RowJson
  import opened RowJoin
  import opened RowRejoin

  /** The first chunk's rows, joined with each later chunk in turn. */
  function Rejoin(parts: seq<seq<Json>>, join: seq<string>): Option<seq<Json>>
    requires |parts| > 0
  {
    if |parts| == 1 then Some(parts[0]) else
      var before := Rejoin(parts[..|parts| - 1], join);
      if before.None? then None else Join(before.value, parts[|parts| - 1], join)
  }

  lemma {:induction false} RejoinStopsEarly(parts: seq<seq<Json>>, i: nat, join: seq<string>)
    requires 0 < i <= |parts| && Rejoin(parts[..i], join).None?
    ensures Rejoin(parts, join).None?
    decreases |parts|
  {
    if i < |parts| {
      assert parts[..|parts| - 1][..i] == parts[..i];
      RejoinStopsEarly(parts[..|parts| - 1], i, join);
    } else {
      assert parts[..i] == parts;
    }
  }

  /** A join keeps the number of rows. */
  lemma {:induction false} RejoinKeepsCount(parts: seq<seq<Json>>, join: seq<string>)
    requires |parts| > 0 && Rejoin(parts, join).Some?
    ensures |Rejoin(parts, join).value| == |parts[0]|
    decreases |parts|
  {
    if |parts| > 1 {
      var before := Rejoin(parts[..|parts| - 1], join).value;
      RejoinKeepsCount(parts[..|parts| - 1], join);
      JoinExactlyWhen(before, parts[|parts| - 1], join, Rejoin(parts, join).value);
    }
  }

  /** The chunk loop of one query window. */
  method MergeChunks(parts: seq<seq<Json>>, join: seq<string>) returns (merged: Option<seq<Json>>)
    requires |parts| > 0
    ensures merged == Rejoin(parts, join)
  {
    merged := None;
    var i := 0;
    while i < |parts|
      invariant 0 <= i <= |parts| && (i > 0 ==> merged.Some? && Rejoin(parts[..i], join) == merged)
    {
      if i == 0 {
        merged := Some(parts[0]);
      } else {
        assert parts[..i + 1][..i] == parts[..i];
        merged := JoinRows(merged.value, parts[i], join);
        if merged.None? {
          RejoinStopsEarly(parts, i + 1, join);
          return;
        }
      }
      i := i + 1;
    }
    assert parts[..i] == parts;
  }

  // ---- What the server returns ----------------------------------------------------------

  /** A rearrangement of n rows. */
  ghost predicate IsOrder(order: seq<nat>, n: nat)
  {
    && |order| == n
    && (forall i :: 0 <= i < n ==> order[i] < n)
    && (forall i, j :: 0 <= i < j < n ==> order[i] != order[j])
    && (forall k :: 0 <= k < n ==> k in order)
  }

  /** The rows, in some order, each cut down to the selected paths. */
  ghost predicate IsResponse(part: seq<Json>, rows: seq<Row>, order: seq<nat>, paths: set<Path>)
  {
    && IsOrder(order, |rows|) && |part| == |rows|
    && forall i :: 0 <= i < |part| ==> part[i] == Object(Selected(Object(rows[order[i]]), paths))
  }

  /** What the join fields lead to, as written. */
  ghost function KeyValues(row: Row, join: seq<string>): seq<Option<Json>>
  {
    seq(|join|, i requires 0 <= i < |join| => At(Object(KeptRow(true, row)), Parts(join[i])))
  }

  /** The join fields are present and, as written, identify the rows, and no name in an object on the way to a
      join field is also the name of an entry of the row or of another such object. */
  ghost predicate Joinable(rows: seq<Row>, join: seq<string>)
  {
    && (forall i :: 0 <= i < |rows| ==> HasAll(rows[i], join) && Disjoint(rows[i], Levels(join)))
    && (forall i, j :: 0 <= i < j < |rows| ==> KeyValues(rows[i], join) != KeyValues(rows[j], join))
  }

  /** Each row is the selection of these paths from one original row, possibly with entries of the
      objects on the way to the join fields added beside it. */
  ghost predicate Rebuilt(out: seq<Json>, rows: seq<Row>, order: seq<nat>, paths: set<Path>, join: seq<string>)
  {
    && IsOrder(order, |rows|) && |out| == |rows|
    && forall i :: 0 <= i < |out| ==>
         out[i].Object? && Grown(Selected(Object(rows[order[i]]), paths), Levels(join), out[i].fields)
  }

  lemma ResponseIsRebuilt(part: seq<Json>, rows: seq<Row>, order: seq<nat>, paths: set<Path>, join: seq<string>)
    requires IsResponse(part, rows, order, paths)
    ensures Rebuilt(part, rows, order, paths, join)
  {
    forall i | 0 <= i < |part| ensures Grown(part[i].fields, Levels(join), part[i].fields) {
      GrownByItself(part[i].fields, join);
    }
  }

  lemma GrownByItself(row: Row, join: seq<string>)
    ensures Grown(row, Levels(join), row)
  {
    assert FieldsAt(row, []) == row && [] in Levels(join);
  }

  /** The rows as they came, or as they were written. */
  ghost function KeptRows(written: bool, rows: seq<Row>): (r: seq<Row>)
    ensures |r| == |rows|
  {
    seq(|rows|, i requires 0 <= i < |rows| => KeptRow(written, rows[i]))
  }

  lemma KeptAsTheyCame(rows: seq<Row>)
    ensures KeptRows(false, rows) == rows
  {
  }

  lemma KeptKeyValues(written: bool, row: Row, join: seq<string>)
    ensures KeyValues(KeptRow(written, row), join) == KeyValues(row, join)
  {
    KeptEntries(written, row);
  }

  lemma KeptHasAll(written: bool, row: Row, join: seq<string>)
    requires HasAll(row, join)
    ensures HasAll(KeptRow(written, row), join)
  {
    forall f | f in join ensures At(Object(KeptRow(written, row)), Parts(f)).Some? {
      EncodedAt(Object(row), Parts(f));
      KeptObject(row);
    }
  }

  lemma KeptJoinable(written: bool, rows: seq<Row>, join: seq<string>)
    requires Joinable(rows, join)
    ensures Joinable(KeptRows(written, rows), join)
    ensures forall i :: 0 <= i < |rows| ==> KeyValues(KeptRows(written, rows)[i], join) == KeyValues(rows[i], join)
  {
    hide KeyValues, HasAll, Disjoint, KeptRow;
    forall i | 0 <= i < |rows|
      ensures KeyValues(KeptRows(written, rows)[i], join) == KeyValues(rows[i], join)
      ensures HasAll(KeptRows(written, rows)[i], join) && Disjoint(KeptRows(written, rows)[i], Levels(join))
    {
      KeptKeyValues(written, rows[i], join);
      KeptHasAll(written, rows[i], join);
      KeptDisjoint(written, rows[i], Levels(join));
    }
  }

  /** The key of a rebuilt row is that of the original row. */
  lemma RebuiltKey(t: Row, paths: set<Path>, join: seq<string>, grown: Row)
    requires HasAll(t, join) && Disjoint(t, Levels(join)) && PathsOf(join) <= paths
    requires Grown(Selected(Object(t), paths), Levels(join), grown)
    ensures var r := RowKey(Object(grown), join);
      && r.Some? && Expanded(Selected(Object(t), paths), Levels(join), r.value.row)
      && |r.value.values| == |join|
      && forall i :: 0 <= i < |join| ==> Some(r.value.values[i]) == KeyValues(t, join)[i]
  {
    var s := Selected(Object(t), paths);
    SelectedDisjoint(t, paths, Levels(join));
    forall i | 0 <= i < |join|
      ensures At(Object(s), Parts(join[i])) == At(Object(t), Parts(join[i]))
      ensures At(Object(KeptRow(true, s)), Parts(join[i])) == At(Object(KeptRow(true, t)), Parts(join[i]))
    {
      assert Parts(join[i]) in PathsOf(join);
      PathStays(Object(t), paths, Parts(join[i]));
      EncodedAt(Object(s), Parts(join[i]));
      EncodedAt(Object(t), Parts(join[i]));
      KeptObject(s);
      KeptObject(t);
    }
    hide Disjoint, Grown, Levels, Selected, At, RowKey, Expanded, KeptRow;
    assert HasAll(s, join);
    KeyExpands(s, grown, join);
  }

  lemma SameKey(a: seq<Json>, b: seq<Json>, ka: seq<Option<Json>>, kb: seq<Option<Json>>)
    requires |a| == |b| == |ka| == |kb|
    requires forall i :: 0 <= i < |a| ==> Some(a[i]) == ka[i] && Some(b[i]) == kb[i]
    ensures a == b <==> ka == kb
  {
    if ka == kb {
      assert forall i :: 0 <= i < |a| ==> Some(a[i]) == Some(b[i]);
    }
    if a == b {
      assert forall i :: 0 <= i < |a| ==> ka[i] == kb[i];
    }
  }

  ghost predicate KeyIsOf(j: Json, t: Row, join: seq<string>)
  {
    var r := RowKey(j, join);
    && r.Some? && |r.value.values| == |join|
    && forall i :: 0 <= i < |join| ==> Some(r.value.values[i]) == KeyValues(t, join)[i]
  }

  lemma RebuiltKeys(part: seq<Json>, rows: seq<Row>, order: seq<nat>, paths: set<Path>, join: seq<string>)
    requires Joinable(rows, join) && PathsOf(join) <= paths && Rebuilt(part, rows, order, paths, join)
    ensures KeyedPart(part, rows, order, paths, join)
  {
    hide Disjoint, Grown, Levels, Selected, At, RowKey, Expanded, KeyValues, HasAll, PathsOf;
    forall i | 0 <= i < |part|
      ensures KeyIsOf(part[i], rows[order[i]], join)
      ensures Expanded(Selected(Object(rows[order[i]]), paths), Levels(join), RowKey(part[i], join).value.row)
    {
      RebuiltKey(rows[order[i]], paths, join, part[i].fields);
    }
    forall i, j | 0 <= i < j < |part|
      ensures RowKey(part[i], join).value.values != RowKey(part[j], join).value.values
    {
      KeysDiffer(part[i], part[j], rows, order[i], order[j], join);
    }
  }

  lemma KeysDiffer(a: Json, b: Json, rows: seq<Row>, i: nat, j: nat, join: seq<string>)
    requires i < |rows| && j < |rows| && KeyIsOf(a, rows[i], join) && KeyIsOf(b, rows[j], join) && Joinable(rows, join)
    ensures RowKey(a, join).value.values == RowKey(b, join).value.values <==> i == j
  {
    SameKey(RowKey(a, join).value.values, RowKey(b, join).value.values, KeyValues(rows[i], join),
            KeyValues(rows[j], join));
    hide KeyValues, RowKey, HasAll, Disjoint;
    assert i < j ==> KeyValues(rows[i], join) != KeyValues(rows[j], join);
    assert j < i ==> KeyValues(rows[j], join) != KeyValues(rows[i], join);
  }

  /** What the two selections share of each row stays as it is when written. */
  ghost predicate AllSharedPlain(rows: seq<Row>, p: set<Path>, q: set<Path>)
  {
    forall i :: 0 <= i < |rows| ==> SharedIsPlain(Object(rows[i]), p, q)
  }

  /** The left row's key is the right row's exactly when they come from one row. */
  lemma SameRow(written: bool, a: Json, b: Json, rows: seq<Row>, i: nat, j: nat, join: seq<string>)
    requires i < |rows| && j < |rows| && Joinable(rows, join)
    requires KeyIsOf(a, KeptRows(written, rows)[i], join) && KeyIsOf(b, rows[j], join)
    ensures RowKey(a, join).value.values == RowKey(b, join).value.values <==> i == j
  {
    KeptJoinable(written, rows, join);
    hide KeyValues, RowKey, HasAll, Disjoint, KeptRow;
    KeysDiffer(a, b, rows, i, j, join);
  }

  /** A left and a right row of one row merge exactly when what they share is plain or was not written. */
  lemma PairJoins(written: bool, a: Json, b: Json, rows: seq<Row>, i: nat, p: set<Path>, q: set<Path>,
                  join: seq<string>)
    requires i < |rows| && Joinable(rows, join)
    requires KeyIsOf(a, KeptRows(written, rows)[i], join) && KeyIsOf(b, rows[i], join)
    requires Expanded(Selected(Object(KeptRows(written, rows)[i]), p), Levels(join), RowKey(a, join).value.row)
    requires Expanded(Selected(Object(rows[i]), q), Levels(join), RowKey(b, join).value.row)
    ensures var m := MergeMaps(RowKey(a, join).value.row, Object(RowKey(b, join).value.row));
      && (m.Some? <==> !written || SharedIsPlain(Object(rows[i]), p, q))
      && (m.Some? ==>
            && JoinsTo(a, b, join, Object(KeptRow(true, m.value)))
            && Expanded(Selected(Object(KeptRows(true, rows)[i]), p + q), Levels(join), KeptRow(true, m.value)))
  {
    SameRow(written, a, b, rows, i, i, join);
    hide Disjoint, Selected, RowKey, KeyValues, HasAll, MergeMaps, KeyIsOf, Expanded, SharedIsPlain, KeptRow;
    ExpandedMerge(written, rows[i], p, q, Levels(join), RowKey(a, join).value.row, RowKey(b, join).value.row);
    var m := MergeMaps(RowKey(a, join).value.row, Object(RowKey(b, join).value.row));
    if m.Some? {
      KeptObject(m.value);
    }
  }

  /** A chunk of the rows, or rows joined so far, with what is known of each of its keys. */
  ghost predicate KeyedPart(part: seq<Json>, rows: seq<Row>, order: seq<nat>, paths: set<Path>, join: seq<string>)
  {
    && AllKeyed(part, join) && KeysDistinct(part, join) && IsOrder(order, |rows|) && |part| == |rows|
    && forall i :: 0 <= i < |part| ==>
         KeyIsOf(part[i], rows[order[i]], join)
         && Expanded(Selected(Object(rows[order[i]]), paths), Levels(join), RowKey(part[i], join).value.row)
  }

  /** One more chunk, whatever order its rows arrive in, adds its fields to every row: always when the
      rows so far are one chunk's, and when they were written by an earlier join exactly when what the
      new chunk shares with them is plain. */
  lemma JoinAddsChunk(written: bool, left: seq<Json>, right: seq<Json>, rows: seq<Row>, leftOrder: seq<nat>,
                      rightOrder: seq<nat>, p: set<Path>, q: set<Path>, join: seq<string>)
    requires Joinable(rows, join) && PathsOf(join) <= p && PathsOf(join) <= q
    requires Rebuilt(left, KeptRows(written, rows), leftOrder, p, join) && Rebuilt(right, rows, rightOrder, q, join)
    ensures Join(left, right, join).Some? <==> !written || AllSharedPlain(rows, p, q)
    ensures Join(left, right, join).Some? ==>
      Rebuilt(Join(left, right, join).value, KeptRows(true, rows), leftOrder, p + q, join)
  {
    hide Disjoint, Levels, Selected, RowKey, KeyValues, HasAll, PathsOf, Grown, MergeMaps, KeyIsOf, Expanded, KeptRow,
      SharedIsPlain, Join;
    KeptJoinable(written, rows, join);
    RebuiltKeys(left, KeptRows(written, rows), leftOrder, p, join);
    RebuiltKeys(right, rows, rightOrder, q, join);
    hide Rebuilt;
    if !written || AllSharedPlain(rows, p, q) {
      var out := JoinedRows(written, left, right, rows, leftOrder, rightOrder, p, q, join);
      JoinExactlyWhen(left, right, join, out);
    }
    if Join(left, right, join).Some? {
      var out := Join(left, right, join).value;
      JoinExactlyWhen(left, right, join, out);
      JoinedIsRebuilt(written, left, right, rows, leftOrder, rightOrder, p, q, join, out);
    }
  }

  /** The rows the join gives when every pair merges. */
  lemma JoinedRows(written: bool, left: seq<Json>, right: seq<Json>, rows: seq<Row>, leftOrder: seq<nat>,
                   rightOrder: seq<nat>, p: set<Path>, q: set<Path>, join: seq<string>) returns (out: seq<Json>)
    requires Joinable(rows, join) && KeyedPart(left, KeptRows(written, rows), leftOrder, p, join)
    requires KeyedPart(right, rows, rightOrder, q, join) && (written ==> AllSharedPlain(rows, p, q))
    ensures Joined(left, right, join, out)
  {
    hide Disjoint, Selected, RowKey, KeyValues, HasAll, MergeMaps, KeyIsOf, Expanded, KeptRow, SharedIsPlain, Joinable;
    out := [];
    while |out| < |left|
      invariant |out| <= |left|
      invariant forall i :: 0 <= i < |out| ==> JoinsOne(left[i], right, join, out[i])
    {
      var i := |out|;
      assert leftOrder[i] in rightOrder;
      var j :| 0 <= j < |right| && rightOrder[j] == leftOrder[i];
      PairJoins(written, left[i], right[j], rows, leftOrder[i], p, q, join);
      var m := MergeMaps(RowKey(left[i], join).value.row, Object(RowKey(right[j], join).value.row)).value;
      assert JoinsTo(left[i], right[j], join, Object(KeptRow(true, m)));
      out := out + [Object(KeptRow(true, m))];
    }
    MatchedIsJoined(left, right, KeptRows(written, rows), rows, leftOrder, rightOrder, p, q, join, out);
  }

  lemma MatchedIsJoined(left: seq<Json>, right: seq<Json>, leftRows: seq<Row>, rightRows: seq<Row>,
                        leftOrder: seq<nat>, rightOrder: seq<nat>, p: set<Path>, q: set<Path>, join: seq<string>,
                        out: seq<Json>)
    requires KeyedPart(left, leftRows, leftOrder, p, join) && KeyedPart(right, rightRows, rightOrder, q, join)
    requires |left| == |right| == |out|
    requires forall i :: 0 <= i < |out| ==> JoinsOne(left[i], right, join, out[i])
    ensures Joined(left, right, join, out)
  {
    hide AllKeyed, KeysDistinct, JoinsOne, KeyIsOf, Expanded;
  }

  /** A join that succeeds merged each row with itself. */
  lemma JoinedIsRebuilt(written: bool, left: seq<Json>, right: seq<Json>, rows: seq<Row>, leftOrder: seq<nat>,
                        rightOrder: seq<nat>, p: set<Path>, q: set<Path>, join: seq<string>, out: seq<Json>)
    requires Joinable(rows, join) && KeyedPart(left, KeptRows(written, rows), leftOrder, p, join)
    requires KeyedPart(right, rows, rightOrder, q, join) && Joined(left, right, join, out)
    ensures written ==> AllSharedPlain(rows, p, q)
    ensures Rebuilt(out, KeptRows(true, rows), leftOrder, p + q, join)
  {
    hide Disjoint, Selected, RowKey, KeyValues, HasAll, MergeMaps, KeyIsOf, Expanded, KeptRow, SharedIsPlain, Joinable,
      Grown;
    forall i | 0 <= i < |left|
      ensures written ==> SharedIsPlain(Object(rows[leftOrder[i]]), p, q)
      ensures out[i].Object? && Grown(Selected(Object(KeptRows(true, rows)[leftOrder[i]]), p + q), Levels(join), out[i].fields)
    {
      var j :| 0 <= j < |right| && JoinsTo(left[i], right[j], join, out[i]);
      SameRow(written, left[i], right[j], rows, leftOrder[i], rightOrder[j], join);
      PairJoins(written, left[i], right[j], rows, leftOrder[i], p, q, join);
      var m := MergeMaps(RowKey(left[i], join).value.row, Object(RowKey(right[j], join).value.row)).value;
      KeptObject(m);
      ExpandedIsGrown(Selected(Object(KeptRows(true, rows)[leftOrder[i]]), p + q), Levels(join), KeptRow(true, m));
    }
    forall r | 0 <= r < |rows| && written ensures SharedIsPlain(Object(rows[r]), p, q) {
      assert r in leftOrder;
      var i :| 0 <= i < |left| && leftOrder[i] == r;
    }
  }

  lemma ExpandedIsGrown(row: Row, levels: set<Path>, x: Row)
    requires Expanded(row, levels, x)
    ensures Grown(row, levels, x)
  {
  }

  ghost function Union(paths: seq<set<Path>>): set<Path>
  {
    if |paths| == 0 then {} else Union(paths[..|paths| - 1]) + paths[|paths| - 1]
  }

  /** What each chunk from the third on shares with the ones before it is plain, in every row. */
  ghost predicate LaterSharedPlain(rows: seq<Row>, paths: seq<set<Path>>)
  {
    forall c :: 2 <= c < |paths| ==> AllSharedPlain(rows, Union(paths[..c]), paths[c])
  }

  /** Folding the join over all chunks rebuilds, in the first chunk's order, every original row with the
      fields of all chunks, as written if there was a join. It succeeds for one chunk or two, and for more
      exactly when what the later chunks share with the ones before them is plain. */
  lemma {:induction false} ChunksRebuildRows(parts: seq<seq<Json>>, rows: seq<Row>, orders: seq<seq<nat>>,
                                             paths: seq<set<Path>>, join: seq<string>)
    requires |parts| == |orders| == |paths| > 0 && Joinable(rows, join)
    requires forall c :: 0 <= c < |parts| ==> IsResponse(parts[c], rows, orders[c], paths[c]) && PathsOf(join) <= paths[c]
    ensures Rejoin(parts, join).Some? <==> LaterSharedPlain(rows, paths)
    ensures Rejoin(parts, join).Some? ==>
      Rebuilt(Rejoin(parts, join).value, KeptRows(|parts| > 1, rows), orders[0], Union(paths), join)
    ensures PathsOf(join) <= Union(paths)
    decreases |parts|
  {
    hide IsResponse, Rebuilt, Joinable, PathsOf, Join, AllSharedPlain, KeptRows, Union;
    var n := |parts| - 1;
    ResponseIsRebuilt(parts[n], rows, orders[n], paths[n], join);
    UnionStep(paths);
    KeptAsTheyCame(rows);
    if n > 0 {
      FewerChunks(parts, rows, orders, paths, join);
      ChunksRebuildRows(parts[..n], rows, orders[..n], paths[..n], join);
      LaterStep(rows, paths);
      var before := Rejoin(parts[..n], join);
      if before.Some? {
        JoinAddsChunk(n > 1, before.value, parts[n], rows, orders[0], orders[n], Union(paths[..n]), paths[n], join);
      }
    }
  }

  lemma LaterStep(rows: seq<Row>, paths: seq<set<Path>>)
    requires |paths| > 0
    ensures var n := |paths| - 1;
      LaterSharedPlain(rows, paths) <==>
        LaterSharedPlain(rows, paths[..n]) && (n > 1 ==> AllSharedPlain(rows, Union(paths[..n]), paths[n]))
  {
    hide AllSharedPlain, Union;
    var n := |paths| - 1;
    forall c | 2 <= c < n ensures paths[..n][..c] == paths[..c] && paths[..n][c] == paths[c] {
    }
  }

  lemma UnionStep(paths: seq<set<Path>>)
    requires |paths| > 0
    ensures Union(paths) == Union(paths[..|paths| - 1]) + paths[|paths| - 1]
    ensures |paths| == 1 ==> Union(paths) == paths[0]
  {
    if |paths| == 1 {
      assert Union(paths[..0]) == {};
    }
  }

  lemma FewerChunks(parts: seq<seq<Json>>, rows: seq<Row>, orders: seq<seq<nat>>, paths: seq<set<Path>>,
                    join: seq<string>)
    requires |parts| == |orders| == |paths| > 1
    requires forall c :: 0 <= c < |parts| ==> IsResponse(parts[c], rows, orders[c], paths[c]) && PathsOf(join) <= paths[c]
    ensures var n := |parts| - 1; forall c :: 0 <= c < n ==>
      IsResponse(parts[..n][c], rows, orders[..n][c], paths[..n][c]) && PathsOf(join) <= paths[..n][c]
    ensures orders[..|parts| - 1][0] == orders[0]
  {
    hide IsResponse, PathsOf;
  }

  /** When no join field is nested, the rebuilt rows are exactly the original ones. */
  lemma FlatJoinIsExact(out: seq<Json>, rows: seq<Row>, order: seq<nat>, paths: set<Path>, join: seq<string>)
    requires Rebuilt(out, rows, order, paths, join)
    requires forall f :: f in join ==> |Parts(f)| == 1
    ensures forall i :: 0 <= i < |out| ==> out[i] == Object(Selected(Object(rows[order[i]]), paths))
  {
    assert Levels(join) == {[]};
    forall i | 0 <= i < |out| ensures out[i] == Object(Selected(Object(rows[order[i]]), paths)) {
      var s, x := Selected(Object(rows[order[i]]), paths), out[i].fields;
      assert FieldsAt(s, []) == s;
      assert x.Keys == s.Keys;
      assert x == s;
    }
  }

  /** With a flat join, only the presence and uniqueness of the keys is needed. */
  lemma FlatJoinable(rows: seq<Row>, join: seq<string>)
    requires forall f :: f in join ==> |Parts(f)| == 1
    requires forall i :: 0 <= i < |rows| ==> HasAll(rows[i], join)
    requires forall i, j :: 0 <= i < j < |rows| ==> KeyValues(rows[i], join) != KeyValues(rows[j], join)
    ensures Joinable(rows, join)
  {
    assert Levels(join) == {[]};
  }

  // ---- A text that writing changes ------------------------------------------------------

  const AMPERSAND := Text("\"a&b\"")

  /** One row's chunk with the join field p and one field more. */
  function Chunk(row: Row, name: string): seq<Json>
    requires "p" in row && name in row
  {
    [Object(map["p" := row["p"], name := row[name]])]
  }

  /** A row whose join field holds an ampersand: one join rebuilds it, the next one fails, because what
      the first wrote is no longer what the third chunk holds. */
  lemma AmpersandStopsThirdChunk()
    ensures var row := map["p" := AMPERSAND, "x" := Null, "y" := Null, "z" := Null];
      && Rejoin([Chunk(row, "x"), Chunk(row, "y")], ["p"]).Some?
      && Rejoin([Chunk(row, "x"), Chunk(row, "y"), Chunk(row, "z")], ["p"]) == None
  {
    var row := map["p" := AMPERSAND, "x" := Null, "y" := Null, "z" := Null];
    OneName("p");
    OneRowIsJoinable(row);
    ChunkIsResponse(row, "x");
    ChunkIsResponse(row, "y");
    ChunkIsResponse(row, "z");
    hide Joinable, IsResponse, PathsOf, Rejoin, Chunk, Two, LaterSharedPlain;
    var two, three := [Two("p", "x"), Two("p", "y")], [Two("p", "x"), Two("p", "y"), Two("p", "z")];
    ChunksRebuildRows([Chunk(row, "x"), Chunk(row, "y")], [row], [[0], [0]], two, ["p"]);
    ChunksRebuildRows([Chunk(row, "x"), Chunk(row, "y"), Chunk(row, "z")], [row], [[0], [0], [0]], three, ["p"]);
    AmpersandIsShared(row, three);
    TwoChunksShareNothingLater([row], two);
  }

  lemma TwoChunksShareNothingLater(rows: seq<Row>, paths: seq<set<Path>>)
    requires |paths| <= 2
    ensures LaterSharedPlain(rows, paths)
  {
  }

  lemma ChunkIsResponse(row: Row, name: string)
    requires "p" in row && name in row && name != "p" && PathsOf(["p"]) == {["p"]}
    ensures IsResponse(Chunk(row, name), [row], [0], Two("p", name)) && PathsOf(["p"]) <= Two("p", name)
    ensures ["p"] in Two("p", name)
  {
    SelectsTwo(row, "p", name);
  }

  ghost function Two(a: string, b: string): set<Path> { {[a], [b]} }

  predicate IsOneLetter(f: string) { |f| == 1 && f[0] != '.' }

  lemma OneName(f: string)
    requires IsOneLetter(f)
    ensures Parts(f) == [f]
  {
    assert Parts(f[1..]) == [""];
    assert [f[0]] + "" == f;
    assert [""][1..] == [];
  }

  lemma OneRowIsJoinable(row: Row)
    requires "p" in row && Parts("p") == ["p"]
    ensures Joinable([row], ["p"]) && PathsOf(["p"]) == {["p"]}
  {
    assert At(Object(row), ["p"]) == Some(row["p"]) by {
      assert ["p"][1..] == [];
    }
    assert HasAll(row, ["p"]);
    FlatJoinable([row], ["p"]);
  }

  lemma SelectsTwo(row: Row, a: string, b: string)
    requires a in row && b in row && a != b
    ensures Selected(Object(row), Two(a, b)) == map[a := row[a], b := row[b]]
  {
    var two := Two(a, b);
    forall k ensures Tails(two, k) == if k == a || k == b then {[]} else {} {
      assert [a][1..] == [] && [b][1..] == [];
      assert k == a ==> [a] in two;
      assert k == b ==> [b] in two;
    }
    WholeStays(row[a], {[]});
    WholeStays(row[b], {[]});
    hide Project;
    assert Selected(Object(row), two).Keys == {a, b};
  }

  lemma AmpersandIsShared(row: Row, paths: seq<set<Path>>)
    requires "p" in row && row["p"] == AMPERSAND && |paths| == 3
    requires forall c :: 0 <= c < 3 ==> ["p"] in paths[c]
    ensures !LaterSharedPlain([row], paths)
  {
    assert ["p"] in Union(paths[..2]) by {
      assert Union(paths[..2]) == Union(paths[..2][..1]) + paths[..2][1];
    }
    var p, q := Union(paths[..2]), paths[2];
    assert [] in Tails(p, "p") && [] in Tails(q, "p") by {
      assert ["p"][1..] == [];
    }
    NotPlain();
    hide Plain;
    assert !SharedIsPlain(AMPERSAND, Tails(p, "p"), Tails(q, "p"));
    PlainEntries(Object(row), p, q);
    assert !SharedIsPlain(Object([row][0]), p, q);
  }

  lemma NotPlain()
    ensures !Plain(AMPERSAND.text)
  {
    assert AMPERSAND.text[1..][1..][0] == '&';
  }
}
