/** Joining the rows of separately queried field chunks by their join fields. */
module RowJoin {
  import opened Options
  import opened RowJson

  type Row = map<string, Json>

  /** The dot-separated parts of a field name. */
  function Parts(field: string): (r: Path)
    ensures |r| > 0
  {
    if |field| == 0 then [""]
    else if field[0] == '.' then [""] + Parts(field[1..])
    else var rest := Parts(field[1..]); [[field[0]] + rest[0]] + rest[1..]
  }

  /** The parts with dots between them. */
  function Dotted(parts: Path): string
  {
    if |parts| == 0 then "" else if |parts| == 1 then parts[0] else parts[0] + "." + Dotted(parts[1..])
  }

  /** The parts are the name cut at each of its dots. */
  lemma {:induction false} PartsRejoin(field: string)
    ensures Dotted(Parts(field)) == field
    ensures forall p :: p in Parts(field) ==> !HasDot(p)
  {
    if |field| > 0 {
      PartsRejoin(field[1..]);
      var rest := Parts(field[1..]);
      if field[0] == '.' {
        assert ([""] + rest)[1..] == rest;
      } else {
        var parts := [[field[0]] + rest[0]] + rest[1..];
        assert parts[1..] == rest[1..];
        assert !HasDot(rest[0]) && rest[0] in rest;
      }
    }
  }

  predicate HasDot(s: string) { '.' in s }

  // ---- Row keys -------------------------------------------------------------------------

  datatype Keyed = Keyed(values: seq<Json>, row: Row)

  /** The value a path leads to, and the row afterwards: decoding a nested object into the map that is
      being walked adds the object's entries to the row itself. */
  function Walk(row: Row, path: Path): Option<(Json, Row)>
    requires |path| > 0
    decreases |path|
  {
    if path[0] !in row then None
    else if |path| == 1 then Some((row[path[0]], row))
    else if row[path[0]].Object? then Walk(row + row[path[0]].fields, path[1..])
    else None
  }

  function KeyOf(row: Row, fields: seq<string>): Option<Keyed>
    decreases |fields|
  {
    if |fields| == 0 then Some(Keyed([], row)) else
      var first := Walk(row, Parts(fields[0]));
      if first.None? then None else
        var rest := KeyOf(first.value.1, fields[1..]);
        if rest.None? then None else Some(Keyed([first.value.0] + rest.value.values, rest.value.row))
  }

  function EncodeAll(values: seq<Json>): (r: seq<Json>)
    ensures |r| == |values| && forall i :: 0 <= i < |r| ==> r[i] == Encode(values[i])
  {
    seq(|values|, i requires 0 <= i < |values| => Encode(values[i]))
  }

  /** The key is the list of values as written. */
  function RowKey(raw: Json, fields: seq<string>): Option<Keyed>
  {
    if raw.Object? then Marshalled(KeyOf(raw.fields, fields))
    else if raw.Null? && fields == [] then Some(Keyed([], map[]))
    else None
  }

  function Marshalled(k: Option<Keyed>): Option<Keyed>
  {
    if k.None? then None else Some(Keyed(EncodeAll(k.value.values), k.value.row))
  }

  method WalkRow(start: Row, path: Path) returns (r: Option<(Json, Row)>)
    requires |path| > 0
    ensures r == Walk(start, path)
  {
    var row, i := start, 0;
    while i < |path| - 1
      invariant 0 <= i < |path| && Walk(start, path) == Walk(row, path[i..])
      decreases |path| - i
    {
      assert path[i..][0] == path[i] && |path[i..]| > 1;
      if path[i] !in row {
        return None;
      }
      match row[path[i]] {
        case Object(fields) => row := row + fields;
        // The map becomes nil, so the next part is missing from it.
        case Null => return None;
        case Text(_) => return None;
      }
      assert path[i..][1..] == path[i + 1..];
      i := i + 1;
    }
    assert path[i..] == [path[i]];
    r := if path[i] in row then Some((row[path[i]], row)) else None;
  }

  method KeyRow(raw: Json, fields: seq<string>) returns (r: Option<Keyed>)
    ensures r == RowKey(raw, fields)
  {
    if raw.Text? || (raw.Null? && fields != []) {
      return None;
    }
    var start := if raw.Null? then map[] else raw.fields;
    var row, values: seq<Json>, i := start, [], 0;
    assert fields[0..] == fields;
    AfterNothing(KeyOf(start, fields));
    hide Walk, Parts, KeyOf, After;
    while i < |fields|
      invariant 0 <= i <= |fields|
      invariant KeyOf(start, fields) == After(values, KeyOf(row, fields[i..]))
    {
      var found := WalkRow(row, Parts(fields[i]));
      KeyOfStep(values, row, fields, i);
      if found.None? {
        return None;
      }
      assert fields[i + 1..] == fields[i..][1..];
      values := values + [found.value.0];
      row := found.value.1;
      i := i + 1;
    }
    KeyOfNone(values, row);
    r := Some(Keyed(EncodeAll(values), row));
  }

  function After(values: seq<Json>, rest: Option<Keyed>): Option<Keyed>
  {
    if rest.None? then None else Some(Keyed(values + rest.value.values, rest.value.row))
  }

  lemma KeyOfStep(values: seq<Json>, row: Row, fields: seq<string>, i: nat)
    requires i < |fields|
    ensures After(values, KeyOf(row, fields[i..])) ==
      var found := Walk(row, Parts(fields[i]));
      if found.None? then None else After(values + [found.value.0], KeyOf(found.value.1, fields[i + 1..]))
  {
    assert fields[i..][1..] == fields[i + 1..];
    var found := Walk(row, Parts(fields[i]));
    if found.Some? {
      var rest := KeyOf(found.value.1, fields[i + 1..]);
      assert rest.Some? ==> values + ([found.value.0] + rest.value.values) == values + [found.value.0] + rest.value.values;
    }
  }

  lemma AfterNothing(rest: Option<Keyed>)
    ensures After([], rest) == rest
  {
    if rest.Some? {
      assert [] + rest.value.values == rest.value.values;
    }
  }

  lemma KeyOfNone(values: seq<Json>, row: Row)
    ensures After(values, KeyOf(row, [])) == Some(Keyed(values, row))
  {
    assert values + [] == values;
  }

  // ---- Joining two chunks ---------------------------------------------------------------

  type Index = map<seq<Json>, Row>

  /** Rows by key; None when a key is missing or repeated. */
  function IndexRows(rows: seq<Json>, fields: seq<string>): Option<Index>
  {
    if |rows| == 0 then Some(map[]) else
      var before := IndexRows(rows[..|rows| - 1], fields);
      var last := RowKey(rows[|rows| - 1], fields);
      if before.None? || last.None? || last.value.values in before.value then None
      else Some(before.value[last.value.values := last.value.row])
  }

  /** The joined rows, written out, in the order of the left ones, and the keys seen so far. */
  function Attach(left: seq<Json>, index: Index, fields: seq<string>): Option<(seq<Json>, set<seq<Json>>)>
  {
    if |left| == 0 then Some(([], {})) else
      var before := Attach(left[..|left| - 1], index, fields);
      var last := RowKey(left[|left| - 1], fields);
      if before.None? || last.None? || last.value.values in before.value.1 || last.value.values !in index then None
      else
        var merged := MergeMaps(last.value.row, Object(index[last.value.values]));
        if merged.None? then None
        else Some((before.value.0 + [Encode(Object(merged.value))], before.value.1 + {last.value.values}))
  }

  function Join(left: seq<Json>, right: seq<Json>, fields: seq<string>): Option<seq<Json>>
  {
    var index := IndexRows(right, fields);
    if |left| != |right| || index.None? then None else
      var r := Attach(left, index.value, fields);
      if r.None? then None else Some(r.value.0)
  }

  lemma {:induction false} IndexStopsEarly(rows: seq<Json>, i: nat, fields: seq<string>)
    requires i <= |rows| && IndexRows(rows[..i], fields).None?
    ensures IndexRows(rows, fields).None?
    decreases |rows|
  {
    if i < |rows| {
      assert rows[..|rows| - 1][..i] == rows[..i];
      IndexStopsEarly(rows[..|rows| - 1], i, fields);
    } else {
      assert rows[..i] == rows;
    }
  }

  lemma {:induction false} AttachStopsEarly(left: seq<Json>, i: nat, index: Index, fields: seq<string>)
    requires i <= |left| && Attach(left[..i], index, fields).None?
    ensures Attach(left, index, fields).None?
    decreases |left|
  {
    if i < |left| {
      assert left[..|left| - 1][..i] == left[..i];
      AttachStopsEarly(left[..|left| - 1], i, index, fields);
    } else {
      assert left[..i] == left;
    }
  }

  method IndexRight(right: seq<Json>, fields: seq<string>) returns (r: Option<Index>)
    ensures r == IndexRows(right, fields)
  {
    var index: Index, i := map[], 0;
    while i < |right|
      invariant 0 <= i <= |right| && IndexRows(right[..i], fields) == Some(index)
    {
      assert right[..i + 1][..i] == right[..i];
      var keyed := KeyRow(right[i], fields);
      if keyed.None? || keyed.value.values in index {
        IndexStopsEarly(right, i + 1, fields);
        return None;
      }
      index := index[keyed.value.values := keyed.value.row];
      i := i + 1;
    }
    assert right[..i] == right;
    r := Some(index);
  }

  method JoinRows(left: seq<Json>, right: seq<Json>, fields: seq<string>) returns (r: Option<seq<Json>>)
    ensures r == Join(left, right, fields)
  {
    if |left| != |right| {
      return None;
    }
    var index := IndexRight(right, fields);
    if index.None? {
      return None;
    }
    var out: seq<Json>, seen: set<seq<Json>>, i := [], {}, 0;
    while i < |left|
      invariant 0 <= i <= |left| && Attach(left[..i], index.value, fields) == Some((out, seen))
    {
      assert left[..i + 1][..i] == left[..i];
      var keyed := KeyRow(left[i], fields);
      if keyed.None? || keyed.value.values in seen || keyed.value.values !in index.value {
        AttachStopsEarly(left, i + 1, index.value, fields);
        return None;
      }
      var merged := MergeFields(keyed.value.row, Object(index.value[keyed.value.values]));
      if merged.None? {
        AttachStopsEarly(left, i + 1, index.value, fields);
        return None;
      }
      out := out + [Encode(Object(merged.value))];
      seen := seen + {keyed.value.values};
      i := i + 1;
    }
    assert left[..i] == left;
    r := Some(out);
  }

  // ---- When a join succeeds -------------------------------------------------------------

  ghost predicate AllKeyed(rows: seq<Json>, fields: seq<string>)
  {
    forall i :: 0 <= i < |rows| ==> RowKey(rows[i], fields).Some?
  }

  ghost predicate KeysDistinct(rows: seq<Json>, fields: seq<string>)
    requires AllKeyed(rows, fields)
  {
    forall i, j :: 0 <= i < j < |rows| ==> RowKey(rows[i], fields).value.values != RowKey(rows[j], fields).value.values
  }

  /** The merge succeeded and this is its row as written. */
  predicate WrittenAs(merged: Option<Row>, out: Json) { merged.Some? && out == Encode(Object(merged.value)) }

  /** The two rows share a key and merge to this row. */
  ghost predicate JoinsTo(a: Json, b: Json, fields: seq<string>, out: Json)
  {
    && RowKey(a, fields).Some? && RowKey(b, fields).Some?
    && RowKey(a, fields).value.values == RowKey(b, fields).value.values
    && WrittenAs(MergeMaps(RowKey(a, fields).value.row, Object(RowKey(b, fields).value.row)), out)
  }

  ghost predicate JoinsOne(a: Json, right: seq<Json>, fields: seq<string>, out: Json)
  {
    exists j :: 0 <= j < |right| && JoinsTo(a, right[j], fields, out)
  }

  /** Each left row joins one right row, and keys are unique on both sides. */
  ghost predicate Joined(left: seq<Json>, right: seq<Json>, fields: seq<string>, out: seq<Json>)
  {
    && |left| == |right| == |out| && AllKeyed(left, fields) && AllKeyed(right, fields)
    && KeysDistinct(left, fields) && KeysDistinct(right, fields)
    && forall i :: 0 <= i < |left| ==> JoinsOne(left[i], right, fields, out[i])
  }

  lemma {:induction false} IndexExactlyWhen(rows: seq<Json>, fields: seq<string>)
    ensures IndexRows(rows, fields).Some? <==> AllKeyed(rows, fields) && KeysDistinct(rows, fields)
    ensures IndexRows(rows, fields).Some? ==> Indexes(IndexRows(rows, fields).value, rows, fields)
  {
    if |rows| > 0 {
      var before := rows[..|rows| - 1];
      IndexExactlyWhen(before, fields);
      FewerRows(rows, fields);
      hide RowKey;
      if IndexRows(rows, fields).Some? {
        var index, last := IndexRows(before, fields).value, RowKey(rows[|rows| - 1], fields).value;
        IndexGrows(index, rows, fields);
      } else if IndexRows(before, fields).Some? && RowKey(rows[|rows| - 1], fields).Some? {
        var index, last := IndexRows(before, fields).value, RowKey(rows[|rows| - 1], fields).value;
        var i :| 0 <= i < |before| && RowKey(before[i], fields).value.values == last.values;
        assert before[i] == rows[i];
      }
    }
  }

  /** The index holds each row under its key and nothing else. */
  ghost predicate Indexes(index: Index, rows: seq<Json>, fields: seq<string>)
    requires AllKeyed(rows, fields)
  {
    && (forall i :: 0 <= i < |rows| ==>
          RowKey(rows[i], fields).value.values in index
          && index[RowKey(rows[i], fields).value.values] == RowKey(rows[i], fields).value.row)
    && (forall k :: k in index ==> exists i :: 0 <= i < |rows| && RowKey(rows[i], fields).value.values == k)
  }

  lemma IndexGrows(index: Index, rows: seq<Json>, fields: seq<string>)
    requires |rows| > 0 && AllKeyed(rows, fields) && AllKeyed(rows[..|rows| - 1], fields)
    requires Indexes(index, rows[..|rows| - 1], fields) && RowKey(rows[|rows| - 1], fields).value.values !in index
    ensures var last := RowKey(rows[|rows| - 1], fields).value;
      KeysDistinct(rows[..|rows| - 1], fields) ==>
        KeysDistinct(rows, fields) && Indexes(index[last.values := last.row], rows, fields)
  {
    hide RowKey;
    var before := rows[..|rows| - 1];
    assert forall i :: 0 <= i < |before| ==> before[i] == rows[i];
    var last := RowKey(rows[|rows| - 1], fields).value;
    var more := index[last.values := last.row];
    forall k | k in more ensures exists i :: 0 <= i < |rows| && RowKey(rows[i], fields).value.values == k {
      if k in index {
        var i :| 0 <= i < |before| && RowKey(before[i], fields).value.values == k;
        assert RowKey(rows[i], fields).value.values == k;
      } else {
        assert RowKey(rows[|rows| - 1], fields).value.values == k;
      }
    }
  }

  lemma FewerRows(rows: seq<Json>, fields: seq<string>)
    requires |rows| > 0
    ensures AllKeyed(rows, fields) <==> AllKeyed(rows[..|rows| - 1], fields) && RowKey(rows[|rows| - 1], fields).Some?
    ensures AllKeyed(rows, fields) && KeysDistinct(rows, fields) ==> KeysDistinct(rows[..|rows| - 1], fields)
  {
    hide RowKey;
    var before := rows[..|rows| - 1];
    assert forall i :: 0 <= i < |before| ==> before[i] == rows[i];
    if AllKeyed(before, fields) && RowKey(rows[|rows| - 1], fields).Some? {
      forall i | 0 <= i < |rows| ensures RowKey(rows[i], fields).Some? {
        if i < |rows| - 1 {
          assert before[i] == rows[i];
        }
      }
    }
  }

  /** One left row attaches to the indexed row of its key and merges to this row. */
  ghost predicate AttachesTo(a: Json, index: Index, fields: seq<string>, out: Json)
  {
    && RowKey(a, fields).Some? && RowKey(a, fields).value.values in index
    && WrittenAs(MergeMaps(RowKey(a, fields).value.row, Object(index[RowKey(a, fields).value.values])), out)
  }

  ghost predicate Attached(left: seq<Json>, index: Index, fields: seq<string>, out: seq<Json>)
  {
    && |left| == |out| && AllKeyed(left, fields) && KeysDistinct(left, fields)
    && forall i :: 0 <= i < |left| ==> AttachesTo(left[i], index, fields, out[i])
  }

  ghost predicate SeenAre(seen: set<seq<Json>>, left: seq<Json>, fields: seq<string>)
    requires AllKeyed(left, fields)
  {
    forall k :: k in seen <==> exists i :: 0 <= i < |left| && RowKey(left[i], fields).value.values == k
  }

  /** What the last left row adds. */
  lemma AttachOne(left: seq<Json>, index: Index, fields: seq<string>, out: Json)
    requires |left| > 0
    ensures var r := Attach(left, index, fields); var before := Attach(left[..|left| - 1], index, fields);
      var last := left[|left| - 1];
      && (r.Some? ==>
            && before.Some? && RowKey(last, fields).Some? && RowKey(last, fields).value.values !in before.value.1
            && |r.value.0| == |before.value.0| + 1 && r.value.0[..|before.value.0|] == before.value.0
            && r.value.1 == before.value.1 + {RowKey(last, fields).value.values}
            && AttachesTo(last, index, fields, r.value.0[|before.value.0|]))
      && (before.Some? && AttachesTo(last, index, fields, out)
          && RowKey(last, fields).value.values !in before.value.1 ==>
            r == Some((before.value.0 + [out], before.value.1 + {RowKey(last, fields).value.values})))
  {
    hide RowKey, MergeMaps, Encode;
  }

  lemma {:induction false} AttachedWhenSome(left: seq<Json>, index: Index, fields: seq<string>)
    requires Attach(left, index, fields).Some?
    ensures Attached(left, index, fields, Attach(left, index, fields).value.0)
    ensures SeenAre(Attach(left, index, fields).value.1, left, fields)
  {
    if |left| > 0 {
      hide RowKey, Attach, AttachesTo, SeenAre, AllKeyed, KeysDistinct;
      var before := left[..|left| - 1];
      AttachOne(left, index, fields, Null);
      AttachedWhenSome(before, index, fields);
      AttachedGrows(left, index, fields, Attach(left, index, fields).value.0, Attach(before, index, fields).value.1);
    } else {
      hide RowKey;
    }
  }

  lemma AttachedGrows(left: seq<Json>, index: Index, fields: seq<string>, out: seq<Json>, seen: set<seq<Json>>)
    requires |out| == |left| > 0 && Attached(left[..|left| - 1], index, fields, out[..|left| - 1])
    requires SeenAre(seen, left[..|left| - 1], fields)
    requires AttachesTo(left[|left| - 1], index, fields, out[|left| - 1])
    requires RowKey(left[|left| - 1], fields).value.values !in seen
    ensures Attached(left, index, fields, out)
    ensures SeenAre(seen + {RowKey(left[|left| - 1], fields).value.values}, left, fields)
  {
    FewerRows(left, fields);
    SeenGrows(seen, left, fields);
    hide RowKey, SeenAre, KeysDistinct, MergeMaps;
    var n := |left| - 1;
    forall i | 0 <= i < n ensures AttachesTo(left[i], index, fields, out[i]) {
      assert AttachesTo(left[..n][i], index, fields, out[..n][i]);
    }
  }

  lemma SeenGrows(seen: set<seq<Json>>, left: seq<Json>, fields: seq<string>)
    requires |left| > 0 && AllKeyed(left, fields) && AllKeyed(left[..|left| - 1], fields)
    requires SeenAre(seen, left[..|left| - 1], fields)
    ensures SeenAre(seen + {RowKey(left[|left| - 1], fields).value.values}, left, fields)
    ensures RowKey(left[|left| - 1], fields).value.values !in seen && KeysDistinct(left[..|left| - 1], fields) ==>
      KeysDistinct(left, fields)
  {
    hide RowKey;
    var before := left[..|left| - 1];
    assert forall i :: 0 <= i < |before| ==> before[i] == left[i];
    forall k | k in seen ensures exists i :: 0 <= i < |left| && RowKey(left[i], fields).value.values == k {
      var i :| 0 <= i < |before| && RowKey(before[i], fields).value.values == k;
      assert RowKey(left[i], fields).value.values == k;
    }
    forall i | 0 <= i < |before| ensures RowKey(left[i], fields).value.values in seen {
      assert RowKey(before[i], fields).value.values in seen;
    }
  }

  lemma {:induction false} SomeWhenAttached(left: seq<Json>, index: Index, fields: seq<string>, out: seq<Json>)
    requires Attached(left, index, fields, out)
    ensures Attach(left, index, fields).Some? && Attach(left, index, fields).value.0 == out
  {
    if |left| > 0 {
      var n := |left| - 1;
      var before := left[..n];
      FewerRows(left, fields);
      FewerAttached(left, index, fields, out);
      SomeWhenAttached(before, index, fields, out[..n]);
      AttachedWhenSome(before, index, fields);
      LastNotSeen(left, fields, Attach(before, index, fields).value.1);
      AttachOne(left, index, fields, out[n]);
      hide RowKey, Attach, AttachesTo, SeenAre, KeysDistinct;
      assert AttachesTo(left[n], index, fields, out[n]);
      assert out == out[..n] + [out[n]];
    }
  }

  lemma FewerAttached(left: seq<Json>, index: Index, fields: seq<string>, out: seq<Json>)
    requires |left| > 0 && Attached(left, index, fields, out)
    ensures Attached(left[..|left| - 1], index, fields, out[..|left| - 1])
  {
    FewerRows(left, fields);
    hide RowKey, AttachesTo;
    var n := |left| - 1;
    assert forall i :: 0 <= i < n ==> left[..n][i] == left[i] && out[..n][i] == out[i];
  }

  lemma LastNotSeen(left: seq<Json>, fields: seq<string>, seen: set<seq<Json>>)
    requires |left| > 0 && AllKeyed(left, fields) && KeysDistinct(left, fields) && AllKeyed(left[..|left| - 1], fields)
    requires SeenAre(seen, left[..|left| - 1], fields)
    ensures RowKey(left[|left| - 1], fields).value.values !in seen
  {
    hide RowKey;
    var before := left[..|left| - 1];
    assert forall i :: 0 <= i < |before| ==> before[i] == left[i];
  }

  /** A join gives exactly the rows of a one-to-one match of keys whose values all agree. */
  lemma JoinExactlyWhen(left: seq<Json>, right: seq<Json>, fields: seq<string>, out: seq<Json>)
    ensures Join(left, right, fields) == Some(out) <==> Joined(left, right, fields, out)
  {
    IndexExactlyWhen(right, fields);
    if Join(left, right, fields) == Some(out) {
      AttachedWhenSome(left, IndexRows(right, fields).value, fields);
      MatchedByIndex(left, right, IndexRows(right, fields).value, fields, out);
    }
    if Joined(left, right, fields, out) {
      MatchedByIndex(left, right, IndexRows(right, fields).value, fields, out);
      SomeWhenAttached(left, IndexRows(right, fields).value, fields, out);
    }
  }

  lemma MatchedByIndex(left: seq<Json>, right: seq<Json>, index: Index, fields: seq<string>, out: seq<Json>)
    requires AllKeyed(right, fields) && Indexes(index, right, fields) && |left| == |out|
    ensures forall i :: 0 <= i < |left| ==>
      (AttachesTo(left[i], index, fields, out[i]) <==> JoinsOne(left[i], right, fields, out[i]))
  {
    hide RowKey, MergeMaps, Encode;
    forall i | 0 <= i < |left|
      ensures AttachesTo(left[i], index, fields, out[i]) <==>
        JoinsOne(left[i], right, fields, out[i])
    {
      if AttachesTo(left[i], index, fields, out[i]) {
        var j :| 0 <= j < |right| && RowKey(right[j], fields).value.values == RowKey(left[i], fields).value.values;
        assert JoinsTo(left[i], right[j], fields, out[i]);
      }
    }
  }

  /** Success means the key sets of the two chunks are the same. */
  lemma KeySetsMatch(left: seq<Json>, right: seq<Json>, fields: seq<string>)
    requires Join(left, right, fields).Some?
    ensures AllKeyed(left, fields) && AllKeyed(right, fields)
    ensures (set i | 0 <= i < |left| :: RowKey(left[i], fields).value.values)
         == (set i | 0 <= i < |right| :: RowKey(right[i], fields).value.values)
  {
    JoinExactlyWhen(left, right, fields, Join(left, right, fields).value);
    var a := set i | 0 <= i < |left| :: RowKey(left[i], fields).value.values;
    var b := set i | 0 <= i < |right| :: RowKey(right[i], fields).value.values;
    forall i | 0 <= i < |left| ensures RowKey(left[i], fields).value.values in b {
      var j :| 0 <= j < |right| && JoinsTo(left[i], right[j], fields, Join(left, right, fields).value[i]);
    }
    AsManyKeys(left, fields);
    AsManyKeys(right, fields);
    Inside(a, b);
  }

  lemma Inside<T>(a: set<T>, b: set<T>)
    requires a <= b && |a| == |b|
    ensures a == b
  {
    assert b == a + (b - a);
  }

  lemma {:induction false} AsManyKeys(rows: seq<Json>, fields: seq<string>)
    requires AllKeyed(rows, fields) && KeysDistinct(rows, fields)
    ensures |set i | 0 <= i < |rows| :: RowKey(rows[i], fields).value.values| == |rows|
  {
    if |rows| > 0 {
      FewerRows(rows, fields);
      AsManyKeys(rows[..|rows| - 1], fields);
      OneMoreKey(rows, fields);
    }
  }

  lemma OneMoreKey(rows: seq<Json>, fields: seq<string>)
    requires |rows| > 0 && AllKeyed(rows, fields) && KeysDistinct(rows, fields) && AllKeyed(rows[..|rows| - 1], fields)
    ensures var before := rows[..|rows| - 1];
      |set i | 0 <= i < |rows| :: RowKey(rows[i], fields).value.values|
        == |set i | 0 <= i < |before| :: RowKey(before[i], fields).value.values| + 1
  {
    hide RowKey;
    var before := rows[..|rows| - 1];
    assert forall i :: 0 <= i < |before| ==> before[i] == rows[i];
    var a := set i | 0 <= i < |rows| :: RowKey(rows[i], fields).value.values;
    var b := set i | 0 <= i < |before| :: RowKey(before[i], fields).value.values;
    var last := RowKey(rows[|rows| - 1], fields).value.values;
    assert a == b + {last} by {
      forall i | 0 <= i < |before| ensures RowKey(before[i], fields).value.values in a {
        assert before[i] == rows[i];
      }
      forall i | 0 <= i < |rows| ensures RowKey(rows[i], fields).value.values in b + {last} {
        if i < |before| {
          assert before[i] == rows[i];
        }
      }
    }
    assert last !in b;
  }
}
