/** What a join does to rows whose join field is nested one level down. */
module NestedJoin {
  import opened Options
  import opened RowJson
  import opened RowJoin
  import opened RowRejoin

  /** Reading a join field one level down leaves the row's own entries alone exactly when the nested
      object gives the same value to every name it shares with the row. */
  lemma WalkKeepsRowExactlyWhen(row: Row, outer: string, inner: string)
    requires outer in row && row[outer].Object? && inner in row[outer].fields
    ensures var nested := row[outer].fields; var r := Walk(row, [outer, inner]);
      && r.Some? && r.value.0 == nested[inner]
      && (Holds(r.value.1, row) <==> forall k :: k in nested && k in row ==> nested[k] == row[k])
  {
    var nested := row[outer].fields;
    assert [outer, inner][1..] == [inner];
    assert Walk(row + nested, [inner]) == Some((nested[inner], row + nested));
  }

  /** Every value merges with itself. */
  lemma MergesWithItself(v: Json)
    ensures Merge(v, v).Some? && Encode(Merge(v, v).value) == Encode(v)
  {
    var all: set<Path> := {[]};
    SelectionsMerge(false, v, all, all);
    WholeStays(v, all);
    WholeStays(Encode(v), all);
    assert all + all == all;
  }

  /** No object is one of its own entries. */
  lemma {:induction false} NotInside(j: Json, k: string)
    requires j.Object? && k in j.fields
    ensures j.fields[k] != j
    decreases j
  {
    if j.fields[k] == j {
      NotInside(j.fields[k], k);
    }
  }

  lemma EncodedObject(row: Row)
    ensures Encode(Object(row)) == Object(EncodedFields(Object(row)))
  {
  }

  lemma NotWrittenInside(fields: map<string, Json>, k: string)
    requires k in fields
    ensures Encode(fields[k]) != Encode(Object(fields))
  {
    assert Encode(Object(fields)) == Object(EncodedFields(Object(fields)));
    NotInside(Encode(Object(fields)), k);
  }

  /** The row with only a nested join field. */
  function OnlyKey(row: Row, outer: string, inner: string): Row
    requires outer in row && row[outer].Object? && inner in row[outer].fields
  {
    map[outer := Object(map[inner := row[outer].fields[inner]])]
  }

  /** The chunk with only the key, joined with the whole row: the join is the merge of the two walked
      rows. */
  lemma OneRowJoin(row: Row, outer: string, inner: string, field: string)
    requires Parts(field) == [outer, inner] && outer in row && row[outer].Object? && inner in row[outer].fields
    ensures var nested := row[outer].fields;
      var out := Join([Object(OnlyKey(row, outer, inner))], [Object(row)], [field]);
      var m := MergeMaps(KeySide(row, outer, inner), Object(RowSide(row, outer)));
      out == if m.Some? then Some([Encode(Object(m.value))]) else None
  {
    var nested := row[outer].fields;
    var left := OnlyKey(row, outer, inner);
    KeyOfOneNested(row, outer, inner, field);
    KeyOfOneNested(left, outer, inner, field);
    assert left[outer].fields == map[inner := nested[inner]];
    var m := MergeMaps(left + map[inner := nested[inner]], Object(row + nested));
    var out := Join([Object(left)], [Object(row)], [field]);
    hide RowKey, MergeMaps, Parts, Join, Encode;
    if m.Some? {
      assert JoinsTo(Object(left), Object(row), [field], Encode(Object(m.value)));
      JoinExactlyWhen([Object(left)], [Object(row)], [field], [Encode(Object(m.value))]);
    }
    if out.Some? {
      JoinExactlyWhen([Object(left)], [Object(row)], [field], out.value);
      assert JoinsTo(Object(left), Object(row), [field], out.value[0]);
    }
  }

  /** The chunk's row and the whole row, each with the object's entries added. */
  function KeySide(row: Row, outer: string, inner: string): Row
    requires outer in row && row[outer].Object? && inner in row[outer].fields
  {
    OnlyKey(row, outer, inner) + map[inner := row[outer].fields[inner]]
  }

  function RowSide(row: Row, outer: string): Row
    requires outer in row && row[outer].Object?
  {
    row + row[outer].fields
  }

  lemma SidesOf(row: Row, outer: string, inner: string)
    requires outer in row && row[outer].Object? && inner in row[outer].fields
    ensures var nested := row[outer].fields; var a, b := KeySide(row, outer, inner), RowSide(row, outer);
      && a.Keys == {outer, inner} && b.Keys == row.Keys + nested.Keys
      && a[inner] == b[inner] == nested[inner]
      && (outer != inner ==> a[outer] == OnlyKey(row, outer, inner)[outer])
      && b[outer] == if outer in nested then nested[outer] else row[outer]
  {
  }

  /** Only the object's own name may fail, and only when the object has an entry of that name. */
  lemma KeyMergesWhen(row: Row, outer: string, inner: string)
    requires outer in row && row[outer].Object? && inner in row[outer].fields
    ensures MergeMaps(KeySide(row, outer, inner), Object(RowSide(row, outer))).Some? <==>
      outer !in row[outer].fields || outer == inner
      || Merge(OnlyKey(row, outer, inner)[outer], row[outer].fields[outer]).Some?
  {
    var nested := row[outer].fields;
    SidesOf(row, outer, inner);
    MergesWithItself(nested[inner]);
    PartMerges(nested, inner);
    MergeSucceeds(KeySide(row, outer, inner), Object(RowSide(row, outer)));
    hide Merge, MergeMaps, Encode, KeySide, RowSide;
  }

  /** What the merge gives for each name: the whole row's entry, but never the object itself when the object
      has an entry of its own name. */
  lemma KeyMerges(row: Row, outer: string, inner: string)
    requires outer in row && row[outer].Object? && inner in row[outer].fields
    requires MergeMaps(KeySide(row, outer, inner), Object(RowSide(row, outer))).Some?
    ensures var nested := row[outer].fields; var right := RowSide(row, outer);
      var m := MergeMaps(KeySide(row, outer, inner), Object(right)).value;
      && m.Keys == right.Keys
      && (forall k :: k in right && k != outer ==> Encode(m[k]) == Encode(right[k]))
      && (Encode(m[outer]) == Encode(row[outer]) <==> outer !in nested)
  {
    var nested := row[outer].fields;
    SidesOf(row, outer, inner);
    MergesWithItself(nested[inner]);
    PartMerges(nested, inner);
    MergedFields(KeySide(row, outer, inner), Object(RowSide(row, outer)));
    hide Merge, MergeMaps, Encode, KeySide, RowSide;
    if outer in nested {
      NotWrittenInside(nested, outer);
      if outer != inner {
        NeverTheWhole(nested, outer, inner);
      }
    }
  }

  /** An object with one entry of another merges to the other. */
  lemma PartMerges(nested: Row, inner: string)
    requires inner in nested
    ensures var r := Merge(Object(map[inner := nested[inner]]), Object(nested));
      r.Some? && Encode(r.value) == Encode(Object(nested))
  {
    MergesWithItself(nested[inner]);
    var part := map[inner := nested[inner]];
    var m := MergeMaps(part, Object(nested));
    hide Merge;
    MergeSucceeds(part, Object(nested));
    MergedFields(part, Object(nested));
    assert Encode(Object(m.value)) == Encode(Object(nested));
    OfMaps(part, Object(nested));
    EncodedStays(Object(m.value));
  }

  lemma OfMaps(a: map<string, Json>, b: Json)
    requires b.Object?
    ensures Merge(Object(a), b) ==
      if MergeMaps(a, b).Some? then Some(Encode(Object(MergeMaps(a, b).value))) else None
  {
  }

  /** The entry of the object's own name, with the key added, is never the object. */
  lemma NeverTheWhole(nested: Row, outer: string, inner: string)
    requires outer in nested && inner in nested && outer != inner
    ensures var r := Merge(Object(map[inner := nested[inner]]), nested[outer]);
      r.Some? ==> Encode(r.value) != Encode(Object(nested))
  {
    var part := map[inner := nested[inner]];
    var r := Merge(Object(part), nested[outer]);
    if r.Some? && nested[outer].Object? {
      OfMaps(part, nested[outer]);
      var m := MergeMaps(part, nested[outer]).value;
      EncodedStays(Object(m));
      MergedFields(part, nested[outer]);
      EncodedKeys(Object(nested));
      EncodedKeys(Object(m));
      hide Merge, MergeMaps, Encode;
      assert nested[outer] == Object(nested[outer].fields);
      if outer in m {
        NotWrittenInside(nested[outer].fields, outer);
      }
    } else if r.Some? {
      EncodedStays(Object(part));
      assert outer !in Encode(Object(part)).fields && outer in Encode(Object(nested)).fields;
    }
  }

  /** A chunk that carries just a nested join field, joined with the whole row: it rebuilds the row's own
      entries exactly when the nested object gives the same value, as written, to every name it shares with
      the row. It succeeds, with the object's entries added to the row, when the object has no entry of its
      own name, and otherwise when that entry agrees with the key. */
  lemma NestedJoinRebuildsExactlyWhen(row: Row, outer: string, inner: string, field: string)
    requires Parts(field) == [outer, inner] && outer in row && row[outer].Object? && inner in row[outer].fields
    ensures var nested := row[outer].fields;
      var out := Join([Object(OnlyKey(row, outer, inner))], [Object(row)], [field]);
      && (out.Some? && |out.value| == 1 && out.value[0].Object? && Holds(out.value[0].fields, KeptRow(true, row)) <==>
            forall k :: k in nested && k in row ==> Encode(nested[k]) == Encode(row[k]))
      && (outer !in nested ==> out == Some([Encode(Object(row + nested))]))
      && (out.Some? <==>
            outer !in nested || outer == inner || Merge(OnlyKey(row, outer, inner)[outer], nested[outer]).Some?)
  {
    var nested := row[outer].fields;
    OneRowJoin(row, outer, inner, field);
    KeyMergesWhen(row, outer, inner);
    KeptEntries(true, row);
    if outer in nested {
      NotWrittenInside(nested, outer);
    }
    var m := MergeMaps(KeySide(row, outer, inner), Object(RowSide(row, outer)));
    EncodedKeys(Object(row + nested));
    hide MergeMaps, Join, KeptRow, Encode, Merge;
    if m.Some? {
      KeyMerges(row, outer, inner);
      KeptEntries(true, m.value);
      KeptObject(m.value);
      EncodedKeys(Object(m.value));
      if outer !in nested {
        SameEntries(m.value, Encode(Object(row + nested)).fields);
        SameEntries(row + nested, Encode(Object(row + nested)).fields);
        EncodedObject(m.value);
        EncodedObject(row + nested);
      }
    }
  }

  const FIVE := Text("5")
  const TEN := Text("10")
  const ONE := Text("1")

  /** A join on d.x of a row whose object d and the row itself both have a count: the join succeeds
      and the row's count is replaced by the nested one. */
  lemma SharedNameIsOverwritten()
    ensures var row := map["d" := Object(map["x" := ONE, "count" := FIVE]), "count" := TEN];
      var out := Join([Object(OnlyKey(row, "d", "x"))], [Object(row)], ["d.x"]);
      && out.Some? && |out.value| == 1 && out.value[0].Object?
      && "count" in out.value[0].fields && out.value[0].fields["count"] == FIVE != row["count"]
  {
    var row := map["d" := Object(map["x" := ONE, "count" := FIVE]), "count" := TEN];
    PartsOfExample();
    NestedJoinRebuildsExactlyWhen(row, "d", "x", "d.x");
    assert Encode(FIVE) == FIVE;
    hide Join, Parts, Merge;
    EncodedKeys(Object(row + row["d"].fields));
    hide Encode;
  }

  /** A join on d.x of a row whose object d has an entry d that is no object: it fails. */
  lemma OwnNameFails()
    ensures var row := map["d" := Object(map["x" := ONE, "d" := FIVE])];
      Join([Object(OnlyKey(row, "d", "x"))], [Object(row)], ["d.x"]) == None
  {
    PartsOfExample();
    NestedJoinRebuildsExactlyWhen(map["d" := Object(map["x" := ONE, "d" := FIVE])], "d", "x", "d.x");
  }

  lemma PartsOfExample()
    ensures Parts("d.x") == ["d", "x"]
  {
    assert Parts("") == [""];
    assert "x"[1..] == "" && ".x"[1..] == "x" && "d.x"[1..] == ".x";
    assert ['x'] + "" == "x" && ['d'] + "" == "d";
    assert Parts("x") == ["x"] by {
      assert [""][1..] == [];
      assert Parts("x") == [['x'] + Parts("")[0]] + Parts("")[1..];
    }
    assert Parts(".x") == ["", "x"];
    assert ["", "x"][1..] == ["x"];
    assert Parts("d.x") == [['d'] + Parts(".x")[0]] + Parts(".x")[1..];
  }

  lemma KeyOfOneNested(row: Row, outer: string, inner: string, field: string)
    requires Parts(field) == [outer, inner] && outer in row && row[outer].Object? && inner in row[outer].fields
    ensures RowKey(Object(row), [field]) == Some(Keyed([Encode(row[outer].fields[inner])], row + row[outer].fields))
  {
    WalkKeepsRowExactlyWhen(row, outer, inner);
    var next := row + row[outer].fields;
    assert [outer, inner][1..] == [inner];
    assert Walk(row, [outer, inner]) == Some((row[outer].fields[inner], next));
    assert [field][0] == field && [field][1..] == [];
    assert KeyOf(next, [field][1..]) == Some(Keyed([], next));
    var v := row[outer].fields[inner];
    assert [v] + [] == [v];
    assert Walk(row, Parts([field][0])) == Some((v, next));
    hide Walk, Parts, Encode;
    assert KeyOf(row, [field]) == Some(Keyed([v], next));
    assert EncodeAll([v]) == [Encode(v)];
  }
}
