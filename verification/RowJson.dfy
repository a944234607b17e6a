/** JSON values of query rows: merging two partial values, and keeping only selected fields. */
module RowJson {
  import opened Options
  import opened JsonText

  /** Numbers, strings, booleans and arrays are compared by their text. */
  datatype Json = Null | Text(text: string) | Object(fields: map<string, Json>)

  type Path = seq<string>

  predicate DecodesToMap(j: Json) { j.Null? || j.Object? }

  // ---- Writing --------------------------------------------------------------------------

  /** The value after it was written out and read again: every text in it is the written one. */
  function Encode(j: Json): Json
    decreases j, 1
  {
    match j
    case Null => Null
    case Text(text) => Text(Written(text))
    case Object(_) => Object(EncodedFields(j))
  }

  function EncodedFields(j: Json): map<string, Json>
    requires j.Object?
    decreases j, 0
  {
    map k | k in j.fields :: Encode(j.fields[k])
  }

  lemma {:induction false} EncodedStays(j: Json)
    ensures Encode(Encode(j)) == Encode(j)
    decreases j
  {
    match j
    case Null =>
    case Text(text) => StaysExactlyWhen(text);
    case Object(fields) =>
      forall k | k in fields ensures Encode(Encode(fields[k])) == Encode(fields[k]) {
        EncodedStays(fields[k]);
      }
  }

  ghost predicate AllWellFormed(j: Json)
    decreases j
  {
    match j
    case Null => true
    case Text(text) => WellFormed(text)
    case Object(fields) => forall k :: k in fields ==> AllWellFormed(fields[k])
  }

  /** The value with every text replaced by what it means. */
  ghost function Sense(j: Json): Json
    decreases j
  {
    match j
    case Null => Null
    case Text(text) => Text(Meaning(text))
    case Object(fields) => Object(map k | k in fields :: Sense(fields[k]))
  }

  /** Writing a value does not change what it means, and values are written alike exactly when they mean
      the same. */
  lemma {:induction false} EncodeKeepsSense(a: Json, b: Json)
    requires AllWellFormed(a) && AllWellFormed(b)
    ensures Sense(Encode(a)) == Sense(a)
    ensures Encode(a) == Encode(b) <==> Sense(a) == Sense(b)
    decreases a
  {
    if a.Text? && b.Text? {
      WritingKeepsMeaning(a.text, b.text);
    } else if a.Text? {
      WritingKeepsMeaning(a.text, a.text);
    } else if a.Object? {
      forall k | k in a.fields ensures Sense(Encode(a.fields[k])) == Sense(a.fields[k]) {
        EncodeKeepsSense(a.fields[k], a.fields[k]);
      }
      assert Sense(Encode(a)) == Sense(a);
      if b.Object? && a.fields.Keys == b.fields.Keys {
        forall k | k in a.fields ensures Encode(a.fields[k]) == Encode(b.fields[k]) <==> Sense(a.fields[k]) == Sense(b.fields[k]) {
          EncodeKeepsSense(a.fields[k], b.fields[k]);
        }
        ObjectsAlike(a, b);
      } else if b.Object? {
        NamesDiffer(a, b);
      }
    }
  }

  lemma ObjectsAlike(a: Json, b: Json)
    requires a.Object? && b.Object? && a.fields.Keys == b.fields.Keys
    requires forall k :: k in a.fields ==> (Encode(a.fields[k]) == Encode(b.fields[k]) <==> Sense(a.fields[k]) == Sense(b.fields[k]))
    ensures Encode(a) == Encode(b) <==> Sense(a) == Sense(b)
  {
    hide Encode, Sense;
    EncodedKeys(a);
    EncodedKeys(b);
    SenseKeys(a);
    SenseKeys(b);
    MapsAlike(Encode(a).fields, Encode(b).fields, Sense(a).fields, Sense(b).fields);
  }

  lemma SenseKeys(j: Json)
    requires j.Object?
    ensures Sense(j).Object? && Sense(j).fields.Keys == j.fields.Keys
    ensures forall k :: k in j.fields ==> Sense(j).fields[k] == Sense(j.fields[k])
  {
  }

  lemma MapsAlike(x: map<string, Json>, y: map<string, Json>, u: map<string, Json>, v: map<string, Json>)
    requires x.Keys == y.Keys == u.Keys == v.Keys && forall k :: k in x ==> (x[k] == y[k] <==> u[k] == v[k])
    ensures x == y <==> u == v
  {
    if forall k :: k in x ==> x[k] == y[k] {
      assert x == y && u == v;
    }
  }

  lemma NamesDiffer(a: Json, b: Json)
    requires a.Object? && b.Object? && a.fields.Keys != b.fields.Keys
    ensures Encode(a) != Encode(b) && Sense(a) != Sense(b)
  {
    assert Encode(a).fields.Keys == a.fields.Keys && Encode(b).fields.Keys == b.fields.Keys;
    assert Sense(a).fields.Keys == a.fields.Keys && Sense(b).fields.Keys == b.fields.Keys;
  }

  // ---- Merging --------------------------------------------------------------------------

  /** Merges two values that must agree where they overlap: an object is written out, a shared text must
      be the same on both sides as it stands. None is an error, or the write to a nil map that a null on
      the left and a non-empty object on the right lead to. */
  function Merge(a: Json, b: Json): Option<Json>
    decreases b, 1
  {
    if !DecodesToMap(a) || !DecodesToMap(b) then if a == b then Some(a) else None
    else if b.Null? then Some(Encode(a))
    else if a.Null? then if b.fields == map[] then Some(Null) else None
    else var m := MergeMaps(a.fields, b);
      if m.None? then None else Some(Encode(Object(m.value)))
  }

  /** Adds every field of the object b to the map a. */
  function MergeMaps(a: map<string, Json>, b: Json): Option<map<string, Json>>
    requires b.Object?
    decreases b, 0
  {
    if forall k :: k in b.fields && k in a ==> Merge(a[k], b.fields[k]).Some?
    then Some(map k | k in a.Keys + b.fields.Keys ::
      if k !in b.fields then a[k] else if k !in a then b.fields[k] else Merge(a[k], b.fields[k]).value)
    else None
  }

  /** The loop over the right-hand fields, in no particular order. */
  method MergeJSON(a: Json, b: Json) returns (r: Option<Json>)
    ensures r == Merge(a, b)
    decreases b, 1
  {
    if !DecodesToMap(a) || !DecodesToMap(b) {
      return if a != b then None else Some(a);
    }
    if b.Null? || (a.Null? && b.fields == map[]) {
      return Some(Encode(a));
    }
    if a.Null? {
      return None;
    }
    var m := MergeFields(a.fields, b);
    r := if m.None? then None else Some(Encode(Object(m.value)));
  }

  method MergeFields(a: map<string, Json>, b: Json) returns (r: Option<map<string, Json>>)
    requires b.Object?
    ensures r == MergeMaps(a, b)
    decreases b, 0
  {
    hide Merge, MergeMaps, Partly;
    var out, todo := a, b.fields.Keys;
    PartlyStart(a, b.fields);
    while todo != {}
      invariant todo <= b.fields.Keys && Partly(a, b.fields, out, todo)
      decreases |todo|
    {
      var k :| k in todo;
      var v := b.fields[k];
      PartlyKeeps(a, b.fields, out, todo, k);
      if k in out {
        var merged := MergeJSON(out[k], v);
        if merged.None? {
          Disagreement(a, b, k);
          return None;
        }
        v := merged.value;
      }
      PartlyStep(a, b.fields, out, todo, k, v);
      out := out[k := v];
      todo := todo - {k};
    }
    PartlyEnds(a, b, out);
    r := Some(out);
  }

  /** The state of the merge while some right-hand names are still to do. */
  ghost predicate Partly(a: map<string, Json>, b: map<string, Json>, out: map<string, Json>, todo: set<string>)
  {
    && out.Keys == a.Keys + (b.Keys - todo)
    && (forall k :: k in a && (k !in b || k in todo) ==> out[k] == a[k])
    && (forall k :: k in b && k !in todo ==> Combined(a, b, k, out[k]))
  }

  ghost predicate Combined(a: map<string, Json>, b: map<string, Json>, k: string, v: Json)
    requires k in b
  {
    if k in a then Merge(a[k], b[k]) == Some(v) else v == b[k]
  }

  lemma PartlyStart(a: map<string, Json>, b: map<string, Json>)
    ensures Partly(a, b, a, b.Keys)
  {
  }

  lemma PartlyKeeps(a: map<string, Json>, b: map<string, Json>, out: map<string, Json>, todo: set<string>, k: string)
    requires Partly(a, b, out, todo) && k in todo && k in b
    ensures k in out <==> k in a
    ensures k in a ==> out[k] == a[k]
  {
  }

  lemma PartlyStep(a: map<string, Json>, b: map<string, Json>, out: map<string, Json>, todo: set<string>, k: string,
                   v: Json)
    requires Partly(a, b, out, todo) && k in todo && k in b && Combined(a, b, k, v)
    ensures Partly(a, b, out[k := v], todo - {k})
  {
    hide Merge;
  }

  lemma PartlyEnds(a: map<string, Json>, b: Json, out: map<string, Json>)
    requires b.Object? && Partly(a, b.fields, out, {})
    ensures MergeMaps(a, b) == Some(out)
  {
    hide Merge, MergeMaps;
    assert forall k :: k in b.fields ==> Combined(a, b.fields, k, out[k]);
    Merged(a, b, out);
  }

  lemma Disagreement(a: map<string, Json>, b: Json, k: string)
    requires b.Object? && k in a && k in b.fields && Merge(a[k], b.fields[k]).None?
    ensures MergeMaps(a, b) == None
  {
  }

  lemma Merged(a: map<string, Json>, b: Json, out: map<string, Json>)
    requires b.Object? && out.Keys == a.Keys + b.fields.Keys
    requires forall k :: k in a && k !in b.fields ==> out[k] == a[k]
    requires forall k :: k in b.fields && k !in a ==> out[k] == b.fields[k]
    requires forall k :: k in b.fields && k in a ==> Merge(a[k], b.fields[k]) == Some(out[k])
    ensures MergeMaps(a, b) == Some(out)
  {
    hide Merge;
    assert out == MergeMaps(a, b).value;
  }

  /** Nulls do not merge alike on both sides. */
  lemma NullNeedsAnEmptyRight(fields: map<string, Json>)
    ensures Merge(Null, Object(fields)).Some? <==> fields == map[]
    ensures Merge(Object(fields), Null) == Some(Encode(Object(fields)))
  {
  }

  // ---- Selecting ------------------------------------------------------------------------

  /** What is left of the paths below a name; a path that ends selects everything below it. */
  ghost function Tails(paths: set<Path>, k: string): set<Path>
  {
    (set p | p in paths && |p| > 0 && p[0] == k :: p[1..]) + (if [] in paths then {[]} else {})
  }

  ghost function TailsAt(paths: set<Path>, q: Path): set<Path>
    decreases |q|
  {
    if q == [] then paths else TailsAt(Tails(paths, q[0]), q[1..])
  }

  /** The value a query selecting these paths returns. */
  ghost function Project(j: Json, paths: set<Path>): Json
    decreases j, 1
  {
    if j.Object? then Object(Selected(j, paths)) else j
  }

  ghost function Selected(j: Json, paths: set<Path>): map<string, Json>
    requires j.Object?
    decreases j, 0
  {
    map k | k in j.fields && Tails(paths, k) != {} :: Project(j.fields[k], Tails(paths, k))
  }

  lemma TailsUnion(p: set<Path>, q: set<Path>, k: string)
    ensures Tails(p + q, k) == Tails(p, k) + Tails(q, k)
  {
  }

  /** Selecting from a written value is writing the selection. */
  lemma {:induction false} EncodeSelects(j: Json, paths: set<Path>)
    ensures Encode(Project(j, paths)) == Project(Encode(j), paths)
    ensures j.Object? ==> EncodedFields(Object(Selected(j, paths))) == Selected(Encode(j), paths)
    decreases j
  {
    if j.Object? {
      forall k | k in j.fields ensures Encode(Project(j.fields[k], Tails(paths, k))) == Project(Encode(j.fields[k]), Tails(paths, k)) {
        EncodeSelects(j.fields[k], Tails(paths, k));
      }
      assert EncodedFields(Object(Selected(j, paths))) == Selected(Encode(j), paths);
    }
  }

  // ---- Merging two selections -----------------------------------------------------------

  /** A value as it came, or as it was written. */
  function Kept(written: bool, j: Json): Json { if written then Encode(j) else j }

  lemma KeptIsEncoded(written: bool, j: Json)
    ensures Encode(Kept(written, j)) == Encode(j)
    ensures j.Object? <==> Kept(written, j).Object?
    ensures j.Object? ==> Kept(written, j).fields.Keys == j.fields.Keys
    ensures j.Object? ==> forall k :: k in j.fields ==> Kept(written, j).fields[k] == Kept(written, j.fields[k])
  {
    EncodedStays(j);
  }

  /** Every text that both selections contain stays as it is when written. */
  ghost predicate SharedIsPlain(j: Json, p: set<Path>, q: set<Path>)
    decreases j
  {
    match j
    case Null => true
    case Text(text) => Plain(text)
    case Object(fields) =>
      forall k :: k in fields && Tails(p, k) != {} && Tails(q, k) != {} ==>
        SharedIsPlain(fields[k], Tails(p, k), Tails(q, k))
  }

  /** Two selections of one value merge, to the written selection of the paths of both, always when
      neither was written, and exactly when all they share is plain when the left one was. */
  lemma {:induction false} SelectionsMerge(written: bool, j: Json, p: set<Path>, q: set<Path>)
    ensures var r := Merge(Project(Kept(written, j), p), Project(j, q));
      && (r.Some? <==> !written || SharedIsPlain(j, p, q))
      && (r.Some? ==> Encode(r.value) == Project(Encode(j), p + q))
    decreases j, 1
  {
    match j
    case Null =>
    case Text(text) => StaysExactlyWhen(text);
    case Object(fields) =>
      SelectedMerge(written, j, p, q);
      hide Encode, Kept, MergeMaps, Selected, SharedIsPlain;
      ObjectsMerge(written, j, p, q);
  }

  lemma ObjectsMerge(written: bool, j: Json, p: set<Path>, q: set<Path>)
    requires j.Object?
    ensures var m := MergeMaps(Selected(Kept(written, j), p), Object(Selected(j, q)));
      var r := Merge(Project(Kept(written, j), p), Project(j, q));
      (r.Some? <==> m.Some?) && (r.Some? ==> Encode(r.value) == Object(EncodedFields(Object(m.value))))
    ensures Project(Encode(j), p + q) == Object(Selected(Encode(j), p + q))
  {
    KeptIsEncoded(written, j);
    hide MergeMaps, Selected, Kept;
    var m := MergeMaps(Selected(Kept(written, j), p), Object(Selected(j, q)));
    if m.Some? {
      EncodedStays(Object(m.value));
    }
  }

  lemma {:induction false} SelectedMerge(written: bool, j: Json, p: set<Path>, q: set<Path>)
    requires j.Object?
    ensures var m := MergeMaps(Selected(Kept(written, j), p), Object(Selected(j, q)));
      && (m.Some? <==> !written || SharedIsPlain(j, p, q))
      && (m.Some? ==> EncodedFields(Object(m.value)) == Selected(Encode(j), p + q))
    decreases j, 0
  {
    KeptIsEncoded(written, j);
    forall k | k in j.fields
      ensures Entries(written, j.fields[k], Tails(p, k), Tails(q, k))
      ensures Tails(p + q, k) == Tails(p, k) + Tails(q, k)
    {
      TailsUnion(p, q, k);
      SelectionsMerge(written, j.fields[k], Tails(p, k), Tails(q, k));
      OneEntry(written, j.fields[k], Tails(p, k), Tails(q, k));
    }
    FieldsMerge(written, j, p, q);
  }

  /** How one entry of an object fares in the merge of two selections. */
  ghost predicate Entries(written: bool, v: Json, p: set<Path>, q: set<Path>)
  {
    var a, b, r := Project(Kept(written, v), p), Project(v, q), Merge(Project(Kept(written, v), p), Project(v, q));
    && (r.Some? <==> !written || SharedIsPlain(v, p, q))
    && (r.Some? ==> Encode(r.value) == Project(Encode(v), p + q))
    && Encode(a) == Project(Encode(v), p) && Encode(b) == Project(Encode(v), q)
  }

  lemma OneEntry(written: bool, v: Json, p: set<Path>, q: set<Path>)
    requires var r := Merge(Project(Kept(written, v), p), Project(v, q));
      && (r.Some? <==> !written || SharedIsPlain(v, p, q))
      && (r.Some? ==> Encode(r.value) == Project(Encode(v), p + q))
    ensures Entries(written, v, p, q)
  {
    hide Merge, Project, SharedIsPlain;
    EncodeSelects(Kept(written, v), p);
    EncodeSelects(v, q);
    KeptIsEncoded(written, v);
  }

  lemma FieldsMerge(written: bool, j: Json, p: set<Path>, q: set<Path>)
    requires j.Object?
    requires forall k :: k in j.fields ==> Entries(written, j.fields[k], Tails(p, k), Tails(q, k))
    requires forall k :: k in j.fields ==> Tails(p + q, k) == Tails(p, k) + Tails(q, k)
    ensures var m := MergeMaps(Selected(Kept(written, j), p), Object(Selected(j, q)));
      && (m.Some? <==> !written || SharedIsPlain(j, p, q))
      && (m.Some? ==> EncodedFields(Object(m.value)) == Selected(Encode(j), p + q))
  {
    hide Merge, Project, Tails, Encode, Kept;
    KeptIsEncoded(written, j);
    SharedEntries(written, j, p, q);
    var a, b := Selected(Kept(written, j), p), Selected(j, q);
    var m := MergeMaps(a, Object(b));
    if m.Some? {
      EncodedKeys(j);
      var out := Selected(Encode(j), p + q);
      MergedFields(a, Object(b));
      hide MergeMaps, Entries;
      forall k | k in j.fields ensures k in m.value <==> k in out
        ensures k in out ==> Encode(m.value[k]) == out[k]
      {
        MergedSelection(Kept(written, j.fields[k]), j.fields[k], written, Tails(p, k), Tails(q, k));
      }
      SameEntries(m.value, out);
    }
  }

  lemma SameEntries(m: map<string, Json>, out: map<string, Json>)
    requires m.Keys == out.Keys && forall k :: k in out ==> Encode(m[k]) == out[k]
    ensures EncodedFields(Object(m)) == out
  {
    hide Encode;
  }

  lemma EncodedKeys(j: Json)
    requires j.Object?
    ensures Encode(j).Object? && Encode(j).fields.Keys == j.fields.Keys
    ensures forall k :: k in j.fields ==> Encode(j).fields[k] == Encode(j.fields[k])
  {
  }

  /** Success depends on the shared entries alone. */
  lemma SharedEntries(written: bool, j: Json, p: set<Path>, q: set<Path>)
    requires j.Object?
    requires forall k :: k in j.fields ==> Entries(written, j.fields[k], Tails(p, k), Tails(q, k))
    ensures MergeMaps(Selected(Kept(written, j), p), Object(Selected(j, q))).Some? <==> !written || SharedIsPlain(j, p, q)
  {
    SelectedKeys(written, j, p);
    SelectedKeys(false, j, q);
    hide Merge, MergeMaps, Project, Tails, Encode, Kept, Selected, Entries, SharedIsPlain;
    var a, b := Selected(Kept(written, j), p), Selected(Kept(false, j), q);
    forall k | k in j.fields
      ensures k in a && k in b <==> Tails(p, k) != {} && Tails(q, k) != {}
      ensures k in a && k in b ==>
        (Merge(a[k], b[k]).Some? <==> !written || SharedIsPlain(j.fields[k], Tails(p, k), Tails(q, k)))
    {
      EntryMerges(written, j.fields[k], Tails(p, k), Tails(q, k));
    }
    MergeSucceeds(a, Object(b));
    PlainEntries(j, p, q);
    if MergeMaps(a, Object(b)).Some? && written {
      forall k | k in j.fields && Tails(p, k) != {} && Tails(q, k) != {}
        ensures SharedIsPlain(j.fields[k], Tails(p, k), Tails(q, k))
      {
        assert k in a && k in b;
      }
    }
  }

  lemma SelectedKeys(written: bool, j: Json, p: set<Path>)
    requires j.Object?
    ensures Kept(written, j).Object? && Kept(false, j) == j
    ensures var a := Selected(Kept(written, j), p);
      && (forall k :: k in a <==> k in j.fields && Tails(p, k) != {})
      && (forall k :: k in a ==> a[k] == Project(Kept(written, j.fields[k]), Tails(p, k)))
  {
    hide Tails, Project;
    KeptIsEncoded(written, j);
  }

  lemma EntryMerges(written: bool, v: Json, p: set<Path>, q: set<Path>)
    requires Entries(written, v, p, q)
    ensures Merge(Project(Kept(written, v), p), Project(Kept(false, v), q)).Some? <==> !written || SharedIsPlain(v, p, q)
  {
    hide Merge, Project;
  }

  lemma MergeSucceeds(a: map<string, Json>, b: Json)
    requires b.Object?
    ensures MergeMaps(a, b).Some? <==> forall k :: k in a && k in b.fields ==> Merge(a[k], b.fields[k]).Some?
  {
    hide Merge;
  }

  lemma PlainEntries(j: Json, p: set<Path>, q: set<Path>)
    requires j.Object?
    ensures SharedIsPlain(j, p, q) <==>
      forall k :: k in j.fields && Tails(p, k) != {} && Tails(q, k) != {} ==>
        SharedIsPlain(j.fields[k], Tails(p, k), Tails(q, k))
  {
    hide Tails;
  }

  lemma MergedFields(a: map<string, Json>, b: Json)
    requires b.Object? && MergeMaps(a, b).Some?
    ensures var m := MergeMaps(a, b).value;
      && m.Keys == a.Keys + b.fields.Keys
      && forall k :: k in m ==>
           if k !in b.fields then m[k] == a[k] else if k !in a then m[k] == b.fields[k]
           else Merge(a[k], b.fields[k]) == Some(m[k])
  {
    hide Merge;
  }

  /** Whichever sides have the entry, it is the written selection of both. */
  lemma MergedSelection(kept: Json, v: Json, written: bool, p: set<Path>, q: set<Path>)
    requires kept == Kept(written, v) && Entries(written, v, p, q)
    ensures p + {} == p && {} + q == q
    ensures q == {} ==> Encode(Project(kept, p)) == Project(Encode(v), p + q)
    ensures p == {} ==> Encode(Project(v, q)) == Project(Encode(v), p + q)
    ensures var r := Merge(Project(kept, p), Project(v, q)); r.Some? ==> Encode(r.value) == Project(Encode(v), p + q)
  {
    hide Merge, Project, Kept, Encode;
    assert p + {} == p && {} + q == q;
  }

  // ---- Looking inside -------------------------------------------------------------------

  function At(j: Json, q: Path): Option<Json>
    decreases |q|
  {
    if q == [] then Some(j)
    else if j.Object? && q[0] in j.fields then At(j.fields[q[0]], q[1..])
    else None
  }

  /** The named entries of the object found at a path, none if no object is there. */
  function FieldsAt(row: map<string, Json>, q: Path): map<string, Json>
  {
    var o := At(Object(row), q);
    if o.Some? && o.value.Object? then o.value.fields else map[]
  }

  lemma {:induction false} SelectedAt(j: Json, paths: set<Path>, q: Path)
    requires j.Object?
    ensures FieldsAt(Selected(j, paths), q) == Selected(Object(FieldsAt(j.fields, q)), TailsAt(paths, q))
    decreases |q|
  {
    if q != [] {
      var t := Tails(paths, q[0]);
      if q[0] in j.fields && t != {} {
        var child := j.fields[q[0]];
        if child.Object? {
          SelectedAt(child, t, q[1..]);
        } else {
          assert At(child, q[1..]) == At(Project(child, t), q[1..]);
        }
      } else if q[0] in j.fields {
        NothingSelected(q[1..]);
        assert Selected(Object(FieldsAt(j.fields, q)), {}) == map[];
      }
    }
  }

  lemma {:induction false} NothingSelected(q: Path)
    ensures TailsAt({}, q) == {}
  {
    if q != [] {
      assert Tails({}, q[0]) == {};
      NothingSelected(q[1..]);
    }
  }

  lemma {:induction false} TailsAtUnion(p: set<Path>, q: set<Path>, at: Path)
    ensures TailsAt(p + q, at) == TailsAt(p, at) + TailsAt(q, at)
    decreases |at|
  {
    if at != [] {
      TailsUnion(p, q, at[0]);
      TailsAtUnion(Tails(p, at[0]), Tails(q, at[0]), at[1..]);
    }
  }

  /** A path into a row that is selected stays, with its value when nothing below it was cut off. */
  lemma {:induction false} PathStays(j: Json, paths: set<Path>, q: Path)
    requires q in paths && At(j, q).Some?
    ensures At(Project(j, paths), q) == At(j, q)
    decreases |q|
  {
    if q == [] {
      WholeStays(j, paths);
    } else {
      assert q[1..] in Tails(paths, q[0]);
      PathStays(j.fields[q[0]], Tails(paths, q[0]), q[1..]);
    }
  }

  lemma {:induction false} WholeStays(j: Json, paths: set<Path>)
    requires [] in paths
    ensures Project(j, paths) == j
    decreases j
  {
    if j.Object? {
      forall k | k in j.fields ensures Project(j.fields[k], Tails(paths, k)) == j.fields[k] {
        WholeStays(j.fields[k], Tails(paths, k));
      }
      assert Selected(j, paths) == j.fields;
    }
  }

  // ---- What any merge does --------------------------------------------------------------

  /** A text faces something else, or a null on the left an object with fields. */
  predicate Clash(x: Json, y: Json)
  {
    ((x.Text? || y.Text?) && x != y) || (x.Null? && y.Object? && y.fields != map[])
  }

  /** The two values clash at this path. */
  predicate ClashAt(a: Json, b: Json, q: Path)
  {
    At(a, q).Some? && At(b, q).Some? && Clash(At(a, q).value, At(b, q).value)
  }

  lemma ClashBelow(a: Json, b: Json, k: string, q: Path)
    requires a.Object? && b.Object? && k in a.fields && k in b.fields
    ensures ClashAt(a, b, [k] + q) <==> ClashAt(a.fields[k], b.fields[k], q)
  {
    assert ([k] + q)[1..] == q;
  }

  /** Two values fail to merge exactly when they clash somewhere. */
  lemma {:induction false} MergeFailsExactlyWhen(a: Json, b: Json)
    ensures Merge(a, b).None? <==> exists q :: ClashAt(a, b, q)
    decreases b
  {
    hide Clash, MergeMaps;
    OnlyHere(a, b);
    if a.Object? && b.Object? {
      forall k | k in a.fields && k in b.fields
        ensures Merge(a.fields[k], b.fields[k]).None? <==> exists q :: ClashAt(a.fields[k], b.fields[k], q)
      {
        MergeFailsExactlyWhen(a.fields[k], b.fields[k]);
      }
      MergeSucceeds(a.fields, b);
      hide Merge;
      if Merge(a, b).None? {
        assert MergeMaps(a.fields, b).None? by { MergedObjects(a, b); }
        var k :| k in a.fields && k in b.fields && Merge(a.fields[k], b.fields[k]).None?;
        var q :| ClashAt(a.fields[k], b.fields[k], q);
        ClashBelow(a, b, k, q);
      }
      if q :| ClashAt(a, b, q) {
        MergedObjects(a, b);
        assert q == [q[0]] + q[1..];
        ClashBelow(a, b, q[0], q[1..]);
      }
    }
  }

  lemma MergedObjects(a: Json, b: Json)
    requires a.Object? && b.Object?
    ensures Merge(a, b).None? <==> MergeMaps(a.fields, b).None?
    ensures !ClashAt(a, b, [])
    ensures MergeMaps(a.fields, b).Some? ==> Merge(a, b) == Some(Encode(Object(MergeMaps(a.fields, b).value)))
  {
    hide MergeMaps;
  }

  /** Unless both are objects a clash is at the top. */
  lemma OnlyHere(a: Json, b: Json)
    ensures !(a.Object? && b.Object?) ==>
      && (Merge(a, b).None? <==> ClashAt(a, b, []))
      && forall q :: ClashAt(a, b, q) ==> q == []
  {
    hide MergeMaps;
  }

  /** A merged value, as written, has every path of both and every text of both, and no other text. */
  lemma {:induction false} MergeHolds(a: Json, b: Json, q: Path)
    requires Merge(a, b).Some?
    ensures var r, x, y := At(Encode(Merge(a, b).value), q), At(Encode(a), q), At(Encode(b), q);
      && (r.Some? <==> x.Some? || y.Some?)
      && (x.Some? && x.value.Text? ==> r == x) && (y.Some? && y.value.Text? ==> r == y)
      && (r.Some? && r.value.Text? ==> r == x || r == y)
    decreases |q|
  {
    EncodedStays(a);
    if a.Object? && b.Object? {
      MergedObjects(a, b);
      var m := MergeMaps(a.fields, b).value;
      EncodedStays(Object(m));
      MergedFields(a.fields, b);
      EncodedKeys(a);
      EncodedKeys(b);
      EncodedKeys(Object(m));
      hide Merge, MergeMaps, Encode;
      if q != [] && q[0] in a.fields && q[0] in b.fields {
        MergeHolds(a.fields[q[0]], b.fields[q[0]], q[1..]);
      }
    }
  }
}
