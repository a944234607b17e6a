/** Rows queried in field chunks are rebuilt by joining the chunks. */
module RowRejoin {
  import opened Options
  import opened RowJson
  import opened RowJoin

  // ---- The objects a row key walks through ----------------------------------------------

  function PathsOf(fields: seq<string>): set<Path> { set f | f in fields :: Parts(f) }

  /** The row itself and every nested object on the way to a join field. */
  function Levels(join: seq<string>): set<Path>
  {
    {[]} + set f, n | f in join && 0 < n < |Parts(f)| :: Parts(f)[..n]
  }

  /** No name occurs in two of the objects. */
  ghost predicate Disjoint(row: Row, levels: set<Path>)
  {
    forall p, q :: p in levels && q in levels && p != q ==> FieldsAt(row, p).Keys !! FieldsAt(row, q).Keys
  }

  /** The entries of the row itself are there, and every other entry is one of a nested object. */
  ghost predicate Grown(row: Row, levels: set<Path>, grown: Row)
  {
    && Holds(grown, row)
    && forall k :: k in grown ==> exists q :: q in levels && k in FieldsAt(row, q) && grown[k] == FieldsAt(row, q)[k]
  }

  ghost predicate Holds(all: Row, some: Row)
  {
    forall k :: k in some ==> k in all && all[k] == some[k]
  }

  /** The row with the entries of all those objects added to it. */
  ghost predicate Expanded(row: Row, levels: set<Path>, grown: Row)
  {
    Grown(row, levels, grown) && forall q :: q in levels ==> Holds(grown, FieldsAt(row, q))
  }

  /** Adding one more of the objects changes nothing that was there. */
  lemma GrowsBy(row: Row, levels: set<Path>, grown: Row, q: Path)
    requires Grown(row, levels, grown) && Disjoint(row, levels) && q in levels
    ensures Grown(row, levels, grown + FieldsAt(row, q))
    ensures Holds(grown + FieldsAt(row, q), grown) && Holds(grown + FieldsAt(row, q), FieldsAt(row, q))
  {
    var m := FieldsAt(row, q);
    forall k | k in grown && k in m ensures grown[k] == m[k] {
      var p :| p in levels && k in FieldsAt(row, p) && grown[k] == FieldsAt(row, p)[k];
    }
    forall k | k in grown + m ensures exists p :: p in levels && k in FieldsAt(row, p) && (grown + m)[k] == FieldsAt(row, p)[k] {
      if k in m {
        assert (grown + m)[k] == FieldsAt(row, q)[k];
      }
    }
  }

  lemma {:induction false} AtSplits(j: Json, path: Path, n: nat)
    requires n < |path| && At(j, path).Some?
    ensures At(j, path[..n]).Some? && At(j, path[..n]).value.Object? && path[n] in At(j, path[..n]).value.fields
    ensures At(j, path[..n + 1]) == Some(At(j, path[..n]).value.fields[path[n]])
    decreases |path|
  {
    if n > 0 {
      AtSplits(j.fields[path[0]], path[1..], n - 1);
      assert path[..n][1..] == path[1..][..n - 1] && path[..n + 1][1..] == path[1..][..n];
    }
  }

  /** Walking the rest of a path in a grown row finds the path's value and keeps the row grown. */
  lemma {:induction false} WalkGrows(row: Row, levels: set<Path>, grown: Row, path: Path, n: nat)
    requires n < |path| && At(Object(row), path).Some?
    requires Grown(row, levels, grown) && Disjoint(row, levels)
    requires forall i :: 0 <= i < |path| ==> path[..i] in levels
    requires Holds(grown, FieldsAt(row, path[..n]))
    ensures var r := Walk(grown, path[n..]);
      && r.Some? && r.value.0 == At(Object(row), path).value
      && Grown(row, levels, r.value.1) && Holds(r.value.1, grown)
      && forall i :: n < i < |path| ==> Holds(r.value.1, FieldsAt(row, path[..i]))
    decreases |path| - n
  {
    hide At, FieldsAt, Grown, Disjoint, Holds;
    WalkOne(row, grown, path, n);
    HoldsItself(grown);
    if n == |path| - 1 {
      assert path[n..] == [path[n]];
    } else {
      var m := FieldsAt(row, path[..n + 1]);
      GrowsBy(row, levels, grown, path[..n + 1]);
      WalkGrows(row, levels, grown + m, path, n + 1);
      assert path[n..][1..] == path[n + 1..] && path[n..][0] == path[n];
      var last := Walk(grown + m, path[n + 1..]).value.1;
      HoldsMore(last, grown + m, grown);
      HoldsMore(last, grown + m, m);
    }
  }

  /** The next part of the path is found in the grown row, with the value it has in the row. */
  lemma WalkOne(row: Row, grown: Row, path: Path, n: nat)
    requires n < |path| && At(Object(row), path).Some? && Holds(grown, FieldsAt(row, path[..n]))
    ensures path[n] in grown
    ensures n == |path| - 1 ==> grown[path[n]] == At(Object(row), path).value
    ensures n < |path| - 1 ==> grown[path[n]] == Object(FieldsAt(row, path[..n + 1]))
  {
    AtSplits(Object(row), path, n);
    HoldsOne(grown, FieldsAt(row, path[..n]), path[n]);
    if n == |path| - 1 {
      assert path[..n + 1] == path;
    } else {
      AtSplits(Object(row), path, n + 1);
    }
  }

  lemma HoldsOne(all: Row, some: Row, k: string)
    requires Holds(all, some) && k in some
    ensures k in all && all[k] == some[k]
  {
  }

  lemma HoldsItself(row: Row)
    ensures Holds(row, row)
  {
  }

  lemma HoldsMore(a: Row, b: Row, c: Row)
    requires Holds(a, b) && Holds(b, c)
    ensures Holds(a, c)
  {
  }

  /** The values a row has at the join fields. */
  ghost predicate AreValues(values: seq<Json>, row: Row, join: seq<string>)
  {
    |values| == |join| && forall i :: 0 <= i < |join| ==> Some(values[i]) == At(Object(row), Parts(join[i]))
  }

  lemma OneMoreValue(v: Json, rest: seq<Json>, row: Row, join: seq<string>)
    requires |join| > 0 && AreValues(rest, row, join[1..]) && Some(v) == At(Object(row), Parts(join[0]))
    ensures AreValues([v] + rest, row, join)
  {
  }

  ghost predicate HasAll(row: Row, join: seq<string>)
  {
    forall f :: f in join ==> At(Object(row), Parts(f)).Some?
  }

  lemma {:induction false} KeyGrows(row: Row, levels: set<Path>, grown: Row, join: seq<string>) returns (r: Keyed)
    requires Grown(row, levels, grown) && Disjoint(row, levels) && HasAll(row, join) && Levels(join) <= levels
    ensures KeyOf(grown, join) == Some(r) && AreValues(r.values, row, join)
    ensures Grown(row, levels, r.row) && Holds(r.row, grown)
    ensures forall q :: q in Levels(join) ==> Holds(r.row, FieldsAt(row, q))
    decreases |join|
  {
    hide Grown, Disjoint, Holds, Levels, At, FieldsAt, AreValues, HasAll, Walk, Parts;
    FirstLevel(row, join);
    GrownHolds(row, levels, grown);
    if |join| > 0 {
      FirstFieldGrows(row, levels, grown, join);
      var (v, next) := Walk(grown, Parts(join[0])).value;
      var rest := KeyGrows(row, levels, next, join[1..]);
      OneMoreValue(v, rest.values, row, join);
      HoldsMore(rest.row, next, grown);
      LevelsHeld(row, join, next, rest.row);
      r := Keyed([v] + rest.values, rest.row);
    } else {
      r := Keyed([], grown);
    }
  }

  lemma FirstLevel(row: Row, join: seq<string>)
    ensures FieldsAt(row, []) == row
    ensures join == [] ==> Levels(join) == {[]} && AreValues([], row, join)
    ensures HasAll(row, join) ==> forall f :: f in join ==> At(Object(row), Parts(f)).Some?
  {
  }

  lemma GrownHolds(row: Row, levels: set<Path>, grown: Row)
    requires Grown(row, levels, grown)
    ensures Holds(grown, row) && Holds(grown, grown)
  {
  }

  lemma PrefixesAreLevels(join: seq<string>, path: Path)
    requires |join| > 0 && path == Parts(join[0])
    ensures forall i :: 0 <= i < |path| ==> path[..i] in Levels(join)
  {
    forall i | 0 <= i < |path| ensures path[..i] in Levels(join) {
      if i == 0 {
        assert path[..0] == [];
      } else {
        assert join[0] in join && 0 < i < |Parts(join[0])|;
      }
    }
  }

  lemma FewerLevels(join: seq<string>)
    requires |join| > 0
    ensures Levels(join[1..]) <= Levels(join)
  {
  }

  lemma LevelOfFirst(join: seq<string>, q: Path)
    requires |join| > 0 && q in Levels(join)
    ensures [] in Levels(join[1..])
    ensures q in Levels(join[1..]) || exists n :: 0 < n < |Parts(join[0])| && q == Parts(join[0])[..n]
  {
    if q != [] {
      var f, n :| f in join && 0 < n < |Parts(f)| && q == Parts(f)[..n];
      if f in join[1..] {
        assert Parts(f)[..n] in Levels(join[1..]);
      } else {
        assert f == join[0];
        assert 0 < n < |Parts(join[0])| && q == Parts(join[0])[..n];
      }
    }
  }

  lemma LevelsHeld(row: Row, join: seq<string>, next: Row, last: Row)
    requires |join| > 0 && Holds(last, next)
    requires forall i :: 0 < i < |Parts(join[0])| ==> Holds(next, FieldsAt(row, Parts(join[0])[..i]))
    requires forall q :: q in Levels(join[1..]) ==> Holds(last, FieldsAt(row, q))
    ensures forall q :: q in Levels(join) ==> Holds(last, FieldsAt(row, q))
  {
    hide Holds, FieldsAt, Levels;
    forall q | q in Levels(join) ensures Holds(last, FieldsAt(row, q)) {
      LevelOfFirst(join, q);
      if q !in Levels(join[1..]) {
        HoldsMore(last, next, FieldsAt(row, q));
      }
    }
  }

  lemma FirstFieldGrows(row: Row, levels: set<Path>, grown: Row, join: seq<string>)
    requires |join| > 0 && Grown(row, levels, grown) && Disjoint(row, levels) && HasAll(row, join) && Levels(join) <= levels
    ensures var path := Parts(join[0]); var r := Walk(grown, path);
      && r.Some? && Some(r.value.0) == At(Object(row), path)
      && Grown(row, levels, r.value.1) && Holds(r.value.1, grown)
      && forall i :: 0 < i < |path| ==> Holds(r.value.1, FieldsAt(row, path[..i]))
    ensures HasAll(row, join[1..]) && Levels(join[1..]) <= levels
  {
    FirstLevel(row, join);
    GrownHolds(row, levels, grown);
    FewerLevels(join);
    hide Grown, Disjoint, Holds, Levels, At, FieldsAt;
    var path := Parts(join[0]);
    PrefixesAreLevels(join, path);
    assert path[..0] == [] && path[0..] == path;
    WalkGrows(row, levels, grown, path, 0);
  }

  // ---- Expanded selections, entry by entry ----------------------------------------------

  /** The paths selected below one entry of one of the objects. */
  ghost function Below(paths: set<Path>, level: Path, k: string): set<Path> { Tails(TailsAt(paths, level), k) }

  /** An expanded selection, entry by entry of the whole row's objects. */
  ghost predicate Entry(t: Row, paths: set<Path>, level: Path, k: string, x: Row)
    requires k in FieldsAt(t, level)
  {
    && (k in x <==> Below(paths, level, k) != {})
    && (k in x ==> x[k] == Project(FieldsAt(t, level)[k], Below(paths, level, k)))
  }

  ghost predicate EntriesOf(t: Row, paths: set<Path>, levels: set<Path>, x: Row)
  {
    && (forall k :: k in x ==> exists q :: q in levels && k in FieldsAt(t, q))
    && (forall q, k :: q in levels && k in FieldsAt(t, q) ==> Entry(t, paths, q, k, x))
  }

  lemma SelectedEntry(t: Row, paths: set<Path>, level: Path, k: string)
    ensures var s := FieldsAt(Selected(Object(t), paths), level);
      && (k in s <==> k in FieldsAt(t, level) && Below(paths, level, k) != {})
      && (k in s ==> s[k] == Project(FieldsAt(t, level)[k], Below(paths, level, k)))
  {
    SelectedAt(Object(t), paths, level);
  }

  lemma SelectedDisjoint(t: Row, paths: set<Path>, levels: set<Path>)
    requires Disjoint(t, levels)
    ensures Disjoint(Selected(Object(t), paths), levels)
  {
    hide FieldsAt, Selected;
    forall p, q | p in levels && q in levels && p != q
      ensures FieldsAt(Selected(Object(t), paths), p).Keys !! FieldsAt(Selected(Object(t), paths), q).Keys
    {
      forall k | k in FieldsAt(Selected(Object(t), paths), p) ensures k !in FieldsAt(Selected(Object(t), paths), q) {
        SelectedEntry(t, paths, p, k);
        SelectedEntry(t, paths, q, k);
      }
    }
  }

  lemma EntriesOfExpanded(t: Row, paths: set<Path>, levels: set<Path>, x: Row)
    requires Disjoint(t, levels) && Expanded(Selected(Object(t), paths), levels, x)
    ensures EntriesOf(t, paths, levels, x)
  {
    hide FieldsAt, Selected, Project, Below;
    var s := Selected(Object(t), paths);
    forall k | k in x ensures exists q :: q in levels && k in FieldsAt(t, q) {
      var q :| q in levels && k in FieldsAt(s, q) && x[k] == FieldsAt(s, q)[k];
      SelectedEntry(t, paths, q, k);
    }
    forall q, k | q in levels && k in FieldsAt(t, q) ensures Entry(t, paths, q, k, x) {
      SelectedEntry(t, paths, q, k);
      if k in x {
        var p :| p in levels && k in FieldsAt(s, p) && x[k] == FieldsAt(s, p)[k];
        SelectedEntry(t, paths, p, k);
        assert p == q;
      }
      if Below(paths, q, k) != {} {
        HoldsOne(x, FieldsAt(s, q), k);
      }
    }
  }

  lemma ExpandedFromEntries(t: Row, paths: set<Path>, levels: set<Path>, x: Row)
    requires [] in levels && EntriesOf(t, paths, levels, x)
    ensures Expanded(Selected(Object(t), paths), levels, x)
  {
    FirstLevel(Selected(Object(t), paths), []);
    hide FieldsAt, Selected, Project, Below;
    var s := Selected(Object(t), paths);
    forall q | q in levels ensures Holds(x, FieldsAt(s, q)) {
      forall k | k in FieldsAt(s, q) ensures k in x && x[k] == FieldsAt(s, q)[k] {
        SelectedEntry(t, paths, q, k);
        assert Entry(t, paths, q, k, x);
      }
    }
    forall k | k in x ensures exists q :: q in levels && k in FieldsAt(s, q) && x[k] == FieldsAt(s, q)[k] {
      var q :| q in levels && k in FieldsAt(t, q);
      SelectedEntry(t, paths, q, k);
      assert Entry(t, paths, q, k, x);
    }
  }

  lemma BelowUnion(p: set<Path>, q: set<Path>, level: Path, k: string)
    ensures Below(p + q, level, k) == Below(p, level, k) + Below(q, level, k)
  {
    TailsAtUnion(p, q, level);
    TailsUnion(TailsAt(p, level), TailsAt(q, level), k);
  }

  // ---- Rows that were written -----------------------------------------------------------

  /** A row as it came, or as it was written. */
  function KeptRow(written: bool, t: Row): Row { Kept(written, Object(t)).fields }

  lemma {:induction false} EncodedAt(j: Json, q: Path)
    ensures At(Encode(j), q) == if At(j, q).Some? then Some(Encode(At(j, q).value)) else None
    decreases |q|
  {
    if q != [] && j.Object? && q[0] in j.fields {
      EncodedAt(j.fields[q[0]], q[1..]);
    }
  }

  /** The objects inside a written row are the written objects. */
  lemma KeptAt(written: bool, t: Row, q: Path)
    ensures FieldsAt(KeptRow(written, t), q) == KeptRow(written, FieldsAt(t, q))
  {
    EncodedAt(Object(t), q);
    assert Object(KeptRow(written, t)) == Kept(written, Object(t));
    var none: Row := map[];
    assert EncodedFields(Object(none)) == none && KeptRow(written, none) == none;
    var found := At(Object(t), q);
    assert found.Some? && found.value.Object? ==> found.value == Object(found.value.fields);
  }

  lemma KeptEntries(written: bool, t: Row)
    ensures KeptRow(written, t).Keys == t.Keys
    ensures forall k :: k in t ==> KeptRow(written, t)[k] == Kept(written, t[k])
    ensures KeptRow(true, KeptRow(written, t)) == KeptRow(true, t)
  {
    var whole := Kept(written, Object(t));
    KeptIsEncoded(written, Object(t));
    assert whole.Object? && Object(KeptRow(written, t)) == whole;
    assert Kept(true, whole) == Encode(Object(t)) == Kept(true, Object(t));
  }

  lemma KeptDisjoint(written: bool, t: Row, levels: set<Path>)
    requires Disjoint(t, levels)
    ensures Disjoint(KeptRow(written, t), levels)
  {
    hide FieldsAt, KeptRow;
    forall p, q | p in levels && q in levels && p != q
      ensures FieldsAt(KeptRow(written, t), p).Keys !! FieldsAt(KeptRow(written, t), q).Keys
    {
      KeptAt(written, t, p);
      KeptAt(written, t, q);
      KeptEntries(written, FieldsAt(t, p));
      KeptEntries(written, FieldsAt(t, q));
    }
  }

  /** The key of a grown row is that of the row as written, and taking it expands the row. */
  lemma KeyExpands(row: Row, grown: Row, join: seq<string>)
    requires Grown(row, Levels(join), grown) && Disjoint(row, Levels(join)) && HasAll(row, join)
    ensures var r := RowKey(Object(grown), join);
      && r.Some? && Expanded(row, Levels(join), r.value.row)
      && AreValues(r.value.values, KeptRow(true, row), join)
  {
    hide Grown, Disjoint, Levels, HasAll, At, KeyOf, Parts;
    var r := KeyGrows(row, Levels(join), grown, join);
    ValuesWritten(r.values, row, join);
    assert RowKey(Object(grown), join) == Some(Keyed(EncodeAll(r.values), r.row));
  }

  lemma ValuesWritten(values: seq<Json>, row: Row, join: seq<string>)
    requires AreValues(values, row, join)
    ensures AreValues(EncodeAll(values), KeptRow(true, row), join)
  {
    hide At, Parts, Encode;
    forall i | 0 <= i < |join|
      ensures Some(EncodeAll(values)[i]) == At(Object(KeptRow(true, row)), Parts(join[i]))
    {
      EncodedAt(Object(row), Parts(join[i]));
      KeptObject(row);
    }
  }

  lemma KeptObject(row: Row)
    ensures Object(KeptRow(true, row)) == Encode(Object(row))
  {
  }

  // ---- Merging two expanded selections --------------------------------------------------

  /** What both selections contain of an entry anywhere in the row, they share in the row. */
  lemma {:induction false} SharedBelow(j: Json, p: set<Path>, q: set<Path>, level: Path, k: string)
    requires SharedIsPlain(j, p, q) && At(j, level).Some? && At(j, level).value.Object?
    requires k in At(j, level).value.fields && Below(p, level, k) != {} && Below(q, level, k) != {}
    ensures SharedIsPlain(At(j, level).value.fields[k], Below(p, level, k), Below(q, level, k))
    decreases |level|
  {
    if level != [] {
      var p1, q1 := Tails(p, level[0]), Tails(q, level[0]);
      if p1 == {} || q1 == {} {
        NothingSelected(level[1..]);
      }
      SharedBelow(j.fields[level[0]], p1, q1, level[1..], k);
    }
  }

  /** The value an entry has after the merge. */
  function MergedValue(x: Row, y: Row, k: string): Option<Json>
  {
    if k in x && k in y then Merge(x[k], y[k])
    else if k in x then Some(x[k])
    else if k in y then Some(y[k])
    else None
  }

  lemma EntryMerges(written: bool, t: Row, p: set<Path>, q: set<Path>, level: Path, k: string, x: Row, y: Row)
    requires k in FieldsAt(t, level) && k in FieldsAt(KeptRow(written, t), level)
    requires Entry(KeptRow(written, t), p, level, k, x) && Entry(t, q, level, k, y)
    ensures k in x && k in y <==> Below(p, level, k) != {} && Below(q, level, k) != {}
    ensures k in x && k in y ==>
      (Merge(x[k], y[k]).Some? <==>
         !written || SharedIsPlain(FieldsAt(t, level)[k], Below(p, level, k), Below(q, level, k)))
    ensures k in x || k in y <==> Below(p + q, level, k) != {}
    ensures MergedValue(x, y, k).Some? ==>
      Encode(MergedValue(x, y, k).value) == Project(Encode(FieldsAt(t, level)[k]), Below(p + q, level, k))
  {
    hide FieldsAt, Project, Below, Merge, Encode, SharedIsPlain, Kept;
    KeptAt(written, t, level);
    KeptEntries(written, FieldsAt(t, level));
    hide KeptRow;
    BelowUnion(p, q, level, k);
    OneSelectionEach(written, FieldsAt(t, level)[k], Below(p, level, k), Below(q, level, k));
  }

  lemma OneSelectionEach(written: bool, v: Json, p: set<Path>, q: set<Path>)
    ensures var a, b := Project(Kept(written, v), p), Project(v, q);
      && (Merge(a, b).Some? <==> !written || SharedIsPlain(v, p, q))
      && (Merge(a, b).Some? ==> Encode(Merge(a, b).value) == Project(Encode(v), p + q))
      && (q == {} ==> Encode(a) == Project(Encode(v), p + q))
      && (p == {} ==> Encode(b) == Project(Encode(v), p + q))
  {
    SelectionsMerge(written, v, p, q);
    EncodeSelects(Kept(written, v), p);
    EncodeSelects(v, q);
    KeptIsEncoded(written, v);
    hide Merge, Project, Kept, Encode, SharedIsPlain;
    assert p + {} == p && {} + q == q;
  }

  /** Two expanded selections of one row merge exactly when, if the left one was written, all they share
      is plain. */
  lemma MergesExactlyWhen(written: bool, t: Row, p: set<Path>, q: set<Path>, levels: set<Path>, x: Row, y: Row)
    requires EntriesOf(KeptRow(written, t), p, levels, x) && EntriesOf(t, q, levels, y) && [] in levels
    ensures MergeMaps(x, Object(y)).Some? <==> !written || SharedIsPlain(Object(t), p, q)
  {
    hide FieldsAt, Below, Merge, MergeMaps, Entry, KeptRow, SharedIsPlain;
    KeptKeys(written, t);
    MergeSucceeds(x, Object(y));
    if MergeMaps(x, Object(y)).Some? && written {
      TopEntries(t, p, q);
      forall k | k in t && Below(p, [], k) != {} && Below(q, [], k) != {}
        ensures SharedIsPlain(t[k], Below(p, [], k), Below(q, [], k))
      {
        EntryMerges(written, t, p, q, [], k, x, y);
      }
    }
    if !written || SharedIsPlain(Object(t), p, q) {
      forall k | k in x && k in y ensures Merge(x[k], y[k]).Some? {
        var l :| l in levels && k in FieldsAt(t, l);
        EntryMerges(written, t, p, q, l, k, x, y);
        if written {
          LevelIsThere(t, l, k);
          SharedBelow(Object(t), p, q, l, k);
        }
      }
    }
  }

  lemma KeptKeys(written: bool, t: Row)
    ensures forall l :: FieldsAt(KeptRow(written, t), l).Keys == FieldsAt(t, l).Keys
    ensures FieldsAt(t, []) == t
  {
    forall l ensures FieldsAt(KeptRow(written, t), l).Keys == FieldsAt(t, l).Keys {
      KeptAt(written, t, l);
      KeptEntries(written, FieldsAt(t, l));
    }
  }

  lemma LevelIsThere(t: Row, l: Path, k: string)
    requires k in FieldsAt(t, l)
    ensures At(Object(t), l).Some? && At(Object(t), l).value == Object(FieldsAt(t, l))
  {
  }

  lemma TopEntries(t: Row, p: set<Path>, q: set<Path>)
    ensures SharedIsPlain(Object(t), p, q) <==>
      forall k :: k in t && Below(p, [], k) != {} && Below(q, [], k) != {} ==>
        SharedIsPlain(t[k], Below(p, [], k), Below(q, [], k))
  {
    hide Tails;
    PlainEntries(Object(t), p, q);
  }

  /** The merged row, written, is the expanded selection of both from the written row. */
  lemma MergedEntries(written: bool, t: Row, p: set<Path>, q: set<Path>, levels: set<Path>, x: Row, y: Row, m: Row)
    requires EntriesOf(KeptRow(written, t), p, levels, x) && EntriesOf(t, q, levels, y)
    requires MergeMaps(x, Object(y)) == Some(m)
    ensures EntriesOf(KeptRow(true, t), p + q, levels, KeptRow(true, m))
  {
    hide FieldsAt, Below, Merge, MergeMaps, Entry, KeptRow, SharedIsPlain, Project, Encode;
    KeptKeys(written, t);
    KeptKeys(true, t);
    KeptEntries(true, m);
    MergedFields(x, Object(y));
    forall l, k | l in levels && k in FieldsAt(KeptRow(true, t), l)
      ensures Entry(KeptRow(true, t), p + q, l, k, KeptRow(true, m))
    {
      EntryMerges(written, t, p, q, l, k, x, y);
      assert k in m ==> MergedValue(x, y, k) == Some(m[k]);
      KeptAt(true, t, l);
      KeptEntries(true, FieldsAt(t, l));
      assert Entry(KeptRow(true, t), p + q, l, k, KeptRow(true, m)) by { EntryIs(t, p + q, l, k, m); }
    }
  }

  lemma EntryIs(t: Row, paths: set<Path>, l: Path, k: string, m: Row)
    requires k in FieldsAt(KeptRow(true, t), l) && k in FieldsAt(t, l)
    requires k in m <==> Below(paths, l, k) != {}
    requires k in m ==> Encode(m[k]) == Project(Encode(FieldsAt(t, l)[k]), Below(paths, l, k))
    ensures Entry(KeptRow(true, t), paths, l, k, KeptRow(true, m))
  {
    hide FieldsAt, Below, Project, Encode;
    KeptAt(true, t, l);
    KeptEntries(true, FieldsAt(t, l));
    KeptEntries(true, m);
  }

  /** Two expanded selections of one row, the left one perhaps written, merge to the written expanded
      selection of both, exactly when nothing they share was changed by the writing. */
  lemma ExpandedMerge(written: bool, t: Row, p: set<Path>, q: set<Path>, levels: set<Path>, x: Row, y: Row)
    requires [] in levels && Disjoint(t, levels)
    requires Expanded(Selected(Object(KeptRow(written, t)), p), levels, x)
    requires Expanded(Selected(Object(t), q), levels, y)
    ensures MergeMaps(x, Object(y)).Some? <==> !written || SharedIsPlain(Object(t), p, q)
    ensures MergeMaps(x, Object(y)).Some? ==>
      Expanded(Selected(Object(KeptRow(true, t)), p + q), levels, KeptRow(true, MergeMaps(x, Object(y)).value))
  {
    hide Expanded, EntriesOf, Disjoint, MergeMaps, KeptRow, SharedIsPlain;
    KeptDisjoint(written, t, levels);
    EntriesOfExpanded(KeptRow(written, t), p, levels, x);
    EntriesOfExpanded(t, q, levels, y);
    MergesExactlyWhen(written, t, p, q, levels, x, y);
    if MergeMaps(x, Object(y)).Some? {
      MergedEntries(written, t, p, q, levels, x, y, MergeMaps(x, Object(y)).value);
      ExpandedFromEntries(KeptRow(true, t), p + q, levels, KeptRow(true, MergeMaps(x, Object(y)).value));
    }
  }
}
