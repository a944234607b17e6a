/** One dataset query: settings checked, fields chunked, the window cut to the allowed duration, and
    each piece's chunks queried and rejoined. */
module DatasetQuery {
  import opened Instants
  import opened Options
  import opened RowJson
  import opened RowJoin
  import opened RowRejoin
  import opened SharedTexts
  import opened ChunkedRows
  import opened FieldChunks

  datatype Settings = Settings(enabled: bool, available: seq<string>, maxFields: int, maxDuration: int, notOlderThan: int,
                               maxPageSize: int)

  datatype Request = Request(wanted: seq<string>, join: seq<string>, from: Time, to: Time, limit: int)

  datatype QueryResult =
    | Rows(rows: seq<Json>)
    | Unentitled(disabled: bool)
    | FieldLimit
    | RetentionGap(floor: Time)
    | Saturated(from: Time, to: Time, limit: int)
    | Failed

  datatype Window = Window(from: Time, to: Time)

  /** The server, asked for so many rows a page: the rows of one chunk of one window, or an error. */
  type Server = (Window, nat) -> Option<seq<Json>>

  type Source = int -> Server

  /** The pieces a window is queried in. */
  function Pieces(from: Time, to: Time, maxDuration: int): seq<Window>
    decreases (to - from)
  {
    if from >= to then []
    else if maxDuration <= 0 then [Window(from, to)]
    else var end := Min(to, from + maxDuration * SECOND); [Window(from, end)] + Pieces(end, to, maxDuration)
  }

  /** The pieces follow each other without gap or overlap from one end of the window to the other,
      none is longer than the dataset allows, and only the last may be shorter. */
  lemma {:induction false} PiecesTile(from: Time, to: Time, maxDuration: int)
    requires from < to
    ensures Tiles(Pieces(from, to, maxDuration), from, to, maxDuration)
    decreases (to - from)
  {
    if maxDuration > 0 {
      assert maxDuration * SECOND >= SECOND;
      var end := Min(to, from + maxDuration * SECOND);
      var rest := Pieces(end, to, maxDuration);
      assert Pieces(from, to, maxDuration) == [Window(from, end)] + rest;
      if end < to {
        PiecesTile(end, to, maxDuration);
      }
    }
  }

  ghost predicate Tiles(ps: seq<Window>, from: Time, to: Time, maxDuration: int)
  {
    && |ps| > 0 && ps[0].from == from && ps[|ps| - 1].to == to
    && (forall i :: 0 <= i < |ps| ==> ps[i].from < ps[i].to)
    && (forall i :: 0 < i < |ps| ==> ps[i].from == ps[i - 1].to)
    && (maxDuration > 0 ==> forall i :: 0 <= i < |ps| ==> ps[i].to - ps[i].from <= maxDuration * SECOND)
    && (maxDuration > 0 ==> forall i :: 0 <= i < |ps| - 1 ==> ps[i].to - ps[i].from == maxDuration * SECOND)
    && (maxDuration <= 0 ==> |ps| == 1)
  }

  function Limit(r: Request, s: Settings): int
  {
    var limit := if r.limit <= 0 then 100 else r.limit;
    if s.maxPageSize > 0 && limit > s.maxPageSize then s.maxPageSize else limit
  }

  /** The rows of one piece from all its chunks. */
  function PieceRows(server: Server, w: Window, chunks: nat, join: seq<string>): Option<seq<Json>>
    requires chunks > 0
  {
    if forall c: nat :: c < chunks ==> server(w, c).Some?
    then Rejoin(seq(chunks, c requires 0 <= c < chunks && server(w, c).Some? => server(w, c).value), join)
    else None
  }

  /** All pieces' rows in order. */
  ghost function AllRows(server: Server, ps: seq<Window>, chunks: nat, join: seq<string>): seq<Json>
    requires chunks > 0 && forall w :: w in ps ==> PieceRows(server, w, chunks, join).Some?
  {
    if |ps| == 0 then [] else
      AllRows(server, ps[..|ps| - 1], chunks, join) + PieceRows(server, ps[|ps| - 1], chunks, join).value
  }

  method QueryPiece(server: Server, w: Window, chunks: nat, join: seq<string>) returns (merged: Option<seq<Json>>)
    requires chunks > 0
    ensures merged == PieceRows(server, w, chunks, join)
  {
    var parts: seq<seq<Json>>, c: nat := [], 0;
    while c < chunks
      invariant c <= chunks && |parts| == c
      invariant forall k: nat :: k < c ==> server(w, k) == Some(parts[k])
    {
      var part := server(w, c);
      if part.None? {
        return None;
      }
      parts := parts + [part.value];
      c := c + 1;
    }
    assert parts == seq(chunks, k requires 0 <= k < chunks && server(w, k).Some? => server(w, k).value);
    merged := MergeChunks(parts, join);
  }

  /** The fields asked for are the offered ones among those wanted, none missing, each once, in their first
      spelling and order. */
  ghost predicate AllWanted(fields: seq<string>, wanted: seq<string>, available: seq<string>)
  {
    && FoldDistinct(fields)
    && (forall f :: f in fields ==> Offered(available, f) && FirstSpelling(Wishes(wanted, available), f))
    && (forall f :: f in Wishes(wanted, available) && Offered(available, f) ==> Names(fields, f))
    && exists at :: Follows(fields, Wishes(wanted, available), at)
  }

  /** Rows come back exactly when every piece could be rebuilt below the page limit, and they are the
      pieces' rows in order, as written; a saturated piece is reported with its bounds. */
  method QueryWithSettings(r: Request, s: Settings, now: Time, source: Source)
    returns (result: QueryResult, fields: seq<string>, chunks: seq<seq<string>>)
    ensures result == Unentitled(true) <==> !s.enabled
    ensures s.enabled ==> AllWanted(fields, r.wanted, s.available)
    ensures s.enabled && fields == [] <==> result == Unentitled(false)
    ensures result == FieldLimit <==>
      s.enabled && fields != [] && 0 < s.maxFields < |fields| && !JoinFits(fields, r.join, s.maxFields)
    ensures result.RetentionGap? ==>
      s.notOlderThan > 0 && result.floor == now - s.notOlderThan * SECOND && r.from < result.floor
    ensures result.Rows? || result.Saturated? || result.Failed? ==>
      && |chunks| > 0 && !(s.notOlderThan > 0 && r.from < now - s.notOlderThan * SECOND)
      && (if 0 < s.maxFields < |fields| then IsSplit(chunks, fields, r.join, s.maxFields) else chunks == [fields])
    ensures result.Rows? ==>
      var ps := Pieces(r.from, r.to, s.maxDuration); var server := source(Limit(r, s));
      && (forall w :: w in ps ==>
            PieceRows(server, w, |chunks|, r.join).Some? && BelowPage(|PieceRows(server, w, |chunks|, r.join).value|, r, s))
      && AllComplete(server, ps, |chunks|, r.join, Limit(r, s))
      && result.rows == EncodeAll(AllRows(server, ps, |chunks|, r.join))
    ensures result.Saturated? ==>
      var w := Window(result.from, result.to); var server := source(Limit(r, s));
      && w in Pieces(r.from, r.to, s.maxDuration) && result.limit == Limit(r, s)
      && PieceRows(server, w, |chunks|, r.join).Some?
      && |PieceRows(server, w, |chunks|, r.join).value| >= Limit(r, s)
    ensures result.Failed? ==>
      exists w :: w in Pieces(r.from, r.to, s.maxDuration) && PieceRows(source(Limit(r, s)), w, |chunks|, r.join).None?
  {
    fields, chunks := [], [];
    if !s.enabled {
      return Unentitled(true), fields, chunks;
    }
    fields := Intersect(r.wanted, s.available);
    if |fields| == 0 {
      return Unentitled(false), fields, chunks;
    }
    var cut := FieldChunks.FieldChunks(fields, r.join, s.maxFields);
    if cut.None? {
      return FieldLimit, fields, chunks;
    }
    chunks := cut.value;
    if 0 < s.maxFields < |fields| {
      SplitHasTwoChunks(chunks, fields, r.join, s.maxFields);
    }
    if s.notOlderThan > 0 {
      var cutoff := now - s.notOlderThan * SECOND;
      if r.from < cutoff {
        return RetentionGap(cutoff), fields, chunks;
      }
    }
    hide AllWanted, IsSplit, JoinFits, PieceRows, AllRows;
    result := QueryPieces(r, s, source(Limit(r, s)), |chunks|);
    LimitIsPage(r, s);
  }

  /** Fewer rows than the dataset's page holds and than the request asked for, or 100 if it did not say. */
  predicate BelowPage(n: nat, r: Request, s: Settings)
  {
    (s.maxPageSize > 0 ==> n < s.maxPageSize) && n < (if r.limit <= 0 then 100 else r.limit)
  }

  lemma LimitIsPage(r: Request, s: Settings)
    ensures Limit(r, s) > 0 && (s.maxPageSize > 0 ==> Limit(r, s) <= s.maxPageSize)
    ensures forall n: nat :: n < Limit(r, s) <==> BelowPage(n, r, s)
  {
  }

  ghost predicate Complete(server: Server, w: Window, chunks: nat, join: seq<string>, limit: int)
    requires chunks > 0
  {
    PieceRows(server, w, chunks, join).Some? && |PieceRows(server, w, chunks, join).value| < limit
  }

  method QueryPieces(r: Request, s: Settings, server: Server, chunks: nat) returns (result: QueryResult)
    requires chunks > 0
    ensures result.Rows? || result.Saturated? || result.Failed?
    ensures result.Rows? ==>
      var ps := Pieces(r.from, r.to, s.maxDuration);
      && AllComplete(server, ps, chunks, r.join, Limit(r, s))
      && result.rows == EncodeAll(AllRows(server, ps, chunks, r.join))
    ensures result.Saturated? ==>
      var w := Window(result.from, result.to);
      && w in Pieces(r.from, r.to, s.maxDuration) && result.limit == Limit(r, s)
      && PieceRows(server, w, chunks, r.join).Some?
      && |PieceRows(server, w, chunks, r.join).value| >= Limit(r, s)
    ensures result.Failed? ==>
      exists w :: w in Pieces(r.from, r.to, s.maxDuration) && PieceRows(server, w, chunks, r.join).None?
  {
    hide PieceRows, Pieces, AllRows, Complete;
    var limit := Limit(r, s);
    var rows: seq<Json>, start := [], r.from;
    ghost var done: seq<Window> := [];
    NoRows(server, chunks, r.join);
    while start < r.to
      invariant done + Pieces(start, r.to, s.maxDuration) == Pieces(r.from, r.to, s.maxDuration)
      invariant AllComplete(server, done, chunks, r.join, limit) && rows == AllRows(server, done, chunks, r.join)
      decreases r.to - start
    {
      var end := r.to;
      if s.maxDuration > 0 && start + s.maxDuration * SECOND < end {
        end := start + s.maxDuration * SECOND;
      }
      ghost var w := Window(start, end);
      NextPiece(done, start, end, r.to, s.maxDuration, Pieces(r.from, r.to, s.maxDuration));
      var merged := QueryPiece(server, Window(start, end), chunks, r.join);
      if merged.None? {
        return Failed;
      }
      if |merged.value| >= limit {
        return Saturated(start, end, limit);
      }
      MoreRows(server, done, w, chunks, r.join, limit);
      rows := rows + merged.value;
      done := done + [w];
      start := end;
    }
    NoPieces(start, r.to, s.maxDuration);
    assert done + [] == done;
    result := Rows(EncodeAll(rows));
  }

  ghost predicate AllComplete(server: Server, ps: seq<Window>, chunks: nat, join: seq<string>, limit: int)
    requires chunks > 0
  {
    forall w :: w in ps ==> Complete(server, w, chunks, join, limit) && PieceRows(server, w, chunks, join).Some?
  }

  lemma NoRows(server: Server, chunks: nat, join: seq<string>)
    requires chunks > 0
    ensures AllRows(server, [], chunks, join) == []
    ensures forall ps: seq<Window> :: [] + ps == ps
  {
  }

  lemma NoPieces(from: Time, to: Time, maxDuration: int)
    requires from >= to
    ensures Pieces(from, to, maxDuration) == []
  {
  }

  lemma NextPiece(done: seq<Window>, start: Time, end: Time, to: Time, maxDuration: int, all: seq<Window>)
    requires start < to && done + Pieces(start, to, maxDuration) == all
    requires end == if maxDuration > 0 && start + maxDuration * SECOND < to then start + maxDuration * SECOND else to
    ensures start < end && Window(start, end) in all
    ensures done + [Window(start, end)] + Pieces(end, to, maxDuration) == all
  {
    if maxDuration > 0 {
      assert maxDuration * SECOND >= SECOND;
    }
    var w := Window(start, end);
    var rest := Pieces(end, to, maxDuration);
    assert Pieces(start, to, maxDuration) == [w] + rest;
    assert done + [w] + rest == done + ([w] + rest);
    assert w in done + ([w] + rest);
  }

  lemma MoreRows(server: Server, done: seq<Window>, w: Window, chunks: nat, join: seq<string>, limit: int)
    requires chunks > 0 && AllComplete(server, done, chunks, join, limit)
    requires PieceRows(server, w, chunks, join).Some? && |PieceRows(server, w, chunks, join).value| < limit
    ensures AllComplete(server, done + [w], chunks, join, limit)
    ensures AllRows(server, done + [w], chunks, join) ==
      AllRows(server, done, chunks, join) + PieceRows(server, w, chunks, join).value
  {
    hide PieceRows;
    assert (done + [w])[..|done|] == done;
  }

  // ---- Losslessness ---------------------------------------------------------------------

  ghost function ChunkPaths(chunks: seq<seq<string>>): (r: seq<set<Path>>)
    ensures |r| == |chunks|
  {
    seq(|chunks|, c requires 0 <= c < |chunks| => PathsOf(chunks[c]))
  }

  /** The chunks together select exactly the fields. */
  lemma SplitSelectsFields(chunks: seq<seq<string>>, fields: seq<string>, join: seq<string>, limit: int)
    requires IsSplit(chunks, fields, join, limit) && FoldDistinct(fields) && |join| < limit < |fields|
    requires forall f :: f in join ==> f in fields
    ensures Union(ChunkPaths(chunks)) == PathsOf(fields)
    ensures forall c :: 0 <= c < |chunks| ==> PathsOf(join) <= ChunkPaths(chunks)[c]
  {
    SplitHasTwoChunks(chunks, fields, join, limit);
    forall c, f | 0 <= c < |chunks| && f in join ensures f in chunks[c] {
      assert chunks[c] in chunks && chunks[c] == join + chunks[c][|join|..];
    }
    forall f | f in fields ensures exists c :: 0 <= c < |chunks| && f in chunks[c] {
      if Joins(join, f) {
        var i :| 0 <= i < |join| && Folded(join[i]) == Folded(f);
        assert join[i] in join;
        SameSpelling(fields, join[i], f);
        assert f in chunks[0];
      } else {
        EachFieldOnce(chunks, fields, join, limit, f);
      }
    }
    forall c, f | 0 <= c < |chunks| && f in chunks[c] ensures f in fields {
      FromFields(chunks, fields, join, limit, c, f);
    }
    UnionMembers(ChunkPaths(chunks));
    forall p ensures p in Union(ChunkPaths(chunks)) <==> p in PathsOf(fields) {
      if p in PathsOf(fields) {
        var f :| f in fields && Parts(f) == p;
        var c :| 0 <= c < |chunks| && f in chunks[c];
        assert p in ChunkPaths(chunks)[c];
      }
      if p in Union(ChunkPaths(chunks)) {
        var c :| 0 <= c < |chunks| && p in ChunkPaths(chunks)[c];
        var f :| f in chunks[c] && Parts(f) == p;
        assert f in fields;
      }
    }
  }

  lemma SameSpelling(fields: seq<string>, f: string, g: string)
    requires FoldDistinct(fields) && f in fields && g in fields && Folded(f) == Folded(g)
    ensures f == g
  {
    var i :| 0 <= i < |fields| && fields[i] == f;
    var j :| 0 <= j < |fields| && fields[j] == g;
    if i < j {
      assert Folded(fields[i]) != Folded(fields[j]);
    }
  }

  lemma FromFields(chunks: seq<seq<string>>, fields: seq<string>, join: seq<string>, limit: int, c: nat, f: string)
    requires IsSplit(chunks, fields, join, limit) && c < |chunks| && f in chunks[c]
    requires forall g :: g in join ==> g in fields
    ensures f in fields
  {
    assert chunks[c] in chunks && chunks[c] == join + chunks[c][|join|..];
    if f !in join {
      TailMembers(chunks, join, f);
      RestMembers(fields, join, f);
    }
  }

  lemma {:induction false} UnionMembers(paths: seq<set<Path>>)
    ensures forall p :: p in Union(paths) <==> exists c :: 0 <= c < |paths| && p in paths[c]
  {
    if |paths| > 0 {
      var n := |paths| - 1;
      UnionMembers(paths[..n]);
      forall p ensures p in Union(paths) <==> exists c :: 0 <= c < |paths| && p in paths[c] {
        if p in Union(paths[..n]) {
          var c :| 0 <= c < n && p in paths[..n][c];
          assert p in paths[c];
        }
        if c :| 0 <= c < n && p in paths[c] {
          assert p in paths[..n][c];
        }
      }
    }
  }

  /** The join fields are among the fields and none is nested. */
  ghost predicate TopLevel(join: seq<string>, fields: seq<string>)
  {
    forall f :: f in join ==> f in fields && |Parts(f)| == 1
  }

  /** A query split for the field limit: with top-level join fields that identify the rows, each piece is
      rebuilt exactly when what each chunk from the third on shares with the ones before it is plain, and
      then its rows are exactly those one unsplit query would select, as written, in the order of the first
      chunk, whatever order the later chunks arrive in. */
  lemma SplitQueryIsLossless(server: Server, w: Window, chunks: seq<seq<string>>, fields: seq<string>,
                             join: seq<string>,
                             limit: int, rows: seq<Row>, orders: seq<seq<nat>>)
    requires IsSplit(chunks, fields, join, limit) && FoldDistinct(fields) && |join| < limit < |fields|
    requires TopLevel(join, fields)
    requires Joinable(rows, join) && |orders| == |chunks|
    requires forall c: nat :: c < |chunks| ==>
      server(w, c).Some? && IsResponse(server(w, c).value, rows, orders[c], PathsOf(chunks[c]))
    ensures |chunks| > 1
    ensures var out := PieceRows(server, w, |chunks|, join);
      && (out.Some? <==> LaterSharedPlain(rows, ChunkPaths(chunks)))
      && (out.Some? ==> IsResponse(out.value, KeptRows(true, rows), orders[0], PathsOf(fields)))
  {
    SplitHasTwoChunks(chunks, fields, join, limit);
    SplitSelectsFields(chunks, fields, join, limit);
    hide IsSplit, FoldDistinct, Joinable, IsResponse, PathsOf, Rejoin, Union, Rebuilt, LaterSharedPlain, KeptRows;
    var parts := seq(|chunks|, c requires 0 <= c < |chunks| && server(w, c).Some? => server(w, c).value);
    ChunksRebuildRows(parts, rows, orders, ChunkPaths(chunks), join);
    var out := Rejoin(parts, join);
    assert PieceRows(server, w, |chunks|, join) == out;
    if out.Some? {
      FlatRowsAreResponse(out.value, KeptRows(true, rows), orders[0], PathsOf(fields), join);
    }
  }

  lemma FlatRowsAreResponse(out: seq<Json>, rows: seq<Row>, order: seq<nat>, paths: set<Path>, join: seq<string>)
    requires Rebuilt(out, rows, order, paths, join) && forall f :: f in join ==> |Parts(f)| == 1
    ensures IsResponse(out, rows, order, paths)
  {
    FlatJoinIsExact(out, rows, order, paths, join);
  }

  // ---- What the chunks of a split share --------------------------------------------------

  /** No field lies inside another, and each leads through objects. */
  ghost predicate Separate(rows: seq<Row>, fields: seq<string>)
  {
    && (forall f, g :: f in fields && g in fields && Parts(f) <= Parts(g) ==> f == g)
    && forall i :: 0 <= i < |rows| ==> Leads(Object(rows[i]), PathsOf(fields))
  }

  /** Every text inside the values of the join fields is plain. */
  ghost predicate RowKeysPlain(row: Row, join: seq<string>)
  {
    forall f :: f in join && At(Object(row), Parts(f)).Some? ==> AllPlain(At(Object(row), Parts(f)).value)
  }

  ghost predicate KeysPlain(rows: seq<Row>, join: seq<string>)
  {
    forall i :: 0 <= i < |rows| ==> RowKeysPlain(rows[i], join)
  }

  /** The chunks of a split share the join fields: a split into three chunks or more is rebuilt exactly when
      writing changes no text in the values of the join fields, and one into two chunks always. */
  lemma SplitSharesJoinFields(chunks: seq<seq<string>>, fields: seq<string>, join: seq<string>, limit: int,
                              rows: seq<Row>)
    requires IsSplit(chunks, fields, join, limit) && FoldDistinct(fields) && |join| < limit < |fields|
    requires 0 < |join| && (forall f :: f in join ==> f in fields) && Separate(rows, fields)
    ensures LaterSharedPlain(rows, ChunkPaths(chunks)) <==> |chunks| <= 2 || KeysPlain(rows, join)
  {
    var paths := ChunkPaths(chunks);
    forall c, i | 2 <= c < |chunks| && 0 <= i < |rows|
      ensures SharedIsPlain(Object(rows[i]), Union(paths[..c]), paths[c]) <==> RowKeysPlain(rows[i], join)
    {
      ChunkSharesJoinFields(chunks, fields, join, limit, rows, c);
      hide IsSplit, FoldDistinct, Separate, Union;
      SharedExactlyWhen(Object(rows[i]), Union(paths[..c]), paths[c]);
    }
    hide IsSplit, FoldDistinct, Separate, Union, SharedIsPlain;
    if |chunks| > 2 {
      if LaterSharedPlain(rows, paths) {
        assert AllSharedPlain(rows, Union(paths[..2]), paths[2]);
      }
    }
  }

  /** A later chunk has exactly the join fields in common with the ones before it. */
  lemma ChunkSharesJoinFields(chunks: seq<seq<string>>, fields: seq<string>, join: seq<string>, limit: int,
                              rows: seq<Row>, c: nat)
    requires IsSplit(chunks, fields, join, limit) && FoldDistinct(fields) && |join| < limit < |fields|
    requires 0 < |join| && (forall f :: f in join ==> f in fields) && Separate(rows, fields) && 2 <= c < |chunks|
    ensures var p, q := Union(ChunkPaths(chunks)[..c]), ChunkPaths(chunks)[c];
      && p != {} && q != {} && Apart(p, q)
      && (forall i :: 0 <= i < |rows| ==> Leads(Object(rows[i]), p) && Leads(Object(rows[i]), q))
      && (forall i :: 0 <= i < |rows| ==> (CommonIsPlain(Object(rows[i]), p, q) <==> RowKeysPlain(rows[i], join)))
  {
    var p, q := Union(ChunkPaths(chunks)[..c]), ChunkPaths(chunks)[c];
    forall a | a in p ensures exists f, b :: 0 <= b < c && f in chunks[b] && f in fields && Parts(f) == a {
      BeforeChunk(chunks, fields, join, limit, c, a);
    }
    forall a | a in q ensures exists f :: f in chunks[c] && f in fields && Parts(f) == a {
      var f :| f in chunks[c] && Parts(f) == a;
      FromFields(chunks, fields, join, limit, c, f);
    }
    forall f | f in join ensures Parts(f) in p && Parts(f) in q {
      JoinInAll(chunks, fields, join, limit, c, f);
    }
    forall a, b | a in p && b in q && (a <= b || b <= a) ensures a == b && exists f :: f in join && Parts(f) == a {
      var f, d :| 0 <= d < c && f in chunks[d] && f in fields && Parts(f) == a;
      var g :| g in chunks[c] && g in fields && Parts(g) == b;
      assert f == g;
      SharedFieldJoins(chunks, fields, join, limit, d, c, f);
    }
    hide IsSplit, FoldDistinct, Union;
    assert Apart(p, q);
    assert join[0] in join;
    forall i | 0 <= i < |rows|
      ensures Leads(Object(rows[i]), p) && Leads(Object(rows[i]), q)
      ensures CommonIsPlain(Object(rows[i]), p, q) <==> RowKeysPlain(rows[i], join)
    {
      assert p <= PathsOf(fields) && q <= PathsOf(fields);
      FewerLead(Object(rows[i]), PathsOf(fields), p);
      FewerLead(Object(rows[i]), PathsOf(fields), q);
      CommonAreKeys(rows[i], p, q, join);
    }
  }

  lemma FewerLead(j: Json, all: set<Path>, some: set<Path>)
    requires Leads(j, all) && some <= all
    ensures Leads(j, some)
  {
  }

  lemma CommonAreKeys(row: Row, p: set<Path>, q: set<Path>, join: seq<string>)
    requires forall f :: f in join ==> Parts(f) in p && Parts(f) in q
    requires forall a :: a in p && a in q ==> exists f :: f in join && Parts(f) == a
    ensures CommonIsPlain(Object(row), p, q) <==> RowKeysPlain(row, join)
  {
    hide Parts, At, AllPlain;
  }

  lemma BeforeChunk(chunks: seq<seq<string>>, fields: seq<string>, join: seq<string>, limit: int, c: nat, a: Path)
    requires IsSplit(chunks, fields, join, limit) && (forall f :: f in join ==> f in fields) && c < |chunks|
    requires a in Union(ChunkPaths(chunks)[..c])
    ensures exists f, b :: 0 <= b < c && f in chunks[b] && f in fields && Parts(f) == a
  {
    UnionMembers(ChunkPaths(chunks)[..c]);
    var b :| 0 <= b < c && a in ChunkPaths(chunks)[..c][b];
    var f :| f in chunks[b] && Parts(f) == a;
    FromFields(chunks, fields, join, limit, b, f);
  }

  lemma JoinInAll(chunks: seq<seq<string>>, fields: seq<string>, join: seq<string>, limit: int, c: nat, f: string)
    requires IsSplit(chunks, fields, join, limit) && f in join && 0 < c < |chunks|
    ensures Parts(f) in Union(ChunkPaths(chunks)[..c]) && Parts(f) in ChunkPaths(chunks)[c]
  {
    UnionMembers(ChunkPaths(chunks)[..c]);
    assert chunks[0] in chunks && chunks[c] in chunks;
    assert f in chunks[0][..|join|] && f in chunks[c][..|join|];
    assert Parts(f) in ChunkPaths(chunks)[..c][0];
  }

  lemma SharedFieldJoins(chunks: seq<seq<string>>, fields: seq<string>, join: seq<string>, limit: int, d: nat, c: nat,
                         f: string)
    requires IsSplit(chunks, fields, join, limit) && FoldDistinct(fields) && (forall g :: g in join ==> g in fields)
    requires d < c < |chunks| && f in chunks[d] && f in chunks[c] && f in fields
    ensures f in join
  {
    if Joins(join, f) {
      var i :| 0 <= i < |join| && Folded(join[i]) == Folded(f);
      assert join[i] in join;
      SameSpelling(fields, join[i], f);
    } else {
      EachFieldOnce(chunks, fields, join, limit, f);
    }
  }

  // ---- A truthful server ----------------------------------------------------------------

  /** Each chunk of a piece returns the piece's rows, in some order, cut down to the chunk's fields, and
      the join fields identify the rows. */
  ghost predicate Truthful(server: Server, w: Window, chunks: seq<seq<string>>, join: seq<string>, rows: seq<Row>,
                           orders: seq<seq<nat>>)
  {
    && |orders| == |chunks|
    && (forall c: nat :: c < |chunks| ==>
          server(w, c).Some? && IsResponse(server(w, c).value, rows, orders[c], PathsOf(chunks[c])))
    && (|chunks| > 1 ==> Joinable(rows, join))
  }

  /** What the dataset holds for each piece, and the order in which the first chunk returns it. */
  datatype Truth = Truth(rows: Window -> seq<Row>, orders: Window -> seq<seq<nat>>)

  ghost predicate TruthfulOn(server: Server, ps: seq<Window>, chunks: seq<seq<string>>, join: seq<string>, truth: Truth)
  {
    forall w :: w in ps ==> Truthful(server, w, chunks, join, truth.rows(w), truth.orders(w))
  }

  /** The pieces' rows one after another, each row cut down to the wanted fields, as written. */
  ghost predicate IsWholeResponse(out: seq<Json>, ps: seq<Window>, truth: Truth, paths: set<Path>)
    decreases |ps|
  {
    if |ps| == 0 then out == [] else
      var w := ps[|ps| - 1];
      exists before, last :: out == before + last && IsWholeResponse(before, ps[..|ps| - 1], truth, paths)
        && |truth.orders(w)| > 0 && IsResponse(last, KeptRows(true, truth.rows(w)), truth.orders(w)[0], paths)
  }

  /** Chunks as a query makes them: everything at once, or a split for the field limit. */
  ghost predicate QueryChunks(chunks: seq<seq<string>>, fields: seq<string>, join: seq<string>, limit: int)
  {
    if 0 < limit < |fields| then IsSplit(chunks, fields, join, limit) && |join| < limit else chunks == [fields]
  }

  /** A response, written, is the response of the written rows. */
  lemma WrittenResponse(part: seq<Json>, rows: seq<Row>, order: seq<nat>, paths: set<Path>)
    requires IsResponse(part, rows, order, paths)
    ensures IsResponse(EncodeAll(part), KeptRows(true, rows), order, paths)
  {
    forall i | 0 <= i < |part|
      ensures EncodeAll(part)[i] == Object(Selected(Object(KeptRows(true, rows)[order[i]]), paths))
    {
      EncodeSelects(Object(rows[order[i]]), paths);
      KeptObject(rows[order[i]]);
    }
  }

  lemma WrittenTwice(rows: seq<Row>)
    ensures KeptRows(true, KeptRows(true, rows)) == KeptRows(true, rows)
  {
    forall i | 0 <= i < |rows| ensures KeptRow(true, KeptRow(true, rows[i])) == KeptRow(true, rows[i]) {
      KeptEntries(true, rows[i]);
    }
  }

  lemma PieceIsTrue(server: Server, w: Window, chunks: seq<seq<string>>, fields: seq<string>, join: seq<string>, limit: int,
                    truth: Truth)
    requires QueryChunks(chunks, fields, join, limit) && FoldDistinct(fields)
    requires TopLevel(join, fields)
    requires Truthful(server, w, chunks, join, truth.rows(w), truth.orders(w))
    ensures |chunks| > 0 && |truth.orders(w)| > 0
    ensures var out := PieceRows(server, w, |chunks|, join);
      && (out.Some? <==> LaterSharedPlain(truth.rows(w), ChunkPaths(chunks)))
      && (out.Some? ==> IsResponse(EncodeAll(out.value), KeptRows(true, truth.rows(w)), truth.orders(w)[0], PathsOf(fields)))
  {
    hide IsResponse, PathsOf, Joinable, IsSplit, FoldDistinct, Parts, KeptRows, LaterSharedPlain;
    if 0 < limit < |fields| {
      SplitHasTwoChunks(chunks, fields, join, limit);
      SplitQueryIsLossless(server, w, chunks, fields, join, limit, truth.rows(w), truth.orders(w));
      var out := PieceRows(server, w, |chunks|, join);
      if out.Some? {
        WrittenResponse(out.value, KeptRows(true, truth.rows(w)), truth.orders(w)[0], PathsOf(fields));
        WrittenTwice(truth.rows(w));
      }
    } else {
      assert server(w, 0).Some?;
      var parts := seq(1, c requires 0 <= c < 1 && server(w, c).Some? => server(w, c).value);
      assert PieceRows(server, w, 1, join) == Rejoin(parts, join);
      WrittenResponse(parts[0], truth.rows(w), truth.orders(w)[0], PathsOf(fields));
      TwoChunksShareNothingLater(truth.rows(w), ChunkPaths(chunks));
    }
  }

  lemma {:induction false} PiecesAreTrue(server: Server, ps: seq<Window>, chunks: seq<seq<string>>, fields: seq<string>,
                                         join: seq<string>, limit: int, truth: Truth)
    requires QueryChunks(chunks, fields, join, limit) && FoldDistinct(fields)
    requires TopLevel(join, fields)
    requires TruthfulOn(server, ps, chunks, join, truth) && |chunks| > 0
    requires forall w :: w in ps ==> PieceRows(server, w, |chunks|, join).Some?
    ensures IsWholeResponse(EncodeAll(AllRows(server, ps, |chunks|, join)), ps, truth, PathsOf(fields))
    decreases |ps|
  {
    hide IsResponse, PathsOf, QueryChunks, Truthful, FoldDistinct, PieceRows, Parts, KeptRows, LaterSharedPlain;
    if |ps| > 0 {
      var n := |ps| - 1;
      var before, w := ps[..n], ps[n];
      assert w in ps && forall v :: v in before ==> v in ps;
      PiecesAreTrue(server, before, chunks, fields, join, limit, truth);
      PieceIsTrue(server, w, chunks, fields, join, limit, truth);
      EncodeAllConcat(AllRows(server, before, |chunks|, join), PieceRows(server, w, |chunks|, join).value);
    }
  }

  lemma EncodeAllConcat(a: seq<Json>, b: seq<Json>)
    ensures EncodeAll(a + b) == EncodeAll(a) + EncodeAll(b)
  {
  }

  /** Every piece of the window fits a page and can be rebuilt. */
  ghost predicate AllRebuild(ps: seq<Window>, truth: Truth, chunks: seq<seq<string>>, r: Request, s: Settings)
  {
    forall w :: w in ps ==> BelowPage(|truth.rows(w)|, r, s) && LaterSharedPlain(truth.rows(w), ChunkPaths(chunks))
  }

  /** A page of a response: its first rows, as many as the page holds. */
  ghost predicate IsPage(part: seq<Json>, rows: seq<Row>, order: seq<nat>, paths: set<Path>, page: int)
  {
    exists full :: IsResponse(full, rows, order, paths) && part == full[..Max(0, Min(|full|, page))]
  }

  /** Each chunk of a piece returns a page of the piece's rows, in some order, cut down to the chunk's fields. */
  ghost predicate PagedTruth(server: Server, w: Window, chunks: seq<seq<string>>, join: seq<string>, rows: seq<Row>,
                             orders: seq<seq<nat>>, page: int)
  {
    && |orders| == |chunks|
    && (forall c: nat :: c < |chunks| ==>
          server(w, c).Some? && IsPage(server(w, c).value, rows, orders[c], PathsOf(chunks[c]), page))
    && (|chunks| > 1 ==> Joinable(rows, join))
  }

  /** Asked for so many rows, the dataset returns no more than that and no more than its own page holds. */
  ghost predicate TruthfulSource(source: Source, ps: seq<Window>, chunks: seq<seq<string>>, join: seq<string>,
                                 truth: Truth, maxPageSize: int)
  {
    forall asked, w :: asked > 0 && w in ps ==>
      PagedTruth(source(asked), w, chunks, join, truth.rows(w), truth.orders(w),
                 if maxPageSize > 0 then Min(asked, maxPageSize) else asked)
  }

  /** A page with room to spare holds everything. */
  lemma WholePage(server: Server, w: Window, chunks: seq<seq<string>>, join: seq<string>, rows: seq<Row>,
                  orders: seq<seq<nat>>, page: int)
    requires PagedTruth(server, w, chunks, join, rows, orders, page)
    ensures |rows| < page ==> Truthful(server, w, chunks, join, rows, orders)
    ensures forall c: nat :: c < |chunks| ==> |server(w, c).value| == Max(0, Min(|rows|, page))
  {
    forall c: nat | c < |chunks|
      ensures |server(w, c).value| == Max(0, Min(|rows|, page))
      ensures |rows| < page ==> IsResponse(server(w, c).value, rows, orders[c], PathsOf(chunks[c]))
    {
      var full :| IsResponse(full, rows, orders[c], PathsOf(chunks[c]))
                  && server(w, c).value == full[..Max(0, Min(|full|, page))];
      assert full[..|full|] == full;
    }
  }

  /** What comes of a piece when its pages may be cut. */
  lemma PieceOfPages(server: Server, w: Window, chunks: seq<seq<string>>, join: seq<string>, rows: seq<Row>,
                     orders: seq<seq<nat>>, page: int)
    requires PagedTruth(server, w, chunks, join, rows, orders, page) && |chunks| > 0 && page > 0
    ensures var out := PieceRows(server, w, |chunks|, join); out.Some? ==> |out.value| == Min(|rows|, page)
  {
    WholePage(server, w, chunks, join, rows, orders, page);
    var parts := seq(|chunks|, c requires 0 <= c < |chunks| && server(w, c).Some? => server(w, c).value);
    if PieceRows(server, w, |chunks|, join).Some? {
      RejoinKeepsCount(parts, join);
    }
    hide PagedTruth, Rejoin;
  }

  /** What is known of one piece of a truthful dataset, asked for so many rows. */
  ghost predicate PieceKnown(server: Server, w: Window, chunks: seq<seq<string>>, join: seq<string>, truth: Truth,
                             page: int)
    requires |chunks| > 0
  {
    var n, out := |truth.rows(w)|, PieceRows(server, w, |chunks|, join);
    && (n < page ==> Truthful(server, w, chunks, join, truth.rows(w), truth.orders(w)))
    && (n < page ==> (out.Some? <==> LaterSharedPlain(truth.rows(w), ChunkPaths(chunks))))
    && (out.Some? ==> |out.value| == Min(n, page))
  }

  lemma OnePiece(server: Server, w: Window, chunks: seq<seq<string>>, fields: seq<string>, join: seq<string>, limit: int,
                 truth: Truth, page: int)
    requires QueryChunks(chunks, fields, join, limit) && FoldDistinct(fields) && TopLevel(join, fields) && |chunks| > 0
    requires page > 0 && PagedTruth(server, w, chunks, join, truth.rows(w), truth.orders(w), page)
    ensures PieceKnown(server, w, chunks, join, truth, page)
  {
    hide LaterSharedPlain, Truthful, PagedTruth, TopLevel, IsSplit, PieceRows, IsResponse, PathsOf, FoldDistinct;
    WholePage(server, w, chunks, join, truth.rows(w), truth.orders(w), page);
    PieceOfPages(server, w, chunks, join, truth.rows(w), truth.orders(w), page);
    if |truth.rows(w)| < page {
      PieceIsTrue(server, w, chunks, fields, join, limit, truth);
    }
  }

  /** Together the pieces decide what the query may return. */
  lemma PiecesDecide(source: Source, ps: seq<Window>, chunks: seq<seq<string>>, fields: seq<string>, r: Request,
                     s: Settings, truth: Truth)
    requires QueryChunks(chunks, fields, r.join, s.maxFields) && FoldDistinct(fields) && TopLevel(r.join, fields)
    requires |chunks| > 0 && TruthfulSource(source, ps, chunks, r.join, truth, s.maxPageSize)
    ensures forall w :: w in ps ==> PieceKnown(source(Limit(r, s)), w, chunks, r.join, truth, Limit(r, s))
    ensures AllComplete(source(Limit(r, s)), ps, |chunks|, r.join, Limit(r, s)) ==>
      && TruthfulOn(source(Limit(r, s)), ps, chunks, r.join, truth) && AllRebuild(ps, truth, chunks, r, s)
    ensures (exists w :: w in ps && PieceRows(source(Limit(r, s)), w, |chunks|, r.join).None?) ==>
      !AllRebuild(ps, truth, chunks, r, s)
  {
    hide LaterSharedPlain, Truthful, PagedTruth, TopLevel, IsSplit, PieceRows, BelowPage, QueryChunks, FoldDistinct;
    LimitIsPage(r, s);
    var page := Limit(r, s);
    forall w | w in ps ensures PieceKnown(source(page), w, chunks, r.join, truth, page) {
      assert PagedTruth(source(page), w, chunks, r.join, truth.rows(w), truth.orders(w),
                        if s.maxPageSize > 0 then Min(page, s.maxPageSize) else page);
      OnePiece(source(page), w, chunks, fields, r.join, s.maxFields, truth, page);
    }
    hide Limit;
  }

  /** On a truthful dataset, with top-level join fields among those asked for, a query that returns rows
      returns exactly the dataset's rows of the whole window, piece by piece, each with every wanted and
      offered field, however the query was split and though the dataset cuts its pages. Rows come back only
      when every piece fits a page and its chunks share no text that writing changes, the query fails only
      when some piece does not, and a piece reported as saturated is one that does not fit. */
  method QueryIsTrue(r: Request, s: Settings, now: Time, source: Source, ghost truth: Truth)
    returns (result: QueryResult, fields: seq<string>, chunks: seq<seq<string>>)
    ensures s.enabled ==> AllWanted(fields, r.wanted, s.available)
    ensures TopLevel(r.join, fields)
            && TruthfulSource(source, Pieces(r.from, r.to, s.maxDuration), chunks, r.join, truth, s.maxPageSize) ==>
      var ps := Pieces(r.from, r.to, s.maxDuration);
      && (result.Rows? ==>
            IsWholeResponse(result.rows, ps, truth, PathsOf(fields)) && AllRebuild(ps, truth, chunks, r, s))
      && (result.Failed? ==> !AllRebuild(ps, truth, chunks, r, s))
      && (result.Saturated? ==> !BelowPage(|truth.rows(Window(result.from, result.to))|, r, s))
  {
    hide AllWanted, TruthfulSource, IsSplit, PieceRows, BelowPage, LaterSharedPlain, Limit, TruthfulOn, Truthful, Pieces,
      IsWholeResponse, AllRows, PathsOf;
    result, fields, chunks := QueryWithSettings(r, s, now, source);
    ghost var ps := Pieces(r.from, r.to, s.maxDuration);
    if (result.Rows? || result.Failed? || result.Saturated?) && TopLevel(r.join, fields)
       && TruthfulSource(source, ps, chunks, r.join, truth, s.maxPageSize)
    {
      FieldsDiffer(fields, r.wanted, s.available);
      PiecesDecide(source, ps, chunks, fields, r, s, truth);
      LimitIsPage(r, s);
      if result.Rows? {
        PiecesAreTrue(source(Limit(r, s)), ps, chunks, fields, r.join, s.maxFields, truth);
      }
    }
  }

  lemma FieldsDiffer(fields: seq<string>, wanted: seq<string>, available: seq<string>)
    requires AllWanted(fields, wanted, available)
    ensures FoldDistinct(fields)
  {
  }
}
