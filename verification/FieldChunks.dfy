/** Choosing the fields of a query and cutting them into chunks that fit the dataset's limit. */
module FieldChunks {
  import opened Options
  import opened Logins

  /** Field names are compared without regard to case. */
  function Folded(f: string): string { ToLower(f) }

  ghost predicate Names(fields: seq<string>, f: string)
  {
    exists g :: g in fields && Folded(g) == Folded(f)
  }

  ghost predicate FoldDistinct(fields: seq<string>)
  {
    forall i, j :: 0 <= i < j < |fields| ==> Folded(fields[i]) != Folded(fields[j])
  }

  /** Two names are the same when only the case of their letters differs. */
  lemma FoldedExactlyWhen(f: string, g: string)
    ensures Folded(f) == Folded(g) <==> SameLetters(f, g)
  {
    LowerIsSame(f, g);
  }

  // ---- The offered fields a caller wants ------------------------------------------------

  predicate HasPrefix(s: string, prefix: string) { |prefix| <= |s| && s[..|prefix|] == prefix }

  /** The dotted spelling of a field with this flat prefix. */
  function Dotted(f: string, prefix: string): string
    requires HasPrefix(f, prefix) && |prefix| > 0
  {
    prefix[..|prefix| - 1] + "." + f[|prefix|..]
  }

  function NormalField(f: string): string
  {
    if HasPrefix(f, "dimensions_") then Dotted(f, "dimensions_")
    else if HasPrefix(f, "sum_") then Dotted(f, "sum_")
    else if HasPrefix(f, "avg_") then Dotted(f, "avg_")
    else if HasPrefix(f, "max_") then Dotted(f, "max_")
    else if HasPrefix(f, "uniq_") then Dotted(f, "uniq_")
    else if HasPrefix(f, "quantiles_") then Dotted(f, "quantiles_")
    else f
  }

  const PREFIXES: set<string> := {"dimensions", "sum", "avg", "max", "uniq", "quantiles"}

  /** A flat field's first underscore becomes a dot after one of six prefixes. */
  lemma FlatBecomesDotted(prefix: string, name: string)
    requires prefix in PREFIXES
    ensures NormalField(prefix + "_" + name) == prefix + "." + name
  {
    var f := prefix + "_" + name;
    assert f[..|prefix| + 1] == prefix + "_" && f[|prefix| + 1..] == name;
    assert (prefix + "_")[..|prefix|] == prefix;
    assert f[0] == prefix[0] && f[1] == prefix[1] && f[2] == prefix[2];
  }

  /** Every other name stays as it is. */
  lemma OthersStay(f: string)
    requires forall prefix :: prefix in PREFIXES ==> !HasPrefix(f, prefix + "_")
    ensures NormalField(f) == f
  {
    assert "dimensions" + "_" == "dimensions_" && "sum" + "_" == "sum_" && "avg" + "_" == "avg_";
    assert "max" + "_" == "max_" && "uniq" + "_" == "uniq_" && "quantiles" + "_" == "quantiles_";
    assert forall prefix :: prefix in PREFIXES ==> !HasPrefix(f, prefix + "_");
  }

  /** A dataset offers a field under its own name and, if flat, under its dotted one. */
  ghost predicate Offered(available: seq<string>, f: string)
  {
    exists g :: g in available && (Folded(f) == Folded(g) || Folded(f) == Folded(NormalField(g)))
  }

  method OfferedNames(available: seq<string>) returns (names: set<string>)
    ensures forall f :: Offered(available, f) <==> Folded(f) in names
  {
    names := {};
    var i := 0;
    while i < |available|
      invariant 0 <= i <= |available|
      invariant forall k :: k in names <==> exists g :: g in available[..i] && (k == Folded(g) || k == Folded(NormalField(g)))
    {
      assert available[..i + 1] == available[..i] + [available[i]];
      names := names + {Folded(available[i]), Folded(NormalField(available[i]))};
      i := i + 1;
    }
    assert available[..i] == available;
  }

  function Wishes(wanted: seq<string>, available: seq<string>): seq<string>
  {
    if wanted != [] then wanted else seq(|available|, i requires 0 <= i < |available| => NormalField(available[i]))
  }

  /** Every wanted field that is offered, once, in its first spelling; all offered ones if none is named. */
  method Intersect(wanted: seq<string>, available: seq<string>) returns (out: seq<string>)
    ensures FoldDistinct(out)
    ensures forall f :: f in out ==> Offered(available, f) && FirstSpelling(Wishes(wanted, available), f)
    ensures forall f :: f in Wishes(wanted, available) && Offered(available, f) ==> Names(out, f)
    ensures exists at :: Follows(out, Wishes(wanted, available), at)
  {
    var list := Wishes(wanted, available);
    var offered := OfferedNames(available);
    var seen: set<string>, i := {}, 0;
    ghost var at: seq<nat> := [];
    out := [];
    hide Folded, Offered, Wishes, Chosen;
    NothingChosen(list);
    while i < |list|
      invariant 0 <= i <= |list| && Chosen(out, seen, list, at, i)
      invariant forall f :: f in out ==> Offered(available, f)
      invariant forall j :: 0 <= j < i && Folded(list[j]) in offered ==> Folded(list[j]) in seen
    {
      var f := list[i];
      if Folded(f) in offered && Folded(f) !in seen {
        assert FirstSpelling(list, f) by {
          assert forall j :: 0 <= j < i && Folded(list[j]) == Folded(f) ==> Folded(list[j]) in offered;
        }
        OneChosen(out, seen, list, at, i);
        out, at := out + [f], at + [i];
        seen := seen + {Folded(f)};
      } else {
        NoneChosen(out, seen, list, at, i);
      }
      i := i + 1;
    }
    forall f | f in list && Offered(available, f) ensures Folded(f) in seen {
      var j :| 0 <= j < |list| && list[j] == f;
      assert Folded(list[j]) in seen;
    }
    AllChosen(out, seen, list, at, i);
  }

  /** Part of the list is decided: these fields are in, each in its first spelling and in order. */
  ghost predicate Chosen(out: seq<string>, seen: set<string>, list: seq<string>, at: seq<nat>, i: nat)
  {
    && FoldDistinct(out) && seen == (set f | f in out :: Folded(f))
    && Follows(out, list, at) && (forall k :: k in at ==> k < i)
    && forall f :: f in out ==> FirstSpelling(list, f)
  }

  lemma NothingChosen(list: seq<string>)
    ensures Chosen([], {}, list, [], 0)
  {
  }

  lemma NoneChosen(out: seq<string>, seen: set<string>, list: seq<string>, at: seq<nat>, i: nat)
    requires Chosen(out, seen, list, at, i)
    ensures Chosen(out, seen, list, at, i + 1)
  {
  }

  lemma OneChosen(out: seq<string>, seen: set<string>, list: seq<string>, at: seq<nat>, i: nat)
    requires Chosen(out, seen, list, at, i) && i < |list| && FirstSpelling(list, list[i]) && Folded(list[i]) !in seen
    ensures Chosen(out + [list[i]], seen + {Folded(list[i])}, list, at + [i], i + 1)
  {
    hide Folded, FirstSpelling;
    FollowsMore(out, list, at, i);
    assert forall f :: f in out + [list[i]] <==> f in out || f == list[i];
    assert forall f :: f in out ==> Folded(f) in seen;
  }

  lemma AllChosen(out: seq<string>, seen: set<string>, list: seq<string>, at: seq<nat>, i: nat)
    requires Chosen(out, seen, list, at, i)
    ensures FoldDistinct(out) && Follows(out, list, at) && forall f :: f in out ==> FirstSpelling(list, f)
    ensures forall f :: Folded(f) in seen ==> Names(out, f)
  {
  }

  /** The fields stand at these places of the list, in its order. */
  ghost predicate Follows(out: seq<string>, list: seq<string>, at: seq<nat>)
  {
    && |at| == |out|
    && (forall i :: 0 <= i < |at| ==> at[i] < |list| && list[at[i]] == out[i])
    && forall i, j :: 0 <= i < j < |at| ==> at[i] < at[j]
  }

  lemma FollowsMore(out: seq<string>, list: seq<string>, at: seq<nat>, i: nat)
    requires Follows(out, list, at) && i < |list| && forall k :: k in at ==> k < i
    ensures Follows(out + [list[i]], list, at + [i])
  {
    assert forall k :: 0 <= k < |at| ==> at[k] in at;
  }

  ghost predicate FirstSpelling(list: seq<string>, f: string)
  {
    exists i :: 0 <= i < |list| && list[i] == f && forall j :: 0 <= j < i ==> Folded(list[j]) != Folded(f)
  }

  // ---- Chunks ---------------------------------------------------------------------------

  predicate Joins(join: seq<string>, f: string)
  {
    exists i :: 0 <= i < |join| && Folded(join[i]) == Folded(f)
  }

  /** The fields that are not join fields, in order. */
  function Rest(fields: seq<string>, join: seq<string>): (r: seq<string>)
    ensures |r| <= |fields|
  {
    if |fields| == 0 then [] else
      var before := Rest(fields[..|fields| - 1], join);
      if Joins(join, fields[|fields| - 1]) then before else before + [fields[|fields| - 1]]
  }

  ghost predicate JoinFits(fields: seq<string>, join: seq<string>, limit: int)
  {
    0 < |join| < limit && forall f :: f in join ==> Names(fields, f)
  }

  /** The chunks with their join fields cut off, one after another. */
  ghost function Tail(chunks: seq<seq<string>>, join: seq<string>): seq<string>
    requires forall c :: c in chunks ==> |join| <= |c|
  {
    if |chunks| == 0 then [] else
      Tail(chunks[..|chunks| - 1], join) + chunks[|chunks| - 1][|join|..]
  }

  /** Every chunk fits, starts with the join fields and carries more, all but the last are as long as the
      limit, and the other fields follow in order across the chunks, each in one of them. */
  ghost predicate IsSplit(chunks: seq<seq<string>>, fields: seq<string>, join: seq<string>, limit: int)
  {
    && (forall c :: c in chunks ==> |join| < |c| <= limit && c[..|join|] == join)
    && AllButLastFull(chunks, limit)
    && Tail(chunks, join) == Rest(fields, join)
  }

  ghost predicate AllButLastFull(chunks: seq<seq<string>>, limit: int)
  {
    forall i :: 0 <= i < |chunks| - 1 ==> |chunks[i]| == limit
  }

  method CollectRest(fields: seq<string>, join: seq<string>) returns (rest: seq<string>)
    ensures rest == Rest(fields, join)
  {
    rest := [];
    var i := 0;
    while i < |fields|
      invariant 0 <= i <= |fields| && rest == Rest(fields[..i], join)
    {
      assert fields[..i + 1][..i] == fields[..i];
      if !Joins(join, fields[i]) {
        rest := rest + [fields[i]];
      }
      i := i + 1;
    }
    assert fields[..i] == fields;
  }

  method FieldChunks(fields: seq<string>, join: seq<string>, limit: int) returns (r: Option<seq<seq<string>>>)
    ensures r.None? <==> 0 < limit < |fields| && !JoinFits(fields, join, limit)
    ensures !(0 < limit < |fields|) ==> r == Some([fields])
    ensures r.Some? && 0 < limit < |fields| ==> IsSplit(r.value, fields, join, limit)
  {
    if limit <= 0 || |fields| <= limit {
      return Some([fields]);
    }
    if |join| == 0 || |join| >= limit {
      return None;
    }
    var entitled := set f | f in fields :: Folded(f);
    if i :| 0 <= i < |join| && Folded(join[i]) !in entitled {
      assert join[i] in join && !Names(fields, join[i]);
      return None;
    }
    forall f | f in join ensures Names(fields, f) {
      assert Folded(f) in entitled;
    }
    var rest := CollectRest(fields, join);
    var chunks := CutChunks(rest, join, limit);
    r := Some(chunks);
  }

  method CutChunks(all: seq<string>, join: seq<string>, limit: int) returns (chunks: seq<seq<string>>)
    requires 0 < |join| < limit
    ensures forall c :: c in chunks ==> |join| < |c| <= limit && c[..|join|] == join
    ensures AllButLastFull(chunks, limit) && Tail(chunks, join) == all
  {
    hide Tail, AllButLastFull;
    chunks := [];
    var rest := all;
    NoCuts(join, limit);
    while |rest| > 0
      invariant forall c :: c in chunks ==> |join| < |c| <= limit && c[..|join|] == join
      invariant AllButLastFull(chunks, limit)
      invariant rest != [] && chunks != [] ==> |chunks[|chunks| - 1]| == limit
      invariant Tail(chunks, join) + rest == all
      decreases |rest|
    {
      var n := limit - |join|;
      if n > |rest| {
        n := |rest|;
      }
      var chunk := join + rest[..n];
      OneMoreCut(chunks, join, rest, n, limit);
      chunks := chunks + [chunk];
      rest := rest[n..];
    }
  }

  lemma NoCuts(join: seq<string>, limit: int)
    ensures AllButLastFull([], limit) && Tail([], join) == []
  {
  }

  lemma OneMoreCut(chunks: seq<seq<string>>, join: seq<string>, rest: seq<string>, n: nat, limit: int)
    requires n <= |rest| && forall c :: c in chunks ==> |join| < |c| && c[..|join|] == join
    requires AllButLastFull(chunks, limit) && (chunks != [] ==> |chunks[|chunks| - 1]| == limit)
    requires n > 0
    ensures var chunk := join + rest[..n]; var more := chunks + [chunk];
      && (forall c :: c in more ==> c in chunks || c == chunk) && chunk[..|join|] == join
      && AllButLastFull(more, limit)
      && (forall c :: c in more ==> |join| <= |c|) && Tail(more, join) + rest[n..] == Tail(chunks, join) + rest
  {
    var chunk := join + rest[..n];
    assert (chunks + [chunk])[..|chunks|] == chunks && chunk[|join|..] == rest[..n];
    assert rest == rest[..n] + rest[n..];
    assert Tail(chunks, join) + rest[..n] + rest[n..] == Tail(chunks, join) + (rest[..n] + rest[n..]);
  }

  // ---- What a split means ---------------------------------------------------------------

  lemma {:induction false} RestMembers(fields: seq<string>, join: seq<string>, f: string)
    ensures f in Rest(fields, join) <==> f in fields && !Joins(join, f)
  {
    if |fields| > 0 {
      var n := |fields| - 1;
      RestMembers(fields[..n], join, f);
      assert fields == fields[..n] + [fields[n]];
    }
  }

  /** They keep the order of the fields. */
  lemma {:induction false} RestFollows(fields: seq<string>, join: seq<string>) returns (at: seq<nat>)
    ensures Follows(Rest(fields, join), fields, at)
  {
    at := [];
    if |fields| > 0 {
      var n := |fields| - 1;
      at := RestFollows(fields[..n], join);
      assert forall i :: 0 <= i < |at| ==> at[i] < n && fields[at[i]] == fields[..n][at[i]];
      if !Joins(join, fields[n]) {
        at := at + [n];
      }
    }
  }

  lemma {:induction false} RestLongEnough(fields: seq<string>, join: seq<string>)
    requires FoldDistinct(fields)
    ensures |Rest(fields, join)| + |join| >= |fields|
    ensures (set f | f in fields && Joins(join, f) :: Folded(f)) <= (set f | f in join :: Folded(f))
  {
    RestCount(fields, join);
    var used := set f | f in fields && Joins(join, f) :: Folded(f);
    var names := set f | f in join :: Folded(f);
    forall k | k in used ensures k in names {
      var f :| f in fields && Joins(join, f) && Folded(f) == k;
      var i :| 0 <= i < |join| && Folded(join[i]) == Folded(f);
      assert join[i] in join;
    }
    NoMoreNames(used, names);
    FewNames(join);
  }

  lemma NoMoreNames(a: set<string>, b: set<string>)
    requires a <= b
    ensures |a| <= |b|
  {
    assert b == a + (b - a);
  }

  lemma {:induction false} FewNames(join: seq<string>)
    ensures |set f | f in join :: Folded(f)| <= |join|
  {
    hide Folded;
    if |join| > 0 {
      var n := |join| - 1;
      FewNames(join[..n]);
      assert join == join[..n] + [join[n]];
      assert (set f | f in join :: Folded(f)) == (set f | f in join[..n] :: Folded(f)) + {Folded(join[n])};
    }
  }

  lemma {:induction false} RestCount(fields: seq<string>, join: seq<string>)
    requires FoldDistinct(fields)
    ensures |Rest(fields, join)| + |set f | f in fields && Joins(join, f) :: Folded(f)| == |fields|
  {
    if |fields| > 0 {
      var n := |fields| - 1;
      RestCount(fields[..n], join);
      OneMoreJoined(fields[..n], fields[n], join);
      assert fields == fields[..n] + [fields[n]];
    }
  }

  lemma OneMoreJoined(before: seq<string>, last: string, join: seq<string>)
    requires forall f :: f in before ==> Folded(f) != Folded(last)
    ensures |set f | f in before + [last] && Joins(join, f) :: Folded(f)|
         == |set f | f in before && Joins(join, f) :: Folded(f)| + if Joins(join, last) then 1 else 0
  {
    hide Folded, Joins;
    var a := set f | f in before + [last] && Joins(join, f) :: Folded(f);
    var b := set f | f in before && Joins(join, f) :: Folded(f);
    assert Folded(last) !in b;
    if Joins(join, last) {
      assert last in before + [last];
      assert a == b + {Folded(last)};
    } else {
      assert a == b;
    }
  }

  /** A real split has at least two chunks, because the caller's fields differ without regard to case. */
  lemma SplitHasTwoChunks(chunks: seq<seq<string>>, fields: seq<string>, join: seq<string>, limit: int)
    requires IsSplit(chunks, fields, join, limit) && |join| < limit < |fields| && FoldDistinct(fields)
    ensures |chunks| >= 2
  {
    RestLongEnough(fields, join);
    OneChunkTail(chunks, join);
  }

  lemma OneChunkTail(chunks: seq<seq<string>>, join: seq<string>)
    requires forall c :: c in chunks ==> |join| <= |c|
    ensures |chunks| == 1 ==> chunks[0] in chunks && |Tail(chunks, join)| == |chunks[0]| - |join|
  {
    if |chunks| == 1 {
      assert Tail(chunks[..0], join) == [];
    }
  }

  lemma {:induction false} TailMembers(chunks: seq<seq<string>>, join: seq<string>, f: string)
    requires forall c :: c in chunks ==> |join| <= |c|
    ensures f in Tail(chunks, join) <==> exists c :: 0 <= c < |chunks| && f in chunks[c][|join|..]
  {
    if |chunks| > 0 {
      var n := |chunks| - 1;
      TailMembers(chunks[..n], join, f);
      assert chunks[n] in chunks;
      if f in Tail(chunks[..n], join) {
        var c :| 0 <= c < n && f in chunks[..n][c][|join|..];
        assert f in chunks[c][|join|..];
      }
      if c :| 0 <= c < n && f in chunks[c][|join|..] {
        assert f in chunks[..n][c][|join|..];
      }
    }
  }

  /** Exactly one chunk carries each field that is not a join field. */
  lemma EachFieldOnce(chunks: seq<seq<string>>, fields: seq<string>, join: seq<string>, limit: int, f: string)
    requires IsSplit(chunks, fields, join, limit) && FoldDistinct(fields) && f in fields && !Joins(join, f)
    ensures exists c :: 0 <= c < |chunks| && f in chunks[c]
    ensures forall c, d :: 0 <= c < |chunks| && 0 <= d < |chunks| && f in chunks[c] && f in chunks[d] ==> c == d
  {
    RestMembers(fields, join, f);
    TailMembers(chunks, join, f);
    var c :| 0 <= c < |chunks| && f in chunks[c][|join|..];
    assert f in chunks[c];
    forall d, e | 0 <= d < e < |chunks| && f in chunks[d] && f in chunks[e] ensures false {
      assert chunks[d] in chunks && chunks[e] in chunks;
      NotInJoin(chunks[d], join, f);
      NotInJoin(chunks[e], join, f);
      RestDistinct(fields, join);
      TwiceInTail(chunks, join, d, e, f);
    }
  }

  lemma NotInJoin(chunk: seq<string>, join: seq<string>, f: string)
    requires |join| <= |chunk| && chunk[..|join|] == join && f in chunk && !Joins(join, f)
    ensures f in chunk[|join|..]
  {
    assert chunk == join + chunk[|join|..];
  }

  ghost predicate NoRepeats(s: seq<string>) { forall i, j :: 0 <= i < j < |s| ==> s[i] != s[j] }

  lemma {:induction false} RestDistinct(fields: seq<string>, join: seq<string>)
    requires FoldDistinct(fields)
    ensures NoRepeats(Rest(fields, join))
  {
    if |fields| > 0 {
      var n := |fields| - 1;
      RestDistinct(fields[..n], join);
      RestMembers(fields[..n], join, fields[n]);
      assert fields[n] !in fields[..n];
    }
  }

  lemma {:induction false} TwiceInTail(chunks: seq<seq<string>>, join: seq<string>, d: nat, e: nat, f: string)
    requires forall c :: c in chunks ==> |join| <= |c|
    requires d < e < |chunks| && f in chunks[d][|join|..] && f in chunks[e][|join|..]
    ensures !NoRepeats(Tail(chunks, join))
    decreases |chunks|
  {
    var n := |chunks| - 1;
    var before, last := Tail(chunks[..n], join), chunks[n][|join|..];
    if e < n {
      TwiceInTail(chunks[..n], join, d, e, f);
      RepeatsStay(before, last);
    } else {
      TailMembers(chunks[..n], join, f);
      assert f in chunks[..n][d][|join|..];
      InBoth(before, last, f);
    }
  }

  lemma RepeatsStay(a: seq<string>, b: seq<string>)
    requires !NoRepeats(a)
    ensures !NoRepeats(a + b)
  {
    var i, j :| 0 <= i < j < |a| && a[i] == a[j];
    assert (a + b)[i] == (a + b)[j];
  }

  lemma InBoth(a: seq<string>, b: seq<string>, f: string)
    requires f in a && f in b
    ensures !NoRepeats(a + b)
  {
    var i :| 0 <= i < |a| && a[i] == f;
    var j :| 0 <= j < |b| && b[j] == f;
    assert (a + b)[i] == (a + b)[|a| + j];
  }
}
