/** What two selections of one value have in common. */
module SharedTexts {
  import opened Options
  import opened JsonText
  import opened RowJson

  /** Every text inside stays as it is when written. */
  ghost predicate AllPlain(j: Json)
    decreases j
  {
    match j
    case Null => true
    case Text(text) => Plain(text)
    case Object(fields) => forall k :: k in fields ==> AllPlain(fields[k])
  }

  /** A path of one side never lies inside a path of the other. */
  ghost predicate Apart(p: set<Path>, q: set<Path>)
  {
    forall a, b :: a in p && b in q && (a <= b || b <= a) ==> a == b
  }

  /** Selected paths lead through objects. */
  ghost predicate Leads(j: Json, paths: set<Path>)
  {
    forall a, n :: a in paths && 0 <= n < |a| && At(j, a[..n]).Some? ==> !At(j, a[..n]).value.Text?
  }

  ghost predicate CommonIsPlain(j: Json, p: set<Path>, q: set<Path>)
  {
    forall c :: c in p && c in q && At(j, c).Some? ==> AllPlain(At(j, c).value)
  }

  /** A value is plain when all of it is shared and only plain texts are. */
  lemma {:induction false} WholeShared(j: Json)
    ensures SharedIsPlain(j, {[]}, {[]}) <==> AllPlain(j)
    decreases j
  {
    match j
    case Null =>
    case Text(_) =>
    case Object(fields) =>
      var all: set<Path> := {[]};
      forall k | k in fields ensures Tails(all, k) == all && (SharedIsPlain(fields[k], all, all) <==> AllPlain(fields[k])) {
        WholeShared(fields[k]);
      }
      PlainEntries(j, all, all);
  }

  /** Two selections whose paths do not run into each other share what is at their common paths. */
  lemma {:induction false} SharedExactlyWhen(j: Json, p: set<Path>, q: set<Path>)
    requires p != {} && q != {} && Apart(p, q) && Leads(j, p) && Leads(j, q)
    ensures SharedIsPlain(j, p, q) <==> CommonIsPlain(j, p, q)
    decreases j
  {
    if [] in p {
      OnlyRoot(p, q);
      WholeShared(j);
    } else if [] in q {
      OnlyRoot(q, p);
      WholeShared(j);
    } else {
      match j
      case Null =>
        assert forall c :: c in p && c in q ==> At(j, c).None?;
      case Text(_) =>
        NoText(j, p);
      case Object(fields) =>
        forall k | k in fields && Tails(p, k) != {} && Tails(q, k) != {}
          ensures SharedIsPlain(fields[k], Tails(p, k), Tails(q, k)) <==> CommonIsPlain(fields[k], Tails(p, k), Tails(q, k))
        {
          TailsApart(j, p, q, k);
          SharedExactlyWhen(fields[k], Tails(p, k), Tails(q, k));
        }
        PlainEntries(j, p, q);
        CommonBelow(j, p, q);
    }
  }

  /** No path leads into a text. */
  lemma NoText(j: Json, p: set<Path>)
    requires Leads(j, p) && p != {} && [] !in p
    ensures !j.Text?
  {
    var a :| a in p;
    assert At(j, a[..0]) == Some(j);
  }

  lemma OnlyRoot(p: set<Path>, q: set<Path>)
    requires [] in p && q != {} && Apart(p, q)
    ensures p == {[]} && q == {[]}
  {
    var root: Path := [];
    forall b | b in q ensures b == root {
      assert root <= b;
    }
    assert root in q;
    forall a | a in p ensures a == root {
      assert root <= a;
    }
  }

  /** The tails of paths that all go on. */
  lemma InTails(paths: set<Path>, k: string)
    requires [] !in paths
    ensures forall a :: a in Tails(paths, k) <==> [k] + a in paths
  {
    forall a ensures a in Tails(paths, k) <==> [k] + a in paths {
      assert ([k] + a)[0] == k && ([k] + a)[1..] == a;
      if a in Tails(paths, k) {
        var b :| b in paths && |b| > 0 && b[0] == k && b[1..] == a;
        assert b == [k] + a;
      }
    }
  }

  lemma TailsApart(j: Json, p: set<Path>, q: set<Path>, k: string)
    requires [] !in p && [] !in q && Apart(p, q) && Leads(j, p) && Leads(j, q) && j.Object? && k in j.fields
    ensures Apart(Tails(p, k), Tails(q, k)) && Leads(j.fields[k], Tails(p, k)) && Leads(j.fields[k], Tails(q, k))
  {
    InTails(p, k);
    InTails(q, k);
    forall a, b | a in Tails(p, k) && b in Tails(q, k) && (a <= b || b <= a) ensures a == b {
      assert [k] + a in p && [k] + b in q;
      assert [k] + a <= [k] + b || [k] + b <= [k] + a;
    }
    LeadsBelow(j, p, k);
    LeadsBelow(j, q, k);
  }

  lemma LeadsBelow(j: Json, p: set<Path>, k: string)
    requires [] !in p && Leads(j, p) && j.Object? && k in j.fields
    ensures Leads(j.fields[k], Tails(p, k))
  {
    InTails(p, k);
    forall a, n | a in Tails(p, k) && 0 <= n < |a| && At(j.fields[k], a[..n]).Some?
      ensures !At(j.fields[k], a[..n]).value.Text?
    {
      var whole := [k] + a;
      assert whole in p && whole[..n + 1] == [k] + a[..n];
      assert At(j, whole[..n + 1]) == At(j.fields[k], a[..n]) by {
        assert whole[..n + 1][1..] == a[..n];
      }
    }
  }

  /** The common paths are those of the entries both select from. */
  lemma CommonBelow(j: Json, p: set<Path>, q: set<Path>)
    requires [] !in p && [] !in q && j.Object?
    ensures CommonIsPlain(j, p, q) <==>
      forall k :: k in j.fields && Tails(p, k) != {} && Tails(q, k) != {} ==>
        CommonIsPlain(j.fields[k], Tails(p, k), Tails(q, k))
  {
    forall k ensures (forall a :: a in Tails(p, k) <==> [k] + a in p) && (forall a :: a in Tails(q, k) <==> [k] + a in q) {
      InTails(p, k);
      InTails(q, k);
    }
    if CommonIsPlain(j, p, q) {
      forall k, c | k in j.fields && c in Tails(p, k) && c in Tails(q, k) && At(j.fields[k], c).Some?
        ensures AllPlain(At(j.fields[k], c).value)
      {
        assert [k] + c in p && [k] + c in q && ([k] + c)[1..] == c;
        assert At(j, [k] + c) == At(j.fields[k], c);
      }
    } else {
      var c :| c in p && c in q && At(j, c).Some? && !AllPlain(At(j, c).value);
      var k := c[0];
      assert c == [k] + c[1..];
      assert c[1..] in Tails(p, k) && c[1..] in Tails(q, k) && At(j, c) == At(j.fields[k], c[1..]);
      assert !CommonIsPlain(j.fields[k], Tails(p, k), Tails(q, k));
    }
  }
}
