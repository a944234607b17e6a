/** Names of D1 databases: only unambiguous ones are used, and only a bounded number ever. */
module ResourceNames {
  import opened Options
  import opened Logins

  datatype Resource = Resource(id: string, name: string)

  datatype Page = Page(rows: seq<Resource>, page: int, perPage: int, count: int, total: int)

  /** The account's paged listing: page number and page size to a page, or an error. */
  type Listing = (int, int) -> Option<Page>

  const OTHER := "other"
  const MAX_RESOURCES := 5000
  const MAX_PAGES := 100

  predicate Usable(name: string) { TrimSpace(name) != "" && |name| <= 128 && name != OTHER }

  predicate Consistent(p: Page, page: int, total: int)
  {
    && p.page == page && p.perPage > 0 && p.count == |p.rows| && |p.rows| <= p.perPage && 0 <= p.total <= MAX_RESOURCES
    && (total < 0 || total == p.total)
  }

  /** All listed rows, when the pages from this one on are consistent and complete. */
  function Listed(list: Listing, page: int, size: int, seen: nat, total: int): Option<seq<Resource>>
    decreases MAX_PAGES - page
  {
    if page > MAX_PAGES then None else
      var p := list(page, size);
      if p.None? || !Consistent(p.value, page, total) || seen + |p.value.rows| > p.value.total then None
      else if seen + |p.value.rows| == p.value.total then Some(p.value.rows)
      else if |p.value.rows| != p.value.perPage then None
      else
        var rest := Listed(list, page + 1, p.value.perPage, seen + |p.value.rows|, p.value.total);
        if rest.None? then None else Some(p.value.rows + rest.value)
  }

  /** A name is usable when it is not blank, at most 128 characters long and not the reserved one. */
  lemma UsableExactlyWhen(name: string)
    ensures Usable(name) <==> !Core(name, "") && |name| <= 128 && name != "other"
  {
    CoreIsTrimmed(name, "");
  }

  // ---- What a complete listing is -------------------------------------------------------

  function AllRows(pages: seq<Page>): seq<Resource>
  {
    if |pages| == 0 then [] else AllRows(pages[..|pages| - 1]) + pages[|pages| - 1].rows
  }

  /** The answers to requests for these pages, from the given one on, each asked with the page size of the
      one before it. */
  ghost predicate Answered(list: Listing, pages: seq<Page>, page: int, size: int)
  {
    forall i :: 0 <= i < |pages| ==> AnsweredAt(list, pages, i, page, size)
  }

  ghost predicate AnsweredAt(list: Listing, pages: seq<Page>, i: nat, page: int, size: int)
    requires i < |pages|
  {
    list(page + i, if i == 0 then size else pages[i - 1].perPage) == Some(pages[i])
  }

  /** A page that is the one asked for, no longer than its size, and agrees on a total of at most 5000. */
  predicate Sound(p: Page, page: int, total: int)
  {
    && p.page == page && p.perPage > 0 && p.count == |p.rows| && |p.rows| <= p.perPage
    && p.total == total && 0 <= total <= 5000
  }

  /** Sound pages that reach the total with the last one and not before; every earlier one is full. */
  ghost predicate Covers(pages: seq<Page>, page: int, seen: nat, total: int)
  {
    && 0 < |pages| && page + |pages| <= 101
    && (forall i :: 0 <= i < |pages| ==> Sound(pages[i], page + i, total))
    && (forall i :: 0 <= i < |pages| - 1 ==> NotYet(pages, i, seen, total))
    && seen + |AllRows(pages)| == total
  }

  ghost predicate NotYet(pages: seq<Page>, i: nat, seen: nat, total: int)
    requires i < |pages|
  {
    |pages[i].rows| == pages[i].perPage && seen + |AllRows(pages[..i + 1])| < total
  }

  lemma {:induction false} AllRowsHead(pages: seq<Page>)
    requires |pages| > 0
    ensures AllRows(pages) == pages[0].rows + AllRows(pages[1..])
  {
    if |pages| == 1 {
      assert pages[..0] == [] && pages[1..] == [];
    } else {
      var n := |pages| - 1;
      AllRowsHead(pages[..n]);
      assert pages[..n][1..] == pages[1..][..n - 1];
    }
  }

  lemma FirstPage(p: Page, rest: seq<Page>)
    ensures var pages := [p] + rest; pages[1..] == rest && AllRows(pages) == p.rows + AllRows(rest)
    ensures AllRows([]) == [] && AllRows([p]) == p.rows
  {
    AllRowsHead([p] + rest);
    assert ([p] + rest)[1..] == rest && [p][..0] == [];
  }

  lemma NotYetMore(p: Page, rest: seq<Page>, i: nat, seen: nat, total: int)
    requires i < |rest|
    ensures NotYet([p] + rest, i + 1, seen, total) <==> NotYet(rest, i, seen + |p.rows|, total)
  {
    var pages := [p] + rest;
    FirstPage(p, rest[..i + 1]);
    assert pages[..i + 2] == [p] + rest[..i + 1];
  }

  lemma NotYetFirst(p: Page, rest: seq<Page>, seen: nat, total: int)
    ensures NotYet([p] + rest, 0, seen, total) <==> |p.rows| == p.perPage && seen + |p.rows| < total
  {
    FirstPage(p, []);
    assert ([p] + rest)[..1] == [p];
  }

  /** One page in front of a covering. */
  lemma CoversMore(p: Page, rest: seq<Page>, page: int, seen: nat, total: int)
    requires |rest| > 0
    ensures Covers([p] + rest, page, seen, total) <==>
      && Sound(p, page, total) && |p.rows| == p.perPage && seen + |p.rows| < total
      && Covers(rest, page + 1, seen + |p.rows|, total)
  {
    hide AllRows, NotYet, Sound;
    var pages, more := [p] + rest, seen + |p.rows|;
    FirstPage(p, rest);
    NotYetFirst(p, rest, seen, total);
    forall i | 0 <= i < |rest|
      ensures NotYet(pages, i + 1, seen, total) <==> NotYet(rest, i, more, total)
    {
      NotYetMore(p, rest, i, seen, total);
    }
    forall i | 0 <= i < |rest| ensures Sound(pages[i + 1], page + (i + 1), total) <==> Sound(rest[i], page + 1 + i, total) {
    }
    if Covers(pages, page, seen, total) {
      assert Sound(pages[0], page + 0, total);
    }
    if Covers(rest, page + 1, seen + |p.rows|, total) && Sound(p, page, total) && NotYet(pages, 0, seen, total) {
      forall i | 0 <= i < |pages| ensures Sound(pages[i], page + i, total) {
        assert i > 0 ==> pages[i] == rest[i - 1] && Sound(rest[i - 1], page + 1 + (i - 1), total);
      }
      forall i | 0 <= i < |pages| - 1 ensures NotYet(pages, i, seen, total) {
        assert i > 0 ==> NotYet(rest, i - 1, more, total) && NotYet(pages, i - 1 + 1, seen, total);
      }
    }
  }

  lemma CoversOne(p: Page, page: int, seen: nat, total: int)
    ensures Covers([p], page, seen, total) <==> Sound(p, page, total) && page <= 100 && seen + |p.rows| == total
  {
    FirstPage(p, []);
    hide AllRows, Sound;
    if Covers([p], page, seen, total) {
      assert Sound([p][0], page + 0, total);
    }
  }

  lemma AnsweredMore(list: Listing, p: Page, rest: seq<Page>, page: int, size: int)
    ensures Answered(list, [p] + rest, page, size) <==>
      list(page, size) == Some(p) && Answered(list, rest, page + 1, p.perPage)
  {
    var pages, next := [p] + rest, page + 1;
    forall i | 0 <= i < |rest|
      ensures AnsweredAt(list, pages, i + 1, page, size) <==> AnsweredAt(list, rest, i, next, p.perPage)
    {
      assert pages[i + 1] == rest[i] && (i > 0 ==> pages[i] == rest[i - 1]);
    }
    assert AnsweredAt(list, pages, 0, page, size) <==> list(page, size) == Some(p);
    hide AnsweredAt;
    if Answered(list, rest, page + 1, p.perPage) && AnsweredAt(list, pages, 0, page, size) {
      forall i | 0 <= i < |pages| ensures AnsweredAt(list, pages, i, page, size) {
        assert i > 0 ==> AnsweredAt(list, rest, i - 1, next, p.perPage) && AnsweredAt(list, pages, i - 1 + 1, page, size);
      }
    }
  }

  /** Rows that were read are those of such pages. */
  lemma {:induction false} ListedCovers(list: Listing, page: int, size: int, seen: nat, total: int) returns (pages: seq<Page>)
    requires Listed(list, page, size, seen, total).Some?
    ensures |pages| > 0 && Answered(list, pages, page, size)
    ensures AllRows(pages) == Listed(list, page, size, seen, total).value
    ensures Covers(pages, page, seen, pages[0].total) && (total < 0 || total == pages[0].total)
    decreases 100 - page
  {
    hide Covers, Answered, AllRows;
    var p := list(page, size).value;
    FirstPage(p, []);
    AnsweredMore(list, p, [], page, size);
    if seen + |p.rows| == p.total {
      pages := [p];
      CoversOne(p, page, seen, p.total);
      assert [p] + [] == [p];
      NoneAnswered(list, page + 1, p.perPage);
    } else {
      var rest := ListedCovers(list, page + 1, p.perPage, seen + |p.rows|, p.total);
      pages := [p] + rest;
      FirstPage(p, rest);
      CoversMore(p, rest, page, seen, p.total);
      AnsweredMore(list, p, rest, page, size);
    }
  }

  lemma NoneAnswered(list: Listing, page: int, size: int)
    ensures Answered(list, [], page, size)
  {
  }

  /** Rows of such pages are read. */
  lemma {:induction false} CoveredIsListed(list: Listing, pages: seq<Page>, page: int, size: int, seen: nat, total: int)
    requires |pages| > 0 && Answered(list, pages, page, size)
    requires Covers(pages, page, seen, pages[0].total) && (total < 0 || total == pages[0].total)
    ensures Listed(list, page, size, seen, total) == Some(AllRows(pages))
    decreases |pages|
  {
    var p, rest := pages[0], pages[1..];
    assert pages == [p] + rest && page <= 100;
    hide Covers, Answered, AllRows;
    FirstPage(p, rest);
    AnsweredMore(list, p, rest, page, size);
    if |rest| == 0 {
      assert pages == [p];
      CoversOne(p, page, seen, p.total);
    } else {
      CoversMore(p, rest, page, seen, p.total);
      FirstTotal(rest, page + 1, seen + |p.rows|, p.total);
      CoveredIsListed(list, rest, page + 1, p.perPage, seen + |p.rows|, p.total);
    }
  }

  lemma FirstTotal(pages: seq<Page>, page: int, seen: nat, total: int)
    requires Covers(pages, page, seen, total)
    ensures pages[0].total == total
  {
    assert Sound(pages[0], page + 0, total);
  }

  /** A whole listing: at most a hundred pages from the first one on, asked with 50 rows a page at first. */
  ghost predicate IsListing(list: Listing, pages: seq<Page>)
  {
    Answered(list, pages, 1, 50) && |pages| > 0 && Covers(pages, 1, 0, pages[0].total)
  }

  /** What is read is exactly the rows of the whole listing, and nothing when there is none. */
  lemma ListedExactlyWhen(list: Listing, rows: seq<Resource>)
    ensures Listed(list, 1, 50, 0, -1) == Some(rows) <==> exists pages :: IsListing(list, pages) && AllRows(pages) == rows
  {
    if Listed(list, 1, 50, 0, -1) == Some(rows) {
      var pages := ListedCovers(list, 1, 50, 0, -1);
      assert IsListing(list, pages);
    }
    if pages :| IsListing(list, pages) && AllRows(pages) == rows {
      CoveredIsListed(list, pages, 1, 50, 0, -1);
    }
  }

  // ---- Which names are unambiguous ------------------------------------------------------

  predicate Has(rows: seq<Resource>, id: string, name: string)
  {
    id != "" && Usable(name) && Resource(id, name) in rows
  }

  /** The id is listed under one name only, usable, that no other id is listed under. */
  ghost predicate Resolves(rows: seq<Resource>, id: string, name: string)
  {
    && Has(rows, id, name)
    && (forall r :: r in rows && r.id == id ==> r.name == name)
    && (forall r :: r in rows && r.id != "" && r.name == name ==> r.id == id)
  }

  ghost predicate Conflicted(rows: seq<Resource>, id: string)
  {
    && id != ""
    && ((exists r :: r in rows && r.id == id && !Usable(r.name))
        || (exists a, b :: a in rows && b in rows && a.id == b.id == id && a.name != b.name && Usable(a.name) && Usable(b.name))
        || (exists a, b :: a in rows && b in rows && a.id == id != b.id && b.id != "" && a.name == b.name && Usable(a.name)))
  }

  lemma ResolvesExactlyWhen(rows: seq<Resource>, id: string, name: string)
    ensures Resolves(rows, id, name) <==> Has(rows, id, name) && !Conflicted(rows, id)
  {
    if Has(rows, id, name) && !Conflicted(rows, id) {
      var own := Resource(id, name);
      forall r | r in rows && r.id == id ensures r.name == name {
        assert own in rows;
      }
      forall r | r in rows && r.id != "" && r.name == name ensures r.id == id {
        assert own in rows;
      }
    }
  }

  /** Resolved names are injective. */
  lemma ResolvedNamesDiffer(rows: seq<Resource>, a: string, b: string, name: string)
    requires Resolves(rows, a, name) && Resolves(rows, b, name)
    ensures a == b
  {
    assert Resource(b, name) in rows;
  }

  // ---- Reading the listing --------------------------------------------------------------

  /** What has been learnt from the rows read so far. */
  datatype Learnt = Learnt(names: map<string, string>, owners: map<string, string>, ambiguous: set<string>)

  ghost predicate NamesOk(names: map<string, string>, rows: seq<Resource>)
  {
    && (forall id :: id in names ==> Has(rows, id, names[id]))
    && (forall r :: r in rows && r.id != "" && Usable(r.name) ==> r.id in names)
  }

  ghost predicate OwnersOk(owners: map<string, string>, rows: seq<Resource>)
  {
    && (forall n :: n in owners ==> Has(rows, owners[n], n))
    && (forall r :: r in rows && r.id != "" && Usable(r.name) ==> r.name in owners)
  }

  ghost predicate AmbiguousOk(ambiguous: set<string>, rows: seq<Resource>)
  {
    forall id :: id in ambiguous <==> Conflicted(rows, id)
  }

  ghost predicate Reflects(k: Learnt, rows: seq<Resource>)
  {
    NamesOk(k.names, rows) && OwnersOk(k.owners, rows) && AmbiguousOk(k.ambiguous, rows)
  }

  method Learn(k: Learnt, row: Resource, ghost rows: seq<Resource>) returns (r: Learnt)
    requires Reflects(k, rows)
    ensures Reflects(r, rows + [row])
  {
    hide Usable, Conflicted, NamesOk, OwnersOk;
    KnownStays(k, rows, row);
    r := k;
    if row.id == "" {
      NamelessAdds(rows, row);
      return;
    }
    if !Usable(row.name) {
      r := r.(ambiguous := r.ambiguous + {row.id});
      UnusableAdds(rows, row);
      return;
    }
    UsableAdds(k, rows, row);
    if row.id in r.names && r.names[row.id] != row.name {
      r := r.(ambiguous := r.ambiguous + {row.id});
    }
    if row.name in r.owners && r.owners[row.name] != row.id {
      r := r.(ambiguous := r.ambiguous + {row.id, r.owners[row.name]});
    }
    r := r.(names := r.names[row.id := row.name], owners := r.owners[row.name := row.id]);
  }

  lemma KnownStays(k: Learnt, rows: seq<Resource>, row: Resource)
    requires Reflects(k, rows)
    ensures row.id == "" || !Usable(row.name) ==> NamesOk(k.names, rows + [row]) && OwnersOk(k.owners, rows + [row])
    ensures row.id != "" && Usable(row.name) ==>
      NamesOk(k.names[row.id := row.name], rows + [row]) && OwnersOk(k.owners[row.name := row.id], rows + [row])
  {
    hide Usable, AmbiguousOk;
    Members(rows, row);
  }

  lemma Members(rows: seq<Resource>, row: Resource)
    ensures forall r :: r in rows + [row] <==> r in rows || r == row
  {
  }

  lemma NamelessAdds(rows: seq<Resource>, row: Resource)
    requires row.id == ""
    ensures forall id :: Conflicted(rows + [row], id) <==> Conflicted(rows, id)
  {
    hide Usable;
    Members(rows, row);
    forall id ensures Conflicted(rows + [row], id) <==> Conflicted(rows, id) {
      ConflictedSplits(rows, row, id);
    }
  }

  lemma UnusableAdds(rows: seq<Resource>, row: Resource)
    requires row.id != "" && !Usable(row.name)
    ensures forall id :: Conflicted(rows + [row], id) <==> Conflicted(rows, id) || id == row.id
  {
    hide Usable;
    Members(rows, row);
    forall id ensures Conflicted(rows + [row], id) <==> Conflicted(rows, id) || id == row.id {
      ConflictedSplits(rows, row, id);
    }
  }

  /** A conflict involves the new row or was there before. */
  ghost predicate NewConflict(rows: seq<Resource>, row: Resource, id: string)
  {
    && row.id != "" && id != ""
    && ((row.id == id && !Usable(row.name))
        || (row.id == id && Usable(row.name) && exists a :: a in rows && a.id == id && a.name != row.name && Usable(a.name))
        || (Usable(row.name) && exists a :: a in rows && a.name == row.name && a.id != "" && a.id != row.id && (id == a.id || id == row.id)))
  }

  lemma ConflictedSplits(rows: seq<Resource>, row: Resource, id: string)
    ensures Conflicted(rows + [row], id) <==> Conflicted(rows, id) || NewConflict(rows, row, id)
  {
    hide Usable;
    Members(rows, row);
    if NewConflict(rows, row, id) {
      assert row in rows + [row];
    }
  }

  /** With the last name of the row's id and the last owner of its name, the new conflicts are found;
      any further one was a conflict before. */
  lemma UsableAdds(k: Learnt, rows: seq<Resource>, row: Resource)
    requires Reflects(k, rows) && row.id != "" && Usable(row.name)
    ensures forall id :: Conflicted(rows + [row], id) <==> id in k.ambiguous || Found(k, row, id)
  {
    hide Usable, Conflicted, NewConflict, Found, NamesOk, OwnersOk;
    forall id ensures Conflicted(rows + [row], id) <==> id in k.ambiguous || Found(k, row, id) {
      ConflictedSplits(rows, row, id);
      if Found(k, row, id) {
        FoundIsNew(k, rows, row, id);
      }
      if NewConflict(rows, row, id) {
        NewIsFound(k, rows, row, id);
      }
    }
  }

  ghost predicate Found(k: Learnt, row: Resource, id: string)
  {
    || (id == row.id && row.id in k.names && k.names[row.id] != row.name)
    || (row.name in k.owners && k.owners[row.name] != row.id && id in {row.id, k.owners[row.name]})
  }

  lemma FoundIsNew(k: Learnt, rows: seq<Resource>, row: Resource, id: string)
    requires Reflects(k, rows) && row.id != "" && Usable(row.name) && Found(k, row, id)
    ensures NewConflict(rows, row, id)
  {
    hide Usable;
    if row.id in k.names {
      assert Resource(row.id, k.names[row.id]) in rows;
    }
    if row.name in k.owners {
      assert Resource(k.owners[row.name], row.name) in rows;
    }
  }

  lemma TwoNames(rows: seq<Resource>, a: Resource, b: Resource)
    requires a in rows && b in rows && a.id == b.id != "" && a.name != b.name && Usable(a.name) && Usable(b.name)
    ensures Conflicted(rows, a.id)
  {
    hide Usable;
  }

  lemma SharedName(rows: seq<Resource>, a: Resource, b: Resource)
    requires a in rows && b in rows && a.id != b.id && a.id != "" && b.id != "" && a.name == b.name && Usable(a.name)
    ensures Conflicted(rows, a.id) && Conflicted(rows, b.id)
  {
    hide Usable;
  }

  lemma LastName(k: Learnt, rows: seq<Resource>, r: Resource)
    requires NamesOk(k.names, rows) && r in rows && r.id != "" && Usable(r.name)
    ensures r.id in k.names && Resource(r.id, k.names[r.id]) in rows && Usable(k.names[r.id])
  {
    hide Usable;
    assert Has(rows, r.id, k.names[r.id]);
  }

  lemma LastOwner(k: Learnt, rows: seq<Resource>, r: Resource)
    requires OwnersOk(k.owners, rows) && r in rows && r.id != "" && Usable(r.name)
    ensures r.name in k.owners && Resource(k.owners[r.name], r.name) in rows && k.owners[r.name] != ""
  {
    hide Usable;
    assert Has(rows, k.owners[r.name], r.name);
  }

  lemma NewIsFound(k: Learnt, rows: seq<Resource>, row: Resource, id: string)
    requires Reflects(k, rows) && row.id != "" && Usable(row.name) && NewConflict(rows, row, id)
    ensures Found(k, row, id) || Conflicted(rows, id)
  {
    hide Usable, Conflicted, NamesOk, OwnersOk, AmbiguousOk;
    if a :| row.id == id && a in rows && a.id == id && a.name != row.name && Usable(a.name) {
      LastName(k, rows, a);
      if k.names[id] == row.name {
        TwoNames(rows, a, Resource(id, k.names[id]));
      }
    } else {
      var a :| a in rows && a.name == row.name && a.id != "" && a.id != row.id && (id == a.id || id == row.id);
      LastOwner(k, rows, a);
      if k.owners[row.name] != a.id {
        SharedName(rows, a, Resource(k.owners[row.name], row.name));
      }
    }
  }

  method LearnPage(k: Learnt, page: seq<Resource>, ghost rows: seq<Resource>) returns (r: Learnt)
    requires Reflects(k, rows)
    ensures Reflects(r, rows + page)
  {
    r := k;
    var i := 0;
    assert rows + page[..0] == rows;
    while i < |page|
      invariant 0 <= i <= |page| && Reflects(r, rows + page[..i])
    {
      assert rows + page[..i] + [page[i]] == rows + page[..i + 1];
      r := Learn(r, page[i], rows + page[..i]);
      i := i + 1;
    }
    assert page[..i] == page;
  }

  /** Exactly the databases with an unambiguous usable name. */
  ghost predicate AreNames(names: map<string, string>, rows: seq<Resource>)
  {
    forall id, n :: id in names && names[id] == n <==> Resolves(rows, id, n)
  }

  lemma ListedDecides(list: Listing)
    ensures var rows := Listed(list, 1, 50, 0, -1);
      if rows.None? then !exists pages :: IsListing(list, pages)
      else exists pages :: IsListing(list, pages) && AllRows(pages) == rows.value
  {
    hide Listed, IsListing;
    if pages :| IsListing(list, pages) {
      ListedExactlyWhen(list, AllRows(pages));
    }
    if Listed(list, 1, 50, 0, -1).Some? {
      ListedExactlyWhen(list, Listed(list, 1, 50, 0, -1).value);
    }
  }

  /** Every listed database with an unambiguous usable name, and no other; nothing when the listing is
      inconsistent, incomplete or too long. */
  method LoadNames(list: Listing) returns (names: Option<map<string, string>>)
    ensures names.None? ==> !exists pages :: IsListing(list, pages)
    ensures names.Some? ==> exists pages :: IsListing(list, pages) && AreNames(names.value, AllRows(pages))
  {
    hide Listed, Consistent, Reflects, Resolves, Prepended, IsListing;
    ListedDecides(list);
    var k := Learnt(map[], map[], {});
    var page, size, seen: nat, total := 1, 50, 0, -1;
    ghost var rows: seq<Resource> := [];
    StartsEmpty();
    PrependedFacts([], []);
    while page <= MAX_PAGES
      invariant 1 <= page <= MAX_PAGES + 1 && Reflects(k, rows)
      invariant Listed(list, 1, 50, 0, -1) == Prepended(rows, Listed(list, page, size, seen, total))
    {
      var p := list(page, size);
      ListedUnfolds(list, page, size, seen, total);
      if p.None? || !Consistent(p.value, page, total) {
        PrependedFacts(rows, []);
        return None;
      }
      PrependedFacts(rows, p.value.rows);
      total, size := p.value.total, p.value.perPage;
      seen := seen + |p.value.rows|;
      if seen > total {
        return None;
      }
      k := LearnPage(k, p.value.rows, rows);
      if seen == total {
        rows := rows + p.value.rows;
        names := Some(k.names - k.ambiguous);
        Unambiguous(k, rows, names.value);
        return;
      }
      if |p.value.rows| != p.value.perPage {
        return None;
      }
      rows := rows + p.value.rows;
      page := page + 1;
    }
    ListedUnfolds(list, page, size, seen, total);
    PrependedFacts(rows, []);
    return None;
  }

  function Prepended(rows: seq<Resource>, rest: Option<seq<Resource>>): Option<seq<Resource>>
  {
    if rest.None? then None else Some(rows + rest.value)
  }

  lemma PrependedFacts(a: seq<Resource>, b: seq<Resource>)
    ensures Prepended(a, None) == None && Prepended(a, Some(b)) == Some(a + b)
    ensures forall rest :: Prepended(a, Prepended(b, rest)) == Prepended(a + b, rest)
    ensures a == [] ==> forall rest :: Prepended(a, rest) == rest
  {
    forall rest ensures Prepended(a, Prepended(b, rest)) == Prepended(a + b, rest) {
      if rest.Some? {
        assert a + (b + rest.value) == a + b + rest.value;
      }
    }
    forall rest: Option<seq<Resource>> | rest.Some? ensures [] + rest.value == rest.value {
    }
  }

  lemma ListedUnfolds(list: Listing, page: int, size: int, seen: nat, total: int)
    ensures Listed(list, page, size, seen, total) ==
      if page > MAX_PAGES then None else
        var p := list(page, size);
        if p.None? || !Consistent(p.value, page, total) || seen + |p.value.rows| > p.value.total then None
        else if seen + |p.value.rows| == p.value.total then Some(p.value.rows)
        else if |p.value.rows| != p.value.perPage then None
        else Prepended(p.value.rows, Listed(list, page + 1, p.value.perPage, seen + |p.value.rows|, p.value.total))
  {
  }

  lemma StartsEmpty()
    ensures Reflects(Learnt(map[], map[], {}), [])
  {
  }

  lemma Unambiguous(k: Learnt, rows: seq<Resource>, names: map<string, string>)
    requires Reflects(k, rows) && names == k.names - k.ambiguous
    ensures AreNames(names, rows)
  {
    hide Conflicted, Usable;
    forall id, n ensures id in names && names[id] == n <==> Resolves(rows, id, n) {
      ResolvesExactlyWhen(rows, id, n);
      if Resolves(rows, id, n) {
        assert Resource(id, n) in rows && id in k.names;
        ResolvesExactlyWhen(rows, id, k.names[id]);
      }
    }
  }

  // ---- Sticky admission -----------------------------------------------------------------

  const MAX_NAMES := 49

  function AdmittedIn(metrics: map<string, set<string>>, metric: string): set<string>
  {
    if metric in metrics then metrics[metric] else {}
  }

  /** What admitting a name, or turning it away, does to the metric's names. */
  ghost predicate AdmitStep(metric: string, name: string, r: string, before: map<string, set<string>>,
                            after: map<string, set<string>>)
  {
    && (forall m :: m != metric ==> AdmittedIn(after, m) == AdmittedIn(before, m))
    && |AdmittedIn(after, metric)| <= 49
    && (r == OTHER ==>
          && AdmittedIn(after, metric) == AdmittedIn(before, metric) && name !in AdmittedIn(before, metric)
          && (name in {"", OTHER} || |AdmittedIn(before, metric)| == 49))
    && (r != OTHER ==> r == name && name != "" && AdmittedIn(after, metric) == AdmittedIn(before, metric) + {name})
  }

  class NameAdmission {
    var metrics: map<string, set<string>>

    ghost function Admitted(metric: string): set<string>
      reads this
    {
      AdmittedIn(metrics, metric)
    }

    /** At most 49 names per metric, the reserved one not among them. */
    ghost predicate Valid()
      reads this
    {
      forall m :: m in metrics ==> |metrics[m]| <= MAX_NAMES && OTHER !in metrics[m] && "" !in metrics[m]
    }

    constructor ()
      ensures Valid() && metrics == map[]
    {
      metrics := map[];
    }

    /** A name once admitted stays admitted; a full metric admits no other. */
    method Admit(metric: string, name: string) returns (r: string)
      requires Valid()
      modifies this`metrics
      ensures Valid() && forall m :: old(Admitted(m)) <= Admitted(m)
      ensures AdmitStep(metric, name, r, old(metrics), metrics)
      ensures r == name || r == OTHER
      ensures r == OTHER || r in Admitted(metric)
      ensures name in old(Admitted(metric)) ==> r == name
    {
      if name == "" || name == OTHER {
        return OTHER;
      }
      if metric !in metrics {
        metrics := metrics[metric := {}];
      }
      if name in metrics[metric] {
        return name;
      }
      if |metrics[metric]| >= MAX_NAMES {
        return OTHER;
      }
      metrics := metrics[metric := metrics[metric] + {name}];
      return name;
    }
  }
}
