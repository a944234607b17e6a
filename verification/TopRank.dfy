/** The highest-ranked entries of a set, and a bounded heap that holds them. */
module TopRank {
  /** A row's time and its fingerprint, which breaks ties. */
  datatype Entry = Entry(at: int, digest: int)

  predicate RankLess(a: Entry, b: Entry)
  {
    if a.at == b.at then a.digest < b.digest else a.at < b.at
  }

  /** top holds the n highest entries of all, or all of them when there are fewer. */
  ghost predicate IsTop(top: set<Entry>, all: set<Entry>, n: nat)
  {
    && top <= all && |top| <= n
    && (|top| < n ==> top == all)
    && (forall a, b {:trigger RankLess(a, b)} :: a in all && a !in top && b in top ==> RankLess(a, b))
  }

  lemma SubsetSmaller<T>(a: set<T>, b: set<T>)
    requires a <= b
    ensures |a| <= |b|
    ensures |a| == |b| ==> a == b
  {
    assert b == a + (b - a);
  }

  lemma Below(top: set<Entry>, all: set<Entry>, n: nat, a: Entry, b: Entry)
    requires IsTop(top, all, n) && a in all && a !in top && b in top
    ensures RankLess(a, b)
  {
  }

  /** The top entries are determined by the set alone. */
  lemma TopUnique(a: set<Entry>, b: set<Entry>, all: set<Entry>, n: nat)
    requires IsTop(a, all, n) && IsTop(b, all, n)
    ensures a == b
  {
    SubsetSmaller(a, all);
    SubsetSmaller(b, all);
    if a != b {
      assert |a| == |b| == n;
      var x := Missing(a, b);
      var y := Missing(b, a);
      Below(b, all, n, x, y);
      Below(a, all, n, y, x);
    }
  }

  lemma Missing(a: set<Entry>, b: set<Entry>) returns (x: Entry)
    requires |a| >= |b| && a != b
    ensures x in a && x !in b
  {
    if forall e :: e in a ==> e in b {
      assert a <= b;
      SubsetSmaller(a, b);
      assert false;
    }
    x :| x in a && x !in b;
  }

  ghost predicate IsLeast(least: Entry, s: set<Entry>)
  {
    least in s && forall e :: e in s ==> e == least || RankLess(least, e)
  }

  /** A new entry enters below the bound, or by displacing the least entry when it ranks higher. */
  lemma TopInsert(top: set<Entry>, all: set<Entry>, n: nat, x: Entry, least: Entry)
    requires IsTop(top, all, n) && x !in top && n > 0
    requires |top| == n ==> IsLeast(least, top)
    ensures |top| < n ==> x !in all && IsTop(top + {x}, all + {x}, n)
    ensures |top| == n && RankLess(least, x) ==> x !in all && IsTop(top + {x} - {least}, all + {x}, n)
    ensures |top| == n && !RankLess(least, x) ==> IsTop(top, all + {x}, n)
  {
    assert |top + {x}| == |top| + 1;
    if |top| == n {
      if x in all {
        Below(top, all, n, x, least);
      }
      assert |top + {x} - {least}| == n by {
        assert least in top + {x};
      }
      var next := top + {x} - {least};
      if RankLess(least, x) {
        forall e, f | e in all + {x} - next && f in next ensures RankLess(e, f) {
          assert e == least || e in all - top;
          assert e == least && f != x ==> RankLess(least, f);
          assert e in all - top ==> RankLess(e, least);
        }
      } else {
        forall e, f | e in all + {x} - top && f in top ensures RankLess(e, f) {
          assert e == x || e in all - top;
        }
      }
    } else {
      assert all + {x} - (top + {x}) == {};
    }
  }

  function Recent(all: set<Entry>, cutoff: int): set<Entry> { set e | e in all && e.at >= cutoff }

  /** Expiring old entries from the top is the top of the entries that are not old. */
  lemma TopExpire(top: set<Entry>, all: set<Entry>, n: nat, cutoff: int)
    requires IsTop(top, all, n)
    ensures IsTop(Recent(top, cutoff), Recent(all, cutoff), n)
  {
    SubsetSmaller(Recent(top, cutoff), top);
    if |Recent(top, cutoff)| < n {
      forall e | e in Recent(all, cutoff) ensures e in top {
        if e !in top {
          assert |top| == n;
          var gone := Missing(top, Recent(top, cutoff));
          Below(top, all, n, e, gone);
        }
      }
    }
  }

  /** A wider bound keeps everything a narrower one keeps. */
  lemma TopNested(narrow: set<Entry>, wide: set<Entry>, all: set<Entry>, n: nat, m: nat)
    requires IsTop(narrow, all, n) && IsTop(wide, all, m) && n <= m
    ensures narrow <= wide
  {
    forall c | c in narrow ensures c in wide {
      if c !in wide {
        assert c in all - wide;
        forall s | s in wide ensures s in narrow {
          Below(wide, all, m, c, s);
          if s !in narrow {
            Below(narrow, all, n, s, c);
          }
        }
        SubsetSmaller(wide, narrow);
      }
    }
  }

  // ---- The heap, by contract ------------------------------------------------------------

  /** A heap is kept as the ascending sequence of its elements; only the least one is ever read. */
  ghost predicate Sorted<T>(h: seq<T>, rank: T -> Entry)
  {
    |h| > 0 ==> Sorted(h[1..], rank) && forall y :: y in h[1..] ==> RankLess(rank(h[0]), rank(y))
  }

  ghost function Ranks<T>(h: seq<T>, rank: T -> Entry): set<Entry>
  {
    if |h| == 0 then {} else {rank(h[0])} + Ranks(h[1..], rank)
  }

  lemma {:induction false} InRanks<T>(h: seq<T>, y: T, rank: T -> Entry)
    requires y in h
    ensures rank(y) in Ranks(h, rank)
  {
    if y != h[0] {
      InRanks(h[1..], y, rank);
    }
  }

  lemma {:induction false} RankHasElement<T>(h: seq<T>, e: Entry, rank: T -> Entry) returns (y: T)
    requires e in Ranks(h, rank)
    ensures y in h && rank(y) == e
  {
    if rank(h[0]) == e {
      y := h[0];
    } else {
      y := RankHasElement(h[1..], e, rank);
    }
  }

  /** heap.Push. */
  function Push<T>(h: seq<T>, x: T, rank: T -> Entry): (r: seq<T>)
    ensures |r| == |h| + 1
  {
    if |h| == 0 || RankLess(rank(x), rank(h[0])) then [x] + h else [h[0]] + Push(h[1..], x, rank)
  }

  lemma {:induction false} PushMembers<T>(h: seq<T>, x: T, y: T, rank: T -> Entry)
    ensures y in Push(h, x, rank) <==> y in h || y == x
  {
    if |h| > 0 && !RankLess(rank(x), rank(h[0])) {
      PushMembers(h[1..], x, y, rank);
      assert y in Push(h, x, rank) <==> y == h[0] || y in Push(h[1..], x, rank);
      assert y in h <==> y == h[0] || y in h[1..];
    }
  }

  lemma {:induction false} PushSorted<T>(h: seq<T>, x: T, rank: T -> Entry)
    requires Sorted(h, rank) && rank(x) !in Ranks(h, rank)
    ensures Sorted(Push(h, x, rank), rank)
    ensures Ranks(Push(h, x, rank), rank) == Ranks(h, rank) + {rank(x)}
  {
    var r := Push(h, x, rank);
    if |h| == 0 || RankLess(rank(x), rank(h[0])) {
      assert r[1..] == h;
      forall y | y in h ensures RankLess(rank(x), rank(y)) {
        if y != h[0] {
          assert y in h[1..];
        }
      }
    } else {
      PushSorted(h[1..], x, rank);
      assert r[1..] == Push(h[1..], x, rank);
      forall y | y in r[1..] ensures RankLess(rank(h[0]), rank(y)) {
        PushMembers(h[1..], x, y, rank);
      }
    }
  }

  /** The first element is the least, and there are as many ranks as elements. */
  lemma {:induction false} SortedFacts<T>(h: seq<T>, rank: T -> Entry)
    requires Sorted(h, rank)
    ensures |Ranks(h, rank)| == |h|
    ensures |h| > 0 ==> IsLeast(rank(h[0]), Ranks(h, rank))
    ensures |h| > 0 ==> Ranks(h[1..], rank) == Ranks(h, rank) - {rank(h[0])}
  {
    if |h| > 0 {
      SortedFacts(h[1..], rank);
      forall e | e in Ranks(h[1..], rank) ensures RankLess(rank(h[0]), e) {
        var y := RankHasElement(h[1..], e, rank);
      }
    }
  }
}
