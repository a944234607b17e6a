/** Firewall counts folded to a bounded number of series. */
module FirewallSeries {

  type Attrs = map<string, string>

  datatype Sample = Sample(attrs: Attrs, value: real)

  const ENRICHMENT: set<string> := {
    "cloudflare.firewall.rule_id", "cloudflare.firewall.rule_description", "cloudflare.firewall.host",
    "cloudflare.firewall.client.country", "cloudflare.firewall.bot_score_bucket", "cloudflare.firewall.bot_score_source"
  }

  const REMAINDER: Attrs :=
    map k | k in ENRICHMENT + {"cloudflare.firewall.zone", "cloudflare.firewall.action", "cloudflare.firewall.source"} :: "other"

  predicate Enriched(a: Attrs) { exists k :: k in ENRICHMENT && k in a }

  /** Legacy series come first, then the order of the encoded attributes, which no two share. */
  predicate Before(a: Attrs, b: Attrs, code: Attrs -> int)
  {
    if Enriched(a) != Enriched(b) then Enriched(b) else code(a) < code(b)
  }

  ghost predicate Injective(code: Attrs -> int)
  {
    forall a, b {:trigger code(a), code(b)} :: code(a) == code(b) ==> a == b
  }

  function Sum(samples: seq<Sample>): real
  {
    if |samples| == 0 then 0.0 else Sum(samples[..|samples| - 1]) + samples[|samples| - 1].value
  }

  /** The total of one series. */
  function SeriesSum(samples: seq<Sample>, a: Attrs): real
  {
    if |samples| == 0 then 0.0 else
      var last := samples[|samples| - 1];
      SeriesSum(samples[..|samples| - 1], a) + if last.attrs == a then last.value else 0.0
  }

  function SeriesOf(samples: seq<Sample>): set<Attrs> { set s | s in samples :: s.attrs }

  /** The total of the series in a set. */
  function SumIn(samples: seq<Sample>, chosen: set<Attrs>): real
  {
    if |samples| == 0 then 0.0 else
      var last := samples[|samples| - 1];
      SumIn(samples[..|samples| - 1], chosen) + if last.attrs in chosen then last.value else 0.0
  }

  lemma {:induction false} SumInGrows(samples: seq<Sample>, chosen: set<Attrs>, a: Attrs)
    requires a !in chosen
    ensures SumIn(samples, chosen + {a}) == SumIn(samples, chosen) + SeriesSum(samples, a)
  {
    if |samples| > 0 {
      SumInGrows(samples[..|samples| - 1], chosen, a);
    }
  }

  lemma {:induction false} SumInAll(samples: seq<Sample>, chosen: set<Attrs>)
    requires forall s :: s in samples ==> s.attrs in chosen
    ensures SumIn(samples, chosen) == Sum(samples)
  {
    if |samples| > 0 {
      SumInAll(samples[..|samples| - 1], chosen);
    }
  }

  lemma {:induction false} SumInNone(samples: seq<Sample>)
    ensures SumIn(samples, {}) == 0.0
  {
    if |samples| > 0 {
      SumInNone(samples[..|samples| - 1]);
    }
  }

  // ---- Grouping -------------------------------------------------------------------------

  lemma OneMore(samples: seq<Sample>, s: Sample)
    ensures Sum(samples + [s]) == Sum(samples) + s.value
    ensures forall a :: SeriesSum(samples + [s], a) == SeriesSum(samples, a) + (if s.attrs == a then s.value else 0.0)
    ensures SeriesOf(samples + [s]) == SeriesOf(samples) + {s.attrs}
  {
    assert (samples + [s])[..|samples|] == samples;
    assert s in samples + [s];
    forall a | a in SeriesOf(samples) ensures a in SeriesOf(samples + [s]) {
      var t :| t in samples && t.attrs == a;
      assert t in samples + [s];
    }
  }

  lemma {:induction false} AbsentSumsToNothing(samples: seq<Sample>, a: Attrs)
    requires a !in SeriesOf(samples)
    ensures SeriesSum(samples, a) == 0.0
  {
    if |samples| > 0 {
      assert samples[|samples| - 1] in samples;
      forall s | s in samples[..|samples| - 1] ensures s in samples {
      }
      AbsentSumsToNothing(samples[..|samples| - 1], a);
    }
  }

  /** Every series of the samples with its total. */
  ghost predicate Totals(points: map<Attrs, real>, samples: seq<Sample>)
  {
    points.Keys == SeriesOf(samples) && forall a :: a in points ==> points[a] == SeriesSum(samples, a)
  }

  method Group(samples: seq<Sample>) returns (points: map<Attrs, real>)
    ensures Totals(points, samples)
  {
    hide SeriesSum, SeriesOf;
    points := map[];
    var i := 0;
    assert samples[..0] == [] && SeriesOf([]) == {} by {
      NoSeries();
    }
    while i < |samples|
      invariant 0 <= i <= |samples| && Totals(points, samples[..i])
    {
      var s := samples[i];
      assert samples[..i + 1] == samples[..i] + [s];
      OneMore(samples[..i], s);
      if s.attrs !in points {
        AbsentSumsToNothing(samples[..i], s.attrs);
      }
      points := points[s.attrs := (if s.attrs in points then points[s.attrs] else 0.0) + s.value];
      i := i + 1;
    }
    assert samples[..i] == samples;
  }

  lemma NoSeries()
    ensures SeriesOf([]) == {}
  {
  }

  // ---- Ordering -------------------------------------------------------------------------

  ghost predicate Ordered(points: seq<Sample>, code: Attrs -> int)
  {
    forall i, j :: 0 <= i < j < |points| ==> Before(points[i].attrs, points[j].attrs, code)
  }

  /** What the order says of any two of its series: none with an enrichment comes before one without, and
      two of a kind follow their codes. */
  lemma LegacyFirst(points: seq<Sample>, code: Attrs -> int, i: nat, j: nat)
    requires Ordered(points, code) && i < j < |points|
    ensures var a, b := points[i].attrs, points[j].attrs;
      && (Enriched(a) ==> Enriched(b))
      && ((Enriched(a) <==> Enriched(b)) ==> code(a) < code(b))
  {
    assert Before(points[i].attrs, points[j].attrs, code);
  }

  /** Six attributes are enrichments. */
  lemma EnrichedExactlyWhen(a: Attrs)
    ensures Enriched(a) <==>
      || "cloudflare.firewall.rule_id" in a || "cloudflare.firewall.rule_description" in a
      || "cloudflare.firewall.host" in a || "cloudflare.firewall.client.country" in a
      || "cloudflare.firewall.bot_score_bucket" in a || "cloudflare.firewall.bot_score_source" in a
  {
  }

  method Insert(ordered: seq<Sample>, p: Sample, code: Attrs -> int) returns (r: seq<Sample>)
    requires Ordered(ordered, code) && Injective(code) && p.attrs !in SeriesOf(ordered)
    ensures Ordered(r, code) && SeriesOf(r) == SeriesOf(ordered) + {p.attrs} && Sum(r) == Sum(ordered) + p.value
    ensures forall q :: q in r ==> q in ordered || q == p
  {
    hide Ordered, Injective, Before, SeriesOf, Sum;
    var k := |ordered|;
    while k > 0 && Before(p.attrs, ordered[k - 1].attrs, code)
      invariant 0 <= k <= |ordered|
      invariant forall j :: k <= j < |ordered| ==> Before(p.attrs, ordered[j].attrs, code)
    {
      k := k - 1;
    }
    r := ordered[..k] + [p] + ordered[k..];
    InsertOrdered(ordered, k, p, code);
    assert ordered[..k] + ordered[k..] == ordered;
    SumConcat(ordered[..k], ordered[k..]);
    SumConcat(ordered[..k] + [p], ordered[k..]);
    OneMore(ordered[..k], p);
    SeriesConcat(ordered[..k], ordered[k..]);
    SeriesConcat(ordered[..k] + [p], ordered[k..]);
  }

  lemma SeriesConcat(a: seq<Sample>, b: seq<Sample>)
    ensures SeriesOf(a + b) == SeriesOf(a) + SeriesOf(b)
  {
    forall x | x in SeriesOf(a) + SeriesOf(b) ensures x in SeriesOf(a + b) {
      var s :| (s in a || s in b) && s.attrs == x;
      assert s in a + b;
    }
  }

  lemma InsertOrdered(ordered: seq<Sample>, k: nat, p: Sample, code: Attrs -> int)
    requires Ordered(ordered, code) && Injective(code) && k <= |ordered| && p.attrs !in SeriesOf(ordered)
    requires forall j :: k <= j < |ordered| ==> Before(p.attrs, ordered[j].attrs, code)
    requires k > 0 ==> !Before(p.attrs, ordered[k - 1].attrs, code)
    ensures Ordered(ordered[..k] + [p] + ordered[k..], code)
  {
    hide Enriched;
    forall j | 0 <= j < k ensures Before(ordered[j].attrs, p.attrs, code) {
      assert ordered[j] in ordered && ordered[k - 1] in ordered;
      if j < k - 1 {
        assert Before(ordered[j].attrs, ordered[k - 1].attrs, code);
      }
    }
    hide Before;
  }

  lemma {:induction false} SumConcat(a: seq<Sample>, b: seq<Sample>)
    ensures Sum(a + b) == Sum(a) + Sum(b)
  {
    if |b| == 0 {
      assert a + b == a;
    } else {
      var n := |b| - 1;
      SumConcat(a, b[..n]);
      assert (a + b)[..|a + b| - 1] == a + b[..n];
    }
  }

  /** The series in order, each with its total. */
  ghost predicate Listed(ordered: seq<Sample>, samples: seq<Sample>, code: Attrs -> int)
  {
    && Ordered(ordered, code) && SeriesOf(ordered) == SeriesOf(samples)
    && forall p :: p in ordered ==> p.value == SeriesSum(samples, p.attrs)
  }

  method Arrange(points: map<Attrs, real>, code: Attrs -> int,
                 ghost samples: seq<Sample>) returns (ordered: seq<Sample>)
    requires Injective(code) && Totals(points, samples)
    ensures Listed(ordered, samples, code) && Sum(ordered) == Sum(samples)
  {
    hide Before, Sum, SumIn, SeriesSum, SeriesOf, Injective;
    ordered := [];
    var todo := points.Keys;
    ghost var done: set<Attrs> := {};
    StartsEmpty(samples);
    while todo != {}
      invariant todo <= points.Keys && done == points.Keys - todo
      invariant Ordered(ordered, code) && SeriesOf(ordered) == done && Sum(ordered) == SumIn(samples, done)
      invariant forall p :: p in ordered ==> p.value == SeriesSum(samples, p.attrs)
      decreases |todo|
    {
      var a :| a in todo;
      SumInGrows(samples, done, a);
      ordered := Insert(ordered, Sample(a, points[a]), code);
      todo := todo - {a};
      done := done + {a};
    }
    assert done == points.Keys;
    AllCovered(samples);
    SumInAll(samples, done);
  }

  lemma StartsEmpty(samples: seq<Sample>)
    ensures SeriesOf([]) == {} && Sum([]) == 0.0 && SumIn(samples, {}) == 0.0
  {
    SumInNone(samples);
  }

  lemma AllCovered(samples: seq<Sample>)
    ensures forall s :: s in samples ==> s.attrs in SeriesOf(samples)
  {
  }

  // ---- The bound ------------------------------------------------------------------------

  /** Within the bound the result is every series with its total. Beyond it, the first series in order
      stay and one remainder takes the rest, so the total never changes. */
  method BoundMetrics(samples: seq<Sample>, limit: int, code: Attrs -> int)
    returns (result: seq<Sample>, ghost ordered: seq<Sample>)
    requires limit >= 1 && Injective(code)
    ensures Listed(ordered, samples, code)
    ensures Sum(result) == Sum(samples) && |result| <= limit
    ensures |ordered| <= limit ==> result == ordered
    ensures |ordered| > limit ==>
      |result| == limit && result[..limit - 1] == ordered[..limit - 1] && result[limit - 1].attrs == REMAINDER
  {
    hide Before, Totals, Listed, Sum;
    var points := Group(samples);
    var sorted := Arrange(points, code, samples);
    ordered := sorted;
    var keep := |sorted|;
    if keep > limit {
      keep := limit - 1;
    }
    result := sorted[..keep];
    assert sorted[..keep] + sorted[keep..] == sorted;
    SumConcat(sorted[..keep], sorted[keep..]);
    if keep < |sorted| {
      var discarded := SumOf(sorted[keep..]);
      OneMore(result, Sample(REMAINDER, discarded));
      result := result + [Sample(REMAINDER, discarded)];
    } else {
      assert sorted[..keep] == sorted;
    }
  }

  method SumOf(samples: seq<Sample>) returns (total: real)
    ensures total == Sum(samples)
  {
    total := 0.0;
    var i := 0;
    while i < |samples|
      invariant 0 <= i <= |samples| && total == Sum(samples[..i])
    {
      assert samples[..i + 1][..i] == samples[..i];
      total := total + samples[i].value;
      i := i + 1;
    }
    assert samples[..i] == samples;
  }

  /** The order decides alone: two listings of the same samples are the same, so the series that stay
      do not depend on the order the samples came in. */
  lemma ListedOnce(a: seq<Sample>, b: seq<Sample>, samples: seq<Sample>, code: Attrs -> int)
    requires Listed(a, samples, code) && Listed(b, samples, code)
    ensures a == b
  {
    hide Before, SeriesSum;
    ArrangedOnce(a, b, code);
  }

  lemma {:induction false} ArrangedOnce(a: seq<Sample>, b: seq<Sample>, code: Attrs -> int)
    requires Ordered(a, code) && Ordered(b, code) && SeriesOf(a) == SeriesOf(b)
    requires forall p, q :: p in a && q in b && p.attrs == q.attrs ==> p == q
    ensures a == b
    decreases |a|
  {
    hide Before;
    if a == [] {
      assert b != [] ==> b[0].attrs in SeriesOf(b);
    } else {
      var m := |a| - 1;
      assert a[m] in a && a[m].attrs in SeriesOf(b);
      var n := |b| - 1;
      SameLast(a, b, code);
      WithoutLast(a, code);
      WithoutLast(b, code);
      ArrangedOnce(a[..m], b[..n], code);
      assert a == a[..m] + [a[m]] && b == b[..n] + [b[n]];
    }
  }

  lemma SameLast(a: seq<Sample>, b: seq<Sample>, code: Attrs -> int)
    requires Ordered(a, code) && Ordered(b, code) && SeriesOf(a) == SeriesOf(b) && a != [] && b != []
    ensures a[|a| - 1].attrs == b[|b| - 1].attrs
  {
    var x, y := a[|a| - 1], b[|b| - 1];
    assert x in a && y in b && x.attrs in SeriesOf(b) && y.attrs in SeriesOf(a);
    var i :| 0 <= i < |a| && a[i].attrs == y.attrs;
    var j :| 0 <= j < |b| && b[j].attrs == x.attrs;
    hide Enriched;
    assert i < |a| - 1 ==> Before(y.attrs, x.attrs, code);
    assert j < |b| - 1 ==> Before(x.attrs, y.attrs, code);
  }

  lemma WithoutLast(a: seq<Sample>, code: Attrs -> int)
    requires Ordered(a, code) && a != []
    ensures Ordered(a[..|a| - 1], code) && SeriesOf(a[..|a| - 1]) == SeriesOf(a) - {a[|a| - 1].attrs}
  {
    var before, last := a[..|a| - 1], a[|a| - 1];
    hide Enriched;
    forall i | 0 <= i < |before| ensures before[i].attrs != last.attrs {
      assert Before(a[i].attrs, last.attrs, code);
    }
    hide Before;
    assert a == before + [last];
    forall x | x in SeriesOf(a) && x != last.attrs ensures x in SeriesOf(before) {
      var s :| s in a && s.attrs == x;
      assert s in before;
    }
  }
}
