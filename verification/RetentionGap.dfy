/** Retention-gap errors inside an arbitrarily wrapped and joined error tree. */
module RetentionGap {
  import opened Instants
  import opened Options

  datatype Err =
    | Nil
    | Plain
    | Gap(floor: Time)
    | Wraps(inner: Err)
    | Joins(inners: seq<Err>)

  /** errors.As: the first retention gap of a depth-first, pre-order search. */
  function FirstGap(e: Err): Option<Time>
    decreases e, 0
  {
    match e
    case Nil => None
    case Plain => None
    case Gap(floor) => Some(floor)
    case Wraps(inner) => FirstGap(inner)
    case Joins(inners) => FirstGapOf(inners)
  }

  function FirstGapOf(es: seq<Err>): Option<Time>
    decreases es, 1
  {
    if |es| == 0 then None
    else if FirstGap(es[0]).Some? then FirstGap(es[0])
    else FirstGapOf(es[1..])
  }

  function Later(g: Option<Time>, latest: Time): Time
  {
    if g.Some? && g.value > latest then g.value else latest
  }

  /** The latest floor after visiting a tree, starting from the latest floor seen before it. */
  function Visited(e: Err, latest: Time): Time
    decreases e, 0
  {
    match e
    case Nil => latest
    case Plain => latest
    case Gap(floor) => Later(FirstGap(e), latest)
    case Wraps(inner) => Visited(inner, Later(FirstGap(e), latest))
    case Joins(inners) => VisitedAll(inners, Later(FirstGap(e), latest))
  }

  function VisitedAll(es: seq<Err>, latest: Time): Time
    decreases es, 1
  {
    if |es| == 0 then latest else VisitedAll(es[1..], Visited(es[0], latest))
  }

  function GapFloor(e: Err): Time { Visited(e, 0) }

  lemma {:induction false} VisitedAllSnoc(es: seq<Err>, e: Err, latest: Time)
    ensures VisitedAll(es + [e], latest) == Visited(e, VisitedAll(es, latest))
    decreases |es|
  {
    if |es| == 0 {
      assert es + [e] == [e];
      assert VisitedAll([e][1..], Visited(e, latest)) == Visited(e, latest);
    } else {
      VisitedAllSnoc(es[1..], e, Visited(es[0], latest));
      assert (es + [e])[1..] == es[1..] + [e];
    }
  }

  /** The recursive visit of the source, which updates one captured variable. */
  method Visit(e: Err, start: Time) returns (latest: Time)
    ensures latest == Visited(e, start)
    decreases e
  {
    latest := start;
    if e.Nil? {
      return;
    }
    latest := Later(FirstGap(e), latest);
    if e.Joins? {
      ghost var entry := latest;
      for i := 0 to |e.inners|
        invariant latest == VisitedAll(e.inners[..i], entry)
      {
        VisitedAllSnoc(e.inners[..i], e.inners[i], entry);
        assert e.inners[..i] + [e.inners[i]] == e.inners[..i + 1];
        latest := Visit(e.inners[i], latest);
      }
      assert e.inners[..|e.inners|] == e.inners;
    } else if e.Wraps? {
      latest := Visit(e.inner, latest);
    }
  }

  /** Every retention floor anywhere in the tree. */
  function Floors(e: Err): set<Time>
    decreases e
  {
    match e
    case Nil => {}
    case Plain => {}
    case Gap(floor) => {floor}
    case Wraps(inner) => Floors(inner)
    case Joins(inners) => set i, f | 0 <= i < |inners| && f in Floors(inners[i]) :: f
  }

  function FloorsOf(es: seq<Err>): set<Time>
  {
    set i, f | 0 <= i < |es| && f in Floors(es[i]) :: f
  }

  lemma FloorsOfHead(es: seq<Err>)
    requires |es| > 0
    ensures FloorsOf(es) == Floors(es[0]) + FloorsOf(es[1..])
  {
    forall f
      ensures f in FloorsOf(es) <==> f in Floors(es[0]) || f in FloorsOf(es[1..])
    {
      if f in FloorsOf(es) {
        var i :| 0 <= i < |es| && f in Floors(es[i]);
        assert i > 0 ==> es[1..][i - 1] == es[i];
      }
      if f in FloorsOf(es[1..]) {
        var i :| 0 <= i < |es[1..]| && f in Floors(es[1..][i]);
        assert es[i + 1] == es[1..][i];
      }
    }
  }

  /** The search finds a gap exactly when the tree holds one, and finds one of the tree's. */
  lemma {:induction false} FirstGapFinds(e: Err)
    ensures FirstGap(e).Some? <==> Floors(e) != {}
    ensures FirstGap(e).Some? ==> FirstGap(e).value in Floors(e)
    decreases e, 0
  {
    match e
    case Nil =>
    case Plain =>
    case Gap(_) =>
    case Wraps(inner) => FirstGapFinds(inner);
    case Joins(inners) =>
      FirstGapOfFinds(inners);
      assert Floors(e) == FloorsOf(inners);
  }

  lemma {:induction false} FirstGapOfFinds(es: seq<Err>)
    ensures FirstGapOf(es).Some? <==> FloorsOf(es) != {}
    ensures FirstGapOf(es).Some? ==> FirstGapOf(es).value in FloorsOf(es)
    decreases es, 1
  {
    if |es| > 0 {
      FloorsOfHead(es);
      FirstGapFinds(es[0]);
      FirstGapOfFinds(es[1..]);
    }
  }

  ghost predicate IsMaximum(m: Time, s: set<Time>) { m in s && forall f :: f in s ==> f <= m }

  lemma {:induction false} VisitedIsMaximum(e: Err, latest: Time)
    ensures IsMaximum(Visited(e, latest), Floors(e) + {latest})
    decreases e, 0
  {
    FirstGapFinds(e);
    match e
    case Nil =>
    case Plain =>
    case Gap(_) =>
    case Wraps(inner) => VisitedIsMaximum(inner, Later(FirstGap(e), latest));
    case Joins(inners) =>
      VisitedAllIsMaximum(inners, Later(FirstGap(e), latest));
      assert Floors(e) == FloorsOf(inners);
  }

  lemma {:induction false} VisitedAllIsMaximum(es: seq<Err>, latest: Time)
    ensures IsMaximum(VisitedAll(es, latest), FloorsOf(es) + {latest})
    decreases es, 1
  {
    if |es| > 0 {
      FloorsOfHead(es);
      VisitedIsMaximum(es[0], latest);
      VisitedAllIsMaximum(es[1..], Visited(es[0], latest));
    }
  }

  /** The gap floor is the latest floor over every retention error in the tree, and the zero
      time when no floor is later than that. */
  lemma GapFloorIsLatest(e: Err)
    ensures IsMaximum(GapFloor(e), Floors(e) + {0})
  {
    VisitedIsMaximum(e, 0);
  }
}
