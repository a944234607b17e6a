/** Bisection of saturated query windows. */
module Splitter {
  import opened Instants
  import opened Multiples

  datatype SplitError = Irreducible | Unsplittable

  datatype Split = At(mid: Time) | No(reason: SplitError)

  /** A query answers, asks for its window to be split, or fails outright. */
  datatype Answer<T> = Rows(rows: seq<T>) | Saturated | QueryFailed

  datatype Outcome<T> = Success(rows: seq<T>) | StoppedAt(from: Time, to: Time, reason: SplitError) | Failure

  datatype Window = Window(from: Time, to: Time)

  /** The outcome of a bisection with the windows it queried, in order. */
  datatype Run<T> = Run(outcome: Outcome<T>, asked: seq<Window>)

  /** Go's integer division truncates toward zero. */
  function Half(d: Duration): Duration { if d >= 0 then d / 2 else -((-d) / 2) }

  function SplitWindow(from: Time, to: Time, step: Duration, minimum: Duration): (r: Split)
    ensures r.At? ==> from < r.mid < to
    ensures r == No(Irreducible) <==> to - from <= minimum
    ensures r.At? && step > 0 ==> r.mid <= from + Half(to - from) < r.mid + step
  {
    if to - from <= minimum then No(Irreducible)
    else
      var mid := Truncate(from + Half(to - from), step);
      if mid <= from || mid >= to then No(Unsplittable) else At(mid)
  }

  function Bisect<T>(from: Time, to: Time, step: Duration, minimum: Duration,
                     query: (Time, Time) -> Answer<T>): (r: Run<T>)
    ensures |r.asked| > 0 && r.asked[0] == Window(from, to)
    decreases Max(0, to - from)
  {
    var here := [Window(from, to)];
    match query(from, to)
    case QueryFailed => Run(Failure, here)
    case Rows(rows) => Run(Success(rows), here)
    case Saturated =>
      match SplitWindow(from, to, step, minimum)
      case No(reason) => Run(StoppedAt(from, to, reason), here)
      case At(mid) =>
        var left := Bisect(from, mid, step, minimum, query);
        if !left.outcome.Success? then Run(left.outcome, here + left.asked)
        else
          var right := Bisect(mid, to, step, minimum, query);
          Run(if right.outcome.Success? then Success(left.outcome.rows + right.outcome.rows) else right.outcome,
              here + left.asked + right.asked)
  }

  // ---- Success covers the whole window --------------------------------------------------

  /** Each window starts where the one before it ended, from the first bound to the last. */
  predicate Tiles(ws: seq<Window>, from: Time, to: Time)
  {
    if |ws| == 0 then from == to
    else ws[0].from == from && Tiles(ws[1..], ws[0].to, to)
  }

  lemma {:induction false} TilesConcat(a: seq<Window>, b: seq<Window>, from: Time, mid: Time, to: Time)
    requires Tiles(a, from, mid) && Tiles(b, mid, to)
    ensures Tiles(a + b, from, to)
  {
    if |a| == 0 {
      assert a + b == b;
    } else {
      TilesConcat(a[1..], b, a[0].to, mid, to);
      assert (a + b)[1..] == a[1..] + b;
    }
  }

  /** The queried windows that answered with rows. */
  function Leaves<T>(asked: seq<Window>, query: (Time, Time) -> Answer<T>): (r: seq<Window>)
    ensures forall w :: w in r ==> w in asked && query(w.from, w.to).Rows?
  {
    if |asked| == 0 then []
    else
      var rest := Leaves(asked[1..], query);
      if query(asked[0].from, asked[0].to).Rows? then [asked[0]] + rest else rest
  }

  lemma {:induction false} LeavesConcat<T>(a: seq<Window>, b: seq<Window>, query: (Time, Time) -> Answer<T>)
    ensures Leaves(a + b, query) == Leaves(a, query) + Leaves(b, query)
  {
    if |a| == 0 {
      assert a + b == b;
    } else {
      LeavesConcat(a[1..], b, query);
      assert (a + b)[1..] == a[1..] + b;
    }
  }

  function Gather<T>(ws: seq<Window>, query: (Time, Time) -> Answer<T>): seq<T>
    requires forall w :: w in ws ==> query(w.from, w.to).Rows?
  {
    if |ws| == 0 then [] else query(ws[0].from, ws[0].to).rows + Gather(ws[1..], query)
  }

  lemma {:induction false} GatherConcat<T>(a: seq<Window>, b: seq<Window>, query: (Time, Time) -> Answer<T>)
    requires forall w :: w in a ==> query(w.from, w.to).Rows?
    requires forall w :: w in b ==> query(w.from, w.to).Rows?
    ensures forall w :: w in a + b ==> query(w.from, w.to).Rows?
    ensures Gather(a + b, query) == Gather(a, query) + Gather(b, query)
  {
    if |a| == 0 {
      assert a + b == b;
    } else {
      GatherConcat(a[1..], b, query);
      assert (a + b)[1..] == a[1..] + b;
    }
  }

  /** A successful bisection returns exactly the rows of unsaturated queries over a contiguous,
      ordered partition of the window. */
  lemma {:induction false} SuccessIsPartition<T>(from: Time, to: Time, step: Duration, minimum: Duration,
                                                 query: (Time, Time) -> Answer<T>)
    requires Bisect(from, to, step, minimum, query).outcome.Success?
    ensures (var r := Bisect(from, to, step, minimum, query);
            Tiles(Leaves(r.asked, query), from, to) && r.outcome.rows == Gather(Leaves(r.asked, query), query))
    decreases Max(0, to - from)
  {
    var here := [Window(from, to)];
    if query(from, to).Saturated? {
      var mid := SplitWindow(from, to, step, minimum).mid;
      var left, right := Bisect(from, mid, step, minimum, query), Bisect(mid, to, step, minimum, query);
      SuccessIsPartition(from, mid, step, minimum, query);
      SuccessIsPartition(mid, to, step, minimum, query);
      LeavesConcat(here + left.asked, right.asked, query);
      LeavesConcat(here, left.asked, query);
      TilesConcat(Leaves(left.asked, query), Leaves(right.asked, query), from, mid, to);
      GatherConcat(Leaves(left.asked, query), Leaves(right.asked, query), query);
    }
  }

  /** If every answered window returns the true rows of that window, and the rows of adjacent
      windows concatenate, then a successful bisection returns the true rows of the whole window. */
  lemma {:induction false} SuccessIsWholeWindow<T>(from: Time, to: Time, step: Duration, minimum: Duration,
                                                   query: (Time, Time) -> Answer<T>, truth: (Time, Time) -> seq<T>)
    requires forall a, b :: query(a, b).Rows? ==> query(a, b).rows == truth(a, b)
    requires forall a, m, b {:trigger truth(a, m), truth(m, b)} :: a < m < b ==> truth(a, m) + truth(m, b) == truth(a, b)
    ensures (var r := Bisect(from, to, step, minimum, query);
            r.outcome.Success? ==> r.outcome.rows == truth(from, to))
    decreases Max(0, to - from)
  {
    if query(from, to).Saturated? && SplitWindow(from, to, step, minimum).At? {
      var mid := SplitWindow(from, to, step, minimum).mid;
      SuccessIsWholeWindow(from, mid, step, minimum, query, truth);
      SuccessIsWholeWindow(mid, to, step, minimum, query, truth);
    }
  }

  /** The window answered, or it was saturated and could be split. */
  predicate GoesOn<T>(w: Window, step: Duration, minimum: Duration, query: (Time, Time) -> Answer<T>)
  {
    query(w.from, w.to).Rows? || (query(w.from, w.to).Saturated? && SplitWindow(w.from, w.to, step, minimum).At?)
  }

  /** A bisection succeeds exactly when every window it queried answered or could be split. Otherwise the
      last window it queried is the first that did not: one that failed fails the whole, and a saturated
      one is named with the reason, inside the requested window. */
  lemma {:induction false} FailureHasCause<T>(from: Time, to: Time, step: Duration, minimum: Duration,
                                              query: (Time, Time) -> Answer<T>)
    ensures (var r := Bisect(from, to, step, minimum, query);
      && (forall i :: 0 <= i < |r.asked| - 1 ==> GoesOn(r.asked[i], step, minimum, query))
      && var last := r.asked[|r.asked| - 1];
      && from <= last.from && last.to <= to
      && (r.outcome.Success? <==> GoesOn(last, step, minimum, query))
      && (!r.outcome.Success? ==>
            r.outcome == if query(last.from, last.to).QueryFailed? then Failure
                         else StoppedAt(last.from, last.to, SplitWindow(last.from, last.to, step, minimum).reason)))
    decreases Max(0, to - from)
  {
    if query(from, to).Saturated? && SplitWindow(from, to, step, minimum).At? {
      var mid := SplitWindow(from, to, step, minimum).mid;
      FailureHasCause(from, mid, step, minimum, query);
      FailureHasCause(mid, to, step, minimum, query);
    }
  }

  // ---- Cost ---------------------------------------------------------------------------

  /** The multiples of the step strictly inside a window. */
  function Inside(from: Time, to: Time, step: Duration): set<Time>
    requires step > 0
  {
    set p | from < p < to && p % step == 0
  }

  lemma MidIsInside(from: Time, to: Time, step: Duration, minimum: Duration)
    requires step > 0 && SplitWindow(from, to, step, minimum).At?
    ensures SplitWindow(from, to, step, minimum).mid in Inside(from, to, step)
  {
    TruncateIsMultiple(from + Half(to - from), step);
  }

  /** At most two queries per step multiple inside the window, and one more. */
  lemma {:induction false} QueryBound<T>(from: Time, to: Time, step: Duration, minimum: Duration,
                                         query: (Time, Time) -> Answer<T>)
    requires step > 0
    ensures |Bisect(from, to, step, minimum, query).asked| <= 2 * |Inside(from, to, step)| + 1
    decreases Max(0, to - from)
  {
    if query(from, to).Saturated? && SplitWindow(from, to, step, minimum).At? {
      var mid := SplitWindow(from, to, step, minimum).mid;
      MidIsInside(from, to, step, minimum);
      QueryBound(from, mid, step, minimum, query);
      QueryBound(mid, to, step, minimum, query);
      assert Inside(from, to, step) == Inside(from, mid, step) + {mid} + Inside(mid, to, step);
    }
  }

  // ---- When a long enough window cannot be split ----------------------------------------

  /** The first multiple of the step after t. */
  function NextMultiple(t: Time, step: Duration): Time
    requires step > 0
  {
    (t / step + 1) * step
  }

  lemma NextMultipleIsFirst(t: Time, step: Duration)
    requires step > 0
    ensures t < NextMultiple(t, step) <= t + step && NextMultiple(t, step) % step == 0
    ensures forall p :: t < p < NextMultiple(t, step) ==> p % step != 0
  {
    assert t == t / step * step + t % step;
    MultipleHasNoRemainder(t / step + 1, step);
    forall p | t < p < NextMultiple(t, step) ensures p % step != 0 {
      DivUnique(p, step, t / step);
      assert p == p / step * step + p % step;
    }
  }

  /** A window longer than the minimum splits exactly when its first step multiple is not past
      its midpoint. */
  lemma SplitsExactlyWhen(from: Time, to: Time, step: Duration, minimum: Duration)
    requires step > 0 && 0 <= minimum < to - from
    ensures SplitWindow(from, to, step, minimum).At? <==> NextMultiple(from, step) <= from + (to - from) / 2
    ensures !SplitWindow(from, to, step, minimum).At? ==> SplitWindow(from, to, step, minimum) == No(Unsplittable)
  {
    var centre := from + (to - from) / 2;
    NextMultipleIsFirst(from, step);
    TruncateIsMultiple(centre, step);
    MultipleHasNoRemainder(centre / step, step);
    if NextMultiple(from, step) <= centre {
      DivMonotone(NextMultiple(from, step), centre, step);
      DivUnique(NextMultiple(from, step), step, from / step + 1);
      MulMonotone(from / step + 1, centre / step, step);
    }
  }

  /** The error text says that an unsplittable window has no aligned point strictly inside it.
      That is wrong exactly for the windows whose first aligned point lies past the midpoint. */
  lemma AlignedPointMissedExactlyWhen(from: Time, to: Time, step: Duration, minimum: Duration)
    requires step > 0 && 0 <= minimum < to - from
    ensures SplitWindow(from, to, step, minimum) == No(Unsplittable) && Inside(from, to, step) != {}
       <==> from + (to - from) / 2 < NextMultiple(from, step) < to
  {
    SplitsExactlyWhen(from, to, step, minimum);
    NextMultipleIsFirst(from, step);
    if NextMultiple(from, step) < to {
      assert NextMultiple(from, step) in Inside(from, to, step);
    }
  }

  lemma AlignedPointMissedExample()
    ensures SplitWindow(0, 15, 10, 5) == No(Unsplittable) && 10 in Inside(0, 15, 10)
  {
  }

  /** A bisection never stops at an unsplittable window when the minimum is at least two steps. */
  lemma {:induction false} WideMinimumNeverUnsplittable<T>(from: Time, to: Time, step: Duration, minimum: Duration,
                                                           query: (Time, Time) -> Answer<T>)
    requires step > 0 && minimum >= 2 * step
    ensures (var r := Bisect(from, to, step, minimum, query).outcome;
            r.StoppedAt? ==> r.reason == Irreducible)
    decreases Max(0, to - from)
  {
    if to - from > minimum {
      SplitsExactlyWhen(from, to, step, minimum);
      NextMultipleIsFirst(from, step);
    }
    if query(from, to).Saturated? && SplitWindow(from, to, step, minimum).At? {
      var mid := SplitWindow(from, to, step, minimum).mid;
      WideMinimumNeverUnsplittable(from, mid, step, minimum, query);
      WideMinimumNeverUnsplittable(mid, to, step, minimum, query);
    }
  }

  /** Nor when both ends are step multiples and the minimum is at least one step. */
  lemma {:induction false} AlignedNeverUnsplittable<T>(from: Time, to: Time, step: Duration, minimum: Duration,
                                                       query: (Time, Time) -> Answer<T>)
    requires step > 0 && minimum >= step && from % step == 0 && to % step == 0
    ensures (var r := Bisect(from, to, step, minimum, query).outcome;
            r.StoppedAt? ==> r.reason == Irreducible)
    decreases Max(0, to - from)
  {
    if to - from > minimum {
      AlignedLength(from, to, step);
      SplitsExactlyWhen(from, to, step, minimum);
      NextMultipleIsFirst(from, step);
    }
    if query(from, to).Saturated? && SplitWindow(from, to, step, minimum).At? {
      var mid := SplitWindow(from, to, step, minimum).mid;
      MidIsInside(from, to, step, minimum);
      AlignedNeverUnsplittable(from, mid, step, minimum, query);
      AlignedNeverUnsplittable(mid, to, step, minimum, query);
    }
  }

  lemma AlignedLength(from: Time, to: Time, step: Duration)
    requires step > 0 && to - from > step && from % step == 0 && to % step == 0
    ensures to - from >= 2 * step
  {
    var a, b := from / step, to / step;
    assert from == a * step + from % step && to == b * step + to % step;
    if b < a + 2 {
      MulMonotone(b, a + 1, step);
    } else {
      MulMonotone(a + 2, b, step);
    }
  }
}
