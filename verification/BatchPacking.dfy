/** Packing the selections of a batch query under their combined field budgets. */
module BatchPacking {
  import opened Sequences

  /** A prepared selection: how many fields it asks for, and its dataset's limit if positive. */
  datatype Prepared = Prepared(fields: nat, budget: int)

  function Fields(ps: seq<Prepared>): nat
  {
    if |ps| == 0 then 0 else Fields(ps[..|ps| - 1]) + ps[|ps| - 1].fields
  }

  function Tighter(budget: int, p: Prepared): int
  {
    if p.budget > 0 && (budget == 0 || p.budget < budget) then p.budget else budget
  }

  /** The smallest positive limit, or zero. */
  function Budget(ps: seq<Prepared>): int
  {
    if |ps| == 0 then 0 else Tighter(Budget(ps[..|ps| - 1]), ps[|ps| - 1])
  }

  /** A request stays within the limit of every selection in it, unless one selection is alone. */
  ghost predicate Fits(ps: seq<Prepared>)
  {
    |ps| == 1 || forall p :: p in ps && p.budget > 0 ==> Fields(ps) <= p.budget
  }

  lemma {:induction false} BudgetIsSmallest(ps: seq<Prepared>)
    ensures Budget(ps) >= 0
    ensures Budget(ps) == 0 <==> forall p :: p in ps ==> p.budget <= 0
    ensures Budget(ps) > 0 ==> exists p :: p in ps && p.budget == Budget(ps)
    ensures forall p :: p in ps && p.budget > 0 ==> Budget(ps) <= p.budget
  {
    if |ps| > 0 {
      var n := |ps| - 1;
      BudgetIsSmallest(ps[..n]);
      assert ps == ps[..n] + [ps[n]];
    }
  }

  lemma FitsExactlyWhen(ps: seq<Prepared>)
    requires |ps| > 1
    ensures Fits(ps) <==> Budget(ps) == 0 || Fields(ps) <= Budget(ps)
  {
    BudgetIsSmallest(ps);
  }

  /** No request is empty or breaks a limit, and none could have taken the next selection too. */
  ghost predicate Packed(batches: seq<seq<Prepared>>)
  {
    && (forall b :: b in batches ==> |b| > 0 && Fits(b))
    && (forall i, j :: 0 <= i < |batches| && j == i + 1 < |batches| ==> Full(batches[i], batches[j]))
  }

  ghost predicate Full(b: seq<Prepared>, next: seq<Prepared>) { |next| > 0 && !Fits(b + [next[0]]) }

  // ---- No packing needs fewer requests --------------------------------------------------

  /** Any packing of the same selections in order, within the limits. */
  ghost predicate Repacks(other: seq<seq<Prepared>>, all: seq<Prepared>)
  {
    Concat(other) == all && forall b :: b in other ==> Fits(b)
  }

  lemma {:induction false} FieldsAdd(a: seq<Prepared>, b: seq<Prepared>)
    ensures Fields(a + b) == Fields(a) + Fields(b)
  {
    if |b| == 0 {
      assert a + b == a;
    } else {
      FieldsAdd(a, b[..|b| - 1]);
      assert (a + b)[..|a + b| - 1] == a + b[..|b| - 1];
    }
  }

  /** A request that fits also fits without its first or last selections. */
  lemma ShorterFits(ps: seq<Prepared>, i: nat, j: nat)
    requires i < j <= |ps| && Fits(ps)
    ensures Fits(ps[i..j])
  {
    assert ps == ps[..i] + (ps[i..j] + ps[j..]);
    FieldsAdd(ps[..i], ps[i..j] + ps[j..]);
    FieldsAdd(ps[i..j], ps[j..]);
    hide Fields;
    if |ps| > 1 {
      assert forall p :: p in ps[i..j] ==> p in ps;
    }
  }

  /** After every request the greedy packing has asked for at least as much as any other. */
  lemma {:induction false} StaysAhead(batches: seq<seq<Prepared>>, other: seq<seq<Prepared>>, k: nat)
    requires Packed(batches) && Repacks(other, Concat(batches))
    requires k <= |batches| && k <= |other|
    ensures End(other, k) <= End(batches, k)
  {
    AllParts(batches);
    AllParts(other);
    hide Concat, End, Fits;
    if k > 0 {
      StaysAhead(batches, other, k - 1);
      PartIsSlice(batches, k - 1);
      PartIsSlice(other, k - 1);
      if End(batches, k) < End(other, k) {
        NextWouldFit(batches, other, k - 1);
      }
    }
  }

  /** If a request could end further on, it would have taken the next selection. */
  lemma NextWouldFit(batches: seq<seq<Prepared>>, other: seq<seq<Prepared>>, k: nat)
    requires Packed(batches) && Repacks(other, Concat(batches))
    requires k < |batches| && k < |other| && End(other, k) <= End(batches, k)
    ensures End(other, k + 1) <= End(batches, k + 1)
  {
    hide Concat, End, Fits, Packed;
    var all := Concat(batches);
    PartIsSlice(batches, k);
    PartIsSlice(other, k);
    var a, aEnd, b, bEnd := End(batches, k), End(batches, k + 1), End(other, k), End(other, k + 1);
    if aEnd < bEnd {
      var more := NextIsRefused(batches, k);
      Inside(all, a, aEnd, b, bEnd);
      assert other[k] in other;
      ShorterFits(other[k], a - b, aEnd + 1 - b);
    }
  }

  /** A request that does not end the packing refuses the next selection. */
  lemma NextIsRefused(batches: seq<seq<Prepared>>, k: nat) returns (more: seq<Prepared>)
    requires Packed(batches) && k < |batches| && End(batches, k + 1) < |Concat(batches)|
    ensures more == batches[k] + [Concat(batches)[End(batches, k + 1)]] && !Fits(more)
  {
    hide Concat, End, Fits;
    AllParts(batches);
    PartIsSlice(batches, k + 1);
    assert batches[k + 1] in batches;
    assert Full(batches[k], batches[k + 1]);
    more := batches[k] + [batches[k + 1][0]];
  }

  lemma Inside<T>(all: seq<T>, a: nat, aEnd: nat, b: nat, bEnd: nat)
    requires b <= a <= aEnd < bEnd <= |all|
    ensures all[a..aEnd] + [all[aEnd]] == all[b..bEnd][a - b..aEnd + 1 - b]
  {
    assert all[a..aEnd] + [all[aEnd]] == all[a..aEnd + 1];
    var outer := all[b..bEnd];
    assert forall i :: a - b <= i < aEnd + 1 - b ==> outer[i] == all[b + i];
    assert outer[a - b..aEnd + 1 - b] == all[a..aEnd + 1];
  }

  lemma NoneEmpty(batches: seq<seq<Prepared>>, k: nat)
    requires Packed(batches) && k < |batches|
    ensures |batches[k]| > 0
  {
    assert batches[k] in batches;
  }

  /** Whatever in-order packing within the limits there is, a full one has no more requests. */
  lemma FewestRequests(batches: seq<seq<Prepared>>, other: seq<seq<Prepared>>)
    requires Packed(batches) && Repacks(other, Concat(batches))
    ensures |batches| <= |other|
  {
    if |other| < |batches| {
      NoneEmpty(batches, |other|);
      AllParts(other);
      PartIsSlice(batches, |other|);
      hide Concat, End, Fits;
      StaysAhead(batches, other, |other|);
    }
  }

  // ---- The packing ----------------------------------------------------------------------

  /** Every selection is asked for once, in order; no request is empty or breaks a limit, each takes as
      many selections as it can, and no in-order packing has fewer requests. */
  method Pack(prepared: seq<Prepared>) returns (batches: seq<seq<Prepared>>)
    ensures Concat(batches) == prepared
    ensures Packed(batches)
    ensures forall other :: Repacks(other, prepared) ==> |batches| <= |other|
  {
    hide Fits, Concat;
    batches := [];
    var start := 0;
    NoBatches();
    assert prepared[..0] == [];
    while start < |prepared|
      invariant 0 <= start <= |prepared| && Concat(batches) == prepared[..start] && Packed(batches)
      invariant |batches| > 0 && start < |prepared| ==> !Fits(batches[|batches| - 1] + [prepared[start]])
    {
      var end := FillOne(prepared, start);
      assert prepared[start..end][0] == prepared[start];
      OneMoreBatch(batches, prepared[start..end]);
      assert prepared[..end] == prepared[..start] + prepared[start..end];
      batches := batches + [prepared[start..end]];
      start := end;
    }
    assert prepared[..start] == prepared;
    forall other | Repacks(other, prepared) ensures |batches| <= |other| {
      FewestRequests(batches, other);
    }
  }

  lemma NoBatches()
    ensures Concat<Prepared>([]) == [] && Packed([])
  {
  }

  lemma OneMoreBatch(batches: seq<seq<Prepared>>, b: seq<Prepared>)
    requires Packed(batches) && |b| > 0 && Fits(b)
    requires |batches| > 0 ==> Full(batches[|batches| - 1], b)
    ensures Packed(batches + [b]) && Concat(batches + [b]) == Concat(batches) + b
  {
    ConcatSnoc(batches, b);
    hide Fits, Full, Concat;
    var more := batches + [b];
    forall i, j | 0 <= i < |more| && j == i + 1 < |more| ensures Full(more[i], more[j]) {
      NextIsFull(batches, b, i);
    }
  }

  lemma NextIsFull(batches: seq<seq<Prepared>>, b: seq<Prepared>, i: nat)
    requires Packed(batches) && i < |batches|
    requires |batches| > 0 ==> Full(batches[|batches| - 1], b)
    ensures Full((batches + [b])[i], (batches + [b])[i + 1])
  {
    hide Fits, Full;
    if i + 1 < |batches| {
      assert Full(batches[i], batches[i + 1]);
    }
  }

  method FillOne(prepared: seq<Prepared>, start: nat) returns (end: nat)
    requires start < |prepared|
    ensures start < end <= |prepared| && Fits(prepared[start..end])
    ensures end < |prepared| ==> !Fits(prepared[start..end] + [prepared[end]])
  {
    hide Fields, Budget, Fits;
    end := start;
    NoSelection();
    assert prepared[start..start] == [];
    var total, budget := 0, 0;
    while end < |prepared|
      invariant start <= end <= |prepared|
      invariant total == Fields(prepared[start..end]) && budget == Budget(prepared[start..end])
      invariant end > start ==> Fits(prepared[start..end])
    {
      var p := prepared[end];
      ghost var more := prepared[start..end] + [p];
      assert more == prepared[start..end + 1];
      OneMoreSelection(prepared[start..end], p);
      var nextBudget := budget;
      if p.budget > 0 && (nextBudget == 0 || p.budget < nextBudget) {
        nextBudget := p.budget;
      }
      if end > start {
        FitsExactlyWhen(more);
        BudgetIsSmallest(more);
      }
      if end > start && nextBudget > 0 && total + p.fields > nextBudget {
        return;
      }
      budget := nextBudget;
      total := total + p.fields;
      end := end + 1;
    }
  }

  lemma NoSelection()
    ensures Fields([]) == 0 && Budget([]) == 0
  {
  }

  lemma OneMoreSelection(ps: seq<Prepared>, p: Prepared)
    ensures Fields(ps + [p]) == Fields(ps) + p.fields && Budget(ps + [p]) == Tighter(Budget(ps), p)
    ensures |ps| == 0 ==> Fits(ps + [p])
  {
    assert (ps + [p])[..|ps|] == ps;
  }
}
