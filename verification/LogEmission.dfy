/** Whole source seconds, emitted in order until a byte budget is reached. */
module LogEmission {
  import opened Instants
  import opened LogRows

  function Bytes(rows: seq<Row>): nat
  {
    if |rows| == 0 then 0
    else Bytes(rows[..|rows| - 1]) + (if rows[|rows| - 1].bytes.Some? then rows[|rows| - 1].bytes.value else 0)
  }

  lemma {:induction false} BytesConcat(a: seq<Row>, b: seq<Row>)
    ensures Bytes(a + b) == Bytes(a) + Bytes(b)
  {
    if |b| == 0 {
      assert a + b == a;
    } else {
      BytesConcat(a, b[..|b| - 1]);
      assert (a + b)[..|a + b| - 1] == a + b[..|b| - 1];
    }
  }

  predicate Emittable(rows: seq<Row>) { forall r :: r in rows ==> r.bytes.Some? }

  predicate SameSecond(a: Row, b: Row) { FloorSecond(a.at) == FloorSecond(b.at) }

  /** How many leading rows lie in the second of the first one. */
  function FirstSecond(rows: seq<Row>): (n: nat)
    ensures n <= |rows| && (|rows| > 0 ==> n > 0)
  {
    if |rows| == 0 then 0
    else if |rows| == 1 || !SameSecond(rows[0], rows[1]) then 1
    else 1 + FirstSecond(rows[1..])
  }

  lemma {:induction false} FirstSecondIs(rows: seq<Row>, n: nat)
    requires 0 < n <= |rows|
    requires forall i :: 0 <= i < n ==> SameSecond(rows[0], rows[i])
    requires n < |rows| ==> !SameSecond(rows[0], rows[n])
    ensures FirstSecond(rows) == n
  {
    if n > 1 {
      FirstSecondIs(rows[1..], n - 1);
    }
  }

  /** They are all in that second and the next row is not. */
  lemma {:induction false} FirstSecondSpan(rows: seq<Row>)
    ensures forall i :: 0 <= i < FirstSecond(rows) ==> SameSecond(rows[0], rows[i])
    ensures FirstSecond(rows) < |rows| ==> !SameSecond(rows[0], rows[FirstSecond(rows)])
  {
    if |rows| > 1 && SameSecond(rows[0], rows[1]) {
      FirstSecondSpan(rows[1..]);
      assert forall i :: 1 <= i < FirstSecond(rows) ==> rows[i] == rows[1..][i - 1];
    }
  }

  /** Emission stops at a second boundary: everything before the mark is out, nothing after it. */
  ghost predicate CutAt(rows: seq<Row>, n: nat, mark: Time)
  {
    && n <= |rows|
    && (forall i :: 0 <= i < n ==> rows[i].at < mark)
    && (forall i :: n <= i < |rows| ==> mark <= rows[i].at)
  }

  /** The rows of one source second starting at n, with the size of what they emit. */
  method EmitGroup(rows: seq<Row>, n: nat) returns (ok: bool, end: nat, size: nat)
    requires n < |rows|
    ensures Emittable(rows) ==> ok
    ensures ok ==>
      && n < end <= |rows| && end - n == FirstSecond(rows[n..])
      && (forall i :: n <= i < end ==> SameSecond(rows[n], rows[i]))
      && (end < |rows| ==> !SameSecond(rows[n], rows[end]))
      && Emittable(rows[n..end]) && size == Bytes(rows[n..end])
  {
    var second := FloorSecond(rows[n].at);
    end, size := n, 0;
    while end < |rows| && FloorSecond(rows[end].at) == second
      invariant n <= end <= |rows| && (end == n ==> FloorSecond(rows[end].at) == second)
      invariant forall i :: n <= i < end ==> FloorSecond(rows[i].at) == second
      invariant Emittable(rows[n..end]) && size == Bytes(rows[n..end])
    {
      if rows[end].bytes.None? {
        return false, end, size;
      }
      ghost var more := rows[n..end + 1];
      assert more[..|more| - 1] == rows[n..end] && more[|more| - 1] == rows[end];
      size := size + rows[end].bytes.value;
      end := end + 1;
    }
    FirstSecondIs(rows[n..], end - n);
    ok := true;
  }

  lemma CutAtSecond(rows: seq<Row>, n: nat, end: nat)
    requires Ascending(rows) && n < end < |rows|
    requires forall i :: n <= i < end ==> SameSecond(rows[n], rows[i])
    requires !SameSecond(rows[n], rows[end])
    ensures CutAt(rows, end, FloorSecond(rows[end].at))
  {
    assert forall i :: 0 <= i < end ==> NotAfter(rows[i], rows[end - 1]);
    assert NotAfter(rows[end - 1], rows[end]) && SameSecond(rows[n], rows[end - 1]);
    assert forall i :: end <= i < |rows| ==> i == end || NotAfter(rows[end], rows[i]);
  }

  /** Emits whole seconds in order. The first second is always emitted, whatever its size; a later
      one that would exceed the budget stops the emission at its start. */
  method EmitSeconds(rows: seq<Row>, budget: int) returns (ok: bool, stopped: bool, mark: Time, n: nat)
    requires Ascending(rows)
    ensures Emittable(rows) ==> ok
    ensures ok ==>
      && n <= |rows| && (n == |rows| <==> !stopped)
      && Emittable(rows[..n])
      && FirstSecond(rows) <= n && Bytes(rows[..n]) <= Max(budget, Bytes(rows[..FirstSecond(rows)]))
    ensures ok && stopped ==>
      && 0 < n < |rows| && mark == FloorSecond(rows[n].at) && CutAt(rows, n, mark)
      && Bytes(rows[..n + FirstSecond(rows[n..])]) > budget
  {
    hide NotAfter, Bytes, FirstSecond, FloorSecond, CutAt;
    var buffered, emitted := 0, false;
    n, mark := 0, 0;
    assert rows[0..] == rows && rows[..0] == [];
    assert Bytes([]) == 0 by { NoBytes(); }
    while n < |rows|
      invariant n <= |rows| && Emittable(rows[..n])
      invariant emitted <==> n > 0
      invariant buffered == Bytes(rows[..n])
      invariant 0 < n < |rows| ==> CutAt(rows, n, FloorSecond(rows[n].at))
      invariant n > 0 ==> FirstSecond(rows) <= n && buffered <= Max(budget, Bytes(rows[..FirstSecond(rows)]))
    {
      var ready, end, size := EmitGroup(rows, n);
      if !ready {
        return false, false, 0, 0;
      }
      assert rows[..n] + rows[n..end] == rows[..end];
      BytesConcat(rows[..n], rows[n..end]);
      if emitted && buffered + size > budget {
        return true, true, FloorSecond(rows[n].at), n;
      }
      if end < |rows| {
        CutAtSecond(rows, n, end);
      }
      n, buffered, emitted := end, buffered + size, true;
    }
    assert rows[..|rows|] == rows;
    ok, stopped := true, false;
  }

  lemma NoBytes()
    ensures Bytes([]) == 0 && FirstSecond([]) == 0
  {
  }
}
