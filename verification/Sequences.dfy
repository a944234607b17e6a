/** Sequences of sequences. */
module Sequences {
  /** The parts one after another. */
  function Concat<T>(parts: seq<seq<T>>): seq<T>
  {
    if |parts| == 0 then [] else Concat(parts[..|parts| - 1]) + parts[|parts| - 1]
  }

  lemma ConcatSnoc<T>(parts: seq<seq<T>>, part: seq<T>)
    ensures Concat(parts + [part]) == Concat(parts) + part
  {
    assert (parts + [part])[..|parts|] == parts;
  }

  /** Where the first k parts end. */
  function End<T>(parts: seq<seq<T>>, k: nat): nat
    requires k <= |parts|
  {
    |Concat(parts[..k])|
  }

  /** Each part is the slice between two ends. */
  lemma {:induction false} PartIsSlice<T>(parts: seq<seq<T>>, k: nat)
    requires k < |parts|
    ensures End(parts, k) + |parts[k]| == End(parts, k + 1) <= |Concat(parts)|
    ensures Concat(parts)[End(parts, k)..End(parts, k + 1)] == parts[k]
    decreases |parts|
  {
    var n := |parts| - 1;
    assert parts == parts[..n] + [parts[n]];
    if k < n {
      PartIsSlice(parts[..n], k);
      assert parts[..n][..k] == parts[..k] && parts[..n][..k + 1] == parts[..k + 1];
    } else {
      assert parts[..k + 1] == parts;
    }
  }

  lemma AllParts<T>(parts: seq<seq<T>>)
    ensures End(parts, 0) == 0 && End(parts, |parts|) == |Concat(parts)|
  {
    assert parts[..|parts|] == parts;
  }
}
