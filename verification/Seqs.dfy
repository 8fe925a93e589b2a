/** Sequences and finite sets of numbers. */
module Seqs {

  /** `s` without its `k`th element (array_remove, os161/kern/lib/array.c). */
  function Without(s: seq<nat>, k: nat): seq<nat>
    requires k < |s|
  {
    s[..k] + s[k + 1..]
  }

  lemma WithoutAt(s: seq<nat>, k: nat)
    requires k < |s|
    ensures |Without(s, k)| == |s| - 1
    ensures forall j :: 0 <= j < |s| - 1 ==> Without(s, k)[j] == s[if j < k then j else j + 1]
  {
  }

  lemma SubsetSize(a: set<nat>, b: set<nat>)
    requires a <= b
    ensures |a| <= |b| && (|a| == |b| ==> a == b)
  {
    var rest := b - a;
    assert b == a + rest;
  }
}
