/** Selecting positions of a sequence by a predicate, and reading the
    elements at a list of positions. Used for the selected bits of a
    chromosome and for the solver entries that are kept. */
module Indices {

  /** The positions `j` of `s` with `p(s[j])`, in increasing order. */
  function IndicesWhere<T>(s: seq<T>, p: T -> bool): (r: seq<nat>)
    ensures forall k :: 0 <= k < |r| ==> r[k] < |s| && p(s[r[k]])
    ensures forall k, l :: 0 <= k < l < |r| ==> r[k] < r[l]
    ensures forall j :: 0 <= j < |s| && p(s[j]) ==> j in r
    decreases |s|
  {
    if s == [] then []
    else
      var n := |s| - 1;
      var front := IndicesWhere(s[..n], p);
      assert forall j :: 0 <= j < n ==> s[..n][j] == s[j];
      front + (if p(s[n]) then [n] else [])
  }

  /** One more element: the positions of the longer prefix extend those of the shorter. */
  lemma IndicesWhereSnoc<T>(s: seq<T>, p: T -> bool, j: nat)
    requires j < |s|
    ensures IndicesWhere(s[..j + 1], p) == IndicesWhere(s[..j], p) + (if p(s[j]) then [j] else [])
  {
    assert s[..j + 1][..j] == s[..j];
  }

  /** The elements of `s` at the positions `idx`, in that order. */
  function Pick<T>(s: seq<T>, idx: seq<nat>): (r: seq<T>)
    requires forall k :: 0 <= k < |idx| ==> idx[k] < |s|
    ensures |r| == |idx|
    ensures forall k :: 0 <= k < |idx| ==> r[k] == s[idx[k]]
  {
    seq(|idx|, k requires 0 <= k < |idx| => s[idx[k]])
  }

  lemma PickSnoc<T>(s: seq<T>, idx: seq<nat>, j: nat)
    requires forall k :: 0 <= k < |idx| ==> idx[k] < |s|
    requires j < |s|
    ensures Pick(s, idx + [j]) == Pick(s, idx) + [s[j]]
  {
  }
}
