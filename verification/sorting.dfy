/** `sort.Strings`: sorts a slice of strings in place, ascending in Go's
    byte-wise string order. The library's own algorithm is not part of this
    model; an insertion sort stands for it, and only its contract matters to
    the callers. */
module Sorting {
  import opened Text

  /** Every element of a[..hi] except the one at `hole` is in order. */
  ghost predicate SortedExcept(a: array<string>, hi: int, hole: int)
    reads a
    requires hi <= a.Length
  {
    forall k, l :: 0 <= k < l < hi && k != hole && l != hole ==> StrLeq(a[k], a[l])
  }

  method SortStrings(a: array<string>)
    modifies a
    ensures Sorted(a[..])
    ensures multiset(a[..]) == old(multiset(a[..]))
  {
    var i := 0;
    while i < a.Length
      invariant 0 <= i <= a.Length
      invariant SortedExcept(a, i, -1)
      invariant multiset(a[..]) == old(multiset(a[..]))
    {
      var j := i;
      while j > 0 && !StrLeq(a[j - 1], a[j])
        invariant 0 <= j <= i
        invariant SortedExcept(a, i + 1, j)
        invariant forall l :: j < l <= i ==> StrLeq(a[j], a[l])
        invariant multiset(a[..]) == old(multiset(a[..]))
      {
        StrLeqTotal(a[j - 1], a[j]);
        a[j - 1], a[j] := a[j], a[j - 1];
        j := j - 1;
      }
      forall k | 0 <= k < j ensures StrLeq(a[k], a[j]) {
        if k < j - 1 {
          StrLeqTransitive(a[k], a[j - 1], a[j]);
        }
      }
      i := i + 1;
    }
    assert SortedExcept(a, a.Length, -1);
  }

  /** Two sorted arrangements of the same strings are the same sequence, so
      the sorted output is fully determined by its multiset of elements. */
  lemma {:induction false} SortedPermutationUnique(a: seq<string>, b: seq<string>)
    requires Sorted(a) && Sorted(b)
    requires multiset(a) == multiset(b)
    ensures a == b
    decreases |a|
  {
    assert |a| == |multiset(a)| == |multiset(b)| == |b|;
    if a != [] {
      assert a[0] in multiset(b);
      var j :| 0 <= j < |b| && b[j] == a[0];
      assert b[0] in multiset(a);
      var i :| 0 <= i < |a| && a[i] == b[0];
      if 0 < i && 0 < j {
        assert StrLeq(b[0], b[j]) && StrLeq(a[0], a[i]);
        StrLeqAntisymmetric(a[0], b[0]);
      }
      assert a[0] == b[0];
      assert a == [a[0]] + a[1..];
      assert b == [b[0]] + b[1..];
      assert multiset(a) == multiset{a[0]} + multiset(a[1..]);
      assert multiset(b) == multiset{b[0]} + multiset(b[1..]);
      assert multiset(a[1..]) == multiset(a) - multiset{a[0]};
      assert multiset(b[1..]) == multiset(b) - multiset{b[0]};
      SortedPermutationUnique(a[1..], b[1..]);
    }
  }
}
