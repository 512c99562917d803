/**
 * std::sort on a range of a vector, compared by a natural-number key.
 *
 * The engine calls std::sort with a key comparison in several places (the
 * index sort of RenderQueue.h, the slot lists of a material key). The C++
 * standard promises only that the range ends up ordered by the key and holds
 * the same elements; SortRange meets that promise with a selection sort, and
 * nothing in the model depends on the order std::sort gives to equal keys.
 */
module StdSort {
  /**
   * std::sort of a[lo..hi) by f, modelled as a selection sort: the range ends
   * up sorted and holds the same elements, the rest of the array is untouched.
   */
  method SortRange<T>(a: array<T>, f: T -> nat, lo: nat, hi: nat)
    requires lo <= hi <= a.Length
    modifies a
    ensures a[..lo] == old(a[..lo]) && a[hi..] == old(a[hi..])
    ensures multiset(a[lo..hi]) == multiset(old(a[lo..hi]))
    ensures forall p, q :: lo <= p < q < hi ==> f(a[p]) <= f(a[q])
  {
    var p := lo;
    while p < hi
      invariant lo <= p <= hi
      invariant a[..lo] == old(a[..lo]) && a[hi..] == old(a[hi..])
      invariant multiset(a[lo..hi]) == multiset(old(a[lo..hi]))
      invariant SortedUpTo(a[..], f, lo, p, hi)
    {
      var m := SmallestFrom(a, f, p, hi);
      ghost var s := a[..];
      SwapStep(s, f, lo, p, m, hi);
      a[p], a[m] := a[m], a[p];
      assert a[..] == s[p := s[m]][m := s[p]];
      p := p + 1;
    }
  }

  /** [lo, p) is sorted by f and holds no key above a key in [p, hi). */
  ghost predicate SortedUpTo<T>(s: seq<T>, f: T -> nat, lo: nat, p: nat, hi: nat)
  {
    forall i, j :: lo <= i < j < hi && i < p && j < |s| ==> f(s[i]) <= f(s[j])
  }

  /** Swapping the smallest remaining entry into place p extends the sorted part by one, inside the range. */
  lemma SwapStep<T>(s: seq<T>, f: T -> nat, lo: nat, p: nat, m: nat, hi: nat)
    requires lo <= p <= m < hi <= |s| && SortedUpTo(s, f, lo, p, hi)
    requires forall r :: p <= r < hi ==> f(s[m]) <= f(s[r])
    ensures SortedUpTo(s[p := s[m]][m := s[p]], f, lo, p + 1, hi)
    ensures s[p := s[m]][m := s[p]][..lo] == s[..lo] && s[p := s[m]][m := s[p]][hi..] == s[hi..]
    ensures multiset(s[p := s[m]][m := s[p]][lo..hi]) == multiset(s[lo..hi])
  {
    var t := s[p := s[m]][m := s[p]];
    assert t[lo..hi] == s[lo..hi][p - lo := s[m]][m - lo := s[p]];
  }

  /** The first entry of a[p..hi) with the smallest key. */
  method SmallestFrom<T>(a: array<T>, f: T -> nat, p: nat, hi: nat) returns (m: nat)
    requires p < hi <= a.Length
    ensures p <= m < hi
    ensures forall r :: p <= r < hi ==> f(a[m]) <= f(a[r])
    ensures forall r :: p <= r < m ==> f(a[m]) < f(a[r])
  {
    m := p;
    var q := p + 1;
    while q < hi
      invariant p <= m < q <= hi
      invariant forall r :: p <= r < q ==> f(a[m]) <= f(a[r])
      invariant forall r :: p <= r < m ==> f(a[m]) < f(a[r])
    {
      if f(a[q]) < f(a[m]) {
        m := q;
      }
      q := q + 1;
    }
  }
}
