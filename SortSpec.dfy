/**
 * What the engine's orderings compute, stated once for the bucket pass of
 * build_order.h, its two-pass radix sort, and the draw-command sorts of
 * RenderQueue.h.
 *
 * Select(s, f, v) is the subsequence of s whose key f is v, in the order of s.
 * Grouped(s, f, B) concatenates Select(s, f, 0), ..., Select(s, f, B - 1): a
 * counting-sort pass over B buckets computes exactly this sequence, and it is
 * the one stable sort of s by f (GroupedIsStableSort, StableSortUnique).
 * RadixStep is the least-significant-digit argument: a stable pass on a high
 * digit after one on the low digits sorts by the combined key.
 */
module SortSpec {
  import opened Arith

  // ---------------------------------------------------------------------
  // Definitions

  /** The elements of s whose key is v, in their order in s. */
  function Select<T>(s: seq<T>, f: T -> nat, v: nat): seq<T>
  {
    if s == [] then [] else (if f(s[0]) == v then [s[0]] else []) + Select(s[1..], f, v)
  }

  /** s sorted by the key f, bucket 0 first: Select(s, f, 0) + ... + Select(s, f, B - 1). */
  function Grouped<T>(s: seq<T>, f: T -> nat, B: nat): seq<T>
  {
    if B == 0 then [] else Grouped(s, f, B - 1) + Select(s, f, B - 1)
  }

  /** Where bucket b starts in Grouped(s, f, _): the number of elements with a smaller key. */
  function Start<T>(s: seq<T>, f: T -> nat, b: nat): nat
  {
    |Grouped(s, f, b)|
  }

  /** The identity order 0, 1, ..., N - 1 the index sorts start from. */
  function Iota(N: nat): seq<nat>
  {
    seq(N, i => i)
  }

  /** The elements of s whose key is below B, in their order in s. */
  ghost function Low<T>(s: seq<T>, f: T -> nat, B: nat): seq<T>
  {
    if s == [] then [] else (if f(s[0]) < B then [s[0]] else []) + Low(s[1..], f, B)
  }

  ghost predicate SortedBy<T>(t: seq<T>, f: T -> nat)
  {
    forall i, j :: 0 <= i < j < |t| ==> f(t[i]) <= f(t[j])
  }

  ghost predicate KeysBelow<T>(s: seq<T>, f: T -> nat, B: nat)
  {
    forall i :: 0 <= i < |s| ==> f(s[i]) < B
  }

  /**
   * t is s stably sorted by f: the same elements, in key order, and the
   * elements that share a key keep their relative order from s.
   */
  ghost predicate StablySorted<T>(t: seq<T>, s: seq<T>, f: T -> nat)
  {
    && SortedBy(t, f)
    && multiset(t) == multiset(s)
    && forall v: nat :: Select(t, f, v) == Select(s, f, v)
  }

  // ---------------------------------------------------------------------
  // Select

  /** Every selected element has key v. */
  lemma {:induction false} SelectKeys<T>(s: seq<T>, f: T -> nat, v: nat)
    ensures forall i :: 0 <= i < |Select(s, f, v)| ==> f(Select(s, f, v)[i]) == v
  {
    if s != [] {
      var s' := s[1..];
      SelectKeys(s', f, v);
    }
  }

  lemma SelectKeyAt<T>(s: seq<T>, f: T -> nat, v: nat, k: nat)
    requires k < |Select(s, f, v)|
    ensures f(Select(s, f, v)[k]) == v
  {
    SelectKeys(s, f, v);
  }

  /** A selection is no longer than what it selects from. */
  lemma {:induction false} SelectLength<T>(s: seq<T>, f: T -> nat, v: nat)
    ensures |Select(s, f, v)| <= |s|
  {
    if s != [] {
      var s' := s[1..];
      SelectLength(s', f, v);
    }
  }

  /** Selecting distributes over concatenation. */
  lemma {:induction false} SelectAppend<T>(a: seq<T>, b: seq<T>, f: T -> nat, v: nat)
    ensures Select(a + b, f, v) == Select(a, f, v) + Select(b, f, v)
  {
    if a == [] {
      assert a + b == b;
    } else {
      var a', x := a[1..], a[0];
      var h := if f(x) == v then [x] else [];
      SelectAppend(a', b, f, v);
      assert (a + b)[0] == x && (a + b)[1..] == a' + b;
      assert Select(a + b, f, v) == h + Select(a' + b, f, v);
      assert Select(a, f, v) == h + Select(a', f, v);
    }
  }

  /** Selecting from one more element at the end. */
  lemma SelectSnoc<T>(s: seq<T>, x: T, f: T -> nat, v: nat)
    ensures Select(s + [x], f, v) == Select(s, f, v) + (if f(x) == v then [x] else [])
  {
    SelectAppend(s, [x], f, v);
    assert [x][1..] == [];
  }

  lemma {:induction false} SelectAll<T>(s: seq<T>, f: T -> nat, v: nat)
    requires forall i :: 0 <= i < |s| ==> f(s[i]) == v
    ensures Select(s, f, v) == s
  {
    if s != [] {
      var s' := s[1..];
      SelectAll(s', f, v);
      assert s == [s[0]] + s';
    }
  }

  lemma {:induction false} SelectNone<T>(s: seq<T>, f: T -> nat, v: nat)
    requires forall i :: 0 <= i < |s| ==> f(s[i]) != v
    ensures Select(s, f, v) == []
  {
    if s != [] {
      var s' := s[1..];
      SelectNone(s', f, v);
    }
  }

  /** Selecting by key v from the elements of key w keeps all of them or none. */
  lemma SelectSelect<T>(s: seq<T>, f: T -> nat, v: nat, w: nat)
    ensures Select(Select(s, f, w), f, v) == if v == w then Select(s, f, v) else []
  {
    SelectKeys(s, f, w);
    if v == w {
      SelectAll(Select(s, f, w), f, v);
    } else {
      SelectNone(Select(s, f, w), f, v);
    }
  }

  /** Selecting by two keys does not depend on the order of the two selections. */
  lemma {:induction false} SelectCommute<T>(s: seq<T>, f: T -> nat, g: T -> nat, a: nat, b: nat)
    ensures Select(Select(s, f, a), g, b) == Select(Select(s, g, b), f, a)
  {
    if s != [] {
      var s', x := s[1..], s[0];
      SelectCommute(s', f, g, a, b);
      SelectAppend(if f(x) == a then [x] else [], Select(s', f, a), g, b);
      SelectAppend(if g(x) == b then [x] else [], Select(s', g, b), f, a);
    }
  }

  /** A lower bound on g over s holds over every selection from s. */
  lemma {:induction false} SelectAbove<T>(s: seq<T>, f: T -> nat, g: T -> nat, v: nat, m: nat)
    requires forall i :: 0 <= i < |s| ==> m <= g(s[i])
    ensures forall i :: 0 <= i < |Select(s, f, v)| ==> m <= g(Select(s, f, v)[i])
  {
    if s != [] {
      var s' := s[1..];
      SelectAbove(s', f, g, v, m);
    }
  }

  /** A selection from a sorted sequence is sorted. */
  lemma {:induction false} SelectSorted<T>(s: seq<T>, f: T -> nat, g: T -> nat, v: nat)
    requires SortedBy(s, g)
    ensures SortedBy(Select(s, f, v), g)
  {
    if s != [] {
      var s', x := s[1..], s[0];
      SelectSorted(s', f, g, v);
      SelectAbove(s', f, g, v, g(x));
      assert Select(s, f, v) == (if f(x) == v then [x] else []) + Select(s', f, v);
    }
  }

  // ---------------------------------------------------------------------
  // Grouped: sorted, a permutation, and the only stable sort

  /** Every key in Grouped(s, f, B) is below B. */
  lemma {:induction false} GroupedKeys<T>(s: seq<T>, f: T -> nat, B: nat)
    ensures KeysBelow(Grouped(s, f, B), f, B)
  {
    if B > 0 {
      var B' := B - 1;
      GroupedKeys(s, f, B');
      SelectKeys(s, f, B');
    }
  }

  /** Bucket v of Grouped(s, f, B) is the bucket v of s, for every key below B. */
  lemma {:induction false} GroupedSelect<T>(s: seq<T>, f: T -> nat, B: nat, v: nat)
    ensures Select(Grouped(s, f, B), f, v) == if v < B then Select(s, f, v) else []
  {
    if B > 0 {
      var B' := B - 1;
      var g, top := Grouped(s, f, B'), Select(s, f, B');
      GroupedSelect(s, f, B', v);
      SelectAppend(g, top, f, v);
      SelectSelect(s, f, v, B');
    }
  }

  lemma SortedConcat<T>(a: seq<T>, b: seq<T>, f: T -> nat)
    requires SortedBy(a, f) && SortedBy(b, f)
    requires forall i, j :: 0 <= i < |a| && 0 <= j < |b| ==> f(a[i]) <= f(b[j])
    ensures SortedBy(a + b, f)
  {
  }

  /** Grouped(s, f, B) is sorted by f. */
  lemma {:induction false} GroupedSorted<T>(s: seq<T>, f: T -> nat, B: nat)
    ensures SortedBy(Grouped(s, f, B), f)
  {
    if B > 0 {
      var B' := B - 1;
      var g, top := Grouped(s, f, B'), Select(s, f, B');
      GroupedSorted(s, f, B');
      GroupedKeys(s, f, B');
      SelectKeys(s, f, B');
      SortedConcat(g, top, f);
    }
  }

  lemma MultisetCombine<T>(l: seq<T>, l0: seq<T>, gl: seq<T>, m: seq<T>, m0: seq<T>, gm: seq<T>, p: seq<T>, p0: seq<T>, gp: seq<T>)
    requires l == gl + l0 && m == gm + m0 && p == gp + p0
    requires multiset(l0) == multiset(m0) + multiset(p0)
    requires multiset(gl) == multiset(gm) + multiset(gp)
    ensures multiset(l) == multiset(m) + multiset(p)
  {
  }

  /** The keys below b + 1 are those below b and those equal to b. */
  lemma {:induction false} LowSplit<T>(s: seq<T>, f: T -> nat, B: nat, b: nat)
    requires B == b + 1
    ensures multiset(Low(s, f, B)) == multiset(Low(s, f, b)) + multiset(Select(s, f, b))
  {
    if s != [] {
      var s', x := s[1..], s[0];
      LowSplit(s', f, B, b);
      MultisetCombine(Low(s, f, B), Low(s', f, B), if f(x) < B then [x] else [],
        Low(s, f, b), Low(s', f, b), if f(x) < b then [x] else [],
        Select(s, f, b), Select(s', f, b), if f(x) == b then [x] else []);
    }
  }

  lemma {:induction false} LowNone<T>(s: seq<T>, f: T -> nat)
    ensures Low(s, f, 0) == []
  {
    if s != [] {
      var s' := s[1..];
      LowNone(s', f);
    }
  }

  lemma {:induction false} LowAll<T>(s: seq<T>, f: T -> nat, B: nat)
    requires KeysBelow(s, f, B)
    ensures Low(s, f, B) == s
  {
    if s != [] {
      var s' := s[1..];
      LowAll(s', f, B);
      assert f(s[0]) < B;
      assert s == [s[0]] + s';
    }
  }

  lemma MultisetAppend<T>(g: seq<T>, g0: seq<T>, top: seq<T>, l: seq<T>, l0: seq<T>)
    requires g == g0 + top
    requires multiset(g0) == multiset(l0)
    requires multiset(l) == multiset(l0) + multiset(top)
    ensures multiset(g) == multiset(l)
  {
  }

  /** Grouped(s, f, B) holds the elements of s with a key below B. */
  lemma {:induction false} GroupedLow<T>(s: seq<T>, f: T -> nat, B: nat)
    ensures multiset(Grouped(s, f, B)) == multiset(Low(s, f, B))
  {
    if B == 0 {
      LowNone(s, f);
    } else {
      var B' := B - 1;
      GroupedLow(s, f, B');
      LowSplit(s, f, B, B');
      MultisetAppend(Grouped(s, f, B), Grouped(s, f, B'), Select(s, f, B'), Low(s, f, B), Low(s, f, B'));
    }
  }

  /** With every key below B, Grouped keeps every element exactly once. */
  lemma GroupedPermutes<T>(s: seq<T>, f: T -> nat, B: nat)
    requires KeysBelow(s, f, B)
    ensures multiset(Grouped(s, f, B)) == multiset(s)
    ensures |Grouped(s, f, B)| == |s|
  {
    GroupedLow(s, f, B);
    LowAll(s, f, B);
    assert |multiset(Grouped(s, f, B))| == |multiset(s)|;
  }

  /** Grouped depends on s only through its selections below B. */
  lemma {:induction false} GroupedSameSelects<T>(s: seq<T>, t: seq<T>, f: T -> nat, B: nat)
    requires forall v: nat :: v < B ==> Select(s, f, v) == Select(t, f, v)
    ensures Grouped(s, f, B) == Grouped(t, f, B)
  {
    if B > 0 {
      var B' := B - 1;
      GroupedSameSelects(s, t, f, B');
      assert Select(s, f, B') == Select(t, f, B');
    }
  }

  /** The first index of a sorted t whose key is at least v, or |t|. */
  lemma SortedSplit<T>(t: seq<T>, f: T -> nat, v: nat) returns (k: nat)
    requires SortedBy(t, f)
    ensures k <= |t|
    ensures forall i :: 0 <= i < k ==> f(t[i]) < v
    ensures forall i :: k <= i < |t| ==> f(t[i]) >= v
  {
    k := 0;
    while k < |t| && f(t[k]) < v
      invariant 0 <= k <= |t|
      invariant forall i :: 0 <= i < k ==> f(t[i]) < v
    {
      k := k + 1;
    }
  }

  lemma SelectBelowSplit<T>(lo: seq<T>, hi: seq<T>, f: T -> nat, v: nat)
    requires forall i :: 0 <= i < |hi| ==> f(hi[i]) > v
    ensures Select(lo + hi, f, v) == Select(lo, f, v)
  {
    SelectAppend(lo, hi, f, v);
    SelectNone(hi, f, v);
  }

  lemma SelectTopSplit<T>(lo: seq<T>, hi: seq<T>, f: T -> nat, w: nat)
    requires forall i :: 0 <= i < |lo| ==> f(lo[i]) < w
    requires forall i :: 0 <= i < |hi| ==> f(hi[i]) == w
    ensures Select(lo + hi, f, w) == hi
  {
    SelectAppend(lo, hi, f, w);
    SelectNone(lo, f, w);
    SelectAll(hi, f, w);
  }

  /** Elements with keys of at least w do not change the buckets below w. */
  lemma GroupedBelowSplit<T>(lo: seq<T>, hi: seq<T>, f: T -> nat, w: nat)
    requires forall i :: 0 <= i < |hi| ==> f(hi[i]) >= w
    ensures Grouped(lo + hi, f, w) == Grouped(lo, f, w)
  {
    forall v: nat | v < w
      ensures Select(lo + hi, f, v) == Select(lo, f, v)
    {
      SelectBelowSplit(lo, hi, f, v);
    }
    GroupedSameSelects(lo + hi, lo, f, w);
  }

  lemma SortedPrefix<T>(t: seq<T>, f: T -> nat, k: nat)
    requires SortedBy(t, f) && k <= |t|
    ensures SortedBy(t[..k], f)
  {
  }

  /** A sequence already sorted by a key below B is its own grouping. */
  lemma {:induction false} SortedIsGrouped<T>(t: seq<T>, f: T -> nat, B: nat)
    requires SortedBy(t, f) && KeysBelow(t, f, B)
    ensures Grouped(t, f, B) == t
    decreases B
  {
    if B == 0 {
      LowNone(t, f);
      LowAll(t, f, B);
    } else {
      var B' := B - 1;
      var k := SortedSplit(t, f, B');
      var lo, hi := t[..k], t[k..];
      assert t == lo + hi;
      GroupedBelowSplit(lo, hi, f, B');
      SortedPrefix(t, f, k);
      SortedIsGrouped(lo, f, B');
      SelectTopSplit(lo, hi, f, B');
    }
  }

  /** The stable sort is unique: a sorted sequence with the selections of s is Grouped(s, f, B). */
  lemma StableSortUnique<T>(t: seq<T>, s: seq<T>, f: T -> nat, B: nat)
    requires SortedBy(t, f) && KeysBelow(t, f, B)
    requires forall v: nat :: v < B ==> Select(t, f, v) == Select(s, f, v)
    ensures t == Grouped(s, f, B)
  {
    SortedIsGrouped(t, f, B);
    GroupedSameSelects(t, s, f, B);
  }

  /** Grouped is a stable sort: the partner of StableSortUnique. */
  lemma GroupedIsStableSort<T>(s: seq<T>, f: T -> nat, B: nat)
    requires KeysBelow(s, f, B)
    ensures StablySorted(Grouped(s, f, B), s, f)
  {
    GroupedSorted(s, f, B);
    GroupedPermutes(s, f, B);
    forall v: nat
      ensures Select(Grouped(s, f, B), f, v) == Select(s, f, v)
    {
      GroupedSelect(s, f, B, v);
      if v >= B {
        SelectNone(s, f, v);
      }
    }
  }

  /**
   * When the key f never decreases as g grows over the elements of s, an
   * element of Grouped(s, f, B) comes after one with a strictly larger g only
   * when the two share a key.
   */
  lemma GroupedFollows<T>(s: seq<T>, f: T -> nat, B: nat, g: T -> real)
    requires KeysBelow(s, f, B)
    requires forall x, y :: x in s && y in s && g(x) <= g(y) ==> f(x) <= f(y)
    ensures forall i, j :: 0 <= i < j < |Grouped(s, f, B)| && g(Grouped(s, f, B)[j]) < g(Grouped(s, f, B)[i]) ==>
      f(Grouped(s, f, B)[i]) == f(Grouped(s, f, B)[j])
  {
    var t := Grouped(s, f, B);
    GroupedSorted(s, f, B);
    GroupedPermutes(s, f, B);
    forall i, j | 0 <= i < j < |t| && g(t[j]) < g(t[i])
      ensures f(t[i]) == f(t[j])
    {
      assert t[i] in multiset(s) && t[j] in multiset(s);
    }
  }

  // ---------------------------------------------------------------------
  // Positions inside Grouped, used by the counting passes

  lemma StartNext<T>(s: seq<T>, f: T -> nat, b: nat)
    ensures Start(s, f, b + 1) == Start(s, f, b) + |Select(s, f, b)|
  {
    assert Grouped(s, f, b + 1) == Grouped(s, f, b) + Select(s, f, b);
  }

  lemma {:induction false} StartMonotone<T>(s: seq<T>, f: T -> nat, b: nat, c: nat)
    requires b <= c
    ensures Start(s, f, b) <= Start(s, f, c)
    decreases c - b
  {
    if b < c {
      var c' := c - 1;
      StartMonotone(s, f, b, c');
      StartNext(s, f, c');
    }
  }

  /** Bucket b of Grouped(s, f, B) holds Select(s, f, b), from Start(s, f, b) on. */
  lemma {:induction false} GroupedAt<T>(s: seq<T>, f: T -> nat, B: nat, b: nat, k: nat)
    requires b < B && k < |Select(s, f, b)|
    ensures Start(s, f, b) + k < |Grouped(s, f, B)|
    ensures Grouped(s, f, B)[Start(s, f, b) + k] == Select(s, f, b)[k]
  {
    var B' := B - 1;
    var g', i := Grouped(s, f, B'), Start(s, f, b) + k;
    assert Grouped(s, f, B) == g' + Select(s, f, B');
    if b < B' {
      GroupedAt(s, f, B', b, k);
      assert (g' + Select(s, f, B'))[i] == g'[i];
    } else {
      assert i == |g'| + k;
    }
  }

  /** Every position of Grouped(s, f, B) lies in one bucket: bucket b, k places in. */
  lemma {:induction false} GroupedCover<T>(s: seq<T>, f: T -> nat, B: nat, p: nat) returns (b: nat, k: nat)
    requires p < |Grouped(s, f, B)|
    ensures b < B && k < |Select(s, f, b)| && p == Start(s, f, b) + k
  {
    assert B > 0;
    var B' := B - 1;
    StartNext(s, f, B');
    if p >= Start(s, f, B') {
      b, k := B', p - Start(s, f, B');
    } else {
      b, k := GroupedCover(s, f, B', p);
    }
  }

  /** Before bucket b, Grouped(s, f, B) holds only smaller keys; inside bucket b, only key b. */
  lemma GroupedBuckets<T>(s: seq<T>, f: T -> nat, B: nat, b: nat)
    requires b < B
    ensures Start(s, f, b) + |Select(s, f, b)| <= |Grouped(s, f, B)|
    ensures forall p :: 0 <= p < Start(s, f, b) ==> f(Grouped(s, f, B)[p]) < b
    ensures forall p :: Start(s, f, b) <= p < Start(s, f, b) + |Select(s, f, b)| ==> f(Grouped(s, f, B)[p]) == b
  {
    GroupedAllBefore(s, f, B, b);
    GroupedAllInside(s, f, B, b);
  }

  lemma GroupedAllBefore<T>(s: seq<T>, f: T -> nat, B: nat, b: nat)
    requires b < B
    ensures Start(s, f, b) <= |Grouped(s, f, B)|
    ensures forall p :: 0 <= p < Start(s, f, b) ==> f(Grouped(s, f, B)[p]) < b
  {
    StartMonotone(s, f, b, B);
    var st, g := Start(s, f, b), Grouped(s, f, B);
    forall p | 0 <= p < st
      ensures f(g[p]) < b
    {
      GroupedBefore(s, f, B, b, p);
    }
  }

  lemma GroupedAllInside<T>(s: seq<T>, f: T -> nat, B: nat, b: nat)
    requires b < B
    ensures Start(s, f, b) + |Select(s, f, b)| <= |Grouped(s, f, B)|
    ensures forall p :: Start(s, f, b) <= p < Start(s, f, b) + |Select(s, f, b)| ==> f(Grouped(s, f, B)[p]) == b
  {
    StartNext(s, f, b);
    StartMonotone(s, f, b + 1, B);
    var st, n, g := Start(s, f, b), |Select(s, f, b)|, Grouped(s, f, B);
    forall p | st <= p < st + n
      ensures f(g[p]) == b
    {
      GroupedInside(s, f, B, b, st, p);
    }
  }

  lemma {:induction false} GroupedInside<T>(s: seq<T>, f: T -> nat, B: nat, b: nat, st: nat, p: nat)
    requires b < B && st == Start(s, f, b) && st <= p < st + |Select(s, f, b)|
    ensures p < |Grouped(s, f, B)| && f(Grouped(s, f, B)[p]) == b
  {
    var B' := B - 1;
    var g' := Grouped(s, f, B');
    assert Grouped(s, f, B) == g' + Select(s, f, B');
    if b < B' {
      StartNext(s, f, b);
      StartMonotone(s, f, b + 1, B');
      GroupedInside(s, f, B', b, st, p);
      assert Grouped(s, f, B)[p] == g'[p];
    } else {
      SelectKeyAt(s, f, b, p - st);
      assert Grouped(s, f, B)[p] == Select(s, f, b)[p - st];
    }
  }

  lemma GroupedBefore<T>(s: seq<T>, f: T -> nat, B: nat, b: nat, p: nat)
    requires b < B && p < Start(s, f, b)
    ensures p < |Grouped(s, f, B)| && f(Grouped(s, f, B)[p]) < b
  {
    StartMonotone(s, f, b, B);
    var c, k := GroupedCover(s, f, B, p);
    if c >= b {
      StartMonotone(s, f, b, c);
    }
    GroupedAt(s, f, B, c, k);
    SelectKeys(s, f, c);
  }

  /** Selecting from s is selecting from a prefix of s and then from the rest. */
  lemma SelectPrefix<T>(s: seq<T>, f: T -> nat, v: nat, i: nat)
    requires i <= |s|
    ensures Select(s, f, v) == Select(s[..i], f, v) + Select(s[i..], f, v)
  {
    assert s == s[..i] + s[i..];
    SelectAppend(s[..i], s[i..], f, v);
  }

  /**
   * Counting-pass step: the selections from s[..i + 1] extend those from
   * s[..i] by s[i] in bucket f(s[i]) only, and s[i] is the next element of
   * that bucket in Select(s, f, f(s[i])).
   */
  lemma SelectPrefixNext<T>(s: seq<T>, f: T -> nat, i: nat)
    requires i < |s|
    ensures forall v: nat :: Select(s[..i + 1], f, v) == Select(s[..i], f, v) + (if f(s[i]) == v then [s[i]] else [])
    ensures |Select(s[..i], f, f(s[i]))| < |Select(s, f, f(s[i]))|
    ensures Select(s, f, f(s[i]))[|Select(s[..i], f, f(s[i]))|] == s[i]
  {
    var j := i + 1;
    assert s[..j] == s[..i] + [s[i]];
    forall v: nat
      ensures Select(s[..j], f, v) == Select(s[..i], f, v) + (if f(s[i]) == v then [s[i]] else [])
    {
      SelectSnoc(s[..i], s[i], f, v);
    }
    var c := f(s[i]);
    SelectPrefix(s, f, c, i);
    assert s[i..][0] == s[i];
  }

  /** Selecting from a prefix of s gives a prefix of the selection from s. */
  lemma SelectPrefixOf<T>(s: seq<T>, f: T -> nat, v: nat, i: nat, k: nat)
    requires i <= |s| && k < |Select(s[..i], f, v)|
    ensures k < |Select(s, f, v)| && Select(s, f, v)[k] == Select(s[..i], f, v)[k]
  {
    SelectPrefix(s, f, v, i);
  }

  /** Different buckets occupy disjoint positions of Grouped. */
  lemma BucketsDisjoint<T>(s: seq<T>, f: T -> nat, b: nat, k: nat, c: nat, l: nat)
    requires k < |Select(s, f, b)| && l < |Select(s, f, c)|
    requires Start(s, f, b) + k == Start(s, f, c) + l
    ensures b == c && k == l
  {
    if b < c {
      var b' := b + 1;
      StartNext(s, f, b);
      StartMonotone(s, f, b', c);
    } else if c < b {
      var c' := c + 1;
      StartNext(s, f, c);
      StartMonotone(s, f, c', b);
    }
  }

  /** The selections, and so Grouped, depend on f only through its values on s. */
  lemma {:induction false} SelectSameKeys<T>(s: seq<T>, f: T -> nat, g: T -> nat, v: nat)
    requires forall i :: 0 <= i < |s| ==> f(s[i]) == g(s[i])
    ensures Select(s, f, v) == Select(s, g, v)
  {
    if s != [] {
      var s' := s[1..];
      SelectSameKeys(s', f, g, v);
    }
  }

  lemma {:induction false} GroupedSameKeys<T>(s: seq<T>, f: T -> nat, g: T -> nat, B: nat)
    requires forall i :: 0 <= i < |s| ==> f(s[i]) == g(s[i])
    ensures Grouped(s, f, B) == Grouped(s, g, B)
  {
    if B > 0 {
      var B' := B - 1;
      GroupedSameKeys(s, f, g, B');
      SelectSameKeys(s, f, g, B');
    }
  }

  // ---------------------------------------------------------------------
  // Least-significant-digit radix sort

  /** With c = hi * R + lo and lo below R, c(x) is v exactly when the digits of x are those of v. */
  lemma KeySplit<T>(x: T, lo: T -> nat, hi: T -> nat, c: T -> nat, R: nat, v: nat, h: nat, l: nat)
    requires R > 0 && l < R && v == h * R + l
    requires lo(x) < R && c(x) == hi(x) * R + lo(x)
    ensures c(x) == v <==> hi(x) == h && lo(x) == l
  {
    DivModUnique(v, R, h, l);
    if c(x) == v {
      DivModUnique(v, R, hi(x), lo(x));
    }
  }

  /** Selecting by the combined key is selecting by the high digit, then by the low one. */
  lemma {:induction false} SelectPair<T>(u: seq<T>, lo: T -> nat, hi: T -> nat, c: T -> nat, R: nat, v: nat, h: nat, l: nat)
    requires R > 0 && l < R && v == h * R + l
    requires forall x :: lo(x) < R
    requires forall x :: c(x) == hi(x) * R + lo(x)
    ensures Select(u, c, v) == Select(Select(u, hi, h), lo, l)
  {
    if u != [] {
      var u', x := u[1..], u[0];
      SelectPair(u', lo, hi, c, R, v, h, l);
      KeySplit(x, lo, hi, c, R, v, h, l);
      SelectAppend(if hi(x) == h then [x] else [], Select(u', hi, h), lo, l);
    }
  }

  /** Elements below the top high digit have smaller combined keys than those of the top bucket. */
  lemma TopBucketAbove<T>(a: seq<T>, b: seq<T>, lo: T -> nat, hi: T -> nat, c: T -> nat, R: nat, w: nat)
    requires R > 0
    requires forall x :: lo(x) < R
    requires forall x :: c(x) == hi(x) * R + lo(x)
    requires KeysBelow(a, hi, w)
    requires forall j :: 0 <= j < |b| ==> hi(b[j]) == w
    ensures forall i, j :: 0 <= i < |a| && 0 <= j < |b| ==> c(a[i]) <= c(b[j])
  {
    forall i, j | 0 <= i < |a| && 0 <= j < |b|
      ensures c(a[i]) <= c(b[j])
    {
      var x := a[i];
      MulMonotone(hi(x) + 1, w, R);
      assert (hi(x) + 1) * R == hi(x) * R + R;
    }
  }

  /** Within one high digit, the combined key orders as the low digit does. */
  lemma SameHighSorted<T>(b: seq<T>, lo: T -> nat, hi: T -> nat, c: T -> nat, R: nat, w: nat)
    requires forall x :: c(x) == hi(x) * R + lo(x)
    requires forall j :: 0 <= j < |b| ==> hi(b[j]) == w
    requires SortedBy(b, lo)
    ensures SortedBy(b, c)
  {
    forall i, j | 0 <= i < j < |b|
      ensures c(b[i]) <= c(b[j])
    {
      assert lo(b[i]) <= lo(b[j]);
    }
  }

  /** Grouping by the high digit a sequence sorted by the low digit sorts it by the combined key. */
  lemma {:induction false} GroupedLex<T>(u: seq<T>, lo: T -> nat, hi: T -> nat, c: T -> nat, R: nat, G: nat)
    requires R > 0
    requires forall x :: lo(x) < R
    requires forall x :: c(x) == hi(x) * R + lo(x)
    requires SortedBy(u, lo)
    ensures SortedBy(Grouped(u, hi, G), c)
  {
    if G > 0 {
      var G' := G - 1;
      var a, b := Grouped(u, hi, G'), Select(u, hi, G');
      GroupedLex(u, lo, hi, c, R, G');
      GroupedKeys(u, hi, G');
      SelectSorted(u, hi, lo, G');
      SelectKeys(u, hi, G');
      SameHighSorted(b, lo, hi, c, R, G');
      TopBucketAbove(a, b, lo, hi, c, R, G');
      SortedConcat(a, b, c);
    }
  }

  lemma KeysBelowProduct<T>(t: seq<T>, lo: T -> nat, hi: T -> nat, c: T -> nat, R: nat, G: nat, B: nat)
    requires R > 0 && B == G * R
    requires forall x :: lo(x) < R
    requires forall x :: hi(x) < G
    requires forall x :: c(x) == hi(x) * R + lo(x)
    ensures KeysBelow(t, c, B)
  {
    forall i | 0 <= i < |t|
      ensures c(t[i]) < B
    {
      var x := t[i];
      MulMonotone(hi(x) + 1, G, R);
      assert (hi(x) + 1) * R == hi(x) * R + R;
    }
  }

  lemma QuotientBelow(v: nat, R: nat, G: nat, B: nat)
    requires R > 0 && B == G * R && v < B
    ensures v / R < G
  {
    if v / R >= G {
      MulMonotone(G, v / R, R);
    }
  }

  /** The selections of the two-pass result are those of s, for each combined key v. */
  lemma RadixSelect<T>(s: seq<T>, lo: T -> nat, hi: T -> nat, c: T -> nat, R: nat, G: nat, B: nat, v: nat)
    requires R > 0 && B == G * R && v < B
    requires forall x :: lo(x) < R
    requires forall x :: c(x) == hi(x) * R + lo(x)
    ensures Select(Grouped(Grouped(s, lo, R), hi, G), c, v) == Select(s, c, v)
  {
    var s1 := Grouped(s, lo, R);
    var h, l := v / R, v % R;
    QuotientBelow(v, R, G, B);
    SelectPair(Grouped(s1, hi, G), lo, hi, c, R, v, h, l);
    GroupedSelect(s1, hi, G, h);
    SelectCommute(s1, hi, lo, h, l);
    GroupedSelect(s, lo, R, l);
    SelectCommute(s, lo, hi, l, h);
    SelectPair(s, lo, hi, c, R, v, h, l);
  }

  /**
   * One least-significant-digit step: a stable pass by the high digit hi after
   * a stable pass by the low digit lo is the stable sort by hi * R + lo.
   */
  lemma RadixStep<T>(s: seq<T>, lo: T -> nat, hi: T -> nat, c: T -> nat, R: nat, G: nat, B: nat)
    requires R > 0 && B == G * R
    requires forall x :: lo(x) < R
    requires forall x :: hi(x) < G
    requires forall x :: c(x) == hi(x) * R + lo(x)
    ensures Grouped(Grouped(s, lo, R), hi, G) == Grouped(s, c, B)
  {
    var t := Grouped(Grouped(s, lo, R), hi, G);
    GroupedSorted(s, lo, R);
    GroupedLex(Grouped(s, lo, R), lo, hi, c, R, G);
    KeysBelowProduct(t, lo, hi, c, R, G, B);
    forall v: nat | v < B
      ensures Select(t, c, v) == Select(s, c, v)
    {
      RadixSelect(s, lo, hi, c, R, G, B, v);
    }
    StableSortUnique(t, s, c, B);
  }
}
