/**
 * The convex-collision builder of the asset pipeline. For one model, it takes the
 * hulls of a convex decomposition and keeps the ones with the most vertices.
 * It clamps each hull to the physics engine's vertex limit and writes the hulls
 * as a CVXH file.
 *
 * The decomposition itself (V-HACD run through trimesh), the mesh loader, the
 * clock and the file system are not modelled. The hulls and the two
 * modification times are parameters.
 */
module ConvexBuild {
  import opened Wrappers
  import opened StructPack
  import opened SortSpec

  /** The physics engine's vertex limit for one convex hull. */
  const MaxVerticesPerHull: u32 := 256

  /** One hull: its points and its flat triangle list, three indices per triangle. */
  datatype Hull<P> = Hull(points: seq<P>, indices: seq<u32>)

  // ---------------------------------------------------------------------
  // np.unique and the index map

  predicate Increasing(s: seq<int>)
  {
    forall i, j :: 0 <= i < j < |s| ==> s[i] < s[j]
  }

  /** s with x added, still strictly increasing. */
  function Insert(s: seq<u32>, x: u32): (r: seq<u32>)
    requires Increasing(s)
    ensures Increasing(r)
    ensures forall y :: y in r <==> y in s || y == x
  {
    if s == [] then [x]
    else if x < s[0] then [x] + s
    else if x == s[0] then s
    else
      TailIncreasing(s);
      var t := Insert(s[1..], x);
      ConsIncreasing(s[0], t);
      [s[0]] + t
  }

  /** The tail of an increasing sequence is increasing and above its head. */
  lemma TailIncreasing(s: seq<u32>)
    requires Increasing(s) && s != []
    ensures Increasing(s[1..]) && forall y :: y in s[1..] ==> s[0] < y
  {
  }

  /** A value below every element of an increasing sequence can go in front of it. */
  lemma ConsIncreasing(a: u32, t: seq<u32>)
    requires Increasing(t) && forall y :: y in t ==> a < y
    ensures Increasing([a] + t)
  {
    forall i, j | 0 <= i < j < |[a] + t|
      ensures ([a] + t)[i] < ([a] + t)[j]
    {
      if i == 0 {
        assert t[j - 1] in t;
      }
    }
  }

  /** np.unique: the distinct values of a, in ascending order. */
  function Unique(a: seq<u32>): (r: seq<u32>)
    ensures Increasing(r)
    ensures forall y :: y in r <==> y in a
  {
    if a == [] then []
    else
      assert a == a[..|a| - 1] + [a[|a| - 1]];
      Insert(Unique(a[..|a| - 1]), a[|a| - 1])
  }

  /** The position of v in keep: the new index the remap table gives old index v. */
  function IndexOf(keep: seq<u32>, v: u32): (r: nat)
    requires v in keep
    ensures r < |keep| && keep[r] == v
  {
    if keep[0] == v then 0 else IndexOf(keep[1..], v) + 1
  }

  // ---------------------------------------------------------------------
  // clamp_hull_vertex_count

  /**
   * The old vertex indices a clamped hull keeps, in ascending order: all the
   * referenced ones, or the lowest maxVertices of them.
   */
  function Keep(indices: seq<u32>, maxVertices: u32): (keep: seq<u32>)
    ensures |keep| <= maxVertices && Increasing(keep)
    ensures forall y :: y in keep ==> y in indices
    ensures |Unique(indices)| <= maxVertices ==> forall y :: y in indices ==> y in keep
    ensures |Unique(indices)| > maxVertices ==> keep == Unique(indices)[..maxVertices]
    ensures |Unique(indices)| > maxVertices ==>
      |keep| == maxVertices && forall y, z :: y in keep && z in indices && z !in keep ==> y < z
  {
    var used := Unique(indices);
    if |used| <= maxVertices then used
    else
      PrefixBelowRest(used, maxVertices);
      used[..maxVertices]
  }

  /** In a strictly increasing sequence, the first n elements lie below every later one. */
  lemma PrefixBelowRest(s: seq<u32>, n: nat)
    requires Increasing(s) && n <= |s|
    ensures forall y, z :: y in s[..n] && z in s && z !in s[..n] ==> y < z
  {
    forall y, z | y in s[..n] && z in s && z !in s[..n]
      ensures y < z
    {
      var i :| 0 <= i < n && s[..n][i] == y;
      var j :| 0 <= j < |s| && s[j] == z;
    }
  }

  /** The triangles of a whose three corners all lie in keep, in their order in a. */
  function KeptTriangles(a: seq<u32>, keep: seq<u32>): (r: seq<u32>)
    ensures |r| <= |a|
    ensures forall i :: 0 <= i < |r| ==> r[i] in keep
  {
    if |a| < 3 then []
    else (if a[0] in keep && a[1] in keep && a[2] in keep then a[..3] else []) + KeptTriangles(a[3..], keep)
  }

  /** Triangle t of a (corners 3t, 3t + 1, 3t + 2) has all three corners in keep. */
  predicate Full(a: seq<u32>, keep: seq<u32>, t: nat)
    requires t < |a| / 3
  {
    a[3 * t] in keep && a[3 * t + 1] in keep && a[3 * t + 2] in keep
  }

  /** Every element plus one. */
  function Shift(s: seq<nat>): seq<nat>
  {
    seq(|s|, i requires 0 <= i < |s| => s[i] + 1)
  }

  /** The numbers of the triangles of a that KeptTriangles keeps, in order. */
  function KeptIds(a: seq<u32>, keep: seq<u32>): seq<nat>
  {
    if |a| < 3 then []
    else (if Full(a, keep, 0) then [0] else []) + Shift(KeptIds(a[3..], keep))
  }

  /** Shift moves every element up by one and keeps a strictly increasing order. */
  lemma ShiftFacts(s: seq<nat>)
    ensures |Shift(s)| == |s| && 0 !in Shift(s)
    ensures forall t: nat :: t in Shift(s) <==> 1 <= t && t - 1 in s
    ensures Increasing(s) ==> Increasing(Shift(s))
  {
    forall t: nat | t in Shift(s)
      ensures 1 <= t && t - 1 in s
    {
      var j :| 0 <= j < |s| && Shift(s)[j] == t;
    }
    forall t: nat | 1 <= t && t - 1 in s
      ensures t in Shift(s)
    {
      var j :| 0 <= j < |s| && s[j] == t - 1;
      assert Shift(s)[j] == t;
    }
  }

  /** The kept triangle numbers are increasing triangles of a, three corners each. */
  lemma {:induction false} KeptIdsShape(a: seq<u32>, keep: seq<u32>)
    ensures var m := KeptIds(a, keep);
      && Increasing(m)
      && |KeptTriangles(a, keep)| == 3 * |m|
      && forall j :: 0 <= j < |m| ==> m[j] < |a| / 3
  {
    if |a| >= 3 {
      var m' := KeptIds(a[3..], keep);
      KeptIdsShape(a[3..], keep);
      ShiftFacts(m');
      var head: seq<nat> := if Full(a, keep, 0) then [0] else [];
      assert KeptIds(a, keep) == head + Shift(m');
      forall j | 0 <= j < |m'|
        ensures Shift(m')[j] < |a| / 3
      {
      }
    }
  }

  /** Triangle j of the result is triangle KeptIds[j] of a, corner by corner. */
  lemma {:induction false} KeptIdsCorners(a: seq<u32>, keep: seq<u32>)
    ensures var m, r := KeptIds(a, keep), KeptTriangles(a, keep);
      |r| == 3 * |m| &&
      forall j :: 0 <= j < |m| ==>
        (3 * m[j] + 2 < |a| && r[3 * j] == a[3 * m[j]] && r[3 * j + 1] == a[3 * m[j] + 1] && r[3 * j + 2] == a[3 * m[j] + 2])
  {
    if |a| >= 3 {
      var a' := a[3..];
      KeptIdsCorners(a', keep);
      var head: seq<nat> := if Full(a, keep, 0) then [0] else [];
      var hr: seq<u32> := if Full(a, keep, 0) then a[..3] else [];
      assert KeptIds(a, keep) == head + Shift(KeptIds(a', keep));
      assert KeptTriangles(a, keep) == hr + KeptTriangles(a', keep);
      CornersLift(a, head, hr, KeptIds(a', keep), KeptTriangles(a', keep));
    }
  }

  /** The step of KeptIdsCorners, over plain sequences: a[..3] in front, the rest one triangle later. */
  lemma CornersLift(a: seq<u32>, head: seq<nat>, hr: seq<u32>, m': seq<nat>, r': seq<u32>)
    requires |a| >= 3
    requires (head == [0] && hr == a[..3]) || (head == [] && hr == [])
    requires |r'| == 3 * |m'|
    requires forall j :: 0 <= j < |m'| ==>
      (3 * m'[j] + 2 < |a[3..]| && r'[3 * j] == a[3..][3 * m'[j]] && r'[3 * j + 1] == a[3..][3 * m'[j] + 1] && r'[3 * j + 2] == a[3..][3 * m'[j] + 2])
    ensures var m, r := head + Shift(m'), hr + r';
      |r| == 3 * |m| &&
      forall j :: 0 <= j < |m| ==>
        (3 * m[j] + 2 < |a| && r[3 * j] == a[3 * m[j]] && r[3 * j + 1] == a[3 * m[j] + 1] && r[3 * j + 2] == a[3 * m[j] + 2])
  {
    forall j | 0 <= j < |head| + |m'|
      ensures var m, r := head + Shift(m'), hr + r';
        3 * m[j] + 2 < |a| && r[3 * j] == a[3 * m[j]] && r[3 * j + 1] == a[3 * m[j] + 1] && r[3 * j + 2] == a[3 * m[j] + 2]
    {
      if j >= |head| {
        var i := j - |head|;
        var a' := a[3..];
        assert 3 * m'[i] + 2 < |a'| && r'[3 * i] == a'[3 * m'[i]] && r'[3 * i + 1] == a'[3 * m'[i] + 1] && r'[3 * i + 2] == a'[3 * m'[i] + 2];
        LiftAt(a, head, hr, m', r', i);
      }
    }
  }

  /** One triangle of the step of KeptIdsCorners: triangle i of the rest is triangle |head| + i of the whole. */
  lemma LiftAt(a: seq<u32>, head: seq<nat>, hr: seq<u32>, m': seq<nat>, r': seq<u32>, i: nat)
    requires |a| >= 3 && |hr| == 3 * |head| && |r'| == 3 * |m'| && i < |m'|
    requires 3 * m'[i] + 2 < |a| - 3
    requires r'[3 * i] == a[3..][3 * m'[i]] && r'[3 * i + 1] == a[3..][3 * m'[i] + 1] && r'[3 * i + 2] == a[3..][3 * m'[i] + 2]
    ensures var m, r, j := head + Shift(m'), hr + r', |head| + i;
      3 * m[j] + 2 < |a| && r[3 * j] == a[3 * m[j]] && r[3 * j + 1] == a[3 * m[j] + 1] && r[3 * j + 2] == a[3 * m[j] + 2]
  {
    var m, r, j := head + Shift(m'), hr + r', |head| + i;
    assert m[j] == Shift(m')[i] == m'[i] + 1;
    assert r[3 * j] == r'[3 * i] && r[3 * j + 1] == r'[3 * i + 1] && r[3 * j + 2] == r'[3 * i + 2];
    assert a[3..][3 * m'[i]] == a[3 * m[j]];
    assert a[3..][3 * m'[i] + 1] == a[3 * m[j] + 1];
    assert a[3..][3 * m'[i] + 2] == a[3 * m[j] + 2];
  }

  /** A triangle of a is kept exactly when all three of its corners lie in keep. */
  lemma {:induction false} KeptIdsExact(a: seq<u32>, keep: seq<u32>)
    ensures forall t :: 0 <= t < |a| / 3 ==> (t in KeptIds(a, keep) <==> Full(a, keep, t))
  {
    if |a| >= 3 {
      KeptIdsExact(a[3..], keep);
      var head: seq<nat> := if Full(a, keep, 0) then [0] else [];
      assert KeptIds(a, keep) == head + Shift(KeptIds(a[3..], keep));
      ExactLift(a, keep, head, KeptIds(a[3..], keep));
    }
  }

  /** The step of KeptIdsExact: triangle t of a is triangle t - 1 of a[3..]. */
  lemma ExactLift(a: seq<u32>, keep: seq<u32>, head: seq<nat>, m': seq<nat>)
    requires |a| >= 3 && head == (if Full(a, keep, 0) then [0] else [])
    requires forall t :: 0 <= t < |a[3..]| / 3 ==> (t in m' <==> Full(a[3..], keep, t))
    ensures forall t :: 0 <= t < |a| / 3 ==> (t in head + Shift(m') <==> Full(a, keep, t))
  {
    ShiftFacts(m');
    forall t | 0 <= t < |a| / 3
      ensures t in head + Shift(m') <==> Full(a, keep, t)
    {
      if t >= 1 {
        var a' := a[3..];
        assert a'[3 * (t - 1)] == a[3 * t];
        assert a'[3 * (t - 1) + 1] == a[3 * t + 1];
        assert a'[3 * (t - 1) + 2] == a[3 * t + 2];
        assert Full(a', keep, t - 1) <==> Full(a, keep, t);
      }
    }
  }

  /**
   * The mask filter of clamp_hull_vertex_count: the kept corners are exactly
   * the triangles of a whose corners all lie in keep, whole and in their order
   * in a. Triangle m[j] of a becomes triangle j of the result.
   */
  lemma KeptTrianglesFilter(a: seq<u32>, keep: seq<u32>)
    ensures var m, r := KeptIds(a, keep), KeptTriangles(a, keep);
      && Increasing(m)
      && |r| == 3 * |m|
      && (forall j :: 0 <= j < |m| ==> m[j] < |a| / 3)
      && (forall j :: 0 <= j < |m| ==> r[3 * j] == a[3 * m[j]] && r[3 * j + 1] == a[3 * m[j] + 1] && r[3 * j + 2] == a[3 * m[j] + 2])
      && (forall t :: 0 <= t < |a| / 3 ==> (t in m <==> Full(a, keep, t)))
  {
    KeptIdsShape(a, keep);
    KeptIdsCorners(a, keep);
    KeptIdsExact(a, keep);
  }

  /** The kept corners are whole triangles. */
  lemma {:induction false} KeptTrianglesWhole(a: seq<u32>, keep: seq<u32>)
    ensures |KeptTriangles(a, keep)| % 3 == 0
  {
    if |a| >= 3 {
      KeptTrianglesWhole(a[3..], keep);
    }
  }

  /** When every corner is kept, no triangle is dropped. */
  lemma {:induction false} KeptTrianglesAll(a: seq<u32>, keep: seq<u32>)
    requires |a| % 3 == 0
    requires forall i :: 0 <= i < |a| ==> a[i] in keep
    ensures KeptTriangles(a, keep) == a
  {
    if a != [] {
      assert |a| >= 3;
      KeptTrianglesAll(a[3..], keep);
      assert a == a[..3] + a[3..];
    }
  }

  /** When every triangle has a corner outside keep, every triangle is dropped. */
  lemma {:induction false} KeptTrianglesNone(a: seq<u32>, keep: seq<u32>)
    requires |a| % 3 == 0
    requires forall t :: 0 <= t < |a| / 3 ==> !(a[3 * t] in keep && a[3 * t + 1] in keep && a[3 * t + 2] in keep)
    ensures KeptTriangles(a, keep) == []
  {
    if a != [] {
      assert |a| >= 3;
      forall t | 0 <= t < |a[3..]| / 3
        ensures !(a[3..][3 * t] in keep && a[3..][3 * t + 1] in keep && a[3..][3 * t + 2] in keep)
      {
        assert a[3..][3 * t] == a[3 * (t + 1)];
        assert a[3..][3 * t + 1] == a[3 * (t + 1) + 1];
        assert a[3..][3 * t + 2] == a[3 * (t + 1) + 2];
      }
      KeptTrianglesNone(a[3..], keep);
      assert !(a[3 * 0] in keep && a[3 * 0 + 1] in keep && a[3 * 0 + 2] in keep);
    }
  }

  predicate Within(keep: seq<u32>, n: nat)
  {
    forall j :: 0 <= j < |keep| ==> keep[j] < n
  }

  /** points[keep]. */
  function Gather<P>(points: seq<P>, keep: seq<u32>): seq<P>
    requires Within(keep, |points|)
  {
    seq(|keep|, j requires 0 <= j < |keep| => points[keep[j]])
  }

  /** remap[kept]: every old index replaced by its position in keep. */
  function Remap(keep: seq<u32>, kept: seq<u32>): seq<u32>
    requires |keep| < 0x1_0000_0000
    requires forall i :: 0 <= i < |kept| ==> kept[i] in keep
  {
    seq(|kept|, i requires 0 <= i < |kept| => IndexOf(keep, kept[i]) as u32)
  }

  /**
   * clamp_hull_vertex_count. A hull within the limit comes back unchanged.
   * Otherwise the hull keeps only referenced vertices, at most maxVertices of
   * them (the lowest indices), and the triangles whose corners all survive,
   * renumbered. None stands for the exceptions numpy raises: a corner list that
   * does not reshape into triangles, or a kept index past the last point.
   */
  function ClampHull<P>(h: Hull<P>, maxVertices: u32): (r: Option<Hull<P>>)
    ensures |h.points| <= maxVertices ==> r == Some(h)
    ensures r.None? <==>
      |h.points| > maxVertices && (|h.indices| % 3 != 0 || !Within(Keep(h.indices, maxVertices), |h.points|))
    ensures r.Some? ==> |r.value.points| <= maxVertices
  {
    if |h.points| <= maxVertices then Some(h)
    else if |h.indices| % 3 != 0 then None
    else
      var keep := Keep(h.indices, maxVertices);
      if !Within(keep, |h.points|) then None
      else if |Unique(h.indices)| <= maxVertices then Some(Hull(Gather(h.points, keep), Remap(keep, h.indices)))
      else
        var kept := KeptTriangles(h.indices, keep);
        if kept == [] then Some(Hull(Gather(h.points, keep), []))
        else Some(Hull(Gather(h.points, keep), Remap(keep, kept)))
  }

  /** The corners, in the input's numbering, of the triangles a clamp keeps. */
  function KeptCorners<P>(h: Hull<P>, maxVertices: u32): (r: seq<u32>)
    requires |h.indices| % 3 == 0
    ensures |r| <= |h.indices| && |r| % 3 == 0
  {
    if |Unique(h.indices)| <= maxVertices then h.indices
    else
      KeptTrianglesWhole(h.indices, Keep(h.indices, maxVertices));
      KeptTriangles(h.indices, Keep(h.indices, maxVertices))
  }

  /**
   * A clamp that changes the hull keeps the referenced vertices in their old
   * order (all of them, or exactly maxVertices when there are more). It keeps
   * the triangles whose corners survive, with the same corner points and new
   * indices that all lie in range. When all referenced vertices fit, every
   * triangle survives.
   */
  lemma ClampCompacts<P>(h: Hull<P>, maxVertices: u32, c: Hull<P>)
    requires |h.points| > maxVertices && ClampHull(h, maxVertices) == Some(c)
    ensures |h.indices| % 3 == 0 && Within(Keep(h.indices, maxVertices), |h.points|)
    ensures c.points == Gather(h.points, Keep(h.indices, maxVertices))
    ensures |Unique(h.indices)| <= maxVertices ==> |c.points| == |Unique(h.indices)|
    ensures |Unique(h.indices)| > maxVertices ==> |c.points| == maxVertices
    ensures |c.indices| == |KeptCorners(h, maxVertices)|
    ensures forall i :: 0 <= i < |c.indices| ==> c.indices[i] < |c.points|
    ensures forall i :: 0 <= i < |c.indices| ==> c.points[c.indices[i]] == h.points[KeptCorners(h, maxVertices)[i]]
    ensures forall i :: 0 <= i < |c.indices| ==> Keep(h.indices, maxVertices)[c.indices[i]] == KeptCorners(h, maxVertices)[i]
    ensures |Unique(h.indices)| <= maxVertices ==> KeptCorners(h, maxVertices) == h.indices
  {
    var keep := Keep(h.indices, maxVertices);
    var kept := KeptCorners(h, maxVertices);
    forall i | 0 <= i < |c.indices|
      ensures c.indices[i] < |c.points| && c.points[c.indices[i]] == h.points[kept[i]] && keep[c.indices[i]] == kept[i]
    {
      assert kept[i] in keep;
      var r := IndexOf(keep, kept[i]);
      assert c.indices[i] == r;
    }
  }

  // ---------------------------------------------------------------------
  // pick_top_hulls

  /** A hull's vertex count, the sort key of pick_top_hulls. */
  function VertexCount<P>(h: Hull<P>): nat
  {
    |h.points|
  }

  /** The largest vertex count among hs, or 0 for no hulls. */
  function MostVertices<P>(hs: seq<Hull<P>>): (m: nat)
    ensures forall i :: 0 <= i < |hs| ==> |hs[i].points| <= m
  {
    if hs == [] then 0
    else
      var m := MostVertices(hs[1..]);
      assert forall i :: 1 <= i < |hs| ==> hs[i] == hs[1..][i - 1];
      if |hs[0].points| > m then |hs[0].points| else m
  }

  /** An ascending key that puts the hulls with more vertices first: M minus the count. */
  function Fewer<P>(M: nat): Hull<P> -> nat
  {
    (h: Hull<P>) => if |h.points| <= M then M - |h.points| else 0
  }

  /** sorted(hs, key=vertex count, reverse=True). Python's sort is stable. */
  function ByVertexCount<P>(hs: seq<Hull<P>>): seq<Hull<P>>
  {
    var M := MostVertices(hs);
    Grouped(hs, Fewer(M), M + 1)
  }

  /** pick_top_hulls: the first maxHulls hulls of ByVertexCount. */
  function PickTopHulls<P>(hs: seq<Hull<P>>, maxHulls: nat): seq<Hull<P>>
  {
    var t := ByVertexCount(hs);
    t[..if maxHulls < |t| then maxHulls else |t|]
  }

  /** Two keys that pick out the same elements select the same subsequence. */
  lemma {:induction false} SelectSameClass<T>(s: seq<T>, f: T -> nat, v: nat, g: T -> nat, w: nat)
    requires forall i :: 0 <= i < |s| ==> (f(s[i]) == v <==> g(s[i]) == w)
    ensures Select(s, f, v) == Select(s, g, w)
  {
    if s != [] {
      SelectSameClass(s[1..], f, v, g, w);
    }
  }

  /** An element with key f(s[i]) is one of that key's selection. */
  lemma {:induction false} InOwnSelect<T>(s: seq<T>, f: T -> nat, i: nat)
    requires i < |s|
    ensures s[i] in Select(s, f, f(s[i]))
  {
    if i > 0 {
      InOwnSelect(s[1..], f, i - 1);
    }
  }

  /** Within hulls of at most M vertices, selecting by count n is selecting by Fewer(M) at M - n. */
  lemma CountAsFewer<P>(s: seq<Hull<P>>, M: nat)
    requires forall i :: 0 <= i < |s| ==> |s[i].points| <= M
    ensures forall n: nat :: n <= M ==> Select(s, VertexCount, n) == Select(s, Fewer(M), M - n)
    ensures forall n: nat :: n > M ==> Select(s, VertexCount, n) == []
  {
    forall n: nat | n <= M
      ensures Select(s, VertexCount, n) == Select(s, Fewer(M), M - n)
    {
      SelectSameClass(s, VertexCount, n, Fewer(M), M - n);
    }
    CountsAbove(s, M);
  }

  /** No hull of at most M vertices has a larger count. */
  lemma CountsAbove<P>(s: seq<Hull<P>>, M: nat)
    requires forall i :: 0 <= i < |s| ==> |s[i].points| <= M
    ensures forall n: nat :: n > M ==> Select(s, VertexCount, n) == []
  {
    forall n: nat | n > M
      ensures Select(s, VertexCount, n) == []
    {
      SelectNone(s, VertexCount, n);
    }
  }

  /** Within hulls of at most M vertices, selecting by Fewer(M) at v is selecting by count M - v. */
  lemma FewerAsCount<P>(s: seq<Hull<P>>, M: nat)
    requires forall i :: 0 <= i < |s| ==> |s[i].points| <= M
    ensures forall v: nat :: v <= M ==> Select(s, Fewer(M), v) == Select(s, VertexCount, M - v)
  {
    forall v: nat | v <= M
      ensures Select(s, Fewer(M), v) == Select(s, VertexCount, M - v)
    {
      SelectSameClass(s, Fewer(M), v, VertexCount, M - v);
    }
  }

  /** With every count at most M, every key Fewer(M) gives is at most M. */
  lemma FewerBelow<P>(s: seq<Hull<P>>, M: nat)
    requires forall i :: 0 <= i < |s| ==> |s[i].points| <= M
    ensures KeysBelow(s, Fewer(M), M + 1)
  {
  }

  /** Equal selections under Fewer(M) are equal selections under the vertex count. */
  lemma SameCountSelects<P>(t: seq<Hull<P>>, s: seq<Hull<P>>, M: nat)
    requires forall i :: 0 <= i < |t| ==> |t[i].points| <= M
    requires forall i :: 0 <= i < |s| ==> |s[i].points| <= M
    requires forall v: nat :: Select(t, Fewer(M), v) == Select(s, Fewer(M), v)
    ensures forall n: nat :: Select(t, VertexCount, n) == Select(s, VertexCount, n)
  {
    CountAsFewer(t, M);
    CountAsFewer(s, M);
  }

  /** Ascending in Fewer(M) is descending in vertex count. */
  lemma FewerSortedDescends<P>(t: seq<Hull<P>>, M: nat)
    requires forall i :: 0 <= i < |t| ==> |t[i].points| <= M
    requires SortedBy(t, Fewer(M))
    ensures forall i, j :: 0 <= i < j < |t| ==> |t[i].points| >= |t[j].points|
  {
    forall i, j | 0 <= i < j < |t|
      ensures |t[i].points| >= |t[j].points|
    {
      assert Fewer(M)(t[i]) <= Fewer(M)(t[j]);
    }
  }

  /**
   * ByVertexCount holds the same hulls, most vertices first, and hulls with
   * equal counts keep their order from hs.
   */
  lemma ByVertexCountSorts<P>(hs: seq<Hull<P>>)
    ensures multiset(ByVertexCount(hs)) == multiset(hs) && |ByVertexCount(hs)| == |hs|
    ensures forall i, j :: 0 <= i < j < |ByVertexCount(hs)| ==>
      |ByVertexCount(hs)[i].points| >= |ByVertexCount(hs)[j].points|
    ensures forall n: nat :: Select(ByVertexCount(hs), VertexCount, n) == Select(hs, VertexCount, n)
  {
    var M := MostVertices(hs);
    ByVertexCountIs(hs, M);
    GroupedByFewer(hs, M, ByVertexCount(hs));
  }

  /** Grouping hulls of at most M vertices by Fewer(M) sorts them stably, most vertices first. */
  lemma GroupedByFewer<P>(hs: seq<Hull<P>>, M: nat, t: seq<Hull<P>>)
    requires forall i :: 0 <= i < |hs| ==> |hs[i].points| <= M
    requires t == Grouped(hs, Fewer(M), M + 1)
    ensures multiset(t) == multiset(hs) && |t| == |hs|
    ensures forall i, j :: 0 <= i < j < |t| ==> |t[i].points| >= |t[j].points|
    ensures forall n: nat :: Select(t, VertexCount, n) == Select(hs, VertexCount, n)
  {
    FewerBelow(hs, M);
    GroupedIsStableSort(hs, Fewer(M), M + 1);
    FewerSorts(hs, M, t);
  }

  /** A stable sort by Fewer(M) of hulls of at most M vertices puts the most vertices first. */
  lemma FewerSorts<P>(hs: seq<Hull<P>>, M: nat, t: seq<Hull<P>>)
    requires forall i :: 0 <= i < |hs| ==> |hs[i].points| <= M
    requires StablySorted(t, hs, Fewer(M))
    ensures multiset(t) == multiset(hs) && |t| == |hs|
    ensures forall i, j :: 0 <= i < j < |t| ==> |t[i].points| >= |t[j].points|
    ensures forall n: nat :: Select(t, VertexCount, n) == Select(hs, VertexCount, n)
  {
    assert |t| == |hs| by {
      assert |multiset(t)| == |multiset(hs)|;
    }
    forall i | 0 <= i < |t|
      ensures |t[i].points| <= M
    {
      assert t[i] in multiset(hs);
    }
    FewerSortedDescends(t, M);
    SameCountSelects(t, hs, M);
  }

  /**
   * The order is the only stable one: any ordering u of hs, most vertices
   * first, that keeps equal-count hulls in their order from hs is ByVertexCount(hs).
   */
  lemma ByVertexCountUnique<P>(hs: seq<Hull<P>>, u: seq<Hull<P>>)
    requires forall i, j :: 0 <= i < j < |u| ==> |u[i].points| >= |u[j].points|
    requires forall n: nat :: Select(u, VertexCount, n) == Select(hs, VertexCount, n)
    ensures u == ByVertexCount(hs)
  {
    var M := MostVertices(hs);
    SameCountsBounded(hs, u);
    FewerUnique(hs, u, M);
    ByVertexCountIs(hs, M);
  }

  lemma ByVertexCountIs<P>(hs: seq<Hull<P>>, M: nat)
    requires M == MostVertices(hs)
    ensures ByVertexCount(hs) == Grouped(hs, Fewer(M), M + 1)
  {
  }

  /** The stable order by Fewer(M) is the only one with u's properties. */
  lemma FewerUnique<P>(hs: seq<Hull<P>>, u: seq<Hull<P>>, M: nat)
    requires forall i :: 0 <= i < |u| ==> |u[i].points| <= M
    requires forall i :: 0 <= i < |hs| ==> |hs[i].points| <= M
    requires forall i, j :: 0 <= i < j < |u| ==> |u[i].points| >= |u[j].points|
    requires forall n: nat :: Select(u, VertexCount, n) == Select(hs, VertexCount, n)
    ensures u == Grouped(hs, Fewer(M), M + 1)
  {
    FewerBelow(u, M);
    FewerSelects(u, hs, M);
    FewerSorted(u, M);
    StableSortUnique(u, hs, Fewer(M), M + 1);
  }

  /** A sequence with the same selections by vertex count as hs has no hull larger than hs has. */
  lemma SameCountsBounded<P>(hs: seq<Hull<P>>, u: seq<Hull<P>>)
    requires forall n: nat :: Select(u, VertexCount, n) == Select(hs, VertexCount, n)
    ensures forall i :: 0 <= i < |u| ==> |u[i].points| <= MostVertices(hs)
  {
    var M := MostVertices(hs);
    forall i | 0 <= i < |u|
      ensures |u[i].points| <= M
    {
      InOwnSelect(u, VertexCount, i);
      CountAsFewer(hs, M);
    }
  }

  /** Equal selections under the vertex count are equal selections under Fewer(M). */
  lemma FewerSelects<P>(u: seq<Hull<P>>, s: seq<Hull<P>>, M: nat)
    requires forall i :: 0 <= i < |u| ==> |u[i].points| <= M
    requires forall i :: 0 <= i < |s| ==> |s[i].points| <= M
    requires forall n: nat :: Select(u, VertexCount, n) == Select(s, VertexCount, n)
    ensures forall v: nat :: v < M + 1 ==> Select(u, Fewer(M), v) == Select(s, Fewer(M), v)
  {
    FewerAsCount(u, M);
    FewerAsCount(s, M);
  }

  /** Descending in vertex count is ascending in Fewer(M). */
  lemma FewerSorted<P>(u: seq<Hull<P>>, M: nat)
    requires forall i, j :: 0 <= i < j < |u| ==> |u[i].points| >= |u[j].points|
    ensures SortedBy(u, Fewer(M))
  {
  }

  /**
   * pick_top_hulls returns min(maxHulls, |hs|) of the hulls, most vertices
   * first, and no hull it leaves out has more vertices than one it keeps.
   */
  lemma PickTopHullsPicks<P>(hs: seq<Hull<P>>, maxHulls: nat)
    ensures |PickTopHulls(hs, maxHulls)| == if maxHulls < |hs| then maxHulls else |hs|
    ensures multiset(PickTopHulls(hs, maxHulls)) <= multiset(hs)
    ensures forall i, j :: 0 <= i < j < |PickTopHulls(hs, maxHulls)| ==>
      |PickTopHulls(hs, maxHulls)[i].points| >= |PickTopHulls(hs, maxHulls)[j].points|
    ensures forall i, x :: 0 <= i < |PickTopHulls(hs, maxHulls)| && x in multiset(hs) - multiset(PickTopHulls(hs, maxHulls)) ==>
      |x.points| <= |PickTopHulls(hs, maxHulls)[i].points|
  {
    ByVertexCountSorts(hs);
    var t := ByVertexCount(hs);
    TopOfSorted(hs, t, if maxHulls < |t| then maxHulls else |t|);
  }

  /** The first k hulls of a reordering of hs, most vertices first, are its k largest. */
  lemma TopOfSorted<P>(hs: seq<Hull<P>>, t: seq<Hull<P>>, k: nat)
    requires multiset(t) == multiset(hs) && k <= |t|
    requires forall i, j :: 0 <= i < j < |t| ==> |t[i].points| >= |t[j].points|
    ensures multiset(t[..k]) <= multiset(hs)
    ensures forall i, j :: 0 <= i < j < k ==> |t[..k][i].points| >= |t[..k][j].points|
    ensures forall i, x :: 0 <= i < k && x in multiset(hs) - multiset(t[..k]) ==> |x.points| <= |t[..k][i].points|
  {
    var r, rest := t[..k], t[k..];
    assert t == r + rest;
    assert multiset(t) == multiset(r) + multiset(rest);
    forall i, x | 0 <= i < k && x in multiset(hs) - multiset(r)
      ensures |x.points| <= |r[i].points|
    {
      assert x in multiset(rest);
      var j :| 0 <= j < |rest| && rest[j] == x;
      assert t[k + j] == x;
    }
  }

  // ---------------------------------------------------------------------
  // write_convex_binary

  /** The hull's counts fit the file's 32-bit fields. */
  predicate Fits(h: Hull<Float3>)
  {
    |h.points| < 0x1_0000_0000 && |h.indices| < 0x1_0000_0000
  }

  /** The words of one hull's record: vertex count, index count, the coordinates, the indices. */
  function RecordWords(h: Hull<Float3>): (ws: seq<u32>)
    requires Fits(h)
    ensures |ws| == 2 + 3 * |h.points| + |h.indices|
  {
    [|h.points|, |h.indices|] + Coords(h.points) + h.indices
  }

  /** One hull's record, packed. */
  function HullRecord(h: Hull<Float3>): (b: seq<byte>)
    requires Fits(h)
    ensures |b| == 8 + 12 * |h.points| + 4 * |h.indices|
  {
    WordsBytes(RecordWords(h))
  }

  /** The record is the three writes of write_convex_binary: the counts, the coordinates, the indices. */
  lemma RecordPacks(h: Hull<Float3>)
    requires Fits(h)
    ensures HullRecord(h) == WordsBytes([|h.points|, |h.indices|]) + WordsBytes(Coords(h.points)) + WordsBytes(h.indices)
  {
    WordsBytesAppend([|h.points|, |h.indices|] + Coords(h.points), h.indices);
    WordsBytesAppend([|h.points|, |h.indices|], Coords(h.points));
  }

  /** The file header: the tag "CVXH", version 1 and the hull count. */
  function ConvexHeader(n: u32): (b: seq<byte>)
    ensures |b| == 12
  {
    Tag('C', 'V', 'X', 'H') + WordBytes(1) + WordBytes(n)
  }

  function Records(cs: seq<Hull<Float3>>): seq<byte>
    requires forall i :: 0 <= i < |cs| ==> Fits(cs[i])
  {
    if cs == [] then [] else HullRecord(cs[0]) + Records(cs[1..])
  }

  lemma {:induction false} RecordsSnoc(cs: seq<Hull<Float3>>, h: Hull<Float3>)
    requires forall i :: 0 <= i < |cs| ==> Fits(cs[i])
    requires Fits(h)
    ensures Records(cs + [h]) == Records(cs) + HullRecord(h)
  {
    if cs != [] {
      RecordsSnoc(cs[1..], h);
      assert (cs + [h])[1..] == cs[1..] + [h];
    }
  }

  /** Every hull of hs survives clamping with counts that fit the file. */
  predicate Clampable(hs: seq<Hull<Float3>>)
  {
    forall i :: 0 <= i < |hs| ==> ClampFits(hs[i])
  }

  /** h survives clamping with counts that fit the file. */
  predicate ClampFits(h: Hull<Float3>)
  {
    ClampHull(h, MaxVerticesPerHull).Some? && Fits(ClampHull(h, MaxVerticesPerHull).value)
  }

  /** The hulls as write_convex_binary stores them, each clamped. */
  function Clamped(hs: seq<Hull<Float3>>): (cs: seq<Hull<Float3>>)
    requires Clampable(hs)
    ensures |cs| == |hs| && forall i :: 0 <= i < |cs| ==> Fits(cs[i])
  {
    seq(|hs|, i requires 0 <= i < |hs| && Clampable(hs) => assert ClampFits(hs[i]); ClampHull(hs[i], MaxVerticesPerHull).value)
  }

  /** One more hull that clamps and fits extends Clamped by its clamped form. */
  lemma ClampedSnoc(hs: seq<Hull<Float3>>, i: nat)
    requires i < |hs| && Clampable(hs[..i]) && ClampFits(hs[i])
    ensures Clampable(hs[..i + 1])
    ensures Clamped(hs[..i + 1]) == Clamped(hs[..i]) + [ClampHull(hs[i], MaxVerticesPerHull).value]
  {
    assert hs[..i + 1] == hs[..i] + [hs[i]];
  }

  /** The CVXH file write_convex_binary leaves for hs, or None when it raises. */
  function ConvexFile(hs: seq<Hull<Float3>>): Option<seq<byte>>
  {
    if |hs| < 0x1_0000_0000 && Clampable(hs) then Some(ConvexHeader(|hs|) + Records(Clamped(hs))) else None
  }

  /** The writes for one clamped hull: the two counts, the coordinates, the indices. */
  method PackHull(h: Hull<Float3>) returns (record: seq<byte>)
    requires Fits(h)
    ensures record == HullRecord(h)
  {
    var counts: seq<u32> := [|h.points|, |h.indices|];
    record := WordsBytes(counts);
    record := record + WordsBytes(Coords(h.points));
    record := record + WordsBytes(h.indices);
    RecordPacks(h);
  }

  /** What write_convex_binary has written once the first i hulls are stored. */
  function Written(hulls: seq<Hull<Float3>>, i: nat): seq<byte>
    requires |hulls| < 0x1_0000_0000 && i <= |hulls| && Clampable(hulls[..i])
  {
    ConvexHeader(|hulls|) + Records(Clamped(hulls[..i]))
  }

  /** One pass of write_convex_binary's loop: clamp hull i and pack it, or fail. */
  method PackNext(hulls: seq<Hull<Float3>>, i: nat) returns (next: Option<seq<byte>>)
    requires |hulls| < 0x1_0000_0000 && i < |hulls| && Clampable(hulls[..i])
    ensures next.None? ==> !Clampable(hulls)
    ensures next.Some? ==> Clampable(hulls[..i + 1]) && Written(hulls, i + 1) == Written(hulls, i) + next.value
  {
    var c := ClampHull(hulls[i], MaxVerticesPerHull);
    if c.None? || !Fits(c.value) {
      assert !ClampFits(hulls[i]);
      return None;
    }
    var h := c.value;
    ClampedSnoc(hulls, i);
    RecordsSnoc(Clamped(hulls[..i]), h);
    var record := PackHull(h);
    assert Written(hulls, i) + record == ConvexHeader(|hulls|) + (Records(Clamped(hulls[..i])) + record);
    return Some(record);
  }

  /** write_convex_binary: the header, then each hull clamped and packed in turn. */
  method WriteConvexBinary(hulls: seq<Hull<Float3>>) returns (file: Option<seq<byte>>)
    ensures file == ConvexFile(hulls)
  {
    if |hulls| >= 0x1_0000_0000 {
      return None;
    }
    var out := Tag('C', 'V', 'X', 'H');
    out := out + WordBytes(1);
    out := out + WordBytes(|hulls|);
    var i := 0;
    assert hulls[..0] == [];
    while i < |hulls|
      invariant i <= |hulls| && Clampable(hulls[..i])
      invariant out == Written(hulls, i)
    {
      var next := PackNext(hulls, i);
      if next.None? {
        return None;
      }
      out := out + next.value;
      i := i + 1;
    }
    assert hulls[..i] == hulls;
    return Some(out);
  }

  // ---------------------------------------------------------------------
  // Reading a CVXH file back

  /** The hulls a CVXH file holds, or None when it is not one. */
  function ParseConvex(b: seq<byte>): Option<seq<Hull<Float3>>>
  {
    if |b| < 12 || b[..4] != Tag('C', 'V', 'X', 'H') || WordAt(b, 4) != 1 then None
    else ParseRecords(b, 12, WordAt(b, 8))
  }

  /** Where the record at offset i ends, by its two counts. */
  function RecordEnd(b: seq<byte>, i: nat): nat
    requires i + 8 <= |b|
  {
    i + 8 + 12 * WordAt(b, i) + 4 * WordAt(b, i + 4)
  }

  /** The hull whose record starts at offset i. */
  function ReadHull(b: seq<byte>, i: nat): Hull<Float3>
    requires i + 8 <= |b| && RecordEnd(b, i) <= |b|
  {
    var vc, ic := WordAt(b, i), WordAt(b, i + 4);
    Hull(Points(WordsAt(b, i + 8, 3 * vc), vc), WordsAt(b, i + 8 + 12 * vc, ic))
  }

  /** n hull records from offset i, which must end exactly at the end of b. */
  function ParseRecords(b: seq<byte>, i: nat, n: nat): Option<seq<Hull<Float3>>>
    decreases n
  {
    if n == 0 then (if i == |b| then Some([]) else None)
    else if i + 8 > |b| || RecordEnd(b, i) > |b| then None
    else match ParseRecords(b, RecordEnd(b, i), n - 1)
      case None => None
      case Some(rest) => Some([ReadHull(b, i)] + rest)
  }

  /** The record of h, stored from offset i to e, reads back as h and ends at e. */
  lemma ReadRecord(b: seq<byte>, i: nat, h: Hull<Float3>, e: nat)
    requires Fits(h)
    requires e == i + |HullRecord(h)| <= |b| && b[i .. e] == HullRecord(h)
    ensures i + 8 <= |b| && RecordEnd(b, i) == e
    ensures ReadHull(b, i) == h
  {
    var vc, ic := |h.points|, |h.indices|;
    var cs, ws := Coords(h.points), RecordWords(h);
    var k := 2 + |cs| + ic;
    assert |ws| == k && i + 4 * k == e;
    assert b[i .. i + 4 * |ws|] == WordsBytes(ws);
    WordsRoundTrip(ws, b, i);
    ReadFields(b, i, vc, ic, cs, h.indices, k);
    ReadCounted(b, i, vc, ic, k);
    PointsCoords(h.points);
  }

  /** With counts vc and ic at offset i, the record ends 4k bytes on and holds the runs after the counts. */
  lemma ReadCounted(b: seq<byte>, i: nat, vc: u32, ic: u32, k: nat)
    requires i + 8 <= |b| && WordAt(b, i) == vc && WordAt(b, i + 4) == ic
    requires k == 2 + 3 * vc + ic && i + 4 * k <= |b|
    ensures RecordEnd(b, i) == i + 4 * k <= |b|
    ensures ReadHull(b, i) == Hull(Points(WordsAt(b, i + 8, 3 * vc), vc), WordsAt(b, i + 8 + 12 * vc, ic))
  {
  }

  /** Splitting a run of words read at offset i into two counts and two runs. */
  lemma ReadFields(b: seq<byte>, i: nat, vc: u32, ic: u32, cs: seq<u32>, ix: seq<u32>, k: nat)
    requires |cs| == 3 * vc && |ix| == ic && k == 2 + |cs| + |ix|
    requires i + 4 * k <= |b| && WordsAt(b, i, k) == [vc, ic] + cs + ix
    ensures WordAt(b, i) == vc && WordAt(b, i + 4) == ic
    ensures WordsAt(b, i + 8, 3 * vc) == cs
    ensures WordsAt(b, i + 8 + 12 * vc, ic) == ix
  {
    var ws := [vc, ic] + cs + ix;
    assert WordAt(b, i) == ws[0];
    assert WordAt(b, i + 4) == ws[1];
    WordsAtSlice(b, i, k, 2, |cs|);
    assert i + 4 * 2 == i + 8;
    assert ws[2 .. 2 + |cs|] == cs;
    WordsAtSlice(b, i, k, 2 + |cs|, |ix|);
    assert i + 4 * (2 + |cs|) == i + 8 + 12 * vc;
    assert ws[2 + |cs| .. k] == ix;
  }

  /** The records of cs, stored from offset i to the end of b, read back as cs. */
  lemma {:induction false} ParseRecordsRoundTrip(b: seq<byte>, i: nat, cs: seq<Hull<Float3>>)
    requires forall k :: 0 <= k < |cs| ==> Fits(cs[k])
    requires i <= |b| && b[i..] == Records(cs)
    ensures ParseRecords(b, i, |cs|) == Some(cs)
    decreases |cs|
  {
    if cs != [] {
      var h, rest := cs[0], cs[1..];
      var x := HullRecord(h);
      var e := i + |x|;
      SplitSlice(b, i, x, Records(rest), e);
      ParseRecordsRoundTrip(b, e, rest);
      ReadRecord(b, i, h, e);
      assert cs == [h] + rest;
      ParseStep(b, i, h, e, rest, |rest|, |cs|);
    }
  }

  /** A record that reads back as h, followed by m records that read back as rest. */
  lemma ParseStep(b: seq<byte>, i: nat, h: Hull<Float3>, e: nat, rest: seq<Hull<Float3>>, m: nat, n: nat)
    requires i + 8 <= |b| && RecordEnd(b, i) == e <= |b| && ReadHull(b, i) == h
    requires ParseRecords(b, e, m) == Some(rest) && n == m + 1
    ensures ParseRecords(b, i, n) == Some([h] + rest)
  {
  }

  /** A tail of b that is x then y holds x up to e and y after it. */
  lemma SplitSlice(b: seq<byte>, i: nat, x: seq<byte>, y: seq<byte>, e: nat)
    requires i <= |b| && b[i..] == x + y && e == i + |x|
    ensures e <= |b| && b[i .. e] == x && b[e..] == y
  {
    assert b[i .. e] == (x + y)[..|x|];
    assert b[e..] == (x + y)[|x|..];
  }

  /** A written CVXH file reads back as the clamped hulls, in order. */
  lemma ConvexFileRoundTrip(hs: seq<Hull<Float3>>)
    requires ConvexFile(hs).Some?
    ensures ParseConvex(ConvexFile(hs).value) == Some(Clamped(hs))
  {
    var cs := Clamped(hs);
    var head := ConvexHeader(|hs|);
    var b := head + Records(cs);
    var w1, wn := WordBytes(1), WordBytes(|hs|);
    assert head == Tag('C', 'V', 'X', 'H') + w1 + wn;
    assert b[..4] == Tag('C', 'V', 'X', 'H');
    assert WordStoredAt(b, 4, 1) by {
      assert b[4] == w1[0] && b[5] == w1[1] && b[6] == w1[2] && b[7] == w1[3];
    }
    assert WordStoredAt(b, 8, |hs|) by {
      assert b[8] == wn[0] && b[9] == wn[1] && b[10] == wn[2] && b[11] == wn[3];
    }
    WordRoundTrip(1, b, 4);
    WordRoundTrip(|hs|, b, 8);
    assert b[12..] == Records(cs);
    ParseRecordsRoundTrip(b, 12, cs);
  }

  // ---------------------------------------------------------------------
  // Profiles and process_one_model

  datatype Config = Debug | Release

  /** The settings run_vhacd hands to the decomposition. */
  datatype VhacdParams = VhacdParams(
    maxConvexHulls: nat,
    resolution: nat,
    minimumVolumePercentErrorAllowed: real,
    maxNumVerticesPerCH: nat)

  /**
   * Debug decomposes finer into more hulls than Release. Both cap a hull at
   * the engine's vertex limit.
   */
  function Params(c: Config): (p: VhacdParams)
    ensures p.maxNumVerticesPerCH == MaxVerticesPerHull
  {
    match c
    case Debug => VhacdParams(8, 200_000, 0.5, MaxVerticesPerHull)
    case Release => VhacdParams(4, 100_000, 2.0, MaxVerticesPerHull)
  }

  /** How many hulls main keeps per model: never more than the decomposition may make. */
  function MaxHulls(c: Config): (n: nat)
    ensures 1 <= n <= Params(c).maxConvexHulls
    ensures c == Release ==> n < Params(c).maxConvexHulls
  {
    match c
    case Debug => 8
    case Release => 3
  }

  datatype Outcome = UpToDate | NoHulls | Failed | Wrote(file: seq<byte>)

  /**
   * process_one_model, given the output's modification time (None when it is
   * missing), the source's, and the decomposition of the source.
   */
  function ProcessOneModel(dstMtime: Option<real>, srcMtime: real, decomposition: seq<Hull<Float3>>, maxHulls: nat): (o: Outcome)
    ensures o == UpToDate <==> dstMtime.Some? && dstMtime.value >= srcMtime
    ensures o == NoHulls <==> !(dstMtime.Some? && dstMtime.value >= srcMtime) && decomposition == []
  {
    if dstMtime.Some? && dstMtime.value >= srcMtime then UpToDate
    else if decomposition == [] then NoHulls
    else match ConvexFile(PickTopHulls(decomposition, maxHulls))
      case None => Failed
      case Some(f) => Wrote(f)
  }

  /**
   * A file process_one_model writes holds min(maxHulls, hulls) clamped hulls,
   * each within the vertex limit, picked most vertices first.
   */
  lemma ProcessWritesTopHulls(dstMtime: Option<real>, srcMtime: real, decomposition: seq<Hull<Float3>>, maxHulls: nat)
    requires ProcessOneModel(dstMtime, srcMtime, decomposition, maxHulls).Wrote?
    ensures var f := ProcessOneModel(dstMtime, srcMtime, decomposition, maxHulls).file;
      var top := PickTopHulls(decomposition, maxHulls);
      && Clampable(top)
      && ParseConvex(f) == Some(Clamped(top))
      && |Clamped(top)| == (if maxHulls < |decomposition| then maxHulls else |decomposition|)
      && forall i :: 0 <= i < |Clamped(top)| ==> |Clamped(top)[i].points| <= MaxVerticesPerHull
  {
    var top := PickTopHulls(decomposition, maxHulls);
    PickTopHullsPicks(decomposition, maxHulls);
    ConvexFileRoundTrip(top);
  }
}
