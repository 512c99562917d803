/**
 * The draw-command sorts and the producer buffer of RenderQueue.h.
 *
 *  - ApplyPermutationInPlace moves cmds[idx[i]] to slot i, cycle by cycle,
 *    with one saved element per cycle and a visited flag per slot.
 *  - IndirectSortStd sorts an index order by sort key (for 32768 commands
 *    or more, a counting pass on the top 12 key bits first, then a sort
 *    inside each bucket) and applies it to the commands.
 *  - RadixSortSingle runs eight stable 8-bit counting passes, low byte
 *    first, swapping the command buffer and the scratch buffer after each.
 *  - ProducerSession collects pushed commands in a 128-entry SmallBuf and
 *    hands them to the bound queue in chunks.
 *
 * std::sort is the selection sort of StdSort.SortRange, which promises only
 * what std::sort promises, a sorted rearrangement.
 */
module RenderQueue {
  import opened Arith
  import opened SortSpec
  import opened CountingSort
  import opened StdSort

  /** The 64-bit sort key of a draw command. */
  newtype uint64 = x: int | 0 <= x < 0x1_0000_0000_0000_0000

  const KeyLimit: nat := 0x1_0000_0000_0000_0000

  /** The fields of DrawCommand the sorts and the producer buffer look at. */
  datatype DrawCommand = DrawCommand(sortKey: uint64, mesh: nat, material: nat, pso: nat, instanceIndex: nat)

  function SortKey(c: DrawCommand): (k: nat)
    ensures k < KeyLimit
  {
    c.sortKey as nat
  }

  // ---------------------------------------------------------------------
  // ApplyPermutationInPlace

  /** idx is a permutation of 0..|idx|-1: every entry in range, none twice. */
  ghost predicate IsPermutation(idx: seq<nat>)
  {
    && (forall i :: 0 <= i < |idx| ==> idx[i] < |idx|)
    && (forall i, j :: 0 <= i < j < |idx| ==> idx[i] != idx[j])
  }

  /** A visited slot already holds a0[idx[i]]; every other slot still holds a0[i]. */
  ghost predicate Applied(a0: seq<DrawCommand>, idx: seq<nat>, visited: seq<bool>, cmds: seq<DrawCommand>)
  {
    && |a0| == |idx| == |visited| == |cmds|
    && forall i :: 0 <= i < |cmds| ==> idx[i] < |a0| && cmds[i] == (if visited[i] then a0[idx[i]] else a0[i])
  }

  /** The visited slots are whole cycles of idx: a slot is visited exactly when the slot it names is. */
  ghost predicate Closed(idx: seq<nat>, visited: seq<bool>)
  {
    && |visited| == |idx|
    && forall i :: 0 <= i < |idx| ==> idx[i] < |idx| && (visited[i] <==> visited[idx[i]])
  }

  /** path walks idx from i: path[0] is i, each entry names the next, and the last names cur. */
  ghost predicate Walk(idx: seq<nat>, i: nat, path: seq<nat>, cur: nat)
  {
    && (forall k :: 0 <= k < |path| ==> path[k] < |idx|)
    && (|path| == 0 ==> cur == i)
    && (|path| > 0 ==> path[0] == i && idx[path[|path| - 1]] == cur)
    && (forall k :: 0 <= k < |path| - 1 ==> idx[path[k]] == path[k + 1])
  }

  /** Every slot before i is visited or a fixed point of idx. */
  ghost predicate Settled(ix: seq<nat>, vs: seq<bool>, i: nat)
  {
    forall j :: 0 <= j < i && j < |vs| && j < |ix| ==> vs[j] || ix[j] == j
  }

  /** Visited flags are only ever set. */
  ghost predicate Grown(v0: seq<bool>, v1: seq<bool>)
  {
    |v0| == |v1| && forall j :: 0 <= j < |v0| && v0[j] ==> v1[j]
  }

  lemma SettledStep(ix: seq<nat>, v0: seq<bool>, v1: seq<bool>, i: nat)
    requires i < |v0| && Settled(ix, v0, i) && (v0 == v1 || Grown(v0, v1))
    requires v1[i] || (i < |ix| && ix[i] == i)
    ensures Settled(ix, v1, i + 1)
  {
  }

  /** The slots not yet visited. */
  ghost function Unvisited(visited: seq<bool>): set<nat>
  {
    set j | 0 <= j < |visited| && !visited[j]
  }

  /**
   * Slot i receives the command that was at idx[i]. Each cycle of idx is
   * rotated once, fixed points and finished cycles are skipped.
   */
  method ApplyPermutationInPlace(cmds: array<DrawCommand>, idx: array<nat>)
    requires idx.Length == cmds.Length && IsPermutation(idx[..])
    modifies cmds
    ensures forall i :: 0 <= i < cmds.Length ==> cmds[i] == old(cmds[idx[i]])
  {
    ghost var a0 := cmds[..];
    ghost var ix := idx[..];
    var N := cmds.Length;
    var visited := new bool[N](_ => false);
    var i := 0;
    while i < N
      invariant 0 <= i <= N
      invariant Applied(a0, ix, visited[..], cmds[..]) && Closed(ix, visited[..])
      invariant Settled(ix, visited[..], i)
    {
      ghost var vs := visited[..];
      if !visited[i] && idx[i] != i {
        RotateCycle(cmds, idx, visited, i, a0);
      }
      SettledStep(ix, vs, visited[..], i);
      i := i + 1;
    }
    forall j | 0 <= j < N
      ensures cmds[j] == a0[ix[j]]
    {
      assert cmds[..][j] == cmds[j];
    }
  }

  /**
   * The inner loop: save the command at i, pull each next command of the
   * cycle one slot back, and put the saved one into the last slot.
   */
  method RotateCycle(cmds: array<DrawCommand>, idx: array<nat>, visited: array<bool>, i: nat, ghost a0: seq<DrawCommand>)
    requires idx.Length == cmds.Length == visited.Length && i < cmds.Length
    requires IsPermutation(idx[..]) && !visited[i]
    requires Applied(a0, idx[..], visited[..], cmds[..]) && Closed(idx[..], visited[..])
    modifies cmds, visited
    ensures Applied(a0, idx[..], visited[..], cmds[..]) && Closed(idx[..], visited[..])
    ensures visited[i]
    ensures Grown(old(visited[..]), visited[..])
  {
    ghost var ix := idx[..];
    ghost var v0 := visited[..];
    ghost var path: seq<nat> := [];
    var cur: nat := i;
    var tmp := cmds[i];
    while !visited[cur]
      invariant Rotating(a0, ix, v0, i, path, cur, visited[..], cmds[..], tmp)
      decreases Unvisited(visited[..])
    {
      ghost var vs, cs := visited[..], cmds[..];
      var nxt := idx[cur];
      if nxt == i {
        visited[cur] := true;
        cmds[cur] := tmp;
        assert visited[..] == vs[cur := true] && cmds[..] == cs[cur := tmp];
        RotateLast(a0, ix, v0, i, path, cur, vs, cs, tmp);
        break;
      }
      RotateNext(a0, ix, v0, i, path, cur, vs, cs, tmp);
      visited[cur] := true;
      cmds[cur] := cmds[nxt];
      assert visited[..] == vs[cur := true] && cmds[..] == cs[cur := cs[nxt]];
      path := path + [cur];
      cur := nxt;
    }
  }

  /**
   * The state of the inner loop: path is the part of the cycle of i already
   * rotated, cur the next slot, both fresh at the start; each rotated slot
   * holds its new command and tmp holds the command first at i.
   */
  ghost predicate Rotating(a0: seq<DrawCommand>, ix: seq<nat>, v0: seq<bool>, i: nat, path: seq<nat>, cur: nat,
                           vs: seq<bool>, cs: seq<DrawCommand>, tmp: DrawCommand)
  {
    && |v0| == |ix| && cur < |ix| && !v0[cur] && cur !in path
    && Walk(ix, i, path, cur)
    && (forall k :: 0 <= k < |path| ==> !v0[path[k]])
    && |vs| == |v0| && (forall j :: 0 <= j < |vs| ==> vs[j] == (v0[j] || j in path))
    && i < |a0| && tmp == a0[i]
    && Applied(a0, ix, vs, cs)
  }

  /** One step of the inner loop when the cycle goes on: the state holds for the next slot, with one slot fewer unvisited. */
  lemma RotateNext(a0: seq<DrawCommand>, ix: seq<nat>, v0: seq<bool>, i: nat, path: seq<nat>, cur: nat,
                   vs: seq<bool>, cs: seq<DrawCommand>, tmp: DrawCommand)
    requires IsPermutation(ix) && Closed(ix, v0)
    requires Rotating(a0, ix, v0, i, path, cur, vs, cs, tmp) && ix[cur] != i
    ensures ix[cur] < |cs|
    ensures Rotating(a0, ix, v0, i, path + [cur], ix[cur], vs[cur := true], cs[cur := cs[ix[cur]]], tmp)
    ensures Unvisited(vs[cur := true]) < Unvisited(vs)
  {
    NextUnvisited(ix, v0, path, i, cur);
    UnvisitedShrinks(vs, cur);
  }

  /** The last step, which closes the cycle: the visited slots are whole cycles again. */
  lemma RotateLast(a0: seq<DrawCommand>, ix: seq<nat>, v0: seq<bool>, i: nat, path: seq<nat>, cur: nat,
                   vs: seq<bool>, cs: seq<DrawCommand>, tmp: DrawCommand)
    requires IsPermutation(ix) && Closed(ix, v0)
    requires Rotating(a0, ix, v0, i, path, cur, vs, cs, tmp) && ix[cur] == i
    ensures Applied(a0, ix, vs[cur := true], cs[cur := tmp]) && Closed(ix, vs[cur := true])
    ensures vs[cur := true][i]
    ensures Grown(v0, vs[cur := true])
  {
    RotateLastClosed(ix, v0, i, path, cur, vs);
    assert Applied(a0, ix, vs[cur := true], cs[cur := tmp]) by {
      assert Applied(a0, ix, vs, cs);
    }
  }

  /** Marking the last slot of a walk that returns to i visited closes the cycle. */
  lemma RotateLastClosed(ix: seq<nat>, v0: seq<bool>, i: nat, path: seq<nat>, cur: nat, vs: seq<bool>)
    requires IsPermutation(ix) && Closed(ix, v0)
    requires |v0| == |ix| && cur < |ix| && !v0[cur] && cur !in path && Walk(ix, i, path, cur) && ix[cur] == i
    requires |vs| == |v0| && forall j :: 0 <= j < |vs| ==> vs[j] == (v0[j] || j in path)
    ensures Closed(ix, vs[cur := true]) && vs[cur := true][i]
  {
    var path' := path + [cur];
    CycleClosed(ix, v0, path', i);
    var vs' := vs[cur := true];
    assert forall j :: 0 <= j < |vs| ==> vs'[j] == (v0[j] || j in path');
    assert i in path' by {
      if |path| == 0 {
        assert path'[0] == cur == i;
      } else {
        assert path'[0] == i;
      }
    }
  }

  lemma UnvisitedShrinks(vs: seq<bool>, cur: nat)
    requires cur < |vs| && !vs[cur]
    ensures Unvisited(vs[cur := true]) < Unvisited(vs)
  {
    assert cur in Unvisited(vs) - Unvisited(vs[cur := true]);
  }

  /** Following idx from the end of an open walk reaches a slot that is neither visited nor on the walk. */
  lemma NextUnvisited(idx: seq<nat>, v0: seq<bool>, path: seq<nat>, i: nat, cur: nat)
    requires IsPermutation(idx) && Closed(idx, v0)
    requires cur < |idx| && !v0[cur] && cur !in path && Walk(idx, i, path, cur)
    requires forall k :: 0 <= k < |path| ==> !v0[path[k]]
    requires idx[cur] != i
    ensures !v0[idx[cur]] && idx[cur] !in path + [cur]
    ensures Walk(idx, i, path + [cur], idx[cur])
  {
    forall k | 0 <= k < |path|
      ensures path[k] != idx[cur]
    {
      if 0 < k {
        assert idx[path[k - 1]] == path[k] && path[k - 1] != cur;
      }
    }
    if 0 < |path| {
      assert path[|path| - 1] != cur;
    }
  }

  /** A walk that returns to its start is a whole cycle: adding it to the visited slots keeps them closed. */
  lemma CycleClosed(idx: seq<nat>, v0: seq<bool>, path: seq<nat>, i: nat)
    requires IsPermutation(idx) && Closed(idx, v0)
    requires Walk(idx, i, path, i) && |path| > 0
    ensures forall j :: 0 <= j < |idx| ==> ((v0[j] || j in path) <==> (v0[idx[j]] || idx[j] in path))
  {
    var l := |path| - 1;
    forall j | 0 <= j < |idx|
      ensures j in path <==> idx[j] in path
    {
      if j in path {
        var k :| 0 <= k < |path| && path[k] == j;
        if k < l {
          assert idx[j] == path[k + 1];
        } else {
          assert idx[j] == path[0];
        }
      }
      if idx[j] in path {
        var k :| 0 <= k < |path| && path[k] == idx[j];
        var p := if k == 0 then path[l] else path[k - 1];
        assert idx[p] == idx[j];
      }
    }
  }

  // ---------------------------------------------------------------------
  // Gathering through an index order

  /** a gathered through t: a[t[0]], a[t[1]], ..., skipping entries out of range. */
  ghost function Gather(a: seq<DrawCommand>, t: seq<nat>): seq<DrawCommand>
  {
    if t == [] then [] else (if t[0] < |a| then [a[t[0]]] else []) + Gather(a, t[1..])
  }

  lemma {:induction false} GatherAppend(a: seq<DrawCommand>, t: seq<nat>, u: seq<nat>)
    ensures Gather(a, t + u) == Gather(a, t) + Gather(a, u)
  {
    if t == [] {
      assert t + u == u;
    } else {
      var t', x := t[1..], t[0];
      var h := if x < |a| then [a[x]] else [];
      GatherAppend(a, t', u);
      assert (t + u)[0] == x && (t + u)[1..] == t' + u;
      assert Gather(a, t + u) == h + Gather(a, t' + u);
      assert Gather(a, t) == h + Gather(a, t');
    }
  }

  /** With every entry of t in range, entry i of the gathered sequence is a[t[i]]. */
  lemma {:induction false} GatherAt(a: seq<DrawCommand>, t: seq<nat>)
    requires forall i :: 0 <= i < |t| ==> t[i] < |a|
    ensures |Gather(a, t)| == |t| && forall i :: 0 <= i < |t| ==> Gather(a, t)[i] == a[t[i]]
  {
    if t != [] {
      var t' := t[1..];
      GatherAt(a, t');
    }
  }

  /** Gathering through two orders with the same entries yields the same commands, counted with multiplicity. */
  lemma {:induction false} GatherPermutes(a: seq<DrawCommand>, t: seq<nat>, u: seq<nat>)
    requires multiset(t) == multiset(u)
    ensures multiset(Gather(a, t)) == multiset(Gather(a, u))
    decreases |t|
  {
    if t == [] {
      assert |u| == |multiset(u)| == 0;
    } else {
      var k := RemoveFirst(t, u);
      var x, t', u1, u2 := t[0], t[1..], u[..k], u[k + 1..];
      GatherPermutes(a, t', u1 + u2);
      GatherMove(a, x, t', u1, u2);
      SplitAround(t, 0);
      SplitAround(u, k);
    }
  }

  /** A sequence is what lies before entry k, entry k, and what lies after it. */
  lemma SplitAround(u: seq<nat>, k: nat)
    requires k < |u|
    ensures u == u[..k] + ([u[k]] + u[k + 1..])
  {
  }

  /** Moving one entry from the front of an order to its middle keeps the gathered multiset. */
  lemma GatherMove(a: seq<DrawCommand>, x: nat, t: seq<nat>, u1: seq<nat>, u2: seq<nat>)
    requires multiset(Gather(a, t)) == multiset(Gather(a, u1 + u2))
    ensures multiset(Gather(a, [x] + t)) == multiset(Gather(a, u1 + ([x] + u2)))
  {
    GatherAppend(a, u1, u2);
    GatherAppend(a, [x], u2);
    GatherAppend(a, u1, [x] + u2);
    GatherAppend(a, [x], t);
  }

  /** The first entry of t occurs in u at some k, and the rest of t has the entries of u without that one. */
  lemma RemoveFirst(t: seq<nat>, u: seq<nat>) returns (k: nat)
    requires t != [] && multiset(t) == multiset(u)
    ensures k < |u| && u[k] == t[0]
    ensures multiset(t[1..]) == multiset(u[..k] + u[k + 1..])
  {
    var x := t[0];
    assert x in multiset(u);
    k :| 0 <= k < |u| && u[k] == x;
    var t', u' := t[1..], u[..k] + u[k + 1..];
    assert t == [x] + t';
    assert u == u[..k] + [x] + u[k + 1..];
    assert multiset(t) == multiset{x} + multiset(t');
    assert multiset(u) == multiset{x} + multiset(u');
    assert multiset(t') == multiset(t) - multiset{x};
    assert multiset(u') == multiset(u) - multiset{x};
  }

  /** Gathering through a permutation of 0..N-1 rearranges a: the same commands, counted with multiplicity. */
  lemma GatherRearranges(a: seq<DrawCommand>, t: seq<nat>)
    requires multiset(t) == multiset(Iota(|a|))
    ensures forall i :: 0 <= i < |t| ==> t[i] < |a|
    ensures |Gather(a, t)| == |t| && forall i :: 0 <= i < |t| ==> Gather(a, t)[i] == a[t[i]]
    ensures multiset(Gather(a, t)) == multiset(a)
  {
    forall i | 0 <= i < |t|
      ensures t[i] < |a|
    {
      assert t[i] in multiset(Iota(|a|));
    }
    GatherAt(a, t);
    GatherAt(a, Iota(|a|));
    GatherPermutes(a, Iota(|a|), t);
    assert Gather(a, Iota(|a|)) == a;
  }

  /** A rearrangement of 0..N-1 is a permutation in the sense of ApplyPermutationInPlace. */
  lemma RearrangedIsPermutation(t: seq<nat>)
    requires multiset(t) == multiset(Iota(|t|))
    ensures IsPermutation(t)
  {
    forall i | 0 <= i < |t|
      ensures t[i] < |t|
    {
      assert t[i] in multiset(Iota(|t|));
    }
    forall i, j | 0 <= i < j < |t|
      ensures t[i] != t[j]
    {
      if t[i] == t[j] {
        var x := t[i];
        assert t == t[..i] + [x] + t[i + 1..j] + [x] + t[j + 1..];
        assert multiset(t)[x] >= 2;
        IotaOnce(|t|, x);
      }
    }
  }

  lemma {:induction false} IotaOnce(N: nat, x: nat)
    ensures multiset(Iota(N))[x] <= 1
  {
    if N > 0 {
      var N' := N - 1;
      assert Iota(N) == Iota(N') + [N'];
      IotaOnce(N', x);
      if x == N' {
        assert x !in Iota(N');
      }
    }
  }

  // ---------------------------------------------------------------------
  // IndirectSortStd

  /** The key of an index into keysBuf. */
  function KeyAt(keys: seq<nat>, x: nat): nat
  {
    if x < |keys| then keys[x] else 0
  }

  function KeyOf(keys: seq<nat>): nat -> nat
  {
    (x: nat) => KeyAt(keys, x)
  }

  /** The bucket of an index: the top 12 bits of its 64-bit key, k >> 52. */
  function TopBucket(keys: seq<nat>): nat -> nat
  {
    (x: nat) => KeyAt(keys, x) / TopShift
  }

  const TopShift: nat := 0x10_0000_0000_0000

  const TopBuckets: nat := 4096

  /**
   * Sort the commands by sort key through an index order: a comparison sort
   * of the indices (for 32768 commands or more, inside the buckets of a
   * counting pass on the top 12 key bits), then one in-place application.
   */
  method IndirectSortStd(cmds: array<DrawCommand>)
    modifies cmds
    ensures SortedBy(cmds[..], SortKey)
    ensures multiset(cmds[..]) == multiset(old(cmds[..]))
    ensures cmds.Length <= 1 ==> cmds[..] == old(cmds[..])
  {
    var N := cmds.Length;
    if N <= 1 {
      return;
    }
    ghost var a0 := cmds[..];
    var index, keys := IndexAndKeys(cmds);
    index := SortIndex(index, keys);
    ghost var t := index[..];
    GatherSorted(a0, keys[..], t);
    ApplyPermutationInPlace(cmds, index);
    assert cmds[..] == Gather(a0, t);
  }

  /**
   * The sort of the index order by key: for 32768 commands or more a counting
   * pass on the top 12 key bits and std::sort inside each bucket, otherwise
   * one std::sort of the whole order.
   */
  method SortIndex(index: array<nat>, keys: array<nat>) returns (sorted: array<nat>)
    requires index != keys && index[..] == Iota(keys.Length)
    requires forall j :: 0 <= j < keys.Length ==> keys[j] < KeyLimit
    modifies index
    ensures sorted.Length == keys.Length && sorted != keys
    ensures multiset(sorted[..]) == multiset(Iota(keys.Length))
    ensures SortedBy(sorted[..], KeyOf(keys[..]))
  {
    var N := keys.Length;
    if N >= 32768 {
      var tmpIdx := new nat[N];
      TopBucketBelow(keys[..], index[..]);
      var count := CountingPass(index[..], tmpIdx, TopBucket(keys[..]), TopBuckets);
      GroupedPermutes(index[..], TopBucket(keys[..]), TopBuckets);
      SortBuckets(tmpIdx, keys[..], count);
      sorted := tmpIdx;
    } else {
      assert index[..] == index[0..N];
      SortRange(index, KeyOf(keys[..]), 0, N);
      assert index[0..N] == index[..];
      sorted := index;
    }
  }

  /**
   * An index order sorted by key that rearranges 0 .. N - 1 is a permutation,
   * and gathering the commands through it sorts them by sort key.
   */
  lemma GatherSorted(a0: seq<DrawCommand>, keys: seq<nat>, t: seq<nat>)
    requires |keys| == |a0| && forall j :: 0 <= j < |a0| ==> keys[j] == SortKey(a0[j])
    requires multiset(t) == multiset(Iota(|a0|)) && SortedBy(t, KeyOf(keys))
    ensures |t| == |a0| && IsPermutation(t)
    ensures |Gather(a0, t)| == |t| && forall i :: 0 <= i < |t| ==> Gather(a0, t)[i] == a0[t[i]]
    ensures multiset(Gather(a0, t)) == multiset(a0)
    ensures SortedBy(Gather(a0, t), SortKey)
  {
    GatherRearranges(a0, t);
    assert |t| == |a0| by {
      assert |multiset(t)| == |multiset(Iota(|a0|))|;
    }
    RearrangedIsPermutation(t);
    forall p, q | 0 <= p < q < |t|
      ensures SortKey(Gather(a0, t)[p]) <= SortKey(Gather(a0, t)[q])
    {
      assert KeyOf(keys)(t[p]) <= KeyOf(keys)(t[q]);
    }
  }

  /** The first loop: indexBuf[i] = i and keysBuf[i] is the key of command i. */
  method IndexAndKeys(cmds: array<DrawCommand>) returns (index: array<nat>, keys: array<nat>)
    ensures fresh(index) && fresh(keys) && index != keys
    ensures index[..] == Iota(cmds.Length)
    ensures keys.Length == cmds.Length && forall j :: 0 <= j < cmds.Length ==> keys[j] == SortKey(cmds[j])
    ensures forall j :: 0 <= j < cmds.Length ==> keys[j] < KeyLimit
  {
    var N := cmds.Length;
    index := new nat[N];
    keys := new nat[N];
    var i := 0;
    while i < N
      invariant 0 <= i <= N
      invariant forall j :: 0 <= j < i ==> index[j] == j && keys[j] == SortKey(cmds[j])
    {
      index[i] := i;
      keys[i] := SortKey(cmds[i]);
      i := i + 1;
    }
    assert index[..] == Iota(N);
  }

  /** Every 64-bit key has its top 12 bits below 4096. */
  lemma TopBucketBelow(keys: seq<nat>, t: seq<nat>)
    requires forall j :: 0 <= j < |keys| ==> keys[j] < KeyLimit
    ensures KeysBelow(t, TopBucket(keys), TopBuckets)
  {
    forall i | 0 <= i < |t|
      ensures TopBucket(keys)(t[i]) < TopBuckets
    {
      assert KeyAt(keys, t[i]) < KeyLimit;
    }
  }

  /** A smaller top-12-bit bucket means a smaller key. */
  lemma TopBucketOrders(keys: seq<nat>)
    ensures forall x: nat, y: nat :: TopBucket(keys)(x) < TopBucket(keys)(y) ==> KeyOf(keys)(x) < KeyOf(keys)(y)
  {
  }

  /**
   * The bucket loop: each bucket of the counting pass is sorted by key in
   * place, the buckets running from start to start + count[b].
   */
  method SortBuckets(index: array<nat>, keys: seq<nat>, count: array<nat>)
    requires index != count
    requires index[..] == Grouped(Iota(index.Length), TopBucket(keys), count.Length)
    requires forall b :: 0 <= b < count.Length ==> count[b] == |Select(Iota(index.Length), TopBucket(keys), b)|
    modifies index
    ensures multiset(index[..]) == multiset(old(index[..]))
    ensures SortedBy(index[..], KeyOf(keys))
  {
    ghost var s := Iota(index.Length);
    ghost var t0 := index[..];
    var start := 0;
    var b := 0;
    while b < count.Length
      invariant 0 <= b <= count.Length
      invariant start == Start(s, TopBucket(keys), b)
      invariant BucketsSorted(index[..], t0, keys, start)
    {
      var len := count[b];
      SortBucket(index, keys, t0, count.Length, b, start, len);
      StartNext(s, TopBucket(keys), b);
      start := start + len;
      b := b + 1;
    }
  }

  /**
   * The loop's state after the buckets below start: cur is a rearrangement of
   * the counting pass's order t0 that keeps each position's top-bits bucket,
   * and its first start entries are sorted by key.
   */
  ghost predicate BucketsSorted(cur: seq<nat>, t0: seq<nat>, keys: seq<nat>, start: nat)
  {
    && |cur| == |t0| && start <= |t0|
    && multiset(cur) == multiset(t0)
    && (forall p :: 0 <= p < |t0| ==> TopBucket(keys)(cur[p]) == TopBucket(keys)(t0[p]))
    && (forall p, q :: 0 <= p < q < start ==> KeyAt(keys, cur[p]) <= KeyAt(keys, cur[q]))
  }

  /** Bucket b of the counting pass over the identity order t0 holds the positions [start, start + len). */
  ghost predicate BucketAt(t0: seq<nat>, keys: seq<nat>, B: nat, b: nat, start: nat, len: nat)
  {
    && b < B
    && t0 == Grouped(Iota(|t0|), TopBucket(keys), B)
    && start == Start(Iota(|t0|), TopBucket(keys), b)
    && len == |Select(Iota(|t0|), TopBucket(keys), b)|
  }

  /** One iteration of the bucket loop: std::sort of bucket b when it holds more than one index. */
  method SortBucket(index: array<nat>, keys: seq<nat>, ghost t0: seq<nat>, B: nat, b: nat, start: nat, len: nat)
    requires BucketAt(t0, keys, B, b, start, len)
    requires BucketsSorted(index[..], t0, keys, start)
    modifies index
    ensures BucketsSorted(index[..], t0, keys, start + len)
  {
    BucketBounds(t0, keys, B, b, start, len);
    if len > 1 {
      SortBucketRange(index, keys, t0, b, start, len);
    } else {
      BucketStep(index[..], index[..], t0, keys, b, start, len);
    }
  }

  /** std::sort of the indices of bucket b, which lies at [start, start + len) after the buckets below it. */
  method SortBucketRange(index: array<nat>, keys: seq<nat>, ghost t0: seq<nat>, b: nat, start: nat, len: nat)
    requires BucketsSorted(index[..], t0, keys, start) && start + len <= |t0|
    requires forall p :: 0 <= p < start ==> TopBucket(keys)(t0[p]) < b
    requires forall p :: start <= p < start + len ==> TopBucket(keys)(t0[p]) == b
    modifies index
    ensures BucketsSorted(index[..], t0, keys, start + len)
  {
    ghost var before := index[..];
    SortRange(index, KeyOf(keys), start, start + len);
    BucketStep(before, index[..], t0, keys, b, start, len);
  }

  /** The bucket lies inside the order, and below it sit only smaller buckets. */
  lemma BucketBounds(t0: seq<nat>, keys: seq<nat>, B: nat, b: nat, start: nat, len: nat)
    requires BucketAt(t0, keys, B, b, start, len)
    ensures start + len <= |t0|
    ensures forall p :: 0 <= p < start ==> TopBucket(keys)(t0[p]) < b
    ensures forall p :: start <= p < start + len ==> TopBucket(keys)(t0[p]) == b
  {
    GroupedBuckets(Iota(|t0|), TopBucket(keys), B, b);
  }

  /**
   * Sorting bucket b in place, the positions [start, start + len), keeps the
   * rearrangement, keeps each position's bucket and extends the sorted prefix
   * over the bucket.
   */
  lemma BucketStep(before: seq<nat>, after: seq<nat>, t0: seq<nat>, keys: seq<nat>, b: nat, start: nat, len: nat)
    requires BucketsSorted(before, t0, keys, start)
    requires |after| == |before| && start + len <= |before|
    requires forall p :: 0 <= p < start ==> TopBucket(keys)(t0[p]) < b
    requires forall p :: start <= p < start + len ==> TopBucket(keys)(t0[p]) == b
    requires after[..start] == before[..start] && after[start + len..] == before[start + len..]
    requires multiset(after[start..start + len]) == multiset(before[start..start + len])
    requires forall p, q :: start <= p < q < start + len ==> KeyOf(keys)(after[p]) <= KeyOf(keys)(after[q])
    ensures BucketsSorted(after, t0, keys, start + len)
  {
    var g := TopBucket(keys);
    var e := start + len;
    RangeRearranged(before, after, start, e);
    RangeKeepsBucket(before, after, g, b, start, e);
    forall p | 0 <= p < |t0|
      ensures g(after[p]) == g(t0[p])
    {
      if start <= p < e {
        assert g(after[p]) == b;
      }
    }
    SortedAcrossBuckets(after, keys, b, start, e);
  }

  /** A sorted prefix of smaller buckets followed by a sorted run of bucket b is sorted as a whole. */
  lemma SortedAcrossBuckets(cur: seq<nat>, keys: seq<nat>, b: nat, start: nat, e: nat)
    requires start <= e <= |cur|
    requires forall p :: 0 <= p < start ==> TopBucket(keys)(cur[p]) < b
    requires forall p :: start <= p < e ==> TopBucket(keys)(cur[p]) == b
    requires forall p, q :: 0 <= p < q < start ==> KeyAt(keys, cur[p]) <= KeyAt(keys, cur[q])
    requires forall p, q :: start <= p < q < e ==> KeyOf(keys)(cur[p]) <= KeyOf(keys)(cur[q])
    ensures forall p, q :: 0 <= p < q < e ==> KeyAt(keys, cur[p]) <= KeyAt(keys, cur[q])
  {
    TopBucketOrders(keys);
    forall p, q | 0 <= p < q < e
      ensures KeyAt(keys, cur[p]) <= KeyAt(keys, cur[q])
    {
      if p < start && start <= q {
        assert TopBucket(keys)(cur[p]) < TopBucket(keys)(cur[q]);
      }
    }
  }

  /** Rearranging [start, e) in place rearranges the whole sequence and leaves the rest where it was. */
  lemma RangeRearranged(before: seq<nat>, after: seq<nat>, start: nat, e: nat)
    requires |after| == |before| && start <= e <= |before|
    requires after[..start] == before[..start] && after[e..] == before[e..]
    requires multiset(after[start..e]) == multiset(before[start..e])
    ensures multiset(after) == multiset(before)
    ensures forall p :: 0 <= p < |after| && !(start <= p < e) ==> after[p] == before[p]
  {
    assert before == before[..start] + before[start..e] + before[e..];
    assert after == after[..start] + after[start..e] + after[e..];
    forall p | 0 <= p < |after| && !(start <= p < e)
      ensures after[p] == before[p]
    {
      if p < start {
        assert after[p] == after[..start][p];
      } else {
        assert after[p] == after[e..][p - e];
      }
    }
  }

  /** Rearranging a range whose entries all lie in bucket b leaves them all in bucket b. */
  lemma RangeKeepsBucket(before: seq<nat>, after: seq<nat>, g: nat -> nat, b: nat, start: nat, e: nat)
    requires |after| == |before| && start <= e <= |before|
    requires multiset(after[start..e]) == multiset(before[start..e])
    requires forall p :: start <= p < e ==> g(before[p]) == b
    ensures forall p :: start <= p < e ==> g(after[p]) == b
  {
    forall p | start <= p < e
      ensures g(after[p]) == b
    {
      assert after[p] == after[start..e][p - start];
      assert after[p] in multiset(before[start..e]);
      var q :| start <= q < e && before[q] == after[p] by {
        var r :| 0 <= r < e - start && before[start..e][r] == after[p];
        assert before[start + r] == after[p];
      }
    }
  }

  // ---------------------------------------------------------------------
  // RadixSortSingle

  /** 256 to the power p: the weight of key byte p. */
  function Radix(p: nat): (r: nat)
    ensures r > 0
  {
    if p == 0 then 1 else 256 * Radix(p - 1)
  }

  /** Key byte p, (sortKey >> 8p) & 255: the digit of pass p. */
  function Digit(p: nat): DrawCommand -> nat
  {
    (c: DrawCommand) => SortKey(c) / Radix(p) % 256
  }

  /** The key bytes below p, the part of the key the first p passes have sorted by. */
  function LowDigits(p: nat): DrawCommand -> nat
  {
    (c: DrawCommand) => SortKey(c) % Radix(p)
  }

  /**
   * Eight stable counting passes on the key bytes, low byte first, the two
   * buffers trading places after each pass: cmds ends up stably sorted by
   * sort key, temp holds scratch.
   */
  method RadixSortSingle(cmds: array<DrawCommand>, temp: array<DrawCommand>)
    requires cmds != temp && temp.Length == cmds.Length
    modifies cmds, temp
    ensures StablySorted(cmds[..], old(cmds[..]), SortKey)
  {
    ghost var s0 := cmds[..];
    var src, dst := cmds, temp;
    GroupedOneBucket(s0, LowDigits(0));
    var pass := 0;
    while pass < 8
      invariant 0 <= pass <= 8
      invariant src != dst && (pass % 2 == 0 ==> src == cmds && dst == temp) && (pass % 2 == 1 ==> src == temp && dst == cmds)
      invariant dst.Length == src.Length
      invariant src[..] == Grouped(s0, LowDigits(pass), Radix(pass))
    {
      RadixPass(src, dst, s0, pass);
      src, dst := dst, src;
      pass := pass + 1;
    }
    RadixPassesSort(s0, pass);
  }

  /**
   * Pass p: count byte p, turn the counts into offsets and scatter src into
   * dst; if src is ordered by the bytes below p, dst is ordered by the bytes
   * below p + 1.
   */
  method RadixPass(src: array<DrawCommand>, dst: array<DrawCommand>, ghost s0: seq<DrawCommand>, p: nat)
    requires src != dst && dst.Length == src.Length
    requires src[..] == Grouped(s0, LowDigits(p), Radix(p))
    modifies dst
    ensures dst[..] == Grouped(s0, LowDigits(p + 1), Radix(p + 1))
  {
    var _ := CountingPass(src[..], dst, Digit(p), 256);
    DigitStep(s0, p);
  }

  /** After the eight passes the order is the stable sort by the whole key. */
  lemma RadixPassesSort(s0: seq<DrawCommand>, passes: nat)
    requires passes == 8
    ensures StablySorted(Grouped(s0, LowDigits(passes), Radix(passes)), s0, SortKey)
  {
    RadixCoversKeys();
    GroupedSameKeys(s0, LowDigits(8), SortKey, KeyLimit);
    GroupedIsStableSort(s0, SortKey, KeyLimit);
  }

  /** With one bucket and every key 0, the counting pass leaves the order as it is. */
  lemma GroupedOneBucket(s: seq<DrawCommand>, f: DrawCommand -> nat)
    requires forall x :: f(x) == 0
    ensures Grouped(s, f, 1) == s
  {
    assert Grouped(s, f, 1) == Grouped(s, f, 0) + Select(s, f, 0);
    SelectAll(s, f, 0);
  }

  /** Pass p, a stable pass on byte p after the passes on the bytes below it, sorts by the bytes below p + 1. */
  lemma DigitStep(s: seq<DrawCommand>, p: nat)
    ensures Grouped(Grouped(s, LowDigits(p), Radix(p)), Digit(p), 256) == Grouped(s, LowDigits(p + 1), Radix(p + 1))
  {
    forall x: DrawCommand
      ensures LowDigits(p + 1)(x) == Digit(p)(x) * Radix(p) + LowDigits(p)(x)
    {
      DigitSplit(SortKey(x), Radix(p));
    }
    RadixStep(s, LowDigits(p), Digit(p), LowDigits(p + 1), Radix(p), 256, Radix(p + 1));
  }

  /** k mod 256R splits into the byte above R and the remainder below it. */
  lemma DigitSplit(k: nat, R: nat)
    requires R > 0
    ensures k % (256 * R) == k / R % 256 * R + k % R
  {
    var q, r := k / R, k % R;
    var a, b := q / 256, q % 256;
    assert k == q * R + r;
    assert q == 256 * a + b;
    assert q * R == a * (256 * R) + b * R;
    MulMonotone(b, 255, R);
    DivModUnique(k, 256 * R, a, b * R + r);
  }

  /** Eight bytes hold a 64-bit key: the low eight bytes of a key are the key. */
  lemma RadixCoversKeys()
    ensures Radix(8) == KeyLimit
    ensures forall x :: LowDigits(8)(x) == SortKey(x)
  {
    assert Radix(8) == KeyLimit;
  }

  // ---------------------------------------------------------------------
  // ProducerSession and its SmallBuf

  const Chunk: nat := 128

  /** The fixed 128-entry batch buffer: data[..size] are the buffered commands. */
  class SmallBuf {
    var data: array<DrawCommand>
    var size: nat

    ghost predicate Valid()
      reads this
    {
      data.Length == Chunk && size <= Chunk
    }

    function Contents(): seq<DrawCommand>
      reads this, data
      requires Valid()
    {
      data[..size]
    }

    constructor ()
      ensures Valid() && size == 0 && fresh(data)
    {
      data := new DrawCommand[Chunk](_ => DrawCommand(0, 0, 0, 0, 0));
      size := 0;
    }

    /** Append one command; the caller keeps size below the capacity. */
    method PushBack(c: DrawCommand)
      requires Valid() && size < Chunk
      modifies this, data
      ensures Valid() && data == old(data)
      ensures size == old(size) + 1 && Contents() == old(Contents()) + [c]
    {
      data[size] := c;
      size := size + 1;
    }

    /** full(): size has reached the capacity. */
    function Full(): (r: bool)
      reads this
      requires Valid()
      ensures r <==> size == Chunk
    {
      size >= Chunk
    }

    method Clear()
      requires Valid()
      modifies this
      ensures Valid() && data == old(data) && size == 0 && Contents() == []
    {
      size := 0;
    }
  }

  /**
   * One producer's session: pushed commands collect in buf and reach the
   * bound queue, modelled as the sequence of commands it has received, in
   * chunks of 128 and on FlushAll.
   */
  class ProducerSession {
    var buf: SmallBuf
    var queue: seq<DrawCommand>

    ghost predicate Valid()
      reads this, buf
    {
      buf.Valid() && buf.size < Chunk
    }

    /** Everything pushed so far, in push order: what reached the queue, then what is buffered. */
    ghost function Pushed(): seq<DrawCommand>
      reads this, buf, buf.data
      requires Valid()
    {
      queue + buf.Contents()
    }

    constructor ()
      ensures Valid() && queue == [] && Pushed() == [] && fresh(buf) && fresh(buf.data)
    {
      buf := new SmallBuf();
      queue := [];
    }

    /**
     * Buffer one command; the push that fills the buffer hands all 128
     * buffered commands to the queue and empties it.
     */
    method Push(cmd: DrawCommand)
      requires Valid()
      modifies this, buf, buf.data
      ensures Valid() && buf == old(buf) && buf.data == old(buf.data)
      ensures Pushed() == old(Pushed()) + [cmd]
      ensures old(buf.size) + 1 == Chunk ==> buf.size == 0 && queue == old(queue + buf.Contents()) + [cmd]
      ensures old(buf.size) + 1 < Chunk ==> buf.size == old(buf.size) + 1 && queue == old(queue)
    {
      buf.PushBack(cmd);
      if buf.Full() {
        FlushChunk();
      }
    }

    /** flushChunk: hand the buffered commands to the queue and empty the buffer. */
    method FlushChunk()
      requires buf.Valid()
      modifies this, buf
      ensures buf.Valid() && buf == old(buf) && buf.data == old(buf.data)
      ensures buf.size == 0 && queue == old(queue) + old(buf.Contents())
    {
      queue := queue + buf.Contents();
      buf.Clear();
    }

    /** Hand whatever is buffered to the queue; nothing happens when the buffer is empty. */
    method FlushAll()
      requires Valid()
      modifies this, buf
      ensures Valid() && buf == old(buf) && buf.data == old(buf.data)
      ensures buf.size == 0 && queue == old(Pushed())
      ensures old(buf.size) == 0 ==> queue == old(queue)
    {
      if buf.size > 0 {
        FlushChunk();
      }
    }
  }

  // ---------------------------------------------------------------------
  // The RenderQueue constructor

  const MaxInstancesPerFrame: nat := 65536

  /** The instance-pool bookkeeping the constructor sets up: one write position per frame buffer. */
  class Queue {
    const maxInstancesPerFrame: nat
    var instWritePos: seq<nat>

    /**
     * Each of the bufferCount frame buffers gets a pool of
     * maxInstancesPerFrame instances and a write position of 0; the count
     * must lie in 1..65536.
     */
    constructor (maxInstancesPerFrame: nat, bufferCount: nat)
      requires 0 < maxInstancesPerFrame <= MaxInstancesPerFrame
      ensures this.maxInstancesPerFrame == maxInstancesPerFrame
      ensures |instWritePos| == bufferCount && forall i :: 0 <= i < bufferCount ==> instWritePos[i] == 0
    {
      this.maxInstancesPerFrame := maxInstancesPerFrame;
      instWritePos := seq(bufferCount, _ => 0);
    }
  }
}
