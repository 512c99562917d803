/**
 * The stable counting pass that build_order.h and RenderQueue.h run over
 * their buckets: count the keys, turn the counts into start offsets, then
 * scatter the input bucket by bucket. CountingPass is proved to compute
 * SortSpec.Grouped, the stable sort by the bucket key.
 */
module CountingSort {
  import opened SortSpec

  /**
   * One stable counting pass over B buckets: count the keys, turn the counts
   * into start offsets, then scatter src into dst bucket by bucket. The
   * counts are returned: cnt[b] is the length of bucket b.
   */
  method CountingPass<T>(src: seq<T>, dst: array<T>, f: T -> nat, B: nat) returns (cnt: array<nat>)
    requires dst.Length == |src| && KeysBelow(src, f, B)
    modifies dst
    ensures dst[..] == Grouped(src, f, B)
    ensures fresh(cnt) && cnt.Length == B
    ensures forall b :: 0 <= b < B ==> cnt[b] == |Select(src, f, b)|
  {
    cnt := CountKeys(src, f, B);
    var ofs := PrefixSums(src, f, B, cnt);
    var i := 0;
    while i < |src|
      invariant 0 <= i <= |src|
      invariant Offsets(src, f, B, i, ofs[..])
      invariant Scattered(src, f, B, i, dst[..])
      invariant forall b :: 0 <= b < B ==> cnt[b] == |Select(src, f, b)|
    {
      ScatterStep(src, dst[..], f, B, i, ofs[..]);
      var c := f(src[i]);
      dst[ofs[c]] := src[i];
      ofs[c] := ofs[c] + 1;
      i := i + 1;
    }
    PassDone(src, dst[..], f, B);
  }

  /** The counting loop: cnt[b] is the number of elements of src with key b. */
  method CountKeys<T>(src: seq<T>, f: T -> nat, B: nat) returns (cnt: array<nat>)
    requires KeysBelow(src, f, B)
    ensures fresh(cnt) && cnt.Length == B
    ensures forall b :: 0 <= b < B ==> cnt[b] == |Select(src, f, b)|
  {
    cnt := new nat[B](_ => 0);
    var i := 0;
    while i < |src|
      invariant 0 <= i <= |src|
      invariant forall b :: 0 <= b < B ==> cnt[b] == |Select(src[..i], f, b)|
    {
      SelectPrefixNext(src, f, i);
      var b := f(src[i]);
      cnt[b] := cnt[b] + 1;
      i := i + 1;
    }
    assert src[..i] == src;
  }

  /** The prefix-sum loop: ofs[b] is where bucket b starts, the number of elements with a smaller key. */
  method PrefixSums<T>(src: seq<T>, f: T -> nat, B: nat, cnt: array<nat>) returns (ofs: array<nat>)
    requires cnt.Length == B
    requires forall b :: 0 <= b < B ==> cnt[b] == |Select(src, f, b)|
    ensures fresh(ofs) && ofs.Length == B
    ensures forall b :: 0 <= b < B ==> ofs[b] == Start(src, f, b)
  {
    ofs := new nat[B](_ => 0);
    var sum := 0;
    var b := 0;
    while b < B
      invariant 0 <= b <= B
      invariant sum == Start(src, f, b)
      invariant forall c :: 0 <= c < b ==> ofs[c] == Start(src, f, c)
    {
      StartNext(src, f, b);
      ofs[b] := sum;
      sum := sum + cnt[b];
      b := b + 1;
    }
  }

  /** During the scatter, ofs[c] is the next free slot of bucket c. */
  ghost predicate Offsets<T>(src: seq<T>, f: T -> nat, B: nat, i: nat, ofs: seq<nat>)
  {
    && i <= |src| && |ofs| == B
    && forall c :: 0 <= c < B ==> ofs[c] == Start(src, f, c) + |Select(src[..i], f, c)|
  }

  /** After scattering src[..i], each bucket of d holds its first elements in place. */
  ghost predicate Scattered<T>(src: seq<T>, f: T -> nat, B: nat, i: nat, d: seq<T>)
  {
    && i <= |src| && |d| == |src|
    && forall c, k :: 0 <= c < B && 0 <= k < |Select(src[..i], f, c)| ==> Filled(src, f, d, c, k)
  }

  /** Slot k of bucket c of d already holds its final element. */
  ghost predicate Filled<T>(src: seq<T>, f: T -> nat, d: seq<T>, c: nat, k: nat)
  {
    && k < |Select(src, f, c)|
    && Start(src, f, c) + k < |d|
    && d[Start(src, f, c) + k] == Select(src, f, c)[k]
  }

  lemma ScatteredAt<T>(src: seq<T>, f: T -> nat, B: nat, i: nat, d: seq<T>, c: nat, k: nat)
    requires Scattered(src, f, B, i, d) && c < B && k < |Select(src[..i], f, c)|
    ensures k < |Select(src, f, c)| && Start(src, f, c) + k < |d|
    ensures d[Start(src, f, c) + k] == Select(src, f, c)[k]
  {
    assert Filled(src, f, d, c, k);
  }

  /** One scatter step writes src[i] into the next free slot of its bucket, which is in range. */
  lemma ScatterStep<T>(src: seq<T>, d: seq<T>, f: T -> nat, B: nat, i: nat, ofs: seq<nat>)
    requires i < |src| && KeysBelow(src, f, B)
    requires Offsets(src, f, B, i, ofs) && Scattered(src, f, B, i, d)
    ensures ofs[f(src[i])] < |d|
    ensures Offsets(src, f, B, i + 1, ofs[f(src[i]) := ofs[f(src[i])] + 1])
    ensures Scattered(src, f, B, i + 1, d[ofs[f(src[i])] := src[i]])
  {
    var c := f(src[i]);
    var n := |Select(src[..i], f, c)|;
    var p := ofs[c];
    var j := i + 1;
    SelectPrefixNext(src, f, i);
    GroupedPermutes(src, f, B);
    GroupedAt(src, f, B, c, n);
    var d' := d[p := src[i]];
    forall c', k | 0 <= c' < B && 0 <= k < |Select(src[..j], f, c')|
      ensures Filled(src, f, d', c', k)
    {
      if c' == c && k == n {
        assert Start(src, f, c) + n == p;
      } else {
        assert k < |Select(src[..i], f, c')|;
        SelectPrefixOf(src, f, c', i, k);
        if Start(src, f, c') + k == p {
          BucketsDisjoint(src, f, c', k, c, n);
        }
        ScatteredAt(src, f, B, i, d, c', k);
      }
    }
    assert Scattered(src, f, B, j, d');
  }

  /** Once every bucket is filled, the pass output is Grouped. */
  lemma PassDone<T>(src: seq<T>, d: seq<T>, f: T -> nat, B: nat)
    requires |d| == |src| && KeysBelow(src, f, B)
    requires Scattered(src, f, B, |src|, d)
    ensures d == Grouped(src, f, B)
  {
    assert src[..|src|] == src;
    GroupedPermutes(src, f, B);
    forall p | 0 <= p < |d|
      ensures d[p] == Grouped(src, f, B)[p]
    {
      var c, k := GroupedCover(src, f, B, p);
      GroupedAt(src, f, B, c, k);
      ScatteredAt(src, f, B, |src|, d, c, k);
    }
  }
}
