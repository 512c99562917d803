/**
 * Draw orders of build_order.h: a permutation of the instance rows 0..N-1
 * arranged near-to-far from the camera.
 *
 *  - BuildNearToFarOrder buckets the squared distances into B bins and lays
 *    the rows out bin by bin with one counting pass (stable).
 *  - BuildOrderFixedRadix16 quantizes the squared distances to 16-bit keys
 *    and sorts the rows by two 8-bit counting passes, low byte first.
 *  - BuildFrontKStrict puts the K nearest rows first, sorted, and the rest
 *    after them in no promised order.
 *
 * Floats are modelled as reals: the conversions to integers are modelled
 * exactly (truncation, round-half-to-even, and the x86 result for values out
 * of the 32-bit range), the float rounding of the arithmetic is not.
 */
module BuildOrder {
  import opened SortSpec
  import opened CountingSort

  // ---------------------------------------------------------------------
  // Positions and distances

  /** Structure-of-arrays positions: instance i is at (x[i], y[i], z[i]). */
  datatype SoAPositions = SoAPositions(x: seq<real>, y: seq<real>, z: seq<real>, N: nat)
  {
    predicate Valid()
    {
      |x| == N && |y| == N && |z| == N
    }
  }

  /** Squared distance of instance i from the camera at (cx, cy, cz). */
  function Dist2(T: SoAPositions, i: nat, cx: real, cy: real, cz: real): real
    requires T.Valid() && i < T.N
  {
    var dx := T.x[i] - cx;
    var dy := T.y[i] - cy;
    var dz := T.z[i] - cz;
    dx * dx + dy * dy + dz * dz
  }

  function MaxReal(a: real, b: real): real
  {
    if a < b then b else a
  }

  /** Where d2 lies between near2 and far2, as a fraction; the span is at least 1e-12. */
  function Fraction(d2: real, near2: real, far2: real): real
  {
    (d2 - near2) / MaxReal(far2 - near2, 0.000000000001)
  }

  // ---------------------------------------------------------------------
  // Float-to-integer conversions

  const IntMin: int := -0x8000_0000
  const IntMax: int := 0x7FFF_FFFF

  /** A cast to int of a value in range: rounds toward zero. */
  function Trunc(x: real): int
  {
    if x >= 0.0 then x.Floor else -((-x).Floor)
  }

  /** Round half to even, the default rounding mode of lrintf. */
  function RoundEven(x: real): int
  {
    var f := x.Floor;
    var frac := x - f as real;
    if frac < 0.5 then f
    else if frac > 0.5 then f + 1
    else if f % 2 == 0 then f
    else f + 1
  }

  /**
   * A float cast to a 32-bit int as x86 performs it (cvttss2si): rounds
   * toward zero, and a result outside the int range becomes 0x80000000.
   */
  function TruncToInt32(x: real): int
  {
    var t := Trunc(x);
    if IntMin <= t <= IntMax then t else IntMin
  }

  /** lrintf with a 32-bit long, as on Windows x86: out-of-range results become 0x80000000. */
  function LrintToInt32(x: real): int
  {
    var r := RoundEven(x);
    if IntMin <= r <= IntMax then r else IntMin
  }

  lemma TruncMonotone(x: real, y: real)
    requires x <= y
    ensures Trunc(x) <= Trunc(y)
  {
  }

  lemma RoundEvenMonotone(x: real, y: real)
    requires x <= y
    ensures RoundEven(x) <= RoundEven(y)
  {
  }

  /** Rounding moves a value by at most one half. */
  lemma RoundEvenNearest(x: real)
    ensures -0.5 <= RoundEven(x) as real - x <= 0.5
  {
  }

  lemma FractionMonotone(d2: real, e2: real, near2: real, far2: real)
    requires d2 <= e2
    ensures Fraction(d2, near2, far2) <= Fraction(e2, near2, far2)
  {
    var span := MaxReal(far2 - near2, 0.000000000001);
    var a, b := (d2 - near2) / span, (e2 - near2) / span;
    assert a * span == d2 - near2;
    assert b * span == e2 - near2;
    if a > b {
      assert (a - b) * span > 0.0;
    }
  }

  /** t * B, the scaling of the fraction by the bin count, written as B additions of t. */
  function Scale(t: real, B: nat): real
  {
    if B == 0 then 0.0 else Scale(t, B - 1) + t
  }

  lemma {:induction false} ScaleIsProduct(t: real, B: nat)
    ensures Scale(t, B) == t * B as real
  {
    if B > 0 {
      var B' := B - 1;
      ScaleIsProduct(t, B');
    }
  }

  lemma {:induction false} ScaleMonotone(s: real, t: real, B: nat)
    requires s <= t
    ensures Scale(s, B) <= Scale(t, B)
  {
    if B > 0 {
      var B' := B - 1;
      ScaleMonotone(s, t, B');
    }
  }

  // ---------------------------------------------------------------------
  // DistanceBin and QuantizeD2

  /** The clamp of the bin index into 0..B-1. */
  function ClampBin(b: int, B: nat): (r: nat)
    requires B > 0
    ensures r < B
    ensures 0 <= b < B ==> r == b
    ensures b < 0 ==> r == 0
    ensures b >= B ==> r == B - 1
  {
    if b < 0 then 0 else if b >= B then B - 1 else b
  }

  /** DistanceBin as compiled for x86. */
  function DistanceBinAsWritten(d2: real, near2: real, far2: real, B: nat): nat
    requires B > 0
  {
    ClampBin(TruncToInt32(Scale(Fraction(d2, near2, far2), B)), B)
  }

  /** DistanceBin with the cast free of the 32-bit range, so far points land in the last bin. */
  function DistanceBin(d2: real, near2: real, far2: real, B: nat): (b: nat)
    requires B > 0
    ensures b < B
  {
    ClampBin(Trunc(Scale(Fraction(d2, near2, far2), B)), B)
  }

  /** The two agree whenever the scaled fraction fits the 32-bit cast. */
  lemma DistanceBinAgrees(d2: real, near2: real, far2: real, B: nat)
    requires B > 0
    requires IntMin as real < Fraction(d2, near2, far2) * B as real < IntMax as real
    ensures DistanceBinAsWritten(d2, near2, far2, B) == DistanceBin(d2, near2, far2, B)
  {
    ScaleIsProduct(Fraction(d2, near2, far2), B);
  }

  /** A point beyond far2 lands in the last bin, one before near2 in bin 0. */
  lemma DistanceBinEnds(d2: real, near2: real, far2: real, B: nat)
    requires B > 0
    ensures Fraction(d2, near2, far2) >= 1.0 ==> DistanceBin(d2, near2, far2, B) == B - 1
    ensures Fraction(d2, near2, far2) < 0.0 ==> DistanceBin(d2, near2, far2, B) == 0
  {
    var t := Fraction(d2, near2, far2);
    if t >= 1.0 {
      ScaleMonotone(1.0, t, B);
      ScaleIsProduct(1.0, B);
    } else if t < 0.0 {
      ScaleMonotone(t, 0.0, B);
      ScaleIsProduct(0.0, B);
      ScaleIsProduct(t, B);
    }
  }

  lemma ClampBinMonotone(a: int, b: int, B: nat)
    requires B > 0 && a <= b
    ensures ClampBin(a, B) <= ClampBin(b, B)
  {
  }

  lemma ClampTruncMonotone(x: real, y: real, B: nat)
    requires B > 0 && x <= y
    ensures ClampBin(Trunc(x), B) <= ClampBin(Trunc(y), B)
  {
    TruncMonotone(x, y);
    ClampBinMonotone(Trunc(x), Trunc(y), B);
  }

  /** A nearer point never gets a later bin. */
  lemma DistanceBinMonotone(d2: real, e2: real, near2: real, far2: real, B: nat)
    requires B > 0 && d2 <= e2
    ensures DistanceBin(d2, near2, far2, B) <= DistanceBin(e2, near2, far2, B)
  {
    var s, t := Fraction(d2, near2, far2), Fraction(e2, near2, far2);
    FractionMonotone(d2, e2, near2, far2);
    ScaleMonotone(s, t, B);
    ClampTruncMonotone(Scale(s, B), Scale(t, B), B);
  }

  /**
   * As written, a point far enough beyond far2 overflows the cast and lands in
   * bin 0, ahead of a point at far2: with near2 = 0, far2 = 1 and B = 32, the
   * point at d2 = 1 gets bin 31 and the point at d2 = 2^27 gets bin 0.
   */
  lemma DistanceBinAsWrittenFarPointFirst()
    ensures DistanceBinAsWritten(1.0, 0.0, 1.0, 32) == 31
    ensures DistanceBinAsWritten(134217728.0, 0.0, 1.0, 32) == 0
  {
    assert Fraction(1.0, 0.0, 1.0) == 1.0;
    assert Fraction(134217728.0, 0.0, 1.0) == 134217728.0;
    ScaleIsProduct(1.0, 32);
    ScaleIsProduct(134217728.0, 32);
  }

  const MaxKey: nat := 65535

  /** QuantizeD2 as compiled for Windows x86: lrintf returns a 32-bit long. */
  function QuantizeD2AsWritten(d2: real, near2: real, far2: real): nat
  {
    var v := LrintToInt32(Fraction(d2, near2, far2) * 65535.0);
    if v < 0 then 0 else if v > MaxKey then MaxKey else v
  }

  /** QuantizeD2 with the rounding free of the 32-bit range, as the AVX2 path computes it. */
  function QuantizeD2(d2: real, near2: real, far2: real): (k: nat)
    ensures k <= MaxKey
  {
    var v := RoundEven(Fraction(d2, near2, far2) * 65535.0);
    if v < 0 then 0 else if v > MaxKey then MaxKey else v
  }

  /** Inside [near2, far2] the key is the fraction scaled to 0..65535 and rounded to nearest. */
  lemma QuantizeD2Nearest(d2: real, near2: real, far2: real)
    requires 0.0 <= Fraction(d2, near2, far2) <= 1.0
    ensures -0.5 <= QuantizeD2(d2, near2, far2) as real - Fraction(d2, near2, far2) * 65535.0 <= 0.5
  {
    var x := Fraction(d2, near2, far2) * 65535.0;
    RoundEvenNearest(x);
    RoundEvenMonotone(0.0, x);
    RoundEvenMonotone(x, 65535.0);
  }

  /** The two agree whenever the rounded value fits the 32-bit long. */
  lemma QuantizeD2Agrees(d2: real, near2: real, far2: real)
    requires IntMin as real < Fraction(d2, near2, far2) * 65535.0 < IntMax as real
    ensures QuantizeD2AsWritten(d2, near2, far2) == QuantizeD2(d2, near2, far2)
  {
    var x := Fraction(d2, near2, far2) * 65535.0;
    RoundEvenNearest(x);
  }

  /** A nearer point never gets a larger key. */
  lemma QuantizeD2Monotone(d2: real, e2: real, near2: real, far2: real)
    requires d2 <= e2
    ensures QuantizeD2(d2, near2, far2) <= QuantizeD2(e2, near2, far2)
  {
    FractionMonotone(d2, e2, near2, far2);
    RoundEvenMonotone(Fraction(d2, near2, far2) * 65535.0, Fraction(e2, near2, far2) * 65535.0);
  }

  /**
   * As written, a point far enough beyond far2 overflows lrintf and gets the
   * nearest key: with near2 = 0 and far2 = 1, d2 = 40000 gets key 0 where
   * QuantizeD2 gives 65535.
   */
  lemma QuantizeD2AsWrittenFarPointNearest()
    ensures QuantizeD2AsWritten(40000.0, 0.0, 1.0) == 0
    ensures QuantizeD2(40000.0, 0.0, 1.0) == MaxKey
  {
    assert Fraction(40000.0, 0.0, 1.0) == 40000.0;
  }

  // ---------------------------------------------------------------------
  // BuildNearToFar_Order_Buckets

  /** The squared distance of every row from the camera. */
  function Dists(T: SoAPositions, cx: real, cy: real, cz: real): (d: seq<real>)
    requires T.Valid()
    ensures |d| == T.N
  {
    seq(T.N, i requires 0 <= i < T.N => Dist2(T, i, cx, cy, cz))
  }

  /** Row i's squared distance; rows past the table do not occur. */
  function DistOf(d: seq<real>): nat -> real
  {
    (i: nat) => if i < |d| then d[i] else 0.0
  }

  /** The bin of each row, the key of the bucket pass. */
  function BinKey(d: seq<real>, near2: real, far2: real, B: nat): nat -> nat
    requires B > 0
  {
    (i: nat) => if i < |d| then DistanceBin(d[i], near2, far2, B) else 0
  }

  /** The order the bucket pass builds: the rows 0..N-1 stably sorted by bin. */
  function NearToFarOrder(d: seq<real>, near2: real, far2: real, B: nat): seq<nat>
    requires B > 0
  {
    Grouped<nat>(Iota(|d|), BinKey(d, near2, far2, B), B)
  }

  /**
   * Bins every row (bins are stored as bytes, so B is at most 256), then lays
   * the rows 0..N-1 out bin by bin with one counting pass.
   */
  method BuildNearToFarOrder(T: SoAPositions, cx: real, cy: real, cz: real, near2: real, far2: real, B: nat)
    returns (order: array<nat>)
    requires T.Valid() && 0 < B <= 256
    ensures fresh(order)
    ensures order[..] == NearToFarOrder(Dists(T, cx, cy, cz), near2, far2, B)
  {
    var N := T.N;
    ghost var d := Dists(T, cx, cy, cz);
    order := new nat[N];
    var bins := new nat[N];
    var i := 0;
    while i < N
      invariant 0 <= i <= N
      invariant forall j :: 0 <= j < i ==> bins[j] == DistanceBin(d[j], near2, far2, B)
    {
      var d2 := Dist2(T, i, cx, cy, cz);
      bins[i] := DistanceBin(d2, near2, far2, B);
      i := i + 1;
    }
    var bs := bins[..];
    var key := (j: nat) => if j < |bs| then bs[j] else 0;
    var rows := Iota(N);
    var _ := CountingPass(rows, order, key, B);
    GroupedSameKeys(rows, key, BinKey(d, near2, far2, B), B);
  }

  /** Every order built from the rows 0..N-1 by a permutation holds rows below N. */
  lemma RowsBelow(t: seq<nat>, N: nat)
    requires multiset(t) == multiset(Iota(N))
    ensures forall i :: 0 <= i < |t| ==> t[i] < N
  {
    forall i | 0 <= i < |t|
      ensures t[i] < N
    {
      assert t[i] in multiset(t);
      assert t[i] in Iota(N);
    }
  }

  /**
   * The bucket order is the stable sort of the rows by bin: a permutation of
   * 0..N-1, bins non-decreasing, rows of one bin in increasing order; and it
   * is near-to-far up to the bin: a row comes after a strictly nearer one
   * only when both share a bin.
   */
  lemma NearToFarOrderSorted(d: seq<real>, near2: real, far2: real, B: nat)
    requires B > 0
    ensures StablySorted(NearToFarOrder(d, near2, far2, B), Iota(|d|), BinKey(d, near2, far2, B))
    ensures forall i :: 0 <= i < |NearToFarOrder(d, near2, far2, B)| ==> NearToFarOrder(d, near2, far2, B)[i] < |d|
    ensures forall i, j ::
      (0 <= i < j < |NearToFarOrder(d, near2, far2, B)| &&
       d[NearToFarOrder(d, near2, far2, B)[j]] < d[NearToFarOrder(d, near2, far2, B)[i]]) ==>
      DistanceBin(d[NearToFarOrder(d, near2, far2, B)[i]], near2, far2, B) == DistanceBin(d[NearToFarOrder(d, near2, far2, B)[j]], near2, far2, B)
  {
    var key := BinKey(d, near2, far2, B);
    var rows := Iota(|d|);
    forall x, y | x in rows && y in rows && DistOf(d)(x) <= DistOf(d)(y)
      ensures key(x) <= key(y)
    {
      DistanceBinMonotone(d[x], d[y], near2, far2, B);
    }
    GroupedFollows(rows, key, B, DistOf(d));
    GroupedIsStableSort(rows, key, B);
    RowsBelow(Grouped(rows, key, B), |d|);
  }

  // ---------------------------------------------------------------------
  // BuildOrder_FixedRadix16

  /** The quantized 16-bit key of each row, the key of the radix sort. */
  function QuantKey(d: seq<real>, near2: real, far2: real): nat -> nat
  {
    (i: nat) => if i < |d| then QuantizeD2(d[i], near2, far2) else 0
  }

  /** The order the radix sort builds: the rows 0..N-1 stably sorted by quantized key. */
  function Radix16Order(d: seq<real>, near2: real, far2: real): seq<nat>
  {
    Grouped<nat>(Iota(|d|), QuantKey(d, near2, far2), MaxKey + 1)
  }

  /**
   * Quantizes every row, then sorts the rows 0..N-1 by a counting pass on the
   * low byte of the key (into order) and one on the high byte (back into the
   * temporary order), and hands the temporary order back as the result.
   */
  method BuildOrderFixedRadix16(T: SoAPositions, cx: real, cy: real, cz: real, near2: real, far2: real)
    returns (order: array<nat>)
    requires T.Valid()
    ensures fresh(order)
    ensures order[..] == Radix16Order(Dists(T, cx, cy, cz), near2, far2)
  {
    var N := T.N;
    ghost var d := Dists(T, cx, cy, cz);
    order := new nat[N];
    var key := QuantizeAll(T, cx, cy, cz, near2, far2);
    var tmpOrder := IdentityOrder(N);
    var ks := key[..];
    var low := (j: nat) => if j < |ks| then ks[j] % 256 else 0;
    var high := (j: nat) => if j < |ks| then ks[j] / 256 % 256 else 0;
    var _ := CountingPass(tmpOrder[..], order, low, 256);
    var _ := CountingPass(order[..], tmpOrder, high, 256);
    order := tmpOrder;
    Radix16Step(Iota(N), ks, low, high);
    GroupedSameKeys(Iota(N), (j: nat) => if j < |ks| then ks[j] else 0, QuantKey(d, near2, far2), MaxKey + 1);
  }

  /** The quantization loop: key[i] is the 16-bit key of row i. */
  method QuantizeAll(T: SoAPositions, cx: real, cy: real, cz: real, near2: real, far2: real) returns (key: array<nat>)
    requires T.Valid()
    ensures fresh(key) && key.Length == T.N
    ensures forall j :: 0 <= j < T.N ==> key[j] == QuantizeD2(Dists(T, cx, cy, cz)[j], near2, far2) && key[j] <= MaxKey
  {
    ghost var d := Dists(T, cx, cy, cz);
    key := new nat[T.N];
    var i := 0;
    while i < T.N
      invariant 0 <= i <= T.N
      invariant forall j :: 0 <= j < i ==> key[j] == QuantizeD2(d[j], near2, far2)
    {
      key[i] := QuantizeD2(Dist2(T, i, cx, cy, cz), near2, far2);
      i := i + 1;
    }
  }

  /** The initial order 0, 1, ..., N - 1, which keeps the passes stable. */
  method IdentityOrder(N: nat) returns (a: array<nat>)
    ensures fresh(a) && a[..] == Iota(N)
  {
    a := new nat[N];
    var i := 0;
    while i < N
      invariant 0 <= i <= N
      invariant forall j :: 0 <= j < i ==> a[j] == j
    {
      a[i] := i;
      i := i + 1;
    }
  }

  /** The two byte passes sort by the whole 16-bit key. */
  lemma Radix16Step(s: seq<nat>, ks: seq<nat>, low: nat -> nat, high: nat -> nat)
    requires forall j :: 0 <= j < |ks| ==> ks[j] <= MaxKey
    requires forall j: nat :: low(j) == if j < |ks| then ks[j] % 256 else 0
    requires forall j: nat :: high(j) == if j < |ks| then ks[j] / 256 % 256 else 0
    ensures Grouped(Grouped(s, low, 256), high, 256) == Grouped(s, (j: nat) => if j < |ks| then ks[j] else 0, MaxKey + 1)
  {
    var whole := (j: nat) => if j < |ks| then ks[j] else 0;
    forall j: nat
      ensures whole(j) == high(j) * 256 + low(j)
    {
      if j < |ks| {
        ByteSplit(ks[j]);
      }
    }
    RadixStep(s, low, high, whole, 256, 256, MaxKey + 1);
  }

  /** A 16-bit key is its high byte times 256 plus its low byte. */
  lemma ByteSplit(k: nat)
    requires k <= MaxKey
    ensures k == k / 256 % 256 * 256 + k % 256
  {
  }

  /**
   * The radix order is the stable sort of the rows by quantized key, and a
   * row comes after a strictly nearer one only when their keys tie.
   */
  lemma Radix16OrderSorted(d: seq<real>, near2: real, far2: real)
    ensures StablySorted(Radix16Order(d, near2, far2), Iota(|d|), QuantKey(d, near2, far2))
    ensures forall i :: 0 <= i < |Radix16Order(d, near2, far2)| ==> Radix16Order(d, near2, far2)[i] < |d|
    ensures forall i, j ::
      (0 <= i < j < |Radix16Order(d, near2, far2)| &&
       d[Radix16Order(d, near2, far2)[j]] < d[Radix16Order(d, near2, far2)[i]]) ==>
      QuantizeD2(d[Radix16Order(d, near2, far2)[i]], near2, far2) == QuantizeD2(d[Radix16Order(d, near2, far2)[j]], near2, far2)
  {
    var key := QuantKey(d, near2, far2);
    var rows := Iota(|d|);
    forall x, y | x in rows && y in rows && DistOf(d)(x) <= DistOf(d)(y)
      ensures key(x) <= key(y)
    {
      QuantizeD2Monotone(d[x], d[y], near2, far2);
    }
    GroupedFollows(rows, key, MaxKey + 1, DistOf(d));
    GroupedIsStableSort(rows, key, MaxKey + 1);
    RowsBelow(Grouped(rows, key, MaxKey + 1), |d|);
  }

  // ---------------------------------------------------------------------
  // BuildFrontK_Strict

  /** A row with its squared distance, the element the partial sort moves. */
  datatype KeyRow = KeyRow(dist2: real, row: nat)

  function Rows(s: seq<KeyRow>): seq<nat>
  {
    seq(|s|, i requires 0 <= i < |s| => s[i].row)
  }

  /**
   * The K nearest rows first, nearest first, then the others: nth_element at
   * K followed by a sort of the first K, with K clamped to N.
   */
  method BuildFrontKStrict(T: SoAPositions, cx: real, cy: real, cz: real, K: nat) returns (order: array<nat>)
    requires T.Valid()
    ensures fresh(order) && order.Length == T.N
    ensures multiset(order[..]) == multiset(Iota(T.N))
    ensures forall i :: 0 <= i < T.N ==> order[i] < T.N
    ensures forall i, j :: 0 <= i < j < T.N && i < K ==>
      Dists(T, cx, cy, cz)[order[i]] <= Dists(T, cx, cy, cz)[order[j]]
  {
    var N := T.N;
    ghost var d := Dists(T, cx, cy, cz);
    var keys := KeyRows(T, cx, cy, cz);
    ghost var keys0 := keys[..];
    var k := if K > N then N else K;
    SelectNearest(keys, k);
    order := RowsOf(keys);
    forall j | 0 <= j < N
      ensures keys[j].row < N && keys[j].dist2 == d[keys[j].row]
    {
      assert keys[j] in multiset(keys0);
      assert keys[j] in keys0;
    }
  }

  /** The key loop: entry i pairs row i with its squared distance. */
  method KeyRows(T: SoAPositions, cx: real, cy: real, cz: real) returns (keys: array<KeyRow>)
    requires T.Valid()
    ensures fresh(keys) && keys.Length == T.N
    ensures Rows(keys[..]) == Iota(T.N)
    ensures forall j :: 0 <= j < T.N ==> keys[j] == KeyRow(Dists(T, cx, cy, cz)[j], j)
  {
    ghost var d := Dists(T, cx, cy, cz);
    keys := new KeyRow[T.N](_ => KeyRow(0.0, 0));
    var i := 0;
    while i < T.N
      invariant 0 <= i <= T.N
      invariant forall j :: 0 <= j < i ==> keys[j] == KeyRow(d[j], j)
    {
      keys[i] := KeyRow(Dist2(T, i, cx, cy, cz), i);
      i := i + 1;
    }
    assert Rows(keys[..]) == Iota(T.N);
  }

  /** The output loop: order[i] is the row of entry i. */
  method RowsOf(keys: array<KeyRow>) returns (order: array<nat>)
    ensures fresh(order) && order[..] == Rows(keys[..])
  {
    order := new nat[keys.Length];
    var i := 0;
    while i < keys.Length
      invariant 0 <= i <= keys.Length
      invariant forall j :: 0 <= j < i ==> order[j] == keys[j].row
    {
      order[i] := keys[i].row;
      i := i + 1;
    }
  }

  /**
   * Partial selection sort: afterwards the first k entries are the k smallest
   * by dist2, in order, and the array is a rearrangement of what it was.
   */
  method SelectNearest(keys: array<KeyRow>, k: nat)
    requires k <= keys.Length
    modifies keys
    ensures multiset(keys[..]) == multiset(old(keys[..]))
    ensures multiset(Rows(keys[..])) == multiset(Rows(old(keys[..])))
    ensures SortedFront(keys[..], k)
  {
    var p := 0;
    while p < k
      invariant 0 <= p <= k
      invariant multiset(keys[..]) == multiset(old(keys[..]))
      invariant multiset(Rows(keys[..])) == multiset(Rows(old(keys[..])))
      invariant SortedFront(keys[..], p)
    {
      var m := NearestFrom(keys, p);
      ghost var s := keys[..];
      SelectStep(s, p, m);
      keys[p], keys[m] := keys[m], keys[p];
      assert keys[..] == s[p := s[m]][m := s[p]];
      p := p + 1;
    }
  }

  /** The first p entries are in order and none is farther than any later entry. */
  ghost predicate SortedFront(s: seq<KeyRow>, p: nat)
  {
    forall i, j :: 0 <= i < j < |s| && i < p ==> s[i].dist2 <= s[j].dist2
  }

  /** Swapping the nearest remaining entry into place p extends the sorted front by one. */
  lemma SelectStep(s: seq<KeyRow>, p: nat, m: nat)
    requires p <= m < |s| && SortedFront(s, p)
    requires forall r :: p <= r < |s| ==> s[m].dist2 <= s[r].dist2
    ensures SortedFront(s[p := s[m]][m := s[p]], p + 1)
    ensures multiset(s[p := s[m]][m := s[p]]) == multiset(s)
    ensures multiset(Rows(s[p := s[m]][m := s[p]])) == multiset(Rows(s))
  {
    SwapRows(s, p, m);
  }

  /** The entry from p on with the smallest dist2 (the first such). */
  method NearestFrom(keys: array<KeyRow>, p: nat) returns (m: nat)
    requires p < keys.Length
    ensures p <= m < keys.Length
    ensures forall r :: p <= r < keys.Length ==> keys[m].dist2 <= keys[r].dist2
    ensures forall r :: p <= r < m ==> keys[m].dist2 < keys[r].dist2
  {
    m := p;
    var q := p + 1;
    while q < keys.Length
      invariant p <= m < q <= keys.Length
      invariant forall r :: p <= r < q ==> keys[m].dist2 <= keys[r].dist2
      invariant forall r :: p <= r < m ==> keys[m].dist2 < keys[r].dist2
    {
      if keys[q].dist2 < keys[m].dist2 {
        m := q;
      }
      q := q + 1;
    }
  }

  /** Swapping two entries keeps the multiset of their rows. */
  lemma SwapRows(s: seq<KeyRow>, p: nat, m: nat)
    requires p < |s| && m < |s|
    ensures multiset(Rows(s[p := s[m]][m := s[p]])) == multiset(Rows(s))
  {
    var r := Rows(s);
    assert Rows(s[p := s[m]][m := s[p]]) == r[p := r[m]][m := r[p]];
  }
}
