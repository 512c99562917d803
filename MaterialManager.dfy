/**
 * The material manager of the DirectX 11 backend (DX11MaterialManager.cpp).
 *
 * A material names a shader and, per register slot, the textures, constant
 * buffers and samplers it supplies to the pixel and vertex stages. Creating
 * a material takes a reference on every child resource and builds five
 * binding caches from the shader's reflected bindings: each cache either
 * holds one run of views that a single Set* call binds, or (slot, view)
 * pairs bound one at a time. Materials are deduplicated through a key whose
 * slot lists are sorted, and destroying one invalidates its caches and
 * hands every child back with a release deferred by the frames in flight.
 */
module MaterialManager {
  import opened Wrappers
  import opened StdSort

  /** UINT_MAX: the value minSlot keeps when no slot is bound. */
  const UintMax: nat := 0xFFFF_FFFF

  /** Width of the std::bitset<128> of used slots; set and test throw std::out_of_range from bit 128 on. */
  const SlotBits: nat := 128

  /** 2^64: a uint64_t frame number wraps around here. */
  const FrameModulus: nat := 0x1_0000_0000_0000_0000

  /** D3D_SHADER_INPUT_TYPE, as far as the caches tell the types apart. */
  datatype InputType = Texture | CBuffer | Sampler | OtherInput

  /** One ShaderResourceBinding reflected from a shader stage. */
  datatype Binding = Binding(kind: InputType, bindPoint: nat)

  /** A std::unordered_map<UINT, V> from register slot to value, listed in its iteration order. */
  type SlotMap<V> = seq<(nat, V)>

  /** An unordered_map holds each slot once. */
  ghost predicate UniqueSlots<V>(e: SlotMap<V>)
  {
    forall i, j :: 0 <= i < j < |e| ==> e[i].0 != e[j].0
  }

  /**
   * map.find(slot): the value stored at slot, if any (a later entry
   * overrides an earlier one, as assigning to the map would).
   */
  function Find<V>(e: SlotMap<V>, slot: nat): (r: Option<V>)
    ensures r.Some? <==> exists i :: 0 <= i < |e| && e[i].0 == slot
    ensures r.Some? ==> (slot, r.value) in e
  {
    if e == [] then None
    else if e[|e| - 1].0 == slot then Some(e[|e| - 1].1)
    else
      var r := Find(e[..|e| - 1], slot);
      assert forall i :: 0 <= i < |e| - 1 ==> e[..|e| - 1][i] == e[i];
      r
  }

  // ---------------------------------------------------------------------
  // Which bindings a cache takes
  // ---------------------------------------------------------------------

  /** Whether BuildBindingCache* takes binding b: it has the cache's input type and the material supplies its slot. */
  predicate Takes<V>(b: Binding, kind: InputType, e: SlotMap<V>)
  {
    b.kind == kind && Find(e, b.bindPoint).Some?
  }

  /** The slots the shader binds with the given input type and the material supplies. */
  ghost function Bound<V>(bs: seq<Binding>, kind: InputType, e: SlotMap<V>): set<nat>
  {
    if bs == [] then {}
    else
      var b := bs[|bs| - 1];
      Bound(bs[..|bs| - 1], kind, e) + (if Takes(b, kind, e) then {b.bindPoint} else {})
  }

  /** The (slot, value) pairs of the taken bindings, in binding order. */
  ghost function Matched<V>(bs: seq<Binding>, kind: InputType, e: SlotMap<V>): SlotMap<V>
  {
    if bs == [] then []
    else
      var b := bs[|bs| - 1];
      Matched(bs[..|bs| - 1], kind, e) + (if Takes(b, kind, e) then [(b.bindPoint, Find(e, b.bindPoint).value)] else [])
  }

  /** Building the cache throws std::out_of_range: a taken binding lies beyond the bitset. */
  ghost predicate Throws<V>(bs: seq<Binding>, kind: InputType, e: SlotMap<V>)
  {
    exists i :: 0 <= i < |bs| && Takes(bs[i], kind, e) && bs[i].bindPoint >= SlotBits
  }

  /** A slot is bound exactly when some binding of the shader is taken at it. */
  lemma {:induction false} BoundMeaning<V>(bs: seq<Binding>, kind: InputType, e: SlotMap<V>, p: nat)
    ensures p in Bound(bs, kind, e) <==> exists i :: 0 <= i < |bs| && Takes(bs[i], kind, e) && bs[i].bindPoint == p
  {
    if bs != [] {
      var pre := bs[..|bs| - 1];
      BoundMeaning(pre, kind, e, p);
      assert forall i :: 0 <= i < |pre| ==> pre[i] == bs[i];
      if p in Bound(bs, kind, e) && p !in Bound(pre, kind, e) {
        assert Takes(bs[|bs| - 1], kind, e) && bs[|bs| - 1].bindPoint == p;
      }
    }
  }

  /** When building does not throw, every bound slot fits the bitset, and the material supplies it. */
  lemma BoundFits<V>(bs: seq<Binding>, kind: InputType, e: SlotMap<V>, p: nat)
    requires !Throws(bs, kind, e) && p in Bound(bs, kind, e)
    ensures p < SlotBits && Find(e, p).Some?
  {
    BoundMeaning(bs, kind, e, p);
  }

  // ---------------------------------------------------------------------
  // The binding cache and how it is built
  // ---------------------------------------------------------------------

  /**
   * MaterialBindingCache<V>: when contiguous, one run of count views from
   * minSlot; otherwise (slot, view) pairs bound one by one.
   */
  datatype Cache<V> = Cache(valid: bool, contiguous: bool, minSlot: nat, count: nat,
                            contiguousViews: seq<Option<V>>, individualViews: SlotMap<V>)

  /**
   * minSlot and count span the bound slots from the lowest to the highest
   * (UINT_MAX and 0 when none is bound), and the cache is contiguous exactly
   * when every slot of that span is bound.
   */
  ghost predicate SpanOf(bound: set<nat>, contiguous: bool, minSlot: nat, count: nat)
  {
    && (bound == {} ==> minSlot == UintMax && count == 0)
    && (bound != {} ==>
          0 < count && minSlot in bound && minSlot + count - 1 in bound &&
          forall p :: p in bound ==> minSlot <= p < minSlot + count)
    && (contiguous <==> forall p :: minSlot <= p < minSlot + count ==> p in bound)
  }

  /** The layout every BuildBindingCache* returns; a contiguous cache holds the material's view of each slot of the span. */
  ghost predicate Spans<V>(c: Cache<V>, bound: set<nat>, e: SlotMap<V>)
  {
    && !c.valid
    && SpanOf(bound, c.contiguous, c.minSlot, c.count)
    && (c.contiguous ==>
          |c.contiguousViews| == c.count && c.individualViews == [] &&
          forall i :: 0 <= i < c.count ==> c.contiguousViews[i] == Find(e, c.minSlot + i))
    && (!c.contiguous ==> c.contiguousViews == [])
  }

  /** What BuildBindingCacheSRV returns: the individual pairs are those of the taken bindings. */
  ghost predicate BuiltFromBindings<V>(c: Cache<V>, bs: seq<Binding>, kind: InputType, e: SlotMap<V>)
  {
    Spans(c, Bound(bs, kind, e), e) && (!c.contiguous ==> c.individualViews == Matched(bs, kind, e))
  }

  /** What BuildBindingCacheCBV and BuildBindingCacheSampler return: the individual pairs are the whole map. */
  ghost predicate BuiltFromMap<V>(c: Cache<V>, bs: seq<Binding>, kind: InputType, e: SlotMap<V>)
  {
    Spans(c, Bound(bs, kind, e), e) && (!c.contiguous ==> c.individualViews == e)
  }

  /**
   * The first two loops of BuildBindingCache*: mark the taken slots in the
   * bitset while tracking their minimum and maximum, then test every slot
   * between the two.
   */
  method ScanLayout<V>(bs: seq<Binding>, kind: InputType, e: SlotMap<V>)
    returns (thrown: bool, contiguous: bool, minSlot: nat, maxSlot: nat, count: nat)
    ensures thrown <==> Throws(bs, kind, e)
    ensures !thrown ==> SpanOf(Bound(bs, kind, e), contiguous, minSlot, count)
    ensures !thrown ==> count == (if minSlot <= maxSlot then maxSlot - minSlot + 1 else 0)
  {
    contiguous, count := false, 0;
    var used;
    thrown, used, minSlot, maxSlot := MarkSlots(bs, kind, e);
    if thrown {
      return;
    }
    count := if minSlot <= maxSlot then maxSlot - minSlot + 1 else 0;
    contiguous := AllMarked(used, minSlot, maxSlot);
    ghost var bound := Bound(bs, kind, e);
    if bound != {} {
      assert forall p :: minSlot <= p < minSlot + count ==> (used[p] <==> p in bound);
    }
  }

  /** The first loop: the bitset marks exactly the bound slots; minSlot and maxSlot are the lowest and highest of them. */
  method MarkSlots<V>(bs: seq<Binding>, kind: InputType, e: SlotMap<V>)
    returns (thrown: bool, used: array<bool>, minSlot: nat, maxSlot: nat)
    ensures fresh(used) && used.Length == SlotBits
    ensures thrown <==> Throws(bs, kind, e)
    ensures !thrown ==> Marks(used[..], Bound(bs, kind, e)) && Extremes(Bound(bs, kind, e), minSlot, maxSlot)
  {
    used := new bool[SlotBits](_ => false);
    minSlot, maxSlot := UintMax, 0;
    ghost var bound: set<nat> := {};
    var k := 0;
    while k < |bs|
      invariant 0 <= k <= |bs| && bound == Bound(bs[..k], kind, e) && !Throws(bs[..k], kind, e)
      invariant Marks(used[..], bound) && Extremes(bound, minSlot, maxSlot)
    {
      thrown, minSlot, maxSlot, bound := ScanOne(bs, kind, e, k, used, minSlot, maxSlot, bound);
      if thrown {
        return;
      }
      k := k + 1;
    }
    assert bs[..k] == bs;
    thrown := false;
  }

  /** One iteration of the scan: the binding at k either throws or marks its slot when taken. */
  method ScanOne<V>(bs: seq<Binding>, kind: InputType, e: SlotMap<V>, k: nat, used: array<bool>,
                    minSlot: nat, maxSlot: nat, ghost bound: set<nat>)
    returns (thrown: bool, minSlot': nat, maxSlot': nat, ghost bound': set<nat>)
    requires k < |bs| && used.Length == SlotBits
    requires bound == Bound(bs[..k], kind, e) && !Throws(bs[..k], kind, e)
    requires Marks(used[..], bound) && Extremes(bound, minSlot, maxSlot)
    modifies used
    ensures thrown ==> Throws(bs, kind, e)
    ensures !thrown ==> bound' == Bound(bs[..k + 1], kind, e) && !Throws(bs[..k + 1], kind, e)
    ensures !thrown ==> Marks(used[..], bound') && Extremes(bound', minSlot', maxSlot')
  {
    var b := bs[k];
    BoundNext(bs, kind, e, k);
    ThrowsNext(bs, kind, e, k);
    minSlot', maxSlot', bound' := minSlot, maxSlot, bound;
    if !Takes(b, kind, e) {
      return false, minSlot', maxSlot', bound';
    }
    if b.bindPoint >= SlotBits {
      ThrowsPrefix(bs, kind, e, k + 1);
      return true, minSlot', maxSlot', bound';
    }
    minSlot', maxSlot' := MarkOne(used, b.bindPoint, minSlot, maxSlot, bound);
    bound' := bound + {b.bindPoint};
    thrown := false;
  }

  /** A prefix that throws makes the whole list throw. */
  lemma ThrowsPrefix<V>(bs: seq<Binding>, kind: InputType, e: SlotMap<V>, n: nat)
    requires n <= |bs| && Throws(bs[..n], kind, e)
    ensures Throws(bs, kind, e)
  {
    var i :| 0 <= i < n && Takes(bs[..n][i], kind, e) && bs[..n][i].bindPoint >= SlotBits;
    assert bs[i] == bs[..n][i];
  }

  /** One taken binding: usedSlots.set(p), then std::min into minSlot and std::max into maxSlot. */
  method MarkOne(used: array<bool>, p: nat, minSlot: nat, maxSlot: nat, ghost bound: set<nat>)
    returns (minSlot': nat, maxSlot': nat)
    requires used.Length == SlotBits && p < SlotBits && Marks(used[..], bound) && Extremes(bound, minSlot, maxSlot)
    modifies used
    ensures Marks(used[..], bound + {p}) && Extremes(bound + {p}, minSlot', maxSlot')
  {
    ghost var u := used[..];
    MarksAdd(u, bound, p);
    used[p] := true;
    assert used[..] == u[p := true];
    ExtremesAdd(bound, minSlot, maxSlot, p);
    minSlot' := if p < minSlot then p else minSlot;
    maxSlot' := if p > maxSlot then p else maxSlot;
  }

  /** The bitset marks exactly the slots of bound, and every slot of bound fits it. */
  ghost predicate Marks(used: seq<bool>, bound: set<nat>)
  {
    && (forall p :: 0 <= p < |used| ==> (used[p] <==> p in bound))
    && (forall p :: p in bound ==> p < |used|)
  }

  /** usedSlots.set(p) marks one more slot. */
  lemma MarksAdd(used: seq<bool>, bound: set<nat>, p: nat)
    requires Marks(used, bound) && p < |used|
    ensures Marks(used[p := true], bound + {p})
  {
  }

  /** minSlot and maxSlot are the lowest and highest slot of bound: UINT_MAX and 0 when it is empty. */
  ghost predicate Extremes(bound: set<nat>, minSlot: nat, maxSlot: nat)
  {
    && (bound == {} ==> minSlot == UintMax && maxSlot == 0)
    && (bound != {} ==> minSlot in bound && maxSlot in bound && forall p :: p in bound ==> minSlot <= p <= maxSlot)
  }

  /** std::min and std::max with a new slot below UINT_MAX keep the extremes of the grown set. */
  lemma ExtremesAdd(bound: set<nat>, minSlot: nat, maxSlot: nat, p: nat)
    requires Extremes(bound, minSlot, maxSlot) && p < SlotBits
    ensures Extremes(bound + {p}, if p < minSlot then p else minSlot, if p > maxSlot then p else maxSlot)
  {
  }

  /** One more binding throws when it is taken at a slot beyond the bitset. */
  lemma ThrowsNext<V>(bs: seq<Binding>, kind: InputType, e: SlotMap<V>, k: nat)
    requires k < |bs|
    ensures Throws(bs[..k + 1], kind, e) <==>
              Throws(bs[..k], kind, e) || (Takes(bs[k], kind, e) && bs[k].bindPoint >= SlotBits)
  {
    assert forall i :: 0 <= i < k ==> bs[..k + 1][i] == bs[..k][i];
    if Takes(bs[k], kind, e) && bs[k].bindPoint >= SlotBits {
      assert bs[..k + 1][k] == bs[k];
    }
  }

  /** One more binding adds its slot to the bound set when it is taken. */
  lemma BoundNext<V>(bs: seq<Binding>, kind: InputType, e: SlotMap<V>, k: nat)
    requires k < |bs|
    ensures Bound(bs[..k + 1], kind, e) ==
              Bound(bs[..k], kind, e) + (if Takes(bs[k], kind, e) then {bs[k].bindPoint} else {})
  {
    assert bs[..k + 1][..k] == bs[..k];
  }

  /** The second loop: whether every slot from minSlot to maxSlot is marked. */
  method AllMarked(used: array<bool>, minSlot: nat, maxSlot: nat) returns (contiguous: bool)
    requires used.Length == SlotBits
    requires minSlot <= maxSlot ==> maxSlot < SlotBits
    ensures contiguous <==> forall p :: minSlot <= p <= maxSlot ==> used[p]
  {
    var i := minSlot;
    while i <= maxSlot
      invariant minSlot <= i <= (if minSlot <= maxSlot then maxSlot + 1 else minSlot)
      invariant forall p :: minSlot <= p < i ==> used[p]
      decreases maxSlot + 1 - i
    {
      if !used[i] {
        return false;
      }
      i := i + 1;
    }
    return true;
  }

  /** The contiguous fill of BuildBindingCacheSRV: count null views, then each taken binding's view at its place in the span. */
  method FillFromBindings<V>(bs: seq<Binding>, kind: InputType, e: SlotMap<V>, minSlot: nat, count: nat)
    returns (views: seq<Option<V>>)
    requires forall p :: p in Bound(bs, kind, e) ==> minSlot <= p < minSlot + count
    ensures |views| == count
    ensures forall i :: 0 <= i < count ==>
              views[i] == (if minSlot + i in Bound(bs, kind, e) then Find(e, minSlot + i) else None)
  {
    views := seq(count, _ => None);
    var k := 0;
    while k < |bs|
      invariant 0 <= k <= |bs| && |views| == count
      invariant forall i :: 0 <= i < count ==>
                  views[i] == (if minSlot + i in Bound(bs[..k], kind, e) then Find(e, minSlot + i) else None)
    {
      var b := bs[k];
      assert bs[..k + 1][..k] == bs[..k];
      var found := Find(e, b.bindPoint);
      if b.kind == kind && found.Some? {
        BoundMeaning(bs, kind, e, b.bindPoint);
        views := views[b.bindPoint - minSlot := found];
      }
      k := k + 1;
    }
    assert bs[..k] == bs;
  }

  /** The non-contiguous fill of BuildBindingCacheSRV: the pairs of the taken bindings, in binding order. */
  method CollectFromBindings<V>(bs: seq<Binding>, kind: InputType, e: SlotMap<V>) returns (pairs: SlotMap<V>)
    ensures pairs == Matched(bs, kind, e)
  {
    pairs := [];
    var k := 0;
    while k < |bs|
      invariant 0 <= k <= |bs|
      invariant pairs == Matched(bs[..k], kind, e)
    {
      var b := bs[k];
      assert bs[..k + 1][..k] == bs[..k];
      var found := Find(e, b.bindPoint);
      if b.kind == kind && found.Some? {
        pairs := pairs + [(b.bindPoint, found.value)];
      }
      k := k + 1;
    }
    assert bs[..k] == bs;
  }

  /** The contiguous fill of BuildBindingCacheCBV and BuildBindingCacheSampler: every map entry whose slot lies in the span. */
  method FillFromMap<V>(e: SlotMap<V>, minSlot: nat, maxSlot: nat, count: nat) returns (views: seq<Option<V>>)
    requires count == (if minSlot <= maxSlot then maxSlot - minSlot + 1 else 0)
    ensures |views| == count
    ensures forall i :: 0 <= i < count ==> views[i] == Find(e, minSlot + i)
  {
    views := seq(count, _ => None);
    var k := 0;
    while k < |e|
      invariant 0 <= k <= |e| && |views| == count
      invariant forall i :: 0 <= i < count ==> views[i] == Find(e[..k], minSlot + i)
    {
      var (slot, v) := e[k];
      assert e[..k + 1][..k] == e[..k];
      if slot >= minSlot && slot <= maxSlot {
        views := views[slot - minSlot := Some(v)];
      }
      k := k + 1;
    }
    assert e[..k] == e;
  }

  /**
   * BuildBindingCacheSRV: std::out_of_range when a taken texture slot lies
   * beyond the bitset; otherwise the span of the bound texture slots, with
   * the material's views in place when it is contiguous and the taken
   * bindings' pairs when it is not. The cache is returned not yet valid.
   */
  method BuildBindingCacheSRV<V>(bs: seq<Binding>, srvMap: SlotMap<V>) returns (r: Option<Cache<V>>)
    ensures r.None? <==> Throws(bs, Texture, srvMap)
    ensures r.Some? ==> BuiltFromBindings(r.value, bs, Texture, srvMap)
  {
    var thrown, contiguous, minSlot, maxSlot, count := ScanLayout(bs, Texture, srvMap);
    if thrown {
      return None;
    }
    if contiguous {
      var views := FillFromBindings(bs, Texture, srvMap, minSlot, count);
      r := Some(Cache(false, true, minSlot, count, views, []));
    } else {
      var pairs := CollectFromBindings(bs, Texture, srvMap);
      r := Some(Cache(false, false, minSlot, count, [], pairs));
    }
  }

  /**
   * The shared body of BuildBindingCacheCBV and BuildBindingCacheSampler: as
   * for textures, except that the views come from the map itself, and a
   * non-contiguous cache lists every entry of the map.
   */
  method BuildFromMap<V>(bs: seq<Binding>, kind: InputType, e: SlotMap<V>) returns (r: Option<Cache<V>>)
    ensures r.None? <==> Throws(bs, kind, e)
    ensures r.Some? ==> BuiltFromMap(r.value, bs, kind, e)
  {
    var thrown, contiguous, minSlot, maxSlot, count := ScanLayout(bs, kind, e);
    if thrown {
      return None;
    }
    if contiguous {
      var views := FillFromMap(e, minSlot, maxSlot, count);
      r := Some(Cache(false, true, minSlot, count, views, []));
    } else {
      r := Some(Cache(false, false, minSlot, count, [], e));
    }
  }

  /** BuildBindingCacheCBV: BuildFromMap over the constant-buffer bindings. */
  method BuildBindingCacheCBV<V>(bs: seq<Binding>, cbvMap: SlotMap<V>) returns (r: Option<Cache<V>>)
    ensures r.None? <==> Throws(bs, CBuffer, cbvMap)
    ensures r.Some? ==> BuiltFromMap(r.value, bs, CBuffer, cbvMap)
  {
    r := BuildFromMap(bs, CBuffer, cbvMap);
  }

  /** BuildBindingCacheSampler: BuildFromMap over the sampler bindings. */
  method BuildBindingCacheSampler<V>(bs: seq<Binding>, samplerMap: SlotMap<V>) returns (r: Option<Cache<V>>)
    ensures r.None? <==> Throws(bs, Sampler, samplerMap)
    ensures r.Some? ==> BuiltFromMap(r.value, bs, Sampler, samplerMap)
  {
    r := BuildFromMap(bs, Sampler, samplerMap);
  }

  /**
   * CreateResource marks a built cache valid exactly when minSlot is not
   * UINT_MAX: that is, exactly when some slot is bound.
   */
  lemma ValidIffBound<V>(c: Cache<V>, bs: seq<Binding>, kind: InputType, e: SlotMap<V>)
    requires Spans(c, Bound(bs, kind, e), e) && !Throws(bs, kind, e)
    ensures c.minSlot != UintMax <==> Bound(bs, kind, e) != {}
  {
    if Bound(bs, kind, e) != {} {
      BoundFits(bs, kind, e, c.minSlot);
    }
  }

  // ---------------------------------------------------------------------
  // Binding a cache
  // ---------------------------------------------------------------------

  /** The device's register table of one stage: slot to view, None standing for a null view. */
  type SlotTable<V> = map<nat, Option<V>>

  /** The slots one Set* call from start with the given views writes. */
  function RangeWrites<V>(start: nat, views: seq<Option<V>>): SlotTable<V>
  {
    map p: nat | start <= p < start + |views| :: ViewAt(views, start, p)
  }

  /** The view a run starting at start puts at slot p. */
  function ViewAt<V>(views: seq<Option<V>>, start: nat, p: nat): Option<V>
    requires start <= p < start + |views|
  {
    views[p - start]
  }

  /** The slots a sequence of single-slot Set* calls writes; a later call to a slot overrides an earlier one. */
  function PairWrites<V>(pairs: SlotMap<V>): SlotTable<V>
  {
    if pairs == [] then map[]
    else PairWrites(pairs[..|pairs| - 1])[pairs[|pairs| - 1].0 := Some(pairs[|pairs| - 1].1)]
  }

  /** The slots binding a cache writes: none when invalid, its run when contiguous, its pairs otherwise. */
  function Writes<V>(c: Cache<V>): SlotTable<V>
  {
    if !c.valid then map[]
    else if c.contiguous then RangeWrites(c.minSlot, c.contiguousViews)
    else PairWrites(c.individualViews)
  }

  /**
   * BindMaterialPSSRVs and its five siblings (the stage and the Set* call
   * differ, the logic does not): the register table afterwards.
   */
  method Bind<V>(table: SlotTable<V>, c: Cache<V>) returns (table': SlotTable<V>)
    requires c.valid && c.contiguous ==> |c.contiguousViews| == c.count
    ensures table' == table + Writes(c)
  {
    if !c.valid {
      assert table + map[] == table;
      return table;
    }
    if c.contiguous {
      return table + RangeWrites(c.minSlot, c.contiguousViews);
    }
    var pairs := c.individualViews;
    table' := table;
    var k := 0;
    while k < |pairs|
      invariant 0 <= k <= |pairs|
      invariant table' == table + PairWrites(pairs[..k])
    {
      assert pairs[..k + 1][..k] == pairs[..k];
      table' := table'[pairs[k].0 := Some(pairs[k].1)];
      k := k + 1;
    }
    assert pairs[..k] == pairs;
  }

  /** The slots the shader binds with the input type and the material supplies, with the material's view. */
  ghost function BoundTable<V>(bs: seq<Binding>, kind: InputType, e: SlotMap<V>): SlotTable<V>
  {
    map p | p in Bound(bs, kind, e) :: Find(e, p)
  }

  /** A single-slot call per pair writes each slot of the map with its value, and nothing else. */
  lemma {:induction false} PairWritesFind<V>(e: SlotMap<V>, p: nat)
    ensures p in PairWrites(e) <==> Find(e, p).Some?
    ensures p in PairWrites(e) ==> PairWrites(e)[p] == Find(e, p)
  {
    if e != [] {
      PairWritesFind(e[..|e| - 1], p);
    }
  }

  /** The pairs of the taken bindings write exactly the bound slots. */
  lemma {:induction false} MatchedWrites<V>(bs: seq<Binding>, kind: InputType, e: SlotMap<V>)
    ensures PairWrites(Matched(bs, kind, e)) == BoundTable(bs, kind, e)
  {
    if bs != [] {
      MatchedWrites(bs[..|bs| - 1], kind, e);
      MatchedSnoc(bs, kind, e);
      BoundTableSnoc(bs, kind, e);
    }
  }

  /** One more binding adds its pair's write when it is taken. */
  lemma MatchedSnoc<V>(bs: seq<Binding>, kind: InputType, e: SlotMap<V>)
    requires bs != []
    ensures var pre, b := bs[..|bs| - 1], bs[|bs| - 1];
      PairWrites(Matched(bs, kind, e)) ==
        if Takes(b, kind, e) then PairWrites(Matched(pre, kind, e))[b.bindPoint := Find(e, b.bindPoint)]
        else PairWrites(Matched(pre, kind, e))
  {
    var pre, b := bs[..|bs| - 1], bs[|bs| - 1];
    var m, m0 := Matched(bs, kind, e), Matched(pre, kind, e);
    if Takes(b, kind, e) {
      assert m[..|m| - 1] == m0;
    } else {
      assert m == m0;
    }
  }

  /** One more binding adds its slot to the bound table when it is taken. */
  lemma BoundTableSnoc<V>(bs: seq<Binding>, kind: InputType, e: SlotMap<V>)
    requires bs != []
    ensures var pre, b := bs[..|bs| - 1], bs[|bs| - 1];
      BoundTable(bs, kind, e) ==
        if Takes(b, kind, e) then BoundTable(pre, kind, e)[b.bindPoint := Find(e, b.bindPoint)]
        else BoundTable(pre, kind, e)
  {
    var pre, b := bs[..|bs| - 1], bs[|bs| - 1];
    assert Bound(bs, kind, e) == Bound(pre, kind, e) + (if Takes(b, kind, e) then {b.bindPoint} else {});
  }

  /** A valid contiguous cache writes exactly the bound slots. */
  lemma ContiguousWrites<V>(c: Cache<V>, bs: seq<Binding>, kind: InputType, e: SlotMap<V>)
    requires Spans(c.(valid := false), Bound(bs, kind, e), e) && c.valid && c.contiguous
    ensures Writes(c) == BoundTable(bs, kind, e)
  {
    RunCoversBound(c.minSlot, c.contiguousViews, Bound(bs, kind, e), e);
  }

  /** A run of the material's views over a fully bound span writes exactly the bound slots. */
  lemma RunCoversBound<V>(start: nat, views: seq<Option<V>>, bound: set<nat>, e: SlotMap<V>)
    requires forall p :: p in bound <==> start <= p < start + |views|
    requires forall i :: 0 <= i < |views| ==> views[i] == Find(e, start + i)
    ensures RangeWrites(start, views) == map p | p in bound :: Find(e, p)
  {
    var w, t := RangeWrites(start, views), map p | p in bound :: Find(e, p);
    assert w.Keys == t.Keys;
    forall p | p in w
      ensures w[p] == t[p]
    {
      assert views[p - start] == Find(e, start + (p - start));
    }
  }

  /** Whether a cache is one CreateResource stores: built as its builder promises, then marked valid exactly when a slot is bound. */
  ghost predicate Ready<V>(c: Cache<V>, bs: seq<Binding>, kind: InputType, e: SlotMap<V>)
  {
    && !Throws(bs, kind, e)
    && (c.valid <==> Bound(bs, kind, e) != {})
    && (if kind == Texture then BuiltFromBindings(c.(valid := false), bs, kind, e)
        else BuiltFromMap(c.(valid := false), bs, kind, e))
  }

  /**
   * Binding a stored texture cache sets exactly the texture slots the shader
   * binds and the material supplies, each to the material's view; with no
   * such slot, binding does nothing.
   */
  lemma SRVBindsBoundSlots<V>(c: Cache<V>, bs: seq<Binding>, e: SlotMap<V>)
    requires Ready(c, bs, Texture, e)
    ensures Writes(c) == BoundTable(bs, Texture, e)
  {
    if !c.valid {
      assert BoundTable(bs, Texture, e) == map[];
    } else if c.contiguous {
      ContiguousWrites(c, bs, Texture, e);
    } else {
      MatchedWrites(bs, Texture, e);
    }
  }

  /**
   * Binding a stored constant-buffer or sampler cache sets every bound slot
   * to the material's view. A contiguous cache sets nothing else; a
   * non-contiguous one also sets every other slot the material supplies,
   * whether the shader binds it or not.
   */
  lemma MapBindsBoundSlots<V>(c: Cache<V>, bs: seq<Binding>, kind: InputType, e: SlotMap<V>)
    requires kind != Texture && Ready(c, bs, kind, e)
    ensures c.contiguous ==> Writes(c) == BoundTable(bs, kind, e)
    ensures !c.contiguous ==> c.valid && forall p :: p in Writes(c) <==> Find(e, p).Some?
    ensures forall p :: p in BoundTable(bs, kind, e) ==> p in Writes(c) && Writes(c)[p] == Find(e, p)
  {
    if !c.valid {
      assert BoundTable(bs, kind, e) == map[];
    } else if c.contiguous {
      ContiguousWrites(c, bs, kind, e);
    } else {
      forall p
        ensures (p in Writes(c) <==> Find(e, p).Some?) && (p in Writes(c) ==> Writes(c)[p] == Find(e, p))
      {
        PairWritesFind(e, p);
      }
      forall p | p in BoundTable(bs, kind, e)
        ensures Find(e, p).Some?
      {
        BoundFits(bs, kind, e, p);
      }
    }
  }

  // ---------------------------------------------------------------------
  // Material keys
  // ---------------------------------------------------------------------

  /** A resource handle: a slot index of its manager and that slot's generation. */
  datatype Handle = Handle(index: nat, generation: nat)

  /** MaterialCreateDesc: the shader and the slot maps of the two stages. */
  datatype MaterialDesc = MaterialDesc(
    shader: Handle,
    psSRV: SlotMap<Handle>, vsSRV: SlotMap<Handle>,
    psCBV: SlotMap<Handle>, vsCBV: SlotMap<Handle>,
    samplerMap: SlotMap<Handle>,
    isBindVSSampler: bool)

  /** MaterialKey: the shader's index and, per map, its (slot, handle index) pairs. */
  datatype MaterialKey = MaterialKey(
    shaderIndex: nat,
    psSrvs: seq<(nat, nat)>, vsSrvs: seq<(nat, nat)>,
    psCbvs: seq<(nat, nat)>, vsCbvs: seq<(nat, nat)>,
    samplers: seq<(nat, nat)>)

  /** Every map of the desc holds each slot once. */
  ghost predicate DescIsMap(d: MaterialDesc)
  {
    UniqueSlots(d.psSRV) && UniqueSlots(d.vsSRV) && UniqueSlots(d.psCBV) &&
    UniqueSlots(d.vsCBV) && UniqueSlots(d.samplerMap)
  }

  /** The (slot, handle index) pairs of a map, in its order. */
  function Indices(m: SlotMap<Handle>): seq<(nat, nat)>
  {
    seq(|m|, i requires 0 <= i < |m| => (m[i].0, m[i].1.index))
  }

  /** The sort key of a key entry: its slot. */
  function BySlot(p: (nat, nat)): nat
  {
    p.0
  }

  ghost predicate SortedBySlot(l: seq<(nat, nat)>)
  {
    forall i, j :: 0 <= i < j < |l| ==> l[i].0 <= l[j].0
  }

  /** A key list of map m: its pairs, sorted by slot. */
  ghost predicate Lists(l: seq<(nat, nat)>, m: SlotMap<Handle>)
  {
    multiset(l) == multiset(Indices(m)) && SortedBySlot(l)
  }

  /** k is a key MakeKey may return for d. */
  ghost predicate KeyOf(k: MaterialKey, d: MaterialDesc)
  {
    && k.shaderIndex == d.shader.index
    && Lists(k.psSrvs, d.psSRV) && Lists(k.vsSrvs, d.vsSRV)
    && Lists(k.psCbvs, d.psCBV) && Lists(k.vsCbvs, d.vsCBV)
    && Lists(k.samplers, d.samplerMap)
  }

  /** Two descs list the same shader and the same (slot, handle index) pairs, in whatever order. */
  ghost predicate SamePairs(d1: MaterialDesc, d2: MaterialDesc)
  {
    && d1.shader.index == d2.shader.index
    && multiset(Indices(d1.psSRV)) == multiset(Indices(d2.psSRV))
    && multiset(Indices(d1.vsSRV)) == multiset(Indices(d2.vsSRV))
    && multiset(Indices(d1.psCBV)) == multiset(Indices(d2.psCBV))
    && multiset(Indices(d1.vsCBV)) == multiset(Indices(d2.vsCBV))
    && multiset(Indices(d1.samplerMap)) == multiset(Indices(d2.samplerMap))
  }

  /** One list of MakeKey: the map's pairs gathered in iteration order, then std::sort by slot. */
  method SlotList(m: SlotMap<Handle>) returns (l: seq<(nat, nat)>)
    ensures Lists(l, m)
  {
    var a := new (nat, nat)[|m|];
    for i := 0 to |m|
      invariant forall j :: 0 <= j < i ==> a[j] == (m[j].0, m[j].1.index)
    {
      a[i] := (m[i].0, m[i].1.index);
    }
    assert a[0..a.Length] == a[..] == Indices(m);
    SortRange(a, BySlot, 0, a.Length);
    assert a[0..a.Length] == a[..];
    l := a[..];
  }

  /** MakeKey: the shader index and the five sorted lists. */
  method MakeKey(d: MaterialDesc) returns (k: MaterialKey)
    ensures KeyOf(k, d)
  {
    var psSrvs := SlotList(d.psSRV);
    var vsSrvs := SlotList(d.vsSRV);
    var psCbvs := SlotList(d.psCBV);
    var vsCbvs := SlotList(d.vsCBV);
    var samplers := SlotList(d.samplerMap);
    k := MaterialKey(d.shader.index, psSrvs, vsSrvs, psCbvs, vsCbvs, samplers);
  }

  /** A list sorted by slot whose pairs are those of a map has no slot twice. */
  lemma StrictFromUnique(l: seq<(nat, nat)>, m: SlotMap<Handle>)
    requires Lists(l, m) && UniqueSlots(m)
    ensures forall i, j :: 0 <= i < j < |l| ==> l[i].0 < l[j].0
  {
    var s := Indices(m);
    forall i, j | 0 <= i < j < |l|
      ensures l[i].0 < l[j].0
    {
      if l[i].0 == l[j].0 {
        assert l[i] in multiset(s) && l[j] in multiset(s);
        var a :| 0 <= a < |s| && s[a] == l[i];
        var b :| 0 <= b < |s| && s[b] == l[j];
        assert m[a].0 == s[a].0 && m[b].0 == s[b].0;
        if a == b {
          CountTwo(l, i, j);
          UniqueCount(m, a);
          assert false;
        }
      }
    }
  }

  /** An element found at two places of a list occurs at least twice in it. */
  lemma CountTwo<T>(l: seq<T>, i: nat, j: nat)
    requires i < j < |l| && l[i] == l[j]
    ensures multiset(l)[l[i]] >= 2
  {
    assert l == l[..j] + l[j..];
    assert l[..j][i] == l[i] && l[j..][0] == l[i];
    assert multiset(l) == multiset(l[..j]) + multiset(l[j..]);
  }

  /** In the pairs of a map, the pair of each entry occurs once. */
  lemma {:induction false} UniqueCount(m: SlotMap<Handle>, a: nat)
    requires UniqueSlots(m) && a < |m|
    ensures multiset(Indices(m))[Indices(m)[a]] == 1
  {
    var s, x := Indices(m), Indices(m)[a];
    var pre := m[..|m| - 1];
    assert Indices(m) == Indices(pre) + [s[|s| - 1]];
    assert multiset(s) == multiset(Indices(pre)) + multiset{s[|s| - 1]};
    if a == |m| - 1 {
      assert x !in Indices(pre);
    } else {
      UniqueCount(pre, a);
      assert Indices(pre)[a] == x;
      assert s[|s| - 1] != x by {
        assert m[|m| - 1].0 != m[a].0;
      }
    }
  }

  /** Two lists sorted strictly by slot holding the same pairs are the same list. */
  lemma {:induction false} StrictListsEqual(a: seq<(nat, nat)>, b: seq<(nat, nat)>)
    requires forall i, j :: 0 <= i < j < |a| ==> a[i].0 < a[j].0
    requires forall i, j :: 0 <= i < j < |b| ==> b[i].0 < b[j].0
    requires multiset(a) == multiset(b)
    ensures a == b
  {
    if a == [] || b == [] {
      assert |a| == |multiset(a)| == |multiset(b)| == |b|;
    } else {
      assert a[0] in multiset(b) && b[0] in multiset(a);
      var j :| 0 <= j < |b| && b[j] == a[0];
      var i :| 0 <= i < |a| && a[i] == b[0];
      assert i == 0 && j == 0;
      SameTails(a, b);
      StrictListsEqual(a[1..], b[1..]);
      assert a == [a[0]] + a[1..] && b == [b[0]] + b[1..];
    }
  }

  /** Lists with the same elements and the same head have tails with the same elements. */
  lemma SameTails<T>(a: seq<T>, b: seq<T>)
    requires a != [] && b != [] && a[0] == b[0] && multiset(a) == multiset(b)
    ensures multiset(a[1..]) == multiset(b[1..])
  {
    assert a == [a[0]] + a[1..] && b == [b[0]] + b[1..];
    assert multiset(a) == multiset{a[0]} + multiset(a[1..]);
    assert multiset(b) == multiset{b[0]} + multiset(b[1..]);
    assert multiset(a[1..]) == multiset(a) - multiset{a[0]};
    assert multiset(b[1..]) == multiset(b) - multiset{b[0]};
  }

  /** Key lists of two maps with the same pairs are equal, whatever order the maps list them in. */
  lemma ListsAgree(l1: seq<(nat, nat)>, m1: SlotMap<Handle>, l2: seq<(nat, nat)>, m2: SlotMap<Handle>)
    requires Lists(l1, m1) && Lists(l2, m2) && UniqueSlots(m1) && UniqueSlots(m2)
    requires multiset(Indices(m1)) == multiset(Indices(m2))
    ensures l1 == l2
  {
    StrictFromUnique(l1, m1);
    StrictFromUnique(l2, m2);
    StrictListsEqual(l1, l2);
  }

  /**
   * The key does not depend on the order the maps are iterated in: two descs
   * get the same key exactly when they name the same shader index and the
   * same (slot, handle index) pairs.
   */
  lemma SameKeyIffSamePairs(k1: MaterialKey, d1: MaterialDesc, k2: MaterialKey, d2: MaterialDesc)
    requires KeyOf(k1, d1) && KeyOf(k2, d2) && DescIsMap(d1) && DescIsMap(d2)
    ensures k1 == k2 <==> SamePairs(d1, d2)
  {
    if SamePairs(d1, d2) {
      ListsAgree(k1.psSrvs, d1.psSRV, k2.psSrvs, d2.psSRV);
      ListsAgree(k1.vsSrvs, d1.vsSRV, k2.vsSrvs, d2.vsSRV);
      ListsAgree(k1.psCbvs, d1.psCBV, k2.psCbvs, d2.psCBV);
      ListsAgree(k1.vsCbvs, d1.vsCBV, k2.vsCbvs, d2.vsCBV);
      ListsAgree(k1.samplers, d1.samplerMap, k2.samplers, d2.samplerMap);
    }
  }

  // ---------------------------------------------------------------------
  // Material data and child references
  // ---------------------------------------------------------------------

  datatype ChildKind = TextureChild | BufferChild | SamplerChild

  /** A child resource a material holds a reference on. */
  datatype Child = Child(kind: ChildKind, handle: Handle)

  /** A Release(handle, frame) sent to a child's manager: the reference is dropped at that frame. */
  datatype Release = Release(child: Child, frame: nat)

  /** What the texture, buffer and sampler managers hold for a handle: the view a material caches. */
  datatype Views = Views(srv: Handle -> nat, buffer: Handle -> nat, state: Handle -> nat)

  /** The shader manager's record of a shader: its template and the bindings reflected from its two stages. */
  datatype ShaderInfo = ShaderInfo(templateID: nat, psBindings: seq<Binding>, vsBindings: seq<Binding>)

  /** MaterialData: the five caches, the children held, and whether the renderer also binds the samplers to the vertex stage. */
  datatype MaterialData = MaterialData(
    templateID: nat, shader: Handle,
    psSRV: Cache<nat>, vsSRV: Cache<nat>, psCBV: Cache<nat>, vsCBV: Cache<nat>, samplerCache: Cache<nat>,
    usedTextures: seq<Handle>, usedCBBuffers: seq<Handle>, usedSamplers: seq<Handle>,
    isBindVSSampler: bool)

  /** The handles of a map, in its order. */
  function Handles(m: SlotMap<Handle>): seq<Handle>
  {
    seq(|m|, i requires 0 <= i < |m| => m[i].1)
  }

  /** The map from slot to view that CreateResource fills from a desc map. */
  function ViewMap(m: SlotMap<Handle>, view: Handle -> nat): SlotMap<nat>
  {
    seq(|m|, i requires 0 <= i < |m| => (m[i].0, view(m[i].1)))
  }

  function Tagged(kind: ChildKind, hs: seq<Handle>): seq<Child>
  {
    seq(|hs|, i requires 0 <= i < |hs| => Child(kind, hs[i]))
  }

  function Releases(cs: seq<Child>, frame: nat): seq<Release>
  {
    seq(|cs|, i requires 0 <= i < |cs| => Release(cs[i], frame))
  }

  lemma TaggedAppend(kind: ChildKind, a: seq<Handle>, b: seq<Handle>)
    ensures Tagged(kind, a + b) == Tagged(kind, a) + Tagged(kind, b)
  {
  }

  lemma ReleasesAppend(a: seq<Child>, b: seq<Child>, frame: nat)
    ensures Releases(a + b, frame) == Releases(a, frame) + Releases(b, frame)
  {
  }

  /** The children a material holds, in the order CreateResource took them. */
  function Children(mat: MaterialData): seq<Child>
  {
    Tagged(TextureChild, mat.usedTextures) + Tagged(BufferChild, mat.usedCBBuffers) +
    Tagged(SamplerChild, mat.usedSamplers)
  }

  /** The AddRef calls CreateResource makes for a desc, in order. */
  function Acquisitions(d: MaterialDesc): seq<Child>
  {
    Tagged(TextureChild, Handles(d.psSRV) + Handles(d.vsSRV)) +
    Tagged(BufferChild, Handles(d.psCBV) + Handles(d.vsCBV)) +
    Tagged(SamplerChild, Handles(d.samplerMap))
  }

  /** CreateResource marks a built cache valid exactly when minSlot is not UINT_MAX. */
  function MarkValid<V>(c: Cache<V>): Cache<V>
  {
    c.(valid := c.minSlot != UintMax)
  }

  /** A cache built without throwing and then marked is one CreateResource may store. */
  lemma MarkValidReady<V>(c: Cache<V>, bs: seq<Binding>, kind: InputType, e: SlotMap<V>)
    requires !Throws(bs, kind, e)
    requires if kind == Texture then BuiltFromBindings(c, bs, kind, e) else BuiltFromMap(c, bs, kind, e)
    ensures Ready(MarkValid(c), bs, kind, e)
  {
    ValidIffBound(c, bs, kind, e);
    assert MarkValid(c).(valid := false) == c;
  }

  /**
   * One cache of CreateResource: built by BuildBindingCacheSRV,
   * BuildBindingCacheCBV or BuildBindingCacheSampler after the input type,
   * then marked valid.
   */
  method BuildReady<V>(bs: seq<Binding>, kind: InputType, e: SlotMap<V>) returns (r: Option<Cache<V>>)
    requires kind != OtherInput
    ensures r.None? <==> Throws(bs, kind, e)
    ensures r.Some? ==> Ready(r.value, bs, kind, e)
  {
    var built;
    match kind {
      case Texture => built := BuildBindingCacheSRV(bs, e);
      case CBuffer => built := BuildBindingCacheCBV(bs, e);
      case Sampler => built := BuildBindingCacheSampler(bs, e);
    }
    if built.None? {
      return None;
    }
    MarkValidReady(built.value, bs, kind, e);
    r := Some(MarkValid(built.value));
  }

  /** Building one of the five caches throws. */
  ghost predicate CreateThrows(d: MaterialDesc, shader: ShaderInfo, views: Views)
  {
    || Throws(shader.psBindings, Texture, ViewMap(d.psSRV, views.srv))
    || Throws(shader.vsBindings, Texture, ViewMap(d.vsSRV, views.srv))
    || Throws(shader.psBindings, CBuffer, ViewMap(d.psCBV, views.buffer))
    || Throws(shader.vsBindings, CBuffer, ViewMap(d.vsCBV, views.buffer))
    || Throws(shader.psBindings, Sampler, ViewMap(d.samplerMap, views.state))
  }

  /**
   * What CreateResource returns: the shader's template, the desc's flag,
   * every child of the desc in the used lists, and the five caches built
   * from the shader's bindings and marked valid (the sampler cache from the
   * pixel stage's bindings only).
   */
  ghost predicate Created(mat: MaterialData, d: MaterialDesc, shader: ShaderInfo, views: Views)
  {
    && mat.templateID == shader.templateID && mat.shader == d.shader
    && mat.isBindVSSampler == d.isBindVSSampler
    && mat.usedTextures == Handles(d.psSRV) + Handles(d.vsSRV)
    && mat.usedCBBuffers == Handles(d.psCBV) + Handles(d.vsCBV)
    && mat.usedSamplers == Handles(d.samplerMap)
    && Ready(mat.psSRV, shader.psBindings, Texture, ViewMap(d.psSRV, views.srv))
    && Ready(mat.vsSRV, shader.vsBindings, Texture, ViewMap(d.vsSRV, views.srv))
    && Ready(mat.psCBV, shader.psBindings, CBuffer, ViewMap(d.psCBV, views.buffer))
    && Ready(mat.vsCBV, shader.vsBindings, CBuffer, ViewMap(d.vsCBV, views.buffer))
    && Ready(mat.samplerCache, shader.psBindings, Sampler, ViewMap(d.samplerMap, views.state))
  }

  /** DestroyResource's first step: all five caches invalid, so binding the material writes no slot. */
  function Invalidated(mat: MaterialData): (r: MaterialData)
    ensures Writes(r.psSRV) == map[] && Writes(r.vsSRV) == map[] && Writes(r.psCBV) == map[]
    ensures Writes(r.vsCBV) == map[] && Writes(r.samplerCache) == map[]
    ensures Children(r) == Children(mat)
  {
    mat.(psSRV := mat.psSRV.(valid := false), vsSRV := mat.vsSRV.(valid := false),
         psCBV := mat.psCBV.(valid := false), vsCBV := mat.vsCBV.(valid := false),
         samplerCache := mat.samplerCache.(valid := false))
  }

  /**
   * Destroying a created material releases exactly the children its creation
   * acquired, in the same order, all at one frame.
   */
  lemma ReleasesMatchAcquisitions(mat: MaterialData, d: MaterialDesc, shader: ShaderInfo, views: Views, frame: nat)
    requires Created(mat, d, shader, views)
    ensures |Releases(Children(mat), frame)| == |Acquisitions(d)|
    ensures forall i :: 0 <= i < |Acquisitions(d)| ==>
              Releases(Children(mat), frame)[i] == Release(Acquisitions(d)[i], frame)
  {
    assert Children(mat) == Acquisitions(d);
  }

  /** Emplace into a map: no effect when the key is present. */
  function Emplace<K, V>(m: map<K, V>, k: K, v: V): map<K, V>
  {
    if k in m then m else m[k := v]
  }

  // ---------------------------------------------------------------------
  // The manager
  // ---------------------------------------------------------------------

  /**
   * MaterialManager: the material data by slot, the two key caches, and the
   * AddRef and deferred Release calls made on children.
   */
  class Manager {
    /** The data of the base class's slots, by slot index. */
    var slots: seq<MaterialData>
    /** matCache: the handle registered for each key. */
    var matCache: map<MaterialKey, Handle>
    /** handleToKey: the key registered for each slot index. */
    var handleToKey: map<nat, MaterialKey>
    /** The AddRef calls made on children, in order. */
    var acquired: seq<Child>
    /** The deferred Release calls made on children, in order. */
    var released: seq<Release>
    /** RENDER_BUFFER_COUNT: the frames in flight, by which child releases are deferred. */
    const renderBufferCount: nat

    /** The two key caches are inverse: each registered key names the slot it is registered for. */
    ghost predicate Valid()
      reads this
    {
      && (forall i :: i in handleToKey ==> handleToKey[i] in matCache && matCache[handleToKey[i]].index == i)
      && (forall k :: k in matCache ==> matCache[k].index in handleToKey && handleToKey[matCache[k].index] == k)
    }

    constructor(renderBufferCount: nat)
      ensures Valid() && this.renderBufferCount == renderBufferCount
      ensures slots == [] && matCache == map[] && handleToKey == map[] && acquired == [] && released == []
    {
      this.renderBufferCount := renderBufferCount;
      slots, matCache, handleToKey, acquired, released := [], map[], map[], [], [];
    }

    /** FindExisting: the handle registered under the desc's key, whatever order its maps list their entries in. */
    method FindExisting(d: MaterialDesc) returns (h: Option<Handle>)
      requires DescIsMap(d)
      ensures forall k :: KeyOf(k, d) ==> h == (if k in matCache then Some(matCache[k]) else None)
    {
      var key := MakeKey(d);
      h := if key in matCache then Some(matCache[key]) else None;
      forall k | KeyOf(k, d)
        ensures k == key
      {
        SameKeyIffSamePairs(k, d, key, d);
      }
    }

    /**
     * RegisterKey: emplaces key to handle and slot index to key; an entry
     * already present is kept. Registering a fresh key for a fresh slot keeps
     * the caches inverse.
     */
    method RegisterKey(d: MaterialDesc, h: Handle)
      modifies this
      ensures exists k :: KeyOf(k, d) &&
                matCache == Emplace(old(matCache), k, h) && handleToKey == Emplace(old(handleToKey), h.index, k)
      ensures slots == old(slots) && acquired == old(acquired) && released == old(released)
      ensures old(Valid()) && h.index !in old(handleToKey) && (forall k :: KeyOf(k, d) ==> k !in old(matCache))
              ==> Valid()
    {
      var key := MakeKey(d);
      matCache := Emplace(matCache, key, h);
      handleToKey := Emplace(handleToKey, h.index, key);
    }

    /** RemoveFromCaches: drops the slot's key from both caches, if it has one. */
    method RemoveFromCaches(idx: nat)
      modifies this
      ensures idx in old(handleToKey) ==>
                matCache == old(matCache) - {old(handleToKey)[idx]} && handleToKey == old(handleToKey) - {idx}
      ensures idx !in old(handleToKey) ==> matCache == old(matCache) && handleToKey == old(handleToKey)
      ensures slots == old(slots) && acquired == old(acquired) && released == old(released)
      ensures old(Valid()) ==> Valid() && forall k :: k in matCache ==> matCache[k].index != idx
    {
      if idx in handleToKey {
        matCache := matCache - {handleToKey[idx]};
        handleToKey := handleToKey - {idx};
      }
    }

    /** ResourceManagerBase::Add keeps what CreateResource returned in slot idx: a reused free slot, or a new one at the end. */
    method Store(idx: nat, mat: MaterialData)
      requires idx <= |slots|
      modifies this
      ensures slots == if idx == |old(slots)| then old(slots) + [mat] else old(slots)[idx := mat]
      ensures matCache == old(matCache) && handleToKey == old(handleToKey)
      ensures acquired == old(acquired) && released == old(released)
    {
      slots := if idx == |slots| then slots + [mat] else slots[idx := mat];
    }

    /** One loop of CreateResource: each entry's view goes in the map and its handle in the used list, and its child gets an AddRef. */
    method AcquireViews(m: SlotMap<Handle>, kind: ChildKind, view: Handle -> nat) returns (e: SlotMap<nat>, used: seq<Handle>)
      modifies this
      ensures e == ViewMap(m, view) && used == Handles(m)
      ensures acquired == old(acquired) + Tagged(kind, Handles(m))
      ensures slots == old(slots) && matCache == old(matCache) && handleToKey == old(handleToKey)
      ensures released == old(released)
    {
      e, used := [], [];
      var k := 0;
      while k < |m|
        invariant 0 <= k <= |m|
        invariant e == ViewMap(m[..k], view) && used == Handles(m[..k])
        invariant acquired == old(acquired) + Tagged(kind, Handles(m[..k]))
        invariant slots == old(slots) && matCache == old(matCache) && handleToKey == old(handleToKey)
        invariant released == old(released)
      {
        e := e + [(m[k].0, view(m[k].1))];
        used := used + [m[k].1];
        acquired := acquired + [Child(kind, m[k].1)];
        k := k + 1;
      }
      assert m[..k] == m;
    }

    /** The five loops of CreateResource, in order: the view maps, the used lists and the AddRef calls. */
    method AcquireAll(d: MaterialDesc, views: Views)
      returns (psSrvMap: SlotMap<nat>, vsSrvMap: SlotMap<nat>, psCbvMap: SlotMap<nat>, vsCbvMap: SlotMap<nat>,
               samplerMap: SlotMap<nat>, textures: seq<Handle>, buffers: seq<Handle>, samplers: seq<Handle>)
      modifies this
      ensures psSrvMap == ViewMap(d.psSRV, views.srv) && vsSrvMap == ViewMap(d.vsSRV, views.srv)
      ensures psCbvMap == ViewMap(d.psCBV, views.buffer) && vsCbvMap == ViewMap(d.vsCBV, views.buffer)
      ensures samplerMap == ViewMap(d.samplerMap, views.state)
      ensures textures == Handles(d.psSRV) + Handles(d.vsSRV) && buffers == Handles(d.psCBV) + Handles(d.vsCBV)
      ensures samplers == Handles(d.samplerMap)
      ensures acquired == old(acquired) + Acquisitions(d)
      ensures slots == old(slots) && matCache == old(matCache) && handleToKey == old(handleToKey)
      ensures released == old(released)
    {
      var psTex, vsTex, psCb, vsCb;
      psSrvMap, psTex := AcquireViews(d.psSRV, TextureChild, views.srv);
      vsSrvMap, vsTex := AcquireViews(d.vsSRV, TextureChild, views.srv);
      psCbvMap, psCb := AcquireViews(d.psCBV, BufferChild, views.buffer);
      vsCbvMap, vsCb := AcquireViews(d.vsCBV, BufferChild, views.buffer);
      samplerMap, samplers := AcquireViews(d.samplerMap, SamplerChild, views.state);
      textures, buffers := psTex + vsTex, psCb + vsCb;
      TaggedAppend(TextureChild, psTex, vsTex);
      TaggedAppend(BufferChild, psCb, vsCb);
      ghost var T, B, S := Tagged(TextureChild, textures), Tagged(BufferChild, buffers), Tagged(SamplerChild, samplers);
      assert acquired == old(acquired) + Tagged(TextureChild, psTex) + Tagged(TextureChild, vsTex)
                         + Tagged(BufferChild, psCb) + Tagged(BufferChild, vsCb) + S;
      assert acquired == old(acquired) + (T + B + S);
    }

    /**
     * CreateResource: AddRef on every child, then the five caches; an
     * exception from a cache build escapes after the AddRefs were made.
     */
    method CreateResource(d: MaterialDesc, shader: ShaderInfo, views: Views) returns (mat: Option<MaterialData>)
      modifies this
      ensures acquired == old(acquired) + Acquisitions(d)
      ensures slots == old(slots) && matCache == old(matCache) && handleToKey == old(handleToKey)
      ensures released == old(released)
      ensures mat.None? <==> CreateThrows(d, shader, views)
      ensures mat.Some? ==> Created(mat.value, d, shader, views)
    {
      var psSrvMap, vsSrvMap, psCbvMap, vsCbvMap, samplerMap, textures, buffers, samplers := AcquireAll(d, views);
      var psSRV := BuildReady(shader.psBindings, Texture, psSrvMap);
      if psSRV.None? { return None; }
      var vsSRV := BuildReady(shader.vsBindings, Texture, vsSrvMap);
      if vsSRV.None? { return None; }
      var psCBV := BuildReady(shader.psBindings, CBuffer, psCbvMap);
      if psCBV.None? { return None; }
      var vsCBV := BuildReady(shader.vsBindings, CBuffer, vsCbvMap);
      if vsCBV.None? { return None; }
      var samplerCache := BuildReady(shader.psBindings, Sampler, samplerMap);
      if samplerCache.None? { return None; }
      mat := Some(MaterialData(
        shader.templateID, d.shader,
        psSRV.value, vsSRV.value, psCBV.value, vsCBV.value, samplerCache.value,
        textures, buffers, samplers, d.isBindVSSampler));
    }

    /** One loop of DestroyResource: a deferred Release for each handle. */
    method ReleaseAll(kind: ChildKind, hs: seq<Handle>, frame: nat)
      modifies this
      ensures released == old(released) + Releases(Tagged(kind, hs), frame)
      ensures slots == old(slots) && matCache == old(matCache) && handleToKey == old(handleToKey)
      ensures acquired == old(acquired)
    {
      var k := 0;
      while k < |hs|
        invariant 0 <= k <= |hs|
        invariant released == old(released) + Releases(Tagged(kind, hs[..k]), frame)
        invariant slots == old(slots) && matCache == old(matCache) && handleToKey == old(handleToKey)
        invariant acquired == old(acquired)
      {
        released := released + [Release(Child(kind, hs[k]), frame)];
        k := k + 1;
      }
      assert hs[..k] == hs;
    }

    /**
     * DestroyResource: invalidates the slot's five caches and releases every
     * child it holds at currentFrame + RENDER_BUFFER_COUNT (a uint64_t sum).
     */
    method DestroyResource(idx: nat, currentFrame: nat)
      requires idx < |slots| && currentFrame < FrameModulus
      modifies this
      ensures slots == old(slots)[idx := Invalidated(old(slots)[idx])]
      ensures released == old(released) +
                Releases(Children(old(slots)[idx]), (currentFrame + renderBufferCount) % FrameModulus)
      ensures matCache == old(matCache) && handleToKey == old(handleToKey) && acquired == old(acquired)
    {
      var m := slots[idx];
      slots := slots[idx := Invalidated(m)];
      var del := (currentFrame + renderBufferCount) % FrameModulus;
      ReleaseAll(TextureChild, m.usedTextures, del);
      ReleaseAll(BufferChild, m.usedCBBuffers, del);
      ReleaseAll(SamplerChild, m.usedSamplers, del);
      ReleasesAppend(Tagged(TextureChild, m.usedTextures), Tagged(BufferChild, m.usedCBBuffers), del);
      ReleasesAppend(Tagged(TextureChild, m.usedTextures) + Tagged(BufferChild, m.usedCBBuffers),
                     Tagged(SamplerChild, m.usedSamplers), del);
    }
  }
}
