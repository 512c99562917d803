/**
 * Chunk crossing and deferred entity moves (SectorFW/inc/SectorFW/Core/ChunkCrossingMove.hpp).
 *
 * An entity remembers the spatial chunk it lives in through a ChunkHandle:
 * the chunk's key is the source of truth and a cached chunk pointer may
 * speed up the lookup. MoveIfCrossed notices that an entity has entered a
 * new chunk and asks for the entity to be moved between the chunks' entity
 * managers, at once or through a BudgetMover queue that is flushed a
 * bounded number of moves per frame.
 *
 * The spatial partition, the chunk registry and the entity managers are
 * foreign here: a chunk is a value carrying its identity, its key and the
 * identity of its entity manager; the registry is a map from key to owning
 * chunk; partition.GetChunk's answer is an input; a move between entity
 * managers is emitted as a Relocation record, and whether the destination
 * manager accepted an entity is an input of Flush.
 */
module ChunkCrossingMove {
  import opened Wrappers

  /** SpatialChunkKey: the node code, the level, and the remaining fields as one value. */
  datatype ChunkKey = ChunkKey(code: nat, level: nat, rest: nat)

  /** A spatial chunk: its identity (the pointer), its node key and its entity manager. */
  datatype Chunk = Chunk(ident: nat, key: ChunkKey, em: nat)

  /** SpatialChunkRegistry: the chunk that owns a key, when there is one. */
  type Registry = map<ChunkKey, Chunk>

  function ResolveOwner(reg: Registry, key: ChunkKey): Option<Chunk>
  {
    if key in reg then Some(reg[key]) else None
  }

  function ResolveOwnerEM(reg: Registry, key: ChunkKey): Option<nat>
  {
    if key in reg then Some(reg[key].em) else None
  }

  /** One call of RelocateEntityBetweenManagers that reaches the entity managers. */
  datatype Relocation = Relocation(id: nat, srcEM: nat, dstEM: nat)

  /** RelocateEntityBetweenManagers: nothing happens when source and destination are one manager. */
  function Relocate(id: nat, srcEM: nat, dstEM: nat): (r: Option<Relocation>)
    ensures r.Some? <==> srcEM != dstEM
    ensures r.Some? ==> r.value == Relocation(id, srcEM, dstEM)
  {
    if srcEM == dstEM then None else Some(Relocation(id, srcEM, dstEM))
  }

  /** Two keys name the same node for MoveIfCrossed's non-stable partitions: same code and same level. */
  predicate SameNode(a: ChunkKey, b: ChunkKey)
  {
    a.code == b.code && a.level == b.level
  }

  class ChunkHandle {
    var key: ChunkKey
    var cached: Option<Chunk>

    /** is_valid: a non-zero key code or a cached chunk. */
    function IsValid(): bool
      reads this
    {
      key.code != 0 || cached.Some?
    }

    /** The cached chunk, when there is one, is the node the key names. */
    ghost predicate Consistent()
      reads this
    {
      cached.Some? ==> SameNode(cached.value.key, key)
    }

    constructor()
      ensures key == ChunkKey(0, 0, 0) && cached == None && !IsValid()
    {
      key := ChunkKey(0, 0, 0);
      cached := None;
    }
  }

  /** ResolveChunk: the null key code clears the cache; otherwise the registry's owner becomes the cached chunk. */
  method ResolveChunk(h: ChunkHandle, reg: Registry) returns (sc: Option<Chunk>)
    modifies h`cached
    ensures h.key.code == 0 ==> sc == None
    ensures h.key.code != 0 ==> sc == ResolveOwner(reg, h.key)
    ensures h.cached == sc
  {
    if h.key.code == 0 {
      h.cached := None;
      return None;
    }
    sc := ResolveOwner(reg, h.key);
    h.cached := sc;
  }

  /**
   * MoveIfCrossed, given partition.GetChunk's answer `dstOpt`. With stable
   * chunk pointers the cached pointer decides whether the entity crossed;
   * otherwise the key's code and level do. On a crossing the handle moves
   * to the destination chunk and the entity is relocated when both managers
   * are known and differ. The source's non-stable branch assigns
   * `reg.ResolveOwner` (which ResolveChunk uses as a chunk lookup) to an
   * entity-manager pointer; the model reads it as ResolveOwnerEM, the
   * manager lookup Flush uses.
   */
  method MoveIfCrossed(id: nat, dstOpt: Option<Chunk>, stablePtr: bool, reg: Registry, h: ChunkHandle)
    returns (crossed: bool, relocation: Option<Relocation>)
    requires h.Consistent()
    modifies h
    ensures h.Consistent()
    ensures dstOpt.None? ==> !crossed && h.key == old(h.key) && h.cached == old(h.cached)
    ensures dstOpt.Some? ==> h.cached == dstOpt
    ensures crossed ==> dstOpt.Some? && h.key == dstOpt.value.key && h.cached == dstOpt
    ensures !crossed ==> h.key == old(h.key) && relocation == None
    ensures dstOpt.Some? && !stablePtr ==> (crossed <==> !SameNode(dstOpt.value.key, old(h.key)))
    ensures dstOpt.Some? && stablePtr ==> (crossed <==> old(h.cached) != dstOpt)
    ensures relocation.Some? ==> relocation.value.id == id && relocation.value.srcEM != relocation.value.dstEM
    ensures relocation.Some? && stablePtr ==>
              old(h.cached).Some? && relocation.value.srcEM == old(h.cached).value.em && relocation.value.dstEM == dstOpt.value.em
    ensures relocation.Some? && !stablePtr ==>
              ResolveOwnerEM(reg, old(h.key)) == Some(relocation.value.srcEM)
              && ResolveOwnerEM(reg, dstOpt.value.key) == Some(relocation.value.dstEM)
    ensures crossed && relocation.None? && stablePtr ==> old(h.cached).None? || old(h.cached).value.em == dstOpt.value.em
    ensures crossed && relocation.None? && !stablePtr ==>
              ResolveOwnerEM(reg, old(h.key)).None? || ResolveOwnerEM(reg, dstOpt.value.key).None?
              || ResolveOwnerEM(reg, old(h.key)) == ResolveOwnerEM(reg, dstOpt.value.key)
  {
    relocation := None;
    if dstOpt.None? {
      return false, None;
    }
    var dst := dstOpt.value;
    if stablePtr {
      if Some(dst) == h.cached {
        return false, None;
      }
      if h.cached.Some? {
        relocation := Relocate(id, h.cached.value.em, dst.em);
      }
      h.cached := Some(dst);
      h.key := dst.key;
      return true, relocation;
    }
    var dstKey := dst.key;
    if SameNode(dstKey, h.key) {
      h.cached := Some(dst);
      return false, None;
    }
    var srcEM := ResolveOwnerEM(reg, h.key);
    var dstEM := ResolveOwnerEM(reg, dstKey);
    if srcEM.Some? && dstEM.Some? && srcEM != dstEM {
      relocation := Relocate(id, srcEM.value, dstEM.value);
    }
    h.key := dstKey;
    h.cached := Some(dst);
    crossed := true;
  }

  // ---------------------------------------------------------------------
  // The budgeted move queue

  datatype PendingMove = PendingMove(id: nat, srcKey: ChunkKey, dstKey: ChunkKey)

  /** The moves of a batch whose managers both resolve and differ, with those managers. */
  function Routable(reg: Registry, moves: seq<PendingMove>): (r: seq<Relocation>)
    ensures |r| <= |moves|
    ensures forall k :: 0 <= k < |r| ==> r[k].srcEM != r[k].dstEM
    decreases |moves|
  {
    if moves == [] then []
    else
      var rest := Routable(reg, moves[1..]);
      var m := moves[0];
      var s := ResolveOwnerEM(reg, m.srcKey);
      var d := ResolveOwnerEM(reg, m.dstKey);
      if s.None? || d.None? || s.value == d.value then rest
      else [Relocation(m.id, s.value, d.value)] + rest
  }

  /** One bucket of Flush: the entities that go from one manager to another, in queue order. */
  datatype Bucket = Bucket(srcEM: nat, dstEM: nat, ids: seq<nat>)

  /** buckets[{src, dst}].push_back(id); the map's iteration order is modelled as first appearance. */
  function AddToBuckets(buckets: seq<Bucket>, r: Relocation): (b: seq<Bucket>)
    decreases |buckets|
  {
    if buckets == [] then [Bucket(r.srcEM, r.dstEM, [r.id])]
    else if buckets[0].srcEM == r.srcEM && buckets[0].dstEM == r.dstEM then
      [buckets[0].(ids := buckets[0].ids + [r.id])] + buckets[1..]
    else
      [buckets[0]] + AddToBuckets(buckets[1..], r)
  }

  /** The number of entity ids held by the buckets. */
  function TotalIds(buckets: seq<Bucket>): nat
    decreases |buckets|
  {
    if buckets == [] then 0 else |buckets[0].ids| + TotalIds(buckets[1..])
  }

  /** Adding a move to the buckets adds exactly one id. */
  lemma {:induction false} AddToBucketsGrows(buckets: seq<Bucket>, r: Relocation)
    ensures TotalIds(AddToBuckets(buckets, r)) == TotalIds(buckets) + 1
    decreases |buckets|
  {
    if buckets != [] {
      var b := AddToBuckets(buckets, r);
      if buckets[0].srcEM == r.srcEM && buckets[0].dstEM == r.dstEM {
        assert b[1..] == buckets[1..];
      } else {
        AddToBucketsGrows(buckets[1..], r);
        assert b[1..] == AddToBuckets(buckets[1..], r);
      }
    }
  }

  /** The (source, destination) pairs that have a bucket. */
  function Pairs(buckets: seq<Bucket>): set<(nat, nat)>
    decreases |buckets|
  {
    if buckets == [] then {} else {(buckets[0].srcEM, buckets[0].dstEM)} + Pairs(buckets[1..])
  }

  /** Within the buckets, a (source, destination) pair appears at most once. */
  ghost predicate DistinctPairs(buckets: seq<Bucket>)
    decreases |buckets|
  {
    buckets != [] ==>
      (buckets[0].srcEM, buckets[0].dstEM) !in Pairs(buckets[1..]) && DistinctPairs(buckets[1..])
  }

  /** Adding a move creates a bucket for its pair only when there was none, so pairs stay distinct. */
  lemma {:induction false} AddToBucketsDistinct(buckets: seq<Bucket>, r: Relocation)
    requires DistinctPairs(buckets)
    ensures Pairs(AddToBuckets(buckets, r)) == Pairs(buckets) + {(r.srcEM, r.dstEM)}
    ensures DistinctPairs(AddToBuckets(buckets, r))
    decreases |buckets|
  {
    if buckets != [] {
      var b := AddToBuckets(buckets, r);
      if buckets[0].srcEM == r.srcEM && buckets[0].dstEM == r.dstEM {
        assert b[1..] == buckets[1..];
      } else {
        AddToBucketsDistinct(buckets[1..], r);
        assert b[1..] == AddToBuckets(buckets[1..], r);
      }
    }
  }

  /** The buckets Flush builds from a batch of routable moves, in batch order. */
  function Bucketize(moves: seq<Relocation>): seq<Bucket>
    decreases |moves|
  {
    if moves == [] then [] else AddToBuckets(Bucketize(moves[..|moves| - 1]), moves[|moves| - 1])
  }

  /** Every routable move lands in exactly one bucket: the buckets hold as many ids as there are moves, under distinct pairs. */
  lemma {:induction false} BucketizeCounts(moves: seq<Relocation>)
    ensures TotalIds(Bucketize(moves)) == |moves|
    ensures DistinctPairs(Bucketize(moves))
    decreases |moves|
  {
    if moves != [] {
      var n := |moves| - 1;
      BucketizeCounts(moves[..n]);
      AddToBucketsGrows(Bucketize(moves[..n]), moves[n]);
      AddToBucketsDistinct(Bucketize(moves[..n]), moves[n]);
    }
  }

  /** How many of the ids of a bucket the destination manager accepted. */
  function CountInserted(b: Bucket, inserted: Relocation -> bool): (n: nat)
    ensures n <= |b.ids|
    decreases |b.ids|
  {
    if b.ids == [] then 0
    else
      var last := b.ids[|b.ids| - 1];
      CountInserted(b.(ids := b.ids[..|b.ids| - 1]), inserted)
        + (if inserted(Relocation(last, b.srcEM, b.dstEM)) then 1 else 0)
  }

  /** The moves Flush counts over all buckets. */
  function CountAllInserted(buckets: seq<Bucket>, inserted: Relocation -> bool): (n: nat)
    ensures n <= TotalIds(buckets)
    decreases |buckets|
  {
    if buckets == [] then 0 else CountInserted(buckets[0], inserted) + CountAllInserted(buckets[1..], inserted)
  }

  function Min(a: nat, b: nat): nat
  {
    if a <= b then a else b
  }

  class BudgetMover {
    var queue: seq<PendingMove>
    var temp: seq<PendingMove>

    constructor()
      ensures queue == [] && temp == []
    {
      queue := [];
      temp := [];
    }

    /** Enqueue: a move between equal keys is dropped; any other goes to the end of the queue. */
    method Enqueue(id: nat, src: ChunkKey, dst: ChunkKey)
      modifies this`queue
      ensures queue == old(queue) + (if src == dst then [] else [PendingMove(id, src, dst)])
    {
      if src == dst {
        return;
      }
      queue := queue + [PendingMove(id, src, dst)];
    }

    /** EnqueueBulk: all the moves, in order, at the end of the queue. */
    method EnqueueBulk(moves: seq<PendingMove>)
      modifies this`queue
      ensures queue == old(queue) + moves
    {
      queue := queue + moves;
    }

    /** The first loop of Flush: group the taken moves by (source manager, destination manager). */
    method GroupMoves(reg: Registry, taken: seq<PendingMove>) returns (buckets: seq<Bucket>)
      ensures buckets == Bucketize(Routable(reg, taken))
    {
      buckets := [];
      var i := 0;
      while i < |taken|
        invariant 0 <= i <= |taken|
        invariant buckets == Bucketize(RoutableRev(reg, taken[..i]))
      {
        var pm := taken[i];
        var srcEM := ResolveOwnerEM(reg, pm.srcKey);
        var dstEM := ResolveOwnerEM(reg, pm.dstKey);
        RoutableRevSnoc(reg, taken[..i], pm);
        assert taken[..i + 1] == taken[..i] + [pm];
        if srcEM.Some? && dstEM.Some? && srcEM.value != dstEM.value {
          var r := Relocation(pm.id, srcEM.value, dstEM.value);
          assert RoutableRev(reg, taken[..i + 1]) == RoutableRev(reg, taken[..i]) + [r];
          assert RoutableRev(reg, taken[..i + 1])[..|RoutableRev(reg, taken[..i + 1])| - 1] == RoutableRev(reg, taken[..i]);
          buckets := AddToBuckets(buckets, r);
        }
        i := i + 1;
      }
      assert taken[..i] == taken;
      RoutableRevIsRoutable(reg, taken);
    }

    /** The second loop of Flush: try every id of every bucket and count those the destination accepted. */
    method MoveBuckets(buckets: seq<Bucket>, inserted: Relocation -> bool) returns (moved: nat)
      ensures moved == CountAllInserted(buckets, inserted)
    {
      moved := 0;
      var k := |buckets|;
      while k > 0
        invariant 0 <= k <= |buckets|
        invariant moved == CountAllInserted(buckets[k..], inserted)
      {
        k := k - 1;
        var b := buckets[k];
        var n := 0;
        var j := 0;
        while j < |b.ids|
          invariant 0 <= j <= |b.ids|
          invariant n == CountInserted(b.(ids := b.ids[..j]), inserted)
        {
          assert b.(ids := b.ids[..j + 1]).(ids := b.ids[..j + 1][..j]) == b.(ids := b.ids[..j]);
          if inserted(Relocation(b.ids[j], b.srcEM, b.dstEM)) {
            n := n + 1;
          }
          j := j + 1;
        }
        assert b.(ids := b.ids[..j]) == b;
        assert buckets[k..][1..] == buckets[k + 1..];
        moved := moved + n;
      }
    }

    /**
     * Flush: budget 0 does nothing. Otherwise the first min(size, budget)
     * moves leave the queue, the rest stay in order, and the moves whose
     * managers resolve and differ are tried, bucket by bucket; the result
     * counts the entities the destination managers accepted.
     */
    method Flush(reg: Registry, budget: nat, inserted: Relocation -> bool) returns (moved: nat)
      modifies this
      ensures budget == 0 ==> moved == 0 && queue == old(queue)
      ensures budget > 0 ==> queue == old(queue)[Min(|old(queue)|, budget)..]
      ensures budget > 0 ==> moved == CountAllInserted(Bucketize(Routable(reg, old(queue)[..Min(|old(queue)|, budget)])), inserted)
      ensures moved <= Min(|old(queue)|, budget)
      ensures temp == [] || budget == 0
    {
      if budget == 0 {
        return 0;
      }
      temp := [];
      if queue == [] {
        return 0;
      }
      var n := Min(|queue|, budget);
      temp := queue[..n];
      queue := queue[n..];
      var buckets := GroupMoves(reg, temp);
      BucketizeCounts(Routable(reg, temp));
      moved := MoveBuckets(buckets, inserted);
      temp := [];
    }

    /** Clear: both queues emptied. */
    method Clear()
      modifies this
      ensures queue == [] && temp == []
    {
      queue := [];
      temp := [];
    }

    function Size(): (n: nat)
      reads this
      ensures n == |queue|
    {
      |queue|
    }
  }

  /** Routable written from the back, which is how Flush's loop meets the moves. */
  function RoutableRev(reg: Registry, moves: seq<PendingMove>): seq<Relocation>
    decreases |moves|
  {
    if moves == [] then []
    else
      var n := |moves| - 1;
      var m := moves[n];
      var s := ResolveOwnerEM(reg, m.srcKey);
      var d := ResolveOwnerEM(reg, m.dstKey);
      if s.None? || d.None? || s.value == d.value then RoutableRev(reg, moves[..n])
      else RoutableRev(reg, moves[..n]) + [Relocation(m.id, s.value, d.value)]
  }

  lemma RoutableRevSnoc(reg: Registry, moves: seq<PendingMove>, m: PendingMove)
    ensures var s := ResolveOwnerEM(reg, m.srcKey);
      var d := ResolveOwnerEM(reg, m.dstKey);
      RoutableRev(reg, moves + [m]) ==
        if s.None? || d.None? || s.value == d.value then RoutableRev(reg, moves)
        else RoutableRev(reg, moves) + [Relocation(m.id, s.value, d.value)]
  {
    assert (moves + [m])[..|moves|] == moves;
  }

  lemma {:induction false} RoutableRevIsRoutable(reg: Registry, moves: seq<PendingMove>)
    ensures RoutableRev(reg, moves) == Routable(reg, moves)
    decreases |moves|
  {
    if moves != [] {
      var n := |moves| - 1;
      if n == 0 {
        assert moves[..n] == [];
        assert moves[1..] == [];
      } else {
        RoutableRevIsRoutable(reg, moves[..n]);
        RoutableRevIsRoutable(reg, moves[1..]);
        RoutableRevIsRoutable(reg, moves[1..][..n - 1]);
        assert moves[1..][..n - 1] == moves[..n][1..];
        RoutableRevIsRoutable(reg, moves[..n][1..]);
        assert moves[1..][n - 1] == moves[n];
        assert moves[..n][0] == moves[0];
      }
    }
  }

  // ---------------------------------------------------------------------
  // LocalBatch

  class LocalBatch {
    var owner: BudgetMover?
    var buf: seq<PendingMove>

    /** The batch belongs to `owner`; reserve_n only sizes the buffer. */
    constructor(owner: BudgetMover)
      ensures this.owner == owner && buf == []
    {
      this.owner := owner;
      buf := [];
    }

    /** Add: a move between equal keys is dropped. */
    method Add(id: nat, src: ChunkKey, dst: ChunkKey)
      modifies this`buf
      ensures buf == old(buf) + (if src == dst then [] else [PendingMove(id, src, dst)])
    {
      if src == dst {
        return;
      }
      buf := buf + [PendingMove(id, src, dst)];
    }

    /** AddRange: the moves as given, without the equal-key check. */
    method AddRange(moves: seq<PendingMove>)
      modifies this`buf
      ensures buf == old(buf) + moves
    {
      buf := buf + moves;
    }

    /** Flush (and FlushNoThrow): with an owner and a non-empty buffer, the buffer goes to the owner's queue in one piece. */
    method Flush()
      modifies this`buf, owner
      ensures owner == old(owner)
      ensures owner != null ==> owner.temp == old(owner.temp)
      ensures old(buf) == [] || owner == null ==> buf == old(buf) && (owner != null ==> owner.queue == old(owner.queue))
      ensures old(buf) != [] && owner != null ==> buf == [] && owner.queue == old(owner.queue) + old(buf)
    {
      if buf == [] || owner == null {
        return;
      }
      owner.EnqueueBulk(buf);
      buf := [];
    }

    method ClearKeepCapacity()
      modifies this`buf
      ensures buf == []
    {
      buf := [];
    }

    /** Cancel: the batch forgets its owner and its moves, so nothing will be flushed. */
    method Cancel()
      modifies this
      ensures owner == null && buf == []
    {
      owner := null;
      buf := [];
    }

    function Size(): (n: nat)
      reads this
      ensures n == |buf|
    {
      |buf|
    }
  }

  /**
   * MoveIfCrossed_Deferred: the crossing logic of MoveIfCrossed, but the
   * move is added to the batch as (old key, new key) instead of performed;
   * with stable pointers only when a chunk was cached, otherwise only when
   * the old key code is not 0.
   */
  method MoveIfCrossedDeferred(id: nat, dstOpt: Option<Chunk>, stablePtr: bool, h: ChunkHandle, batch: LocalBatch)
    returns (crossed: bool)
    requires h.Consistent()
    modifies h, batch`buf
    ensures h.Consistent()
    ensures dstOpt.None? ==> !crossed && h.key == old(h.key) && h.cached == old(h.cached)
    ensures dstOpt.Some? ==> h.cached == dstOpt
    ensures crossed ==> dstOpt.Some? && h.key == dstOpt.value.key && h.cached == dstOpt
    ensures !crossed ==> h.key == old(h.key) && batch.buf == old(batch.buf)
    ensures dstOpt.Some? && !stablePtr ==> (crossed <==> !SameNode(dstOpt.value.key, old(h.key)))
    ensures dstOpt.Some? && stablePtr ==> (crossed <==> old(h.cached) != dstOpt)
    ensures crossed ==>
              var queued := if stablePtr then old(h.cached).Some? else old(h.key).code != 0;
              batch.buf == old(batch.buf)
                + (if queued && old(h.key) != dstOpt.value.key then [PendingMove(id, old(h.key), dstOpt.value.key)] else [])
  {
    if dstOpt.None? {
      return false;
    }
    var dst := dstOpt.value;
    if stablePtr {
      if Some(dst) == h.cached {
        return false;
      }
      if h.cached.Some? {
        batch.Add(id, h.key, dst.key);
      }
      h.cached := Some(dst);
      h.key := dst.key;
      return true;
    }
    var dstKey := dst.key;
    if SameNode(dstKey, h.key) {
      h.cached := Some(dst);
      return false;
    }
    if h.key.code != 0 {
      batch.Add(id, h.key, dstKey);
    }
    h.key := dstKey;
    h.cached := Some(dst);
    crossed := true;
  }
}
