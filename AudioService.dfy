/**
 * The bookkeeping of SFW::Audio::AudioService (SectorFW/src/Audio/AudioService.cpp):
 *
 *  - the load cache of the caller thread: a map from cache key ("wav|" or
 *    "stream|" followed by the path) to the handle and its reference count,
 *    and the map back from sound id to cache key;
 *  - the command queue that the audio thread drains in PumpCommands, with
 *    the sound table it keeps there;
 *  - the ticket table: 2^16 slots of (generation, voice) that let a caller
 *    find out which voice its Play command produced.
 *
 * SoLoud is a foreign engine: the voice handle it returns for a Play command
 * is an input of PumpCommands, and every other engine call (load, stop,
 * volume, 3D parameters, deinit) is left out. The mutexes and atomics are
 * left out too: the model runs one operation at a time.
 */
module AudioService {
  import opened Wrappers

  /** uint32_t. */
  type u32 = x: int | 0 <= x < 0x1_0000_0000

  /** Unsigned 32-bit addition wraps around. */
  function Wrap32(x: nat): (r: u32)
    ensures x < 0x1_0000_0000 ==> r == x
  {
    x % 0x1_0000_0000
  }

  /** kMaxTickets = 1 << 16. */
  const MaxTickets: nat := 0x1_0000

  /** A sound; the id 0 is the null handle (operator! is true for it). */
  datatype SoundHandle = SoundHandle(id: u32)

  /** A play ticket; generation 0 marks a ticket that was never issued. */
  datatype TicketID = TicketID(index: u32, generation: u32)
  {
    predicate IsValid() { generation != 0 }
  }

  datatype SoundKind = Wav | Stream

  /** The play parameters travel with the command to the engine; the model does not look inside them. */
  datatype PlayParams = PlayParams(loop: bool, is3D: bool, paused: bool, values: seq<real>)

  /** The commands of the queue, with the fields each one uses. */
  datatype Cmd =
    | LoadWav(sound: SoundHandle, path: string)
    | LoadStream(sound: SoundHandle, path: string)
    | Unload(sound: SoundHandle)
    | Play(ticket: TicketID, sound: SoundHandle, params: PlayParams)
    | Stop(voice: u32)
    | SetVolume(voice: u32, value: real)
    | SetPan(voice: u32, value: real)
    | SetPitch(voice: u32, value: real)
    | Set3D(voice: u32, position: seq<real>, velocity: seq<real>)
    | SetListener(values: seq<real>)
    | Shutdown

  /** The load command of a kind of sound. */
  function LoadCmd(kind: SoundKind, h: SoundHandle, path: string): (c: Cmd)
    ensures (c.LoadWav? || c.LoadStream?) && c.sound == h && c.path == path
    ensures c.LoadWav? <==> kind == Wav
  {
    match kind
    case Wav => LoadWav(h, path)
    case Stream => LoadStream(h, path)
  }

  // ---------------------------------------------------------------------
  // The load cache

  /** The cache key: wav and stream loads of one path are cached apart. */
  function CacheKey(kind: SoundKind, path: string): string
  {
    match kind
    case Wav => "wav|" + path
    case Stream => "stream|" + path
  }

  /** Two loads share a cache entry exactly when they are of the same kind and the same path. */
  lemma CacheKeyInjective(k1: SoundKind, p1: string, k2: SoundKind, p2: string)
    ensures CacheKey(k1, p1) == CacheKey(k2, p2) <==> k1 == k2 && p1 == p2
  {
    if k1 != k2 {
      assert CacheKey(k1, p1)[0] != CacheKey(k2, p2)[0];
    } else if CacheKey(k1, p1) == CacheKey(k2, p2) {
      var n := if k1 == Wav then 4 else 7;
      assert CacheKey(k1, p1)[n..] == p1;
      assert CacheKey(k2, p2)[n..] == p2;
    }
  }

  datatype CachedSound = CachedSound(handle: SoundHandle, refCount: nat)

  /** m_pathCache, m_idToCacheKey and m_nextSoundId. */
  datatype Cache = Cache(paths: map<string, CachedSound>, keys: map<u32, string>, nextId: u32)

  /**
   * The two maps are inverse to each other, every cached sound is still
   * referenced, and every id in use is non-null and was handed out before
   * nextId, which has not wrapped to 0.
   */
  ghost predicate CacheValid(c: Cache)
  {
    && (forall key | key in c.paths ::
          c.paths[key].refCount >= 1 && c.paths[key].handle.id in c.keys && c.keys[c.paths[key].handle.id] == key)
    && (forall id | id in c.keys :: c.keys[id] in c.paths && c.paths[c.keys[id]].handle.id == id)
    && (forall id | id in c.keys :: 1 <= id < c.nextId)
    && c.nextId >= 1
  }

  datatype LoadResult = LoadResult(cache: Cache, handle: SoundHandle, pushed: seq<Cmd>)

  /**
   * EnqueueLoadWav / EnqueueLoadStream: a cached key gives its handle back
   * with one more reference and pushes nothing; a new key takes the next id
   * (the counter wraps at 2^32), is cached with one reference, and pushes one
   * load command. The id map is filled with emplace, which keeps an entry
   * that is already there.
   */
  function Load(c: Cache, kind: SoundKind, path: string): LoadResult
  {
    var key := CacheKey(kind, path);
    if key in c.paths then
      var entry := c.paths[key];
      LoadResult(c.(paths := c.paths[key := entry.(refCount := entry.refCount + 1)]), entry.handle, [])
    else
      var h := SoundHandle(c.nextId);
      var keys := if h.id in c.keys then c.keys else c.keys[h.id := key];
      LoadResult(Cache(c.paths[key := CachedSound(h, 1)], keys, Wrap32(c.nextId + 1)), h, [LoadCmd(kind, h, path)])
  }

  datatype UnloadResult = UnloadResult(cache: Cache, pushed: seq<Cmd>)

  /**
   * EnqueueUnload: the null handle does nothing. An id the cache does not
   * know is unloaded at once. Otherwise the reference count drops by one,
   * and when it reaches zero both map entries go and the unload is pushed.
   */
  function UnloadSound(c: Cache, h: SoundHandle): UnloadResult
  {
    if h.id == 0 then UnloadResult(c, [])
    else if h.id !in c.keys then UnloadResult(c, [Unload(h)])
    else
      var key := c.keys[h.id];
      if key !in c.paths then UnloadResult(c, [Unload(h)])
      else
        var entry := c.paths[key];
        var rc := if entry.refCount > 0 then entry.refCount - 1 else entry.refCount;
        if rc == 0 then
          UnloadResult(c.(paths := c.paths - {key}, keys := c.keys - {h.id}), [Unload(h)])
        else
          UnloadResult(c.(paths := c.paths[key := entry.(refCount := rc)]), [])
  }

  /** What a load gives back: a non-null handle that the cache maps back to the key of the load. */
  lemma LoadHandleIsCached(c: Cache, kind: SoundKind, path: string)
    requires CacheValid(c)
    ensures var r := Load(c, kind, path);
      && r.handle.id != 0
      && CacheKey(kind, path) in r.cache.paths
      && r.cache.paths[CacheKey(kind, path)].handle == r.handle
      && r.handle.id in r.cache.keys && r.cache.keys[r.handle.id] == CacheKey(kind, path)
  {
  }

  /** A load keeps the cache consistent as long as the id counter has not wrapped. */
  lemma LoadKeepsCacheValid(c: Cache, kind: SoundKind, path: string)
    requires CacheValid(c) && c.nextId < 0xFFFF_FFFF
    ensures CacheValid(Load(c, kind, path).cache)
  {
    var key := CacheKey(kind, path);
    var r := Load(c, kind, path);
    if key !in c.paths {
      assert c.nextId !in c.keys;
      forall k | k in r.cache.paths
        ensures r.cache.paths[k].handle.id in r.cache.keys && r.cache.keys[r.cache.paths[k].handle.id] == k
      {
        if k != key {
          assert c.paths[k].handle.id != c.nextId;
        }
      }
    }
  }

  /**
   * Loading a path that is already cached: the same handle, one more
   * reference, and no command; a path that is not: a fresh id never used by
   * the cache, one reference, and exactly one load command.
   */
  lemma LoadCachedOrFresh(c: Cache, kind: SoundKind, path: string)
    requires CacheValid(c)
    ensures var key := CacheKey(kind, path);
      var r := Load(c, kind, path);
      && (key in c.paths ==>
            r.handle == c.paths[key].handle && r.pushed == []
            && r.cache.paths[key].refCount == c.paths[key].refCount + 1 && r.cache.keys == c.keys)
      && (key !in c.paths ==>
            r.handle.id !in c.keys && r.pushed == [LoadCmd(kind, r.handle, path)]
            && r.cache.paths[key].refCount == 1)
  {
  }

  /** The same path loaded twice gives the same handle; the second load pushes nothing. */
  lemma LoadTwiceSameHandle(c: Cache, kind: SoundKind, path: string)
    requires CacheValid(c)
    ensures var r1 := Load(c, kind, path);
      var r2 := Load(r1.cache, kind, path);
      r2.handle == r1.handle && r2.pushed == []
  {
  }

  /** A wav load and a stream load of the same path get different sounds. */
  lemma WavAndStreamDiffer(c: Cache, path: string)
    requires CacheValid(c) && c.nextId < 0xFFFF_FFFF
    ensures var r1 := Load(c, Wav, path);
      Load(r1.cache, Stream, path).handle != r1.handle
  {
    var r1 := Load(c, Wav, path);
    CacheKeyInjective(Wav, path, Stream, path);
    LoadKeepsCacheValid(c, Wav, path);
    LoadHandleIsCached(c, Wav, path);
    LoadHandleIsCached(r1.cache, Stream, path);
  }

  /** An unload keeps the cache consistent. */
  lemma UnloadKeepsCacheValid(c: Cache, h: SoundHandle)
    requires CacheValid(c)
    ensures CacheValid(UnloadSound(c, h).cache)
  {
  }

  /**
   * Unloading the handle a load returned undoes the load: the maps are as
   * before. A new sound is loaded and unloaded (one command each); a cached
   * one neither.
   */
  lemma LoadThenUnloadRestores(c: Cache, kind: SoundKind, path: string)
    requires CacheValid(c) && c.nextId < 0xFFFF_FFFF
    ensures var r := Load(c, kind, path);
      var u := UnloadSound(r.cache, r.handle);
      && u.cache.paths == c.paths && u.cache.keys == c.keys
      && (CacheKey(kind, path) in c.paths ==> r.pushed + u.pushed == [])
      && (CacheKey(kind, path) !in c.paths ==> r.pushed + u.pushed == [LoadCmd(kind, r.handle, path), Unload(r.handle)])
  {
    var key := CacheKey(kind, path);
    var r := Load(c, kind, path);
    var u := UnloadSound(r.cache, r.handle);
    LoadHandleIsCached(c, kind, path);
    if key in c.paths {
      assert u.cache.paths == c.paths[key := c.paths[key]];
    } else {
      assert c.nextId !in c.keys;
      assert u.cache.keys == c.keys;
    }
  }

  // ---------------------------------------------------------------------
  // The ticket table

  /** One TicketSlot: the generation of the last ticket issued for it and the voice published to it (0 = none). */
  datatype TicketSlot = TicketSlot(gen: u32, voice: u32)

  /** TryResolve on the table `slots`: the voice when the ticket is current and its voice is published. */
  function Resolve(slots: seq<TicketSlot>, t: TicketID): (r: Option<u32>)
    requires |slots| == MaxTickets
    ensures r.Some? <==> t.IsValid() && t.index < MaxTickets && slots[t.index].gen == t.generation && slots[t.index].voice != 0
    ensures r.Some? ==> r.value == slots[t.index].voice
  {
    if !t.IsValid() || t.index >= MaxTickets then None
    else if slots[t.index].gen != t.generation then None
    else if slots[t.index].voice == 0 then None
    else Some(slots[t.index].voice)
  }

  // ---------------------------------------------------------------------
  // The audio thread: the sound table and the ticket slots under PumpCommands

  /** SoundEntry: reference count, kind, whether a source object exists, and the path it was loaded from. */
  datatype SoundEntry = SoundEntry(refCount: nat, kind: SoundKind, hasSource: bool, path: string)

  /** What PumpCommands changes: m_sounds and the ticket slots. */
  datatype Engine = Engine(sounds: map<u32, SoundEntry>, slots: seq<TicketSlot>)

  /** m_sounds[id] creates a default entry when the id is missing. */
  function EntryOrDefault(sounds: map<u32, SoundEntry>, id: u32): SoundEntry
  {
    if id in sounds then sounds[id] else SoundEntry(0, Wav, false, [])
  }

  /** The entry after a load command: one more reference, and a source of that kind and path. */
  function Loaded(entry: SoundEntry, kind: SoundKind, path: string): SoundEntry
  {
    var rc := if entry.refCount == 0 then 1 else entry.refCount + 1;
    if !entry.hasSource || entry.kind != kind || entry.path != path then
      SoundEntry(rc, kind, true, path)
    else
      entry.(refCount := rc)
  }

  /** Every voice unpublished; the generations stay. */
  function VoicesCleared(slots: seq<TicketSlot>): (r: seq<TicketSlot>)
    ensures |r| == |slots|
    ensures forall j :: 0 <= j < |slots| ==> r[j] == TicketSlot(slots[j].gen, 0)
  {
    seq(|slots|, j requires 0 <= j < |slots| => slots[j].(voice := 0))
  }

  /**
   * The effect of one command on the sound table and the ticket slots.
   * `voice` is the handle the engine returned when the command is a Play.
   */
  function Apply(e: Engine, cmd: Cmd, voice: u32): Engine
  {
    match cmd
    case LoadWav(h, path) => e.(sounds := e.sounds[h.id := Loaded(EntryOrDefault(e.sounds, h.id), Wav, path)])
    case LoadStream(h, path) => e.(sounds := e.sounds[h.id := Loaded(EntryOrDefault(e.sounds, h.id), Stream, path)])
    case Unload(h) =>
      if h.id !in e.sounds then e
      else
        var entry := e.sounds[h.id];
        var rc := if entry.refCount > 0 then entry.refCount - 1 else entry.refCount;
        if rc == 0 then e.(sounds := e.sounds - {h.id})
        else e.(sounds := e.sounds[h.id := entry.(refCount := rc)])
    case Play(t, h, _) =>
      if h.id !in e.sounds || !e.sounds[h.id].hasSource then e
      else if t.index < MaxTickets && t.index < |e.slots| && e.slots[t.index].gen == t.generation then
        e.(slots := e.slots[t.index := e.slots[t.index].(voice := voice)])
      else e
    case Shutdown => Engine(map[], VoicesCleared(e.slots))
    case _ => e
  }

  /** The commands in order, the k-th with the k-th engine voice. */
  function ApplyAll(e: Engine, cmds: seq<Cmd>, voices: seq<u32>): Engine
    requires |voices| == |cmds|
    decreases |cmds|
  {
    if cmds == [] then e
    else
      var n := |cmds| - 1;
      Apply(ApplyAll(e, cmds[..n], voices[..n]), cmds[n], voices[n])
  }

  /** A load command leaves a source of its kind and path, with one more reference. */
  lemma LoadCommandEffect(e: Engine, kind: SoundKind, h: SoundHandle, path: string, voice: u32)
    ensures var s := Apply(e, LoadCmd(kind, h, path), voice).sounds;
      && h.id in s && s[h.id].kind == kind && s[h.id].path == path && s[h.id].hasSource
      && s[h.id].refCount == EntryOrDefault(e.sounds, h.id).refCount + 1
      && (forall id | id != h.id :: (id in s <==> id in e.sounds) && (id in s ==> s[id] == e.sounds[id]))
  {
  }

  /** A load followed by an unload of the same sound leaves its reference count as it was, or no entry when there was none. */
  lemma LoadThenUnloadCommand(e: Engine, kind: SoundKind, h: SoundHandle, path: string, v1: u32, v2: u32)
    ensures var s := Apply(Apply(e, LoadCmd(kind, h, path), v1), Unload(h), v2).sounds;
      && (h.id in e.sounds && e.sounds[h.id].refCount > 0 ==> h.id in s && s[h.id].refCount == e.sounds[h.id].refCount)
      && (h.id !in e.sounds ==> h.id !in s)
  {
  }

  /** Pumping never changes a generation: only AllocTicket does. */
  lemma {:induction false} PumpKeepsGenerations(e: Engine, cmds: seq<Cmd>, voices: seq<u32>)
    requires |voices| == |cmds|
    ensures |ApplyAll(e, cmds, voices).slots| == |e.slots|
    ensures forall j :: 0 <= j < |e.slots| ==> ApplyAll(e, cmds, voices).slots[j].gen == e.slots[j].gen
  {
    if cmds != [] {
      var n := |cmds| - 1;
      PumpKeepsGenerations(e, cmds[..n], voices[..n]);
    }
  }

  /**
   * A Play publishes the engine's voice only to the slot of its ticket, and
   * only while the ticket is current; a ticket that is current then resolves
   * to that voice when it is not 0.
   */
  lemma PlayPublishes(e: Engine, t: TicketID, h: SoundHandle, p: PlayParams, voice: u32)
    requires |e.slots| == MaxTickets
    ensures var after := Apply(e, Play(t, h, p), voice);
      && |after.slots| == MaxTickets
      && (forall j :: 0 <= j < MaxTickets && j != t.index ==> after.slots[j] == e.slots[j])
      && (t.IsValid() && t.index < MaxTickets && e.slots[t.index].gen == t.generation
          && h.id in e.sounds && e.sounds[h.id].hasSource && voice != 0
          ==> Resolve(after.slots, t) == Some(voice))
      && (Resolve(e.slots, t).None? && Resolve(after.slots, t).Some? ==> Resolve(after.slots, t) == Some(voice))
  {
  }

  /** After a Shutdown command no ticket resolves. */
  lemma ShutdownUnpublishesAll(e: Engine, voice: u32, t: TicketID)
    requires |e.slots| == MaxTickets
    ensures Apply(e, Shutdown, voice).sounds == map[]
    ensures Resolve(Apply(e, Shutdown, voice).slots, t) == None
  {
  }

  // ---------------------------------------------------------------------
  // The service

  class AudioService {
    var pathCache: map<string, CachedSound>
    var idToCacheKey: map<u32, string>
    var nextSoundId: u32
    var queue: seq<Cmd>
    var sounds: map<u32, SoundEntry>
    const slots: array<TicketSlot>
    var ticketAlloc: u32
    var initialized: bool

    /** The load cache as a value. */
    function CacheOf(): Cache
      reads this
    {
      Cache(pathCache, idToCacheKey, nextSoundId)
    }

    ghost predicate Valid()
      reads this
    {
      slots.Length == MaxTickets && CacheValid(CacheOf())
    }

    /** A new service: empty caches, ids from 1, all ticket slots at generation 0 with no voice. */
    constructor()
      ensures Valid() && fresh(slots)
      ensures pathCache == map[] && idToCacheKey == map[] && nextSoundId == 1
      ensures queue == [] && sounds == map[] && ticketAlloc == 0 && !initialized
      ensures forall j :: 0 <= j < slots.Length ==> slots[j] == TicketSlot(0, 0)
    {
      pathCache := map[];
      idToCacheKey := map[];
      nextSoundId := 1;
      queue := [];
      sounds := map[];
      slots := new TicketSlot[MaxTickets](_ => TicketSlot(0, 0));
      ticketAlloc := 0;
      initialized := false;
    }

    /** Initialize: a second call reports success; otherwise the service is initialised when the engine's init returns 0. */
    method Initialize(engineInitResult: int) returns (ok: bool)
      modifies this`initialized
      ensures ok == initialized
      ensures old(initialized) ==> initialized
      ensures !old(initialized) ==> (initialized <==> engineInitResult == 0)
    {
      if initialized {
        return true;
      }
      initialized := engineInitResult == 0;
      ok := initialized;
    }

    /** Push: the command goes to the end of the queue. */
    method Push(c: Cmd)
      modifies this`queue
      ensures queue == old(queue) + [c]
    {
      queue := queue + [c];
    }

    /** EnqueueLoadWav and EnqueueLoadStream: the load cache step of Load. */
    method EnqueueLoad(kind: SoundKind, path: string) returns (h: SoundHandle)
      requires Valid()
      modifies this`pathCache, this`idToCacheKey, this`nextSoundId, this`queue
      ensures CacheOf() == Load(old(CacheOf()), kind, path).cache
      ensures h == Load(old(CacheOf()), kind, path).handle
      ensures queue == old(queue) + Load(old(CacheOf()), kind, path).pushed
      ensures old(nextSoundId) < 0xFFFF_FFFF ==> Valid()
    {
      if nextSoundId < 0xFFFF_FFFF {
        LoadKeepsCacheValid(CacheOf(), kind, path);
      }
      var key := CacheKey(kind, path);
      if key in pathCache {
        var entry := pathCache[key];
        pathCache := pathCache[key := entry.(refCount := entry.refCount + 1)];
        return entry.handle;
      }
      var id := nextSoundId;
      nextSoundId := Wrap32(nextSoundId + 1);
      h := SoundHandle(id);
      pathCache := pathCache[key := CachedSound(h, 1)];
      if id !in idToCacheKey {
        idToCacheKey := idToCacheKey[id := key];
      }
      Push(LoadCmd(kind, h, path));
    }

    method EnqueueLoadWav(path: string) returns (h: SoundHandle)
      requires Valid()
      modifies this`pathCache, this`idToCacheKey, this`nextSoundId, this`queue
      ensures CacheOf() == Load(old(CacheOf()), Wav, path).cache
      ensures h == Load(old(CacheOf()), Wav, path).handle
      ensures queue == old(queue) + Load(old(CacheOf()), Wav, path).pushed
      ensures old(nextSoundId) < 0xFFFF_FFFF ==> Valid()
    {
      h := EnqueueLoad(Wav, path);
    }

    method EnqueueLoadStream(path: string) returns (h: SoundHandle)
      requires Valid()
      modifies this`pathCache, this`idToCacheKey, this`nextSoundId, this`queue
      ensures CacheOf() == Load(old(CacheOf()), Stream, path).cache
      ensures h == Load(old(CacheOf()), Stream, path).handle
      ensures queue == old(queue) + Load(old(CacheOf()), Stream, path).pushed
      ensures old(nextSoundId) < 0xFFFF_FFFF ==> Valid()
    {
      h := EnqueueLoad(Stream, path);
    }

    /** EnqueueUnload: the cache step of UnloadSound. */
    method EnqueueUnload(h: SoundHandle)
      requires Valid()
      modifies this`pathCache, this`idToCacheKey, this`queue
      ensures Valid()
      ensures CacheOf() == UnloadSound(old(CacheOf()), h).cache
      ensures queue == old(queue) + UnloadSound(old(CacheOf()), h).pushed
    {
      UnloadKeepsCacheValid(CacheOf(), h);
      if h.id == 0 {
        return;
      }
      var doUnload := false;
      if h.id !in idToCacheKey {
        doUnload := true;
      } else {
        var key := idToCacheKey[h.id];
        if key !in pathCache {
          doUnload := true;
        } else {
          var entry := pathCache[key];
          if entry.refCount > 0 {
            entry := entry.(refCount := entry.refCount - 1);
          }
          if entry.refCount == 0 {
            pathCache := pathCache - {key};
            idToCacheKey := idToCacheKey - {h.id};
            doUnload := true;
          } else {
            pathCache := pathCache[key := entry];
          }
        }
      }
      if doUnload {
        Push(Unload(h));
      }
    }

    /** TryResolve: the published voice of a current ticket. */
    function TryResolve(t: TicketID): (r: Option<u32>)
      reads this, slots
      requires slots.Length == MaxTickets
      ensures r == Resolve(slots[..], t)
    {
      if !t.IsValid() || t.index >= MaxTickets then None
      else if slots[t.index].gen != t.generation then None
      else if slots[t.index].voice == 0 then None
      else Some(slots[t.index].voice)
    }

    /**
     * AllocTicket: the ring counter picks slot counter mod 2^16, the slot's
     * generation goes up by one (wrapping at 2^32) and its voice is reset.
     * The new ticket does not resolve yet, and a ticket issued earlier for
     * the same slot never resolves again.
     */
    method AllocTicket() returns (t: TicketID)
      requires slots.Length == MaxTickets
      modifies this`ticketAlloc, slots
      ensures t.index == old(ticketAlloc) % MaxTickets
      ensures ticketAlloc == Wrap32(old(ticketAlloc) + 1)
      ensures t.generation == Wrap32(old(slots[t.index].gen) + 1)
      ensures slots[..] == old(slots[..])[t.index := TicketSlot(t.generation, 0)]
      ensures TryResolve(t) == None
      ensures forall t0: TicketID :: t0.index == t.index && t0.generation == old(slots[t.index].gen) ==> TryResolve(t0) == None
    {
      var idx := ticketAlloc % MaxTickets;
      ticketAlloc := Wrap32(ticketAlloc + 1);
      var gen := Wrap32(slots[idx].gen + 1);
      slots[idx] := TicketSlot(gen, 0);
      t := TicketID(idx, gen);
    }

    /** ReleaseTicket: a stale or invalid ticket does nothing; a current one stops its voice (if any) and unpublishes it, keeping the generation. */
    method ReleaseTicket(t: TicketID)
      requires slots.Length == MaxTickets
      modifies this`queue, slots
      ensures !t.IsValid() || t.index >= MaxTickets || old(slots[t.index].gen) != t.generation ==>
                slots[..] == old(slots[..]) && queue == old(queue)
      ensures t.IsValid() && t.index < MaxTickets && old(slots[t.index].gen) == t.generation ==>
                && slots[..] == old(slots[..])[t.index := TicketSlot(t.generation, 0)]
                && queue == old(queue) + (if old(slots[t.index].voice) != 0 then [Stop(old(slots[t.index].voice))] else [])
      ensures TryResolve(t) == None
    {
      if !t.IsValid() || t.index >= MaxTickets {
        return;
      }
      if slots[t.index].gen != t.generation {
        return;
      }
      var v := slots[t.index].voice;
      if v != 0 {
        EnqueueStop(v);
      }
      slots[t.index] := slots[t.index].(voice := 0);
    }

    /** EnqueuePlay: a fresh ticket, and a Play command carrying it. */
    method EnqueuePlay(sound: SoundHandle, p: PlayParams) returns (t: TicketID)
      requires slots.Length == MaxTickets
      modifies this`ticketAlloc, this`queue, slots
      ensures t.index == old(ticketAlloc) % MaxTickets
      ensures t.generation == Wrap32(old(slots[t.index].gen) + 1)
      ensures slots[..] == old(slots[..])[t.index := TicketSlot(t.generation, 0)]
      ensures queue == old(queue) + [Play(t, sound, p)]
      ensures TryResolve(t) == None
    {
      t := AllocTicket();
      Push(Play(t, sound, p));
    }

    /** EnqueueStop: voice 0 is ignored. */
    method EnqueueStop(v: u32)
      modifies this`queue
      ensures queue == old(queue) + (if v == 0 then [] else [Stop(v)])
    {
      if v == 0 {
        return;
      }
      Push(Stop(v));
    }

    method EnqueueSetVolume(v: u32, volume: real)
      modifies this`queue
      ensures queue == old(queue) + (if v == 0 then [] else [SetVolume(v, volume)])
    {
      if v == 0 {
        return;
      }
      Push(SetVolume(v, volume));
    }

    method EnqueueSetPan(v: u32, pan: real)
      modifies this`queue
      ensures queue == old(queue) + (if v == 0 then [] else [SetPan(v, pan)])
    {
      if v == 0 {
        return;
      }
      Push(SetPan(v, pan));
    }

    method EnqueueSetPitch(v: u32, pitch: real)
      modifies this`queue
      ensures queue == old(queue) + (if v == 0 then [] else [SetPitch(v, pitch)])
    {
      if v == 0 {
        return;
      }
      Push(SetPitch(v, pitch));
    }

    method EnqueueSet3D(v: u32, position: seq<real>, velocity: seq<real>)
      modifies this`queue
      ensures queue == old(queue) + (if v == 0 then [] else [Set3D(v, position, velocity)])
    {
      if v == 0 {
        return;
      }
      Push(Set3D(v, position, velocity));
    }

    /** EnqueueSetListener: always queued. */
    method EnqueueSetListener(values: seq<real>)
      modifies this`queue
      ensures queue == old(queue) + [SetListener(values)]
    {
      Push(SetListener(values));
    }

    /** The Shutdown branch's loop over m_ticketSlots: every voice back to 0. */
    method UnpublishAllVoices()
      modifies slots
      ensures slots[..] == VoicesCleared(old(slots[..]))
    {
      var j := 0;
      while j < slots.Length
        invariant 0 <= j <= slots.Length
        invariant forall k :: 0 <= k < j ==> slots[k] == TicketSlot(old(slots[k]).gen, 0)
        invariant forall k :: j <= k < slots.Length ==> slots[k] == old(slots[k])
      {
        slots[j] := slots[j].(voice := 0);
        j := j + 1;
      }
    }

    /** One pass of PumpCommands' switch. Only Shutdown touches the load cache: it empties it. */
    method Execute(cmd: Cmd, voice: u32)
      requires slots.Length == MaxTickets
      modifies this`sounds, this`pathCache, this`idToCacheKey, slots
      ensures Engine(sounds, slots[..]) == Apply(Engine(old(sounds), old(slots[..])), cmd, voice)
      ensures cmd.Shutdown? ==> pathCache == map[] && idToCacheKey == map[]
      ensures !cmd.Shutdown? ==> pathCache == old(pathCache) && idToCacheKey == old(idToCacheKey)
    {
      match cmd {
        case LoadWav(h, path) =>
          sounds := sounds[h.id := Loaded(EntryOrDefault(sounds, h.id), Wav, path)];
        case LoadStream(h, path) =>
          sounds := sounds[h.id := Loaded(EntryOrDefault(sounds, h.id), Stream, path)];
        case Unload(h) =>
          if h.id in sounds {
            var entry := sounds[h.id];
            if entry.refCount > 0 {
              entry := entry.(refCount := entry.refCount - 1);
            }
            if entry.refCount == 0 {
              sounds := sounds - {h.id};
            } else {
              sounds := sounds[h.id := entry];
            }
          }
        case Play(t, h, _) =>
          if h.id in sounds && sounds[h.id].hasSource {
            if t.index < MaxTickets && slots[t.index].gen == t.generation {
              slots[t.index] := slots[t.index].(voice := voice);
            }
          }
        case Shutdown =>
          sounds := map[];
          pathCache := map[];
          idToCacheKey := map[];
          UnpublishAllVoices();
        case _ =>
      }
    }

    /** The loop of PumpCommands over the swapped-out batch. */
    method RunBatch(batch: seq<Cmd>, voices: seq<u32>)
      requires slots.Length == MaxTickets && |voices| == |batch|
      modifies this`sounds, this`pathCache, this`idToCacheKey, slots
      ensures Engine(sounds, slots[..]) == ApplyAll(Engine(old(sounds), old(slots[..])), batch, voices)
      ensures Cmd.Shutdown in batch ==> pathCache == map[] && idToCacheKey == map[]
      ensures Cmd.Shutdown !in batch ==> pathCache == old(pathCache) && idToCacheKey == old(idToCacheKey)
    {
      ghost var start := Engine(sounds, slots[..]);
      var i := 0;
      while i < |batch|
        invariant 0 <= i <= |batch|
        invariant Engine(sounds, slots[..]) == ApplyAll(start, batch[..i], voices[..i])
        invariant Cmd.Shutdown in batch[..i] ==> pathCache == map[] && idToCacheKey == map[]
        invariant Cmd.Shutdown !in batch[..i] ==> pathCache == old(pathCache) && idToCacheKey == old(idToCacheKey)
      {
        Execute(batch[i], voices[i]);
        assert batch[..i + 1] == batch[..i] + [batch[i]];
        assert voices[..i + 1][..i] == voices[..i];
        i := i + 1;
      }
      assert batch[..i] == batch;
      assert voices[..i] == voices;
    }

    /**
     * PumpCommands: takes the whole queue and runs it in order; the k-th
     * command's engine voice is voices[k]. The queue is left empty.
     */
    method PumpCommands(voices: seq<u32>)
      requires Valid() && |voices| == |queue|
      modifies this`queue, this`sounds, this`pathCache, this`idToCacheKey, slots
      ensures Valid()
      ensures queue == []
      ensures Engine(sounds, slots[..]) == ApplyAll(Engine(old(sounds), old(slots[..])), old(queue), voices)
      ensures Cmd.Shutdown in old(queue) ==> pathCache == map[] && idToCacheKey == map[]
      ensures Cmd.Shutdown !in old(queue) ==> pathCache == old(pathCache) && idToCacheKey == old(idToCacheKey)
    {
      var batch := queue;
      queue := [];
      RunBatch(batch, voices);
    }

    /** Shutdown: when initialised, a Shutdown command goes through the queue and the service is no longer initialised. */
    method Shutdown(voices: seq<u32>)
      requires Valid() && |voices| == |queue| + 1
      modifies this`queue, this`sounds, this`pathCache, this`idToCacheKey, this`initialized, slots
      ensures Valid() && !initialized
      ensures !old(initialized) ==> queue == old(queue) && sounds == old(sounds) && slots[..] == old(slots[..])
      ensures !old(initialized) ==> pathCache == old(pathCache) && idToCacheKey == old(idToCacheKey)
      ensures old(initialized) ==>
                && queue == [] && pathCache == map[] && idToCacheKey == map[]
                && Engine(sounds, slots[..]) == ApplyAll(Engine(old(sounds), old(slots[..])), old(queue) + [Cmd.Shutdown], voices)
    {
      if !initialized {
        return;
      }
      Push(Cmd.Shutdown);
      assert Cmd.Shutdown in queue;
      PumpCommands(voices);
      initialized := false;
    }
  }
}
