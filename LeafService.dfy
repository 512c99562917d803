/**
 * The CPU-side bookkeeping of LeafService (SectorXConsoleProject/app/LeafService.cpp):
 * the table of MaxVolumes GPU volume slots with the map from volume UID to
 * slot, the per-frame list of active volumes, the integer hash behind the
 * pseudo-random numbers, and the choice of guide curve for every clump.
 *
 * Volume and clump fields that are only floating-point payload are carried
 * as opaque values; the float arithmetic of RandRange is not modelled
 * beyond the exact case RandRange(s, 0, 1) == Rand01(s).
 */
module LeafService {
  import opened Wrappers
  import opened Arith

  type u32 = bv32

  // LeafService::MaxVolumes, CurvePerVolume, ClumpsPerVolume and TotalClumps.
  // The 32-bit clump arithmetic below writes them as literals (16, 16, 8), so
  // that the solver sees their values inside the bit-vector terms.
  const MaxVolumes: nat := 16
  const CurvePerVolume: nat := 16
  const ClumpsPerVolume: nat := 8
  const TotalClumps: nat := 128

  /** UINT32_MAX: AllocateSlot's answer when every slot is taken. */
  const NoSlot: nat := 0xFFFF_FFFF

  // ---------------------------------------------------------------------
  // Hash and Rand01

  /**
   * The five in-place updates of Hash, from update i on: xor-shift by 16,
   * multiply by 0x7feb352d, xor-shift by 15, multiply by 0x846ca68b,
   * xor-shift by 16 (all arithmetic modulo 2^32).
   */
  function HashFrom(x: u32, i: nat): u32
    requires i <= 5
    decreases 5 - i
  {
    if i == 5 then x
    else if i == 0 then HashFrom(x ^ (x >> 16), 1)
    else if i == 1 then HashFrom(x * 0x7feb352d, 2)
    else if i == 2 then HashFrom(x ^ (x >> 15), 3)
    else if i == 3 then HashFrom(x * 0x846ca68b, 4)
    else HashFrom(x ^ (x >> 16), 5)
  }

  /** The xorshift-multiply integer hash. */
  function Hash(x: u32): u32
  {
    HashFrom(x, 0)
  }

  /** The low 24 bits of a word, `h & 0xFFFFFF`, as a number. */
  function Low24(h: u32): (n: nat)
    ensures n < 0x100_0000
  {
    (h as int) % 0x100_0000
  }

  /**
   * Rand01(s): advances the state to Hash(s) and returns its low 24 bits
   * divided by 2^24. Both are exact in single precision, so the value is
   * modelled as a real; it lies in [0, 1).
   */
  function Rand01(s: u32): (result: (u32, real))
    ensures result.0 == Hash(s)
    ensures 0.0 <= result.1 < 1.0
    ensures result.1 * 16777216.0 == Low24(Hash(s)) as real
  {
    var next := Hash(s);
    (next, Low24(next) as real / 16777216.0)
  }

  // ---------------------------------------------------------------------
  // Clumps

  /** The part of a clump this model follows: its seed, its guide curve and its starting progress. */
  datatype Clump = Clump(seed: u32, curveId: u32, progress: real)

  /** The seed of clump c of volume volIdx. */
  function ClumpSeed(baseSeed: u32, volIdx: u32, c: u32): u32
  {
    Hash(baseSeed ^ (volIdx * 9781) ^ (c * 6271))
  }

  /** Clump c of volume volIdx as InitClumpsCPU builds it: curveBase = volIdx * CurvePerVolume. */
  function MakeClump(baseSeed: u32, volIdx: u32, c: u32): Clump
  {
    var s := ClumpSeed(baseSeed, volIdx, c);
    Clump(s, volIdx * 16 + Hash(s) % 16, Rand01(s).1)
  }

  /** Every clump of volume volIdx rides one of that volume's own CurvePerVolume guide curves and starts inside [0, 1). */
  lemma ClumpCurveInVolume(baseSeed: u32, volIdx: u32, c: u32)
    requires volIdx < 16 && c < 8
    ensures volIdx * 16 <= MakeClump(baseSeed, volIdx, c).curveId < (volIdx + 1) * 16
    ensures 0.0 <= MakeClump(baseSeed, volIdx, c).progress < 1.0
  {
  }

  /** Where clump c of volume volIdx is stored in m_cpuClumps: volIdx * ClumpsPerVolume + c. */
  function ClumpIndex(volIdx: u32, c: u32): (k: nat)
    requires volIdx < 16 && c < 8
    ensures k < TotalClumps
  {
    (volIdx as int) * 8 + (c as int)
  }

  /** Reading a small word as a number keeps the order. */
  lemma WordOrder(a: u32, b: u32)
    requires a < b < 16
    ensures a as int < b as int
  {
  }

  // ---------------------------------------------------------------------
  // Volume slots

  datatype VolumeSlot = VolumeSlot(volumeUID: nat, used: bool)

  /** The part of LeafVolumeGPU this model follows: the slot it was given, and its other fields as payload. */
  datatype LeafVolume = LeafVolume(volumeSlot: nat, seed: nat, payload: seq<real>)

  /** The slot table and the UID map describe the same assignment, in both directions. */
  ghost predicate SlotsAgree(slots: seq<VolumeSlot>, uidToSlot: map<nat, nat>)
  {
    && (forall uid :: uid in uidToSlot ==>
          uidToSlot[uid] < |slots| && slots[uidToSlot[uid]].used && slots[uidToSlot[uid]].volumeUID == uid)
    && (forall i :: 0 <= i < |slots| && slots[i].used ==>
          slots[i].volumeUID in uidToSlot && uidToSlot[slots[i].volumeUID] == i)
  }

  /** The first unused slot, if any. */
  function FirstFree(slots: seq<VolumeSlot>): (r: Option<nat>)
    ensures r.Some? ==> r.value < |slots| && !slots[r.value].used
    ensures r.Some? ==> forall j :: 0 <= j < r.value ==> slots[j].used
    ensures r.None? ==> forall j :: 0 <= j < |slots| ==> slots[j].used
  {
    if |slots| == 0 then None
    else if !slots[0].used then Some(0)
    else match FirstFree(slots[1..])
      case None => None
      case Some(i) => Some(i + 1)
  }

  /** The slot indices that the active volumes refer to (the set built at the start of ReleaseUnusedSlots). */
  function ActiveSlots(volumes: seq<LeafVolume>): set<nat>
  {
    set v | v in volumes :: v.volumeSlot
  }

  /**
   * ReleaseUnusedSlots as written: the set holds slot indices, but it is
   * searched for the slot's volume UID, so a slot is freed when its UID is
   * not among the active slot indices.
   */
  function ReleaseAsWritten(slots: seq<VolumeSlot>, uidToSlot: map<nat, nat>, active: set<nat>)
    : (r: (seq<VolumeSlot>, map<nat, nat>))
    ensures |r.0| == |slots|
    ensures forall i :: 0 <= i < |slots| ==>
              r.0[i].volumeUID == slots[i].volumeUID
              && (r.0[i].used <==> slots[i].used && slots[i].volumeUID in active)
  {
    var freed := set i | 0 <= i < |slots| && slots[i].used && slots[i].volumeUID !in active :: slots[i].volumeUID;
    (seq(|slots|, i requires 0 <= i < |slots| =>
       if slots[i].used && slots[i].volumeUID !in active then slots[i].(used := false) else slots[i]),
     uidToSlot - freed)
  }

  /** The corrected release: a used slot stays taken exactly when some active volume refers to it. */
  function Released(slots: seq<VolumeSlot>, active: set<nat>): (r: seq<VolumeSlot>)
    ensures |r| == |slots|
    ensures forall i :: 0 <= i < |slots| ==>
              r[i].volumeUID == slots[i].volumeUID && (r[i].used <==> slots[i].used && i in active)
  {
    seq(|slots|, i requires 0 <= i < |slots| =>
      if slots[i].used && i !in active then slots[i].(used := false) else slots[i])
  }

  /** The UIDs whose slots the corrected release frees among the first n slots. */
  function FreedUpTo(slots: seq<VolumeSlot>, active: set<nat>, n: nat): set<nat>
    requires n <= |slots|
    decreases n
  {
    if n == 0 then {}
    else FreedUpTo(slots, active, n - 1)
         + (if slots[n - 1].used && n - 1 !in active then {slots[n - 1].volumeUID} else {})
  }

  /** The UIDs whose slots the corrected release frees. */
  function FreedUIDs(slots: seq<VolumeSlot>, active: set<nat>): set<nat>
  {
    FreedUpTo(slots, active, |slots|)
  }

  /** A UID is freed exactly when it sits in a used slot that no active volume refers to. */
  lemma {:induction false} FreedUpToMembers(slots: seq<VolumeSlot>, active: set<nat>, n: nat)
    requires n <= |slots|
    ensures forall uid :: uid in FreedUpTo(slots, active, n) <==>
              exists j :: 0 <= j < n && slots[j].used && j !in active && slots[j].volumeUID == uid
  {
    if n > 0 {
      FreedUpToMembers(slots, active, n - 1);
    }
  }

  /** After the corrected release the table and the map still agree, and a UID is kept iff its slot is active. */
  lemma ReleasedAgrees(slots: seq<VolumeSlot>, uidToSlot: map<nat, nat>, active: set<nat>)
    requires SlotsAgree(slots, uidToSlot)
    ensures SlotsAgree(Released(slots, active), uidToSlot - FreedUIDs(slots, active))
    ensures forall uid :: uid in uidToSlot ==>
              (uid in uidToSlot - FreedUIDs(slots, active) <==> uidToSlot[uid] in active)
  {
    var r := Released(slots, active);
    var m := uidToSlot - FreedUIDs(slots, active);
    FreedUpToMembers(slots, active, |slots|);
    forall uid | uid in uidToSlot
      ensures uid in m <==> uidToSlot[uid] in active
    {
      if uidToSlot[uid] !in active {
        assert uid in FreedUIDs(slots, active);
      }
    }
    forall i | 0 <= i < |r| && r[i].used
      ensures r[i].volumeUID in m && m[r[i].volumeUID] == i
    {
      var uid := slots[i].volumeUID;
      assert uidToSlot[uid] == i;
    }
  }

  /**
   * The as-written release frees a slot that an active volume is using: a
   * volume with UID 7 sits in slot 0 and is active in slot 0, yet UID 7 is
   * not a slot index of an active volume, so slot 0 is freed and UID 7
   * forgotten. The corrected release keeps it.
   */
  lemma ReleaseAsWrittenFreesActiveSlot()
    ensures var slots := [VolumeSlot(7, true)] + seq(MaxVolumes - 1, _ => VolumeSlot(0, false));
            var m := map[7 := 0];
            var active := ActiveSlots([LeafVolume(0, 0, [])]);
            && SlotsAgree(slots, m)
            && !ReleaseAsWritten(slots, m, active).0[0].used
            && 7 !in ReleaseAsWritten(slots, m, active).1
            && Released(slots, active)[0].used
            && 7 in m - FreedUIDs(slots, active)
  {
    var slots := [VolumeSlot(7, true)] + seq(MaxVolumes - 1, _ => VolumeSlot(0, false));
    var m := map[7 := 0];
    var active := ActiveSlots([LeafVolume(0, 0, [])]);
    assert active == {0};
    assert slots[0] == VolumeSlot(7, true);
    assert 7 in set i | 0 <= i < |slots| && slots[i].used && slots[i].volumeUID !in active :: slots[i].volumeUID;
    FreedUpToMembers(slots, active, |slots|);
    assert FreedUIDs(slots, active) == {} by {
      forall i | 0 <= i < |slots| && slots[i].used
        ensures i in active
      {
        assert i == 0;
      }
    }
  }

  // ---------------------------------------------------------------------
  // The service

  class LeafService {
    const slots: array<VolumeSlot>
    var uidToSlot: map<nat, nat>
    var activeVolumes: seq<LeafVolume>
    const clumps: array<Clump>

    ghost predicate Valid()
      reads this, slots
    {
      slots.Length == MaxVolumes && clumps.Length == TotalClumps && SlotsAgree(slots[..], uidToSlot)
    }

    /** A fresh service: every slot free, no UID mapped, no active volume. */
    constructor(filler: Clump)
      ensures Valid() && fresh(slots) && fresh(clumps)
      ensures forall i :: 0 <= i < MaxVolumes ==> !slots[i].used
      ensures uidToSlot == map[] && activeVolumes == []
    {
      slots := new VolumeSlot[MaxVolumes](_ => VolumeSlot(0, false));
      clumps := new Clump[TotalClumps](_ => filler);
      uidToSlot := map[];
      activeVolumes := [];
    }

    /**
     * AllocateSlot(volumeUID): a known UID gets its slot back and nothing
     * changes; otherwise the first free slot is taken for it, or NoSlot is
     * returned when every slot is in use.
     */
    method AllocateSlot(volumeUID: nat) returns (slot: nat)
      requires Valid()
      modifies this, slots
      ensures Valid() && activeVolumes == old(activeVolumes)
      ensures volumeUID in old(uidToSlot) ==>
                slot == old(uidToSlot)[volumeUID] && slots[..] == old(slots[..]) && uidToSlot == old(uidToSlot)
      ensures volumeUID !in old(uidToSlot) && FirstFree(old(slots[..])).Some? ==>
                && slot == FirstFree(old(slots[..])).value
                && slots[..] == old(slots[..])[slot := VolumeSlot(volumeUID, true)]
                && uidToSlot == old(uidToSlot)[volumeUID := slot]
      ensures volumeUID !in old(uidToSlot) && FirstFree(old(slots[..])).None? ==>
                slot == NoSlot && slots[..] == old(slots[..]) && uidToSlot == old(uidToSlot)
      ensures slot != NoSlot ==> slot < MaxVolumes && volumeUID in uidToSlot && uidToSlot[volumeUID] == slot
    {
      if volumeUID in uidToSlot {
        return uidToSlot[volumeUID];
      }
      var i := 0;
      while i < MaxVolumes
        invariant 0 <= i <= MaxVolumes
        invariant forall j :: 0 <= j < i ==> slots[j].used
        invariant slots[..] == old(slots[..]) && uidToSlot == old(uidToSlot)
      {
        if !slots[i].used {
          ghost var before := slots[..];
          slots[i] := VolumeSlot(volumeUID, true);
          uidToSlot := uidToSlot[volumeUID := i];
          assert FirstFree(before).value == i by {
            var f := FirstFree(before);
            if f.None? || f.value != i {
              assert false;
            }
          }
          return i;
        }
        i := i + 1;
      }
      return NoSlot;
    }

    /** PushActiveVolume: the volume is appended with the slot of its UID, or dropped when no slot is free. */
    method PushActiveVolume(volumeUID: nat, volume: LeafVolume)
      requires Valid()
      modifies this, slots
      ensures Valid()
      ensures volumeUID in uidToSlot ==> activeVolumes == old(activeVolumes) + [volume.(volumeSlot := uidToSlot[volumeUID])]
      ensures volumeUID !in uidToSlot ==> activeVolumes == old(activeVolumes)
      ensures volumeUID in old(uidToSlot) ==> uidToSlot == old(uidToSlot) && slots[..] == old(slots[..])
      ensures volumeUID !in uidToSlot ==> uidToSlot == old(uidToSlot) && FirstFree(slots[..]).None?
      ensures volumeUID !in old(uidToSlot) && FirstFree(old(slots[..])).Some? ==>
                var slot := FirstFree(old(slots[..])).value;
                && slots[..] == old(slots[..])[slot := VolumeSlot(volumeUID, true)]
                && uidToSlot == old(uidToSlot)[volumeUID := slot]
                && activeVolumes == old(activeVolumes) + [volume.(volumeSlot := slot)]
      ensures volumeUID !in old(uidToSlot) && FirstFree(old(slots[..])).None? ==>
                slots[..] == old(slots[..]) && uidToSlot == old(uidToSlot) && activeVolumes == old(activeVolumes)
    {
      var slot := AllocateSlot(volumeUID);
      if slot == NoSlot {
        return;
      }
      var v := volume.(volumeSlot := slot);
      activeVolumes := activeVolumes + [v];
    }

    /** PreUpdate's reset of the per-frame active list. */
    method ClearActiveVolumes()
      modifies this
      ensures activeVolumes == [] && uidToSlot == old(uidToSlot)
    {
      activeVolumes := [];
    }

    /** The first loop of ReleaseUnusedSlots: the set of slot indices the active volumes use. */
    method CollectActiveSlots() returns (active: set<nat>)
      ensures active == ActiveSlots(activeVolumes)
    {
      active := {};
      var k := 0;
      while k < |activeVolumes|
        invariant 0 <= k <= |activeVolumes|
        invariant active == ActiveSlots(activeVolumes[..k])
      {
        assert activeVolumes[..k + 1] == activeVolumes[..k] + [activeVolumes[k]];
        active := active + {activeVolumes[k].volumeSlot};
        k := k + 1;
      }
      assert activeVolumes[..k] == activeVolumes;
    }

    /**
     * ReleaseUnusedSlots, corrected: collect the slot indices of the active
     * volumes, then free every used slot that none of them refers to and
     * forget its UID.
     */
    method ReleaseUnusedSlots()
      requires Valid()
      modifies this, slots
      ensures Valid()
      ensures activeVolumes == old(activeVolumes)
      ensures slots[..] == Released(old(slots[..]), ActiveSlots(activeVolumes))
      ensures uidToSlot == old(uidToSlot) - FreedUIDs(old(slots[..]), ActiveSlots(activeVolumes))
    {
      var active := CollectActiveSlots();
      ReleasedAgrees(slots[..], uidToSlot, active);
      FreeSlotsOutside(active);
    }

    /** The second loop of ReleaseUnusedSlots: free each used slot whose index is not in `active`. */
    method FreeSlotsOutside(active: set<nat>)
      requires slots.Length == MaxVolumes
      modifies this, slots
      ensures activeVolumes == old(activeVolumes)
      ensures slots[..] == Released(old(slots[..]), active)
      ensures uidToSlot == old(uidToSlot) - FreedUIDs(old(slots[..]), active)
    {
      ghost var start := slots[..];
      var i := 0;
      while i < MaxVolumes
        invariant 0 <= i <= MaxVolumes
        invariant forall j :: 0 <= j < i ==>
                    slots[j] == if start[j].used && j !in active then start[j].(used := false) else start[j]
        invariant forall j :: i <= j < MaxVolumes ==> slots[j] == start[j]
        invariant activeVolumes == old(activeVolumes)
        invariant uidToSlot == old(uidToSlot) - FreedUpTo(start, active, i)
      {
        if slots[i].used && i !in active {
          uidToSlot := uidToSlot - {slots[i].volumeUID};
          slots[i] := slots[i].(used := false);
        }
        i := i + 1;
      }
      assert slots[..] == Released(start, active);
    }

    /** InitClumpsCPU: clump c of volume volIdx is built from its own seed and stored at volIdx * ClumpsPerVolume + c. */
    method InitClumpsCPU(baseSeed: u32)
      requires clumps.Length == TotalClumps
      modifies clumps
      ensures forall volIdx: u32, c: u32 :: volIdx < 16 && c < 8 ==>
                clumps[ClumpIndex(volIdx, c)] == MakeClump(baseSeed, volIdx, c)
    {
      var volIdx: u32 := 0;
      while volIdx < 16
        invariant volIdx <= 16
        invariant forall v: u32, c: u32 :: v < volIdx && c < 8 ==>
                    clumps[ClumpIndex(v, c)] == MakeClump(baseSeed, v, c)
      {
        InitVolumeClumps(baseSeed, volIdx);
        forall v: u32, c: u32 | v < volIdx && c < 8
          ensures clumps[ClumpIndex(v, c)] == MakeClump(baseSeed, v, c)
        {
          WordOrder(v, volIdx);
        }
        volIdx := volIdx + 1;
      }
    }

    /** The inner loop of InitClumpsCPU: the ClumpsPerVolume clumps of one volume, leaving the other volumes' clumps alone. */
    method InitVolumeClumps(baseSeed: u32, volIdx: u32)
      requires clumps.Length == TotalClumps && volIdx < 16
      modifies clumps
      ensures forall c: u32 :: c < 8 ==> clumps[ClumpIndex(volIdx, c)] == MakeClump(baseSeed, volIdx, c)
      ensures forall k :: 0 <= k < TotalClumps && !(ClumpIndex(volIdx, 0) <= k < ClumpIndex(volIdx, 0) + 8) ==>
                clumps[k] == old(clumps[k])
    {
      var c: u32 := 0;
      while c < 8
        invariant c <= 8
        invariant forall c': u32 :: c' < c ==> clumps[ClumpIndex(volIdx, c')] == MakeClump(baseSeed, volIdx, c')
        invariant forall k :: 0 <= k < TotalClumps && !(ClumpIndex(volIdx, 0) <= k < ClumpIndex(volIdx, 0) + 8) ==>
                    clumps[k] == old(clumps[k])
      {
        clumps[ClumpIndex(volIdx, c)] := MakeClump(baseSeed, volIdx, c);
        forall c': u32 | c' < c
          ensures clumps[ClumpIndex(volIdx, c')] == MakeClump(baseSeed, volIdx, c')
        {
          WordOrder(c', c);
        }
        c := c + 1;
      }
    }
  }
}
