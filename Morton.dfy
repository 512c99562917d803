/**
 * ZigZag and Morton (Z-order) bit encoders of SectorFW/Util/Morton.h.
 *
 * Every value is a 64- or 32-bit word. A signed C++ integer is represented
 * by its two's-complement bit pattern, so `uint64_t(v)` is the identity and
 * the arithmetic shift `v >> 63` is written out as a sign smear.
 */
module Morton {
  type u64 = bv64
  type u32 = bv32

  const Low32: u64 := 0x0000_0000_FFFF_FFFF
  const Low21: u64 := 0x1F_FFFF
  const EvenBits: u64 := 0x5555_5555_5555_5555
  const ThirdBits: u64 := 0x1249_2492_4924_9249

  /** Arithmetic `v >> 63` of a signed 64-bit value: all ones when negative, else zero. */
  function SignSmear64(v: u64): (r: u64)
    ensures r == 0 || r == 0xFFFF_FFFF_FFFF_FFFF
    ensures (r == 0) <==> (v < 0x8000_0000_0000_0000)
  {
    if v & 0x8000_0000_0000_0000 == 0 then 0 else 0xFFFF_FFFF_FFFF_FFFF
  }

  function SignSmear32(v: u32): (r: u32)
    ensures r == 0 || r == 0xFFFF_FFFF
    ensures (r == 0) <==> (v < 0x8000_0000)
  {
    if v & 0x8000_0000 == 0 then 0 else 0xFFFF_FFFF
  }

  function ZigZag64(v: u64): u64
  {
    (v << 1) ^ SignSmear64(v)
  }

  function UnZigZag64(u: u64): u64
  {
    (u >> 1) ^ (!(u & 1) + 1)
  }

  function ZigZag32(v: u32): u32
  {
    (v << 1) ^ SignSmear32(v)
  }

  function UnZigZag32(u: u32): u32
  {
    (u >> 1) ^ (!(u & 1) + 1)
  }

  /** A non-negative value is shifted left; a negative one is shifted and complemented. */
  lemma ZigZag64Shape(v: u64)
    ensures v < 0x8000_0000_0000_0000 ==> ZigZag64(v) & 1 == 0 && ZigZag64(v) >> 1 == v
    ensures v >= 0x8000_0000_0000_0000 ==> ZigZag64(v) & 1 == 1 && !(ZigZag64(v) >> 1) == v
  {
  }

  /** UnZigZag64 undoes the shift for even codes and the shift and complement for odd ones. */
  lemma UnZigZag64Shape(u: u64)
    ensures u & 1 == 0 ==> UnZigZag64(u) == u >> 1
    ensures u & 1 == 1 ==> UnZigZag64(u) == !(u >> 1)
  {
  }

  lemma ZigZag64RoundTrip(v: u64)
    ensures UnZigZag64(ZigZag64(v)) == v
  {
    ZigZag64Shape(v);
    UnZigZag64Shape(ZigZag64(v));
  }

  lemma ZigZag32Shape(v: u32)
    ensures v < 0x8000_0000 ==> ZigZag32(v) & 1 == 0 && ZigZag32(v) >> 1 == v
    ensures v >= 0x8000_0000 ==> ZigZag32(v) & 1 == 1 && !(ZigZag32(v) >> 1) == v
  {
  }

  lemma UnZigZag32Shape(u: u32)
    ensures u & 1 == 0 ==> UnZigZag32(u) == u >> 1
    ensures u & 1 == 1 ==> UnZigZag32(u) == !(u >> 1)
  {
  }

  lemma ZigZag32RoundTrip(v: u32)
    ensures UnZigZag32(ZigZag32(v)) == v
  {
    ZigZag32Shape(v);
    UnZigZag32Shape(ZigZag32(v));
  }

  /** ZigZag interleaves signs: 0, -1, 1, -2 become 0, 1, 2, 3. */
  lemma ZigZagSmallValues()
    ensures ZigZag64(0) == 0 && ZigZag64(0xFFFF_FFFF_FFFF_FFFF) == 1
    ensures ZigZag64(1) == 2 && ZigZag64(0xFFFF_FFFF_FFFF_FFFE) == 3
    ensures ZigZag32(0) == 0 && ZigZag32(0xFFFF_FFFF) == 1
    ensures ZigZag32(1) == 2 && ZigZag32(0xFFFF_FFFE) == 3
  {
  }

  /** Spreads the low 32 bits of `v` onto the even bit positions. */
  function Part1By1(v0: u64): u64
  {
    var v1 := v0 & Low32;
    var v2 := (v1 | (v1 << 16)) & 0x0000_FFFF_0000_FFFF;
    var v3 := (v2 | (v2 << 8)) & 0x00FF_00FF_00FF_00FF;
    var v4 := (v3 | (v3 << 4)) & 0x0F0F_0F0F_0F0F_0F0F;
    var v5 := (v4 | (v4 << 2)) & 0x3333_3333_3333_3333;
    (v5 | (v5 << 1)) & EvenBits
  }

  /** Gathers the even bit positions of `v` into the low 32 bits. */
  function Compact1By1(v0: u64): u64
  {
    var v1 := v0 & EvenBits;
    var v2 := (v1 ^ (v1 >> 1)) & 0x3333_3333_3333_3333;
    var v3 := (v2 ^ (v2 >> 2)) & 0x0F0F_0F0F_0F0F_0F0F;
    var v4 := (v3 ^ (v3 >> 4)) & 0x00FF_00FF_00FF_00FF;
    var v5 := (v4 ^ (v4 >> 8)) & 0x0000_FFFF_0000_FFFF;
    (v5 ^ (v5 >> 16)) & Low32
  }

  function Morton2D64(x: u64, y: u64): u64
  {
    (Part1By1(y) << 1) | Part1By1(x)
  }

  /**
   * The 32-bit x coordinate of a 2D code. The source narrows to `uint32_t`;
   * Compact1By1 already clears the high half, so the value is kept in a
   * 64-bit word below 2^32 (see Compact1By1Fits).
   */
  function Morton2DDecodeX(code: u64): u64
  {
    Compact1By1(code)
  }

  function Morton2DDecodeY(code: u64): u64
  {
    Compact1By1(code >> 1)
  }

  lemma Compact1By1Fits(v: u64)
    ensures Compact1By1(v) <= Low32
  {
  }

  lemma Part1By1OnEvenBits(v: u64)
    ensures Part1By1(v) & !EvenBits == 0
  {
  }

  lemma Compact1By1OfPart1By1(v: u64)
    ensures Compact1By1(Part1By1(v)) == v & Low32
  {
  }

  /** Decoding the x part of a 2D Morton code gives back the low 32 bits of x. */
  lemma Morton2DRoundTripX(x: u64, y: u64)
    ensures Morton2DDecodeX(Morton2D64(x, y)) == x & Low32
  {
  }

  /** Decoding the y part of a 2D Morton code gives back the low 32 bits of y. */
  lemma Morton2DRoundTripY(x: u64, y: u64)
    ensures Morton2DDecodeY(Morton2D64(x, y)) == y & Low32
  {
  }

  /** Spreads the low 21 bits of `x` onto every third bit position. */
  function Part1By2(x0: u64): u64
  {
    var x1 := x0 & Low21;
    var x2 := (x1 | (x1 << 32)) & 0x1F_0000_0000_FFFF;
    var x3 := (x2 | (x2 << 16)) & 0x1F_0000_FF00_00FF;
    var x4 := (x3 | (x3 << 8)) & 0x100F_00F0_0F00_F00F;
    var x5 := (x4 | (x4 << 4)) & 0x10C3_0C30_C30C_30C3;
    (x5 | (x5 << 2)) & ThirdBits
  }

  /** Gathers every third bit position of `x` into the low 21 bits. */
  function Compact1By2(x0: u64): u64
  {
    var x1 := x0 & ThirdBits;
    var x2 := (x1 ^ (x1 >> 2)) & 0x10C3_0C30_C30C_30C3;
    var x3 := (x2 ^ (x2 >> 4)) & 0x100F_00F0_0F00_F00F;
    var x4 := (x3 ^ (x3 >> 8)) & 0x1F_0000_FF00_00FF;
    var x5 := (x4 ^ (x4 >> 16)) & 0x1F_0000_0000_FFFF;
    (x5 ^ (x5 >> 32)) & Low21
  }

  datatype Decoded3 = Decoded3(x: u64, y: u64, z: u64)

  function Morton3D64(x: u64, y: u64, z: u64): u64
  {
    Part1By2(x) | (Part1By2(y) << 1) | (Part1By2(z) << 2)
  }

  function DeMorton3D64(code: u64): Decoded3
  {
    Decoded3(Compact1By2(code), Compact1By2(code >> 1), Compact1By2(code >> 2))
  }

  lemma Part1By2OnThirdBits(x: u64)
    ensures Part1By2(x) & !ThirdBits == 0
  {
  }

  lemma Compact1By2OfPart1By2(x: u64)
    ensures Compact1By2(Part1By2(x)) == x & Low21
  {
  }

  lemma Compact1By2ThirdOnly(v: u64)
    ensures Compact1By2(v) == Compact1By2(v & ThirdBits)
  {
  }

  /** Three words confined to every third bit, shifted by 0, 1 and 2, can be separated again. */
  lemma InterleaveSeparates3(px: u64, py: u64, pz: u64)
    requires px & !ThirdBits == 0 && py & !ThirdBits == 0 && pz & !ThirdBits == 0
    ensures (px | (py << 1) | (pz << 2)) & ThirdBits == px
    ensures ((px | (py << 1) | (pz << 2)) >> 1) & ThirdBits == py
    ensures ((px | (py << 1) | (pz << 2)) >> 2) & ThirdBits == pz
  {
  }

  /** Decoding a 3D Morton code gives back the low 21 bits of each coordinate. */
  lemma Morton3DRoundTrip(x: u64, y: u64, z: u64)
    ensures DeMorton3D64(Morton3D64(x, y, z)) == Decoded3(x & Low21, y & Low21, z & Low21)
  {
    var code := Morton3D64(x, y, z);
    Part1By2OnThirdBits(x);
    Part1By2OnThirdBits(y);
    Part1By2OnThirdBits(z);
    InterleaveSeparates3(Part1By2(x), Part1By2(y), Part1By2(z));
    Compact1By2ThirdOnly(code);
    Compact1By2ThirdOnly(code >> 1);
    Compact1By2ThirdOnly(code >> 2);
    Compact1By2OfPart1By2(x);
    Compact1By2OfPart1By2(y);
    Compact1By2OfPart1By2(z);
  }

  /** Signed 3D Morton code: each coordinate goes through ZigZag first. */
  function Morton3D64ZZ(sx: u64, sy: u64, sz: u64): u64
  {
    Morton3D64(ZigZag64(sx), ZigZag64(sy), ZigZag64(sz))
  }

  function DeMorton3D64ZZ(code: u64): Decoded3
  {
    var u := DeMorton3D64(code);
    Decoded3(UnZigZag64(u.x), UnZigZag64(u.y), UnZigZag64(u.z))
  }

  lemma MaskKeeps21(u: u64)
    requires u <= Low21
    ensures u & Low21 == u
  {
  }

  lemma DeMorton3D64ZZOf(code: u64, u: Decoded3)
    requires DeMorton3D64(code) == u
    ensures DeMorton3D64ZZ(code) == Decoded3(UnZigZag64(u.x), UnZigZag64(u.y), UnZigZag64(u.z))
  {
  }

  /** A signed coordinate survives the signed 3D round trip when its ZigZag code fits in 21 bits. */
  lemma Morton3DZZRoundTrip(sx: u64, sy: u64, sz: u64)
    requires ZigZag64(sx) <= Low21 && ZigZag64(sy) <= Low21 && ZigZag64(sz) <= Low21
    ensures DeMorton3D64ZZ(Morton3D64ZZ(sx, sy, sz)) == Decoded3(sx, sy, sz)
  {
    var ux, uy, uz := ZigZag64(sx), ZigZag64(sy), ZigZag64(sz);
    Morton3DRoundTrip(ux, uy, uz);
    MaskKeeps21(ux);
    MaskKeeps21(uy);
    MaskKeeps21(uz);
    DeMorton3D64ZZOf(Morton3D64(ux, uy, uz), Decoded3(ux, uy, uz));
    ZigZag64RoundTrip(sx);
    ZigZag64RoundTrip(sy);
    ZigZag64RoundTrip(sz);
  }
}
