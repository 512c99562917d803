/**
 * The BC4/BC5 normal-map encoder of SectorXConsoleProject/app/main.cpp.
 *
 * A BC4_UNORM block holds one 8-bit channel of a 4x4 texel tile in 8 bytes:
 * two endpoints (bytes 0 and 1) and sixteen 3-bit palette indices packed
 * little-endian into the 48-bit field of bytes 2..7, texel i at bits
 * 3i..3i+2. With endpoint 0 greater than endpoint 1 the palette has eight
 * entries: the two endpoints and six evenly spaced values between them.
 * A BC5_UNORM block is two BC4 blocks, red then green, 16 bytes in all.
 *
 * Single-precision float arithmetic is modelled exactly, without float
 * rounding: the normal conversion in `real`, and the palette search in
 * integer units of 1/1785 (1785 = 7 * 255), in which every texel value
 * v / 255 and every palette entry is a whole number. Scaling all values by
 * one positive constant leaves the order of the squared errors unchanged.
 */
module BlockCompression {
  import Arith
  import Grid

  type byte = x: int | 0 <= x < 256

  // ---------------------------------------------------------------------
  // Channel conversion

  function Clamp01(u: real): (r: real)
    ensures 0.0 <= r <= 1.0
    ensures 0.0 <= u <= 1.0 ==> r == u
  {
    if u < 0.0 then 0.0 else if u > 1.0 then 1.0 else u
  }

  /**
   * NormalToUNorm8: [-1, 1] maps onto [0, 1], is clamped, scaled to 255 and
   * rounded to the nearest integer (halves away from zero, which for a
   * non-negative value is upwards).
   */
  function NormalToUNorm8(v: real): (r: byte)
    ensures (r as real) - 0.5 <= Clamp01(v * 0.5 + 0.5) * 255.0 < (r as real) + 0.5
  {
    var u := Clamp01(v * 0.5 + 0.5);
    (u * 255.0 + 0.5).Floor
  }

  /** The conversion keeps the order of its inputs, and maps -1 to 0, 0 to 128 and 1 to 255. */
  lemma NormalToUNorm8Monotone(v1: real, v2: real)
    requires v1 <= v2
    ensures NormalToUNorm8(v1) <= NormalToUNorm8(v2)
  {
    var u1 := Clamp01(v1 * 0.5 + 0.5);
    var u2 := Clamp01(v2 * 0.5 + 0.5);
    assert u1 <= u2;
    assert u1 * 255.0 + 0.5 <= u2 * 255.0 + 0.5;
  }

  lemma NormalToUNorm8Ends(v: real)
    ensures v <= -1.0 ==> NormalToUNorm8(v) == 0
    ensures v == 0.0 ==> NormalToUNorm8(v) == 128
    ensures v >= 1.0 ==> NormalToUNorm8(v) == 255
  {
  }

  // ---------------------------------------------------------------------
  // Little-endian fields and 3-bit digits

  function Pow(b: nat, e: nat): (p: nat)
    requires b > 0
    ensures p > 0
  {
    if e == 0 then 1 else b * Pow(b, e - 1)
  }

  /** The unsigned integer whose little-endian bytes are `bytes`. */
  function LittleEndian(bytes: seq<byte>): nat
  {
    if |bytes| == 0 then 0 else bytes[0] + 256 * LittleEndian(bytes[1..])
  }

  /** The i-th 3-bit digit of x: bits 3i..3i+2. */
  function Digit3(x: nat, i: nat): (d: nat)
    ensures d < 8
  {
    if i == 0 then x % 8 else Digit3(x / 8, i - 1)
  }

  /** The integer whose 3-bit digits, lowest first, are the low three bits of each entry. */
  function Pack3(indices: seq<byte>): nat
  {
    if |indices| == 0 then 0 else indices[0] % 8 + 8 * Pack3(indices[1..])
  }

  /** Setting the next field, (x & 7) << 3|s|, adds it above the ones already set. */
  lemma {:induction false} Pack3Snoc(s: seq<byte>, x: byte)
    ensures Pack3(s + [x]) == Pack3(s) + (x % 8) * Pow(8, |s|)
  {
    if |s| > 0 {
      var t := s + [x];
      assert t[0] == s[0] && t[1..] == s[1..] + [x];
      Pack3Snoc(s[1..], x);
      var f, p := x % 8, Pow(8, |s| - 1);
      calc {
        Pack3(t);
        s[0] % 8 + 8 * Pack3(s[1..] + [x]);
        s[0] % 8 + 8 * (Pack3(s[1..]) + f * p);
        { assert 8 * (f * p) == f * (8 * p); }
        Pack3(s) + f * Pow(8, |s|);
      }
    }
  }

  lemma {:induction false} Pack3Bound(s: seq<byte>)
    ensures Pack3(s) < Pow(8, |s|)
  {
    if |s| > 0 {
      Pack3Bound(s[1..]);
    }
  }

  /** Packing is undone by reading the digits back: field i holds the low bits of entry i. */
  lemma {:induction false} Digit3OfPack3(s: seq<byte>, i: nat)
    requires i < |s|
    ensures Digit3(Pack3(s), i) == s[i] % 8
  {
    Arith.DivModUnique(Pack3(s), 8, Pack3(s[1..]), s[0] % 8);
    if i > 0 {
      Digit3OfPack3(s[1..], i - 1);
    }
  }

  lemma DivDiv(x: nat, a: nat, b: nat)
    requires a > 0 && b > 0
    ensures x / (a * b) == (x / a) / b
  {
    var q := (x / a) / b;
    var r2 := (x / a) % b;
    var r1 := x % a;
    assert x == a * (x / a) + r1;
    assert x / a == b * q + r2;
    assert x == (a * b) * q + (a * r2 + r1) by {
      assert a * (b * q + r2) == (a * b) * q + a * r2;
    }
    assert a * r2 <= a * (b - 1) by {
      Arith.MulMonotone(r2, b - 1, a);
    }
    assert a * r2 + r1 < a * b;
    Arith.DivModUnique(x, a * b, q, a * r2 + r1);
  }

  /** The n bytes (x >> 8k) & 0xFF, k < n, read back little-endian, give x when x fits in them. */
  lemma {:induction false} LittleEndianOfBytes(bytes: seq<byte>, x: nat)
    requires x < Pow(256, |bytes|)
    requires forall k :: 0 <= k < |bytes| ==> bytes[k] == (x / Pow(256, k)) % 256
    ensures LittleEndian(bytes) == x
  {
    if |bytes| > 0 {
      var rest := bytes[1..];
      assert bytes[0] == x % 256;
      forall k | 0 <= k < |rest|
        ensures rest[k] == (x / 256 / Pow(256, k)) % 256
      {
        DivDiv(x, 256, Pow(256, k));
      }
      assert x / 256 < Pow(256, |rest|);
      LittleEndianOfBytes(rest, x / 256);
    }
  }

  // ---------------------------------------------------------------------
  // The BC4 format

  /** The scale of the palette search: one unit is 1 / (7 * 255) of full intensity. */
  const Unit: nat := 1785

  /** A texel value v / 255 in units. */
  function Level(v: byte): (l: nat)
    ensures l <= Unit
  {
    7 * v
  }

  /**
   * Entry j of the eight-value palette of endpoints ep0 > ep1, in units: the
   * endpoints, then (6 ep0 + ep1) / 7, ..., (ep0 + 6 ep1) / 7 of full scale.
   */
  function PaletteEntry(ep0: byte, ep1: byte, j: nat): (p: nat)
    requires j < 8
    ensures p <= Unit
  {
    if j == 0 then Level(ep0)
    else if j == 1 then Level(ep1)
    else (8 - j) * ep0 + (j - 1) * ep1
  }

  /** Squared distance between a texel value and a palette entry. */
  function Err(val: int, p: int): int
  {
    (val - p) * (val - p)
  }

  /** k is the first palette entry closest to val: none is closer, and every earlier one is farther. */
  ghost predicate IsNearest(val: int, palette: seq<int>, k: int)
  {
    && 0 <= k < |palette|
    && (forall j :: 0 <= j < |palette| ==> Err(val, palette[k]) <= Err(val, palette[j]))
    && (forall j :: 0 <= j < k ==> Err(val, palette[k]) < Err(val, palette[j]))
  }

  /** Every value vals[i] has idx[i] as its nearest palette index. */
  ghost predicate AllNearest(vals: seq<int>, palette: seq<int>, idx: seq<int>)
  {
    |vals| == |idx| && forall i :: 0 <= i < |vals| ==> IsNearest(vals[i], palette, idx[i])
  }

  /** The 16 texel values of a tile, in units. */
  function Levels(src: seq<byte>): (vals: seq<int>)
    ensures |vals| == |src|
    ensures forall i :: 0 <= i < |src| ==> vals[i] == Level(src[i])
  {
    seq(|src|, i requires 0 <= i < |src| => Level(src[i]))
  }

  function Palette(ep0: byte, ep1: byte): (pal: seq<int>)
    ensures |pal| == 8
    ensures forall j :: 0 <= j < 8 ==> pal[j] == PaletteEntry(ep0, ep1, j)
  {
    seq(8, j requires 0 <= j < 8 => PaletteEntry(ep0, ep1, j))
  }

  /** The palette index a BC4 decoder reads for texel i: digit i of the 48-bit field in bytes 2..7. */
  function TexelIndex(block: seq<byte>, i: nat): nat
    requires |block| == 8
  {
    Digit3(LittleEndian(block[2..8]), i)
  }

  /** The palette indices of all 16 texels, in texel order. */
  function TexelIndices(block: seq<byte>): (idx: seq<int>)
    requires |block| == 8
    ensures |idx| == 16
    ensures forall i :: 0 <= i < 16 ==> idx[i] == TexelIndex(block, i)
  {
    seq(16, i requires 0 <= i < 16 => TexelIndex(block, i))
  }

  ghost predicate IsMax(m: byte, s: seq<byte>)
  {
    m in s && forall i :: 0 <= i < |s| ==> s[i] <= m
  }

  ghost predicate IsMin(m: byte, s: seq<byte>)
  {
    m in s && forall i :: 0 <= i < |s| ==> m <= s[i]
  }

  lemma MinAtMostMax(lo: byte, hi: byte, s: seq<byte>)
    requires IsMin(lo, s) && IsMax(hi, s)
    ensures lo <= hi
  {
    var i :| 0 <= i < |s| && s[i] == hi;
  }

  /**
   * `block` is the BC4 encoding of the 16 texels `src`: endpoint 0 is their
   * maximum and endpoint 1 their minimum; a uniform tile has every index
   * byte zero; otherwise endpoint 0 exceeds endpoint 1 (eight-value mode)
   * and every texel decodes to the first palette entry closest to it.
   */
  ghost predicate IsBC4Block(block: seq<byte>, src: seq<byte>)
  {
    && |block| == 8 && |src| == 16
    && IsMax(block[0], src)
    && IsMin(block[1], src)
    && (block[0] == block[1] ==> forall k :: 2 <= k < 8 ==> block[k] == 0)
    && (block[0] != block[1] ==>
          && block[0] > block[1]
          && AllNearest(Levels(src), Palette(block[0], block[1]), TexelIndices(block)))
  }

  /** A uniform tile decodes exactly: every index is 0, which selects endpoint 0, the common value. */
  lemma UniformBlockExact(block: seq<byte>, src: seq<byte>, i: nat)
    requires IsBC4Block(block, src) && block[0] == block[1] && i < 16
    ensures TexelIndex(block, i) == 0 && src[i] == block[0]
  {
    assert LittleEndian(block[2..8]) == 0 by {
      var b := block[2..8];
      assert LittleEndian(b[5..]) == 0;
      assert LittleEndian(b[4..]) == 0 by { assert b[4..][1..] == b[5..]; }
      assert LittleEndian(b[3..]) == 0 by { assert b[3..][1..] == b[4..]; }
      assert LittleEndian(b[2..]) == 0 by { assert b[2..][1..] == b[3..]; }
      assert LittleEndian(b[1..]) == 0 by { assert b[1..][1..] == b[2..]; }
    }
    Digit3Zero(i);
  }

  lemma {:induction false} Digit3Zero(i: nat)
    ensures Digit3(0, i) == 0
  {
    if i > 0 {
      Digit3Zero(i - 1);
    }
  }

  lemma ErrZero(val: int, p: int)
    ensures Err(val, p) >= 0
    ensures Err(val, p) == 0 <==> val == p
  {
    var d := val - p;
    if d < 0 {
      assert d * d == (-d) * (-d);
    }
  }

  /**
   * The endpoints survive exactly: in an eight-value block a texel equal to
   * the maximum decodes to index 0 and one equal to the minimum to index 1.
   */
  lemma EndpointTexelsExact(block: seq<byte>, src: seq<byte>, i: nat)
    requires IsBC4Block(block, src) && block[0] != block[1] && i < 16
    ensures src[i] == block[0] ==> TexelIndex(block, i) == 0
    ensures src[i] == block[1] ==> TexelIndex(block, i) == 1
  {
    var pal := Palette(block[0], block[1]);
    var val := Level(src[i]);
    var k := TexelIndex(block, i);
    assert Levels(src)[i] == val && TexelIndices(block)[i] == k;
    assert IsNearest(val, pal, k);
    ErrZero(val, pal[0]);
    ErrZero(val, pal[1]);
    ErrZero(val, pal[k]);
    if src[i] == block[0] {
      // a later index would have to beat an error of zero
      assert Err(val, pal[0]) == 0;
    }
    if src[i] == block[1] {
      // only index 1 reaches error zero, and index 0 misses it
      assert Err(val, pal[1]) == 0 && pal[0] != val;
    }
  }

  // ---------------------------------------------------------------------
  // The encoder

  /** Step 1 of EncodeBC4Block: the running minimum and maximum over the 16 texels. */
  method BlockMinMax(src: array<byte>) returns (vMin: byte, vMax: byte)
    requires src.Length == 16
    ensures IsMin(vMin, src[..]) && IsMax(vMax, src[..])
  {
    vMin := 255;
    vMax := 0;
    ghost var iMin, iMax := 0, 0;
    var i := 0;
    while i < 16
      invariant 0 <= i <= 16 && 0 <= iMin < 16 && 0 <= iMax < 16
      invariant forall j :: 0 <= j < i ==> vMin <= src[j] <= vMax
      invariant i > 0 ==> iMin < i && src[iMin] == vMin && iMax < i && src[iMax] == vMax
      invariant i == 0 ==> vMin == 255 && vMax == 0
    {
      if src[i] <= vMin {
        iMin := i;
      }
      if src[i] >= vMax {
        iMax := i;
      }
      vMin := if src[i] < vMin then src[i] else vMin;
      vMax := if src[i] > vMax then src[i] else vMax;
      i := i + 1;
    }
    assert src[..][iMin] == vMin && src[..][iMax] == vMax;
  }

  /**
   * Step 3: the palette array, endpoints first, then v_i = ((7 - i) ep0 + i ep1) / 7
   * at slot i + 1 (in units, the division by 7 * 255 disappears).
   */
  method BuildPalette(ep0: byte, ep1: byte) returns (palette: array<int>)
    ensures fresh(palette)
    ensures palette[..] == Palette(ep0, ep1)
  {
    palette := new int[8];
    palette[0] := 7 * ep0;
    palette[1] := 7 * ep1;
    var i := 1;
    while i <= 6
      invariant 1 <= i <= 7
      invariant palette.Length == 8
      invariant forall j :: 0 <= j < i + 1 ==> palette[j] == PaletteEntry(ep0, ep1, j)
    {
      var v := (7 - i) * ep0 + i * ep1;
      palette[i + 1] := v;
      i := i + 1;
    }
  }

  /** The source's initial best error, 1e9 of full scale squared, in units squared (1e9 * 1785 * 1785). */
  const InitialBestErr: int := 3_186_225_000_000_000

  /** Step 4 for one texel: the first palette entry with the smallest squared error. */
  method NearestIndex(val: int, palette: array<int>) returns (bestIdx: byte)
    requires palette.Length == 8
    requires 0 <= val <= Unit
    requires forall j :: 0 <= j < 8 ==> 0 <= palette[j] <= Unit
    ensures IsNearest(val, palette[..], bestIdx)
  {
    var bestErr := InitialBestErr;
    bestIdx := 0;
    var j := 0;
    while j < 8
      invariant 0 <= j <= 8 && bestIdx < 8
      invariant j == 0 ==> bestIdx == 0 && bestErr == InitialBestErr
      invariant j > 0 ==> bestIdx < j && bestErr == Err(val, palette[bestIdx])
      invariant forall k :: 0 <= k < j ==> bestErr <= Err(val, palette[k])
      invariant forall k :: 0 <= k < bestIdx ==> bestErr < Err(val, palette[k])
    {
      var d := val - palette[j];
      var err := d * d;
      ErrBelowInitial(val, palette[j]);
      if err < bestErr {
        bestErr := err;
        bestIdx := j;
      }
      j := j + 1;
    }
  }

  lemma ErrBelowInitial(val: int, p: int)
    requires 0 <= val <= Unit && 0 <= p <= Unit
    ensures Err(val, p) < InitialBestErr
  {
    var d := if val >= p then val - p else p - val;
    assert Err(val, p) == d * d;
    Arith.MulMonotone(d, Unit, d);
    Arith.MulMonotone(d, Unit, Unit);
    assert Unit * Unit == 3_186_225;
  }

  /** Step 5: bits |= (index & 7) << 3i for the 16 texels. */
  method PackIndices(indices: array<byte>) returns (bits: nat)
    requires indices.Length == 16
    ensures bits == Pack3(indices[..])
  {
    bits := 0;
    var i := 0;
    while i < 16
      invariant 0 <= i <= 16
      invariant bits == Pack3(indices[..i])
    {
      assert indices[..i + 1] == indices[..i] + [indices[i]];
      Pack3Snoc(indices[..i], indices[i]);
      // the new field lies above every bit set so far, so the or is a sum
      bits := bits + (indices[i] % 8) * Pow(8, i);
      i := i + 1;
    }
    assert indices[..16] == indices[..];
  }

  /** Step 4: the nearest palette index of each of the 16 texels. */
  method ChooseIndices(src: array<byte>, palette: array<int>) returns (indices: array<byte>)
    requires src.Length == 16 && palette.Length == 8
    requires forall j :: 0 <= j < 8 ==> 0 <= palette[j] <= Unit
    ensures fresh(indices) && indices.Length == 16
    ensures AllNearest(Levels(src[..]), palette[..], indices[..])
    ensures forall t :: 0 <= t < 16 ==> indices[t] < 8
  {
    indices := new byte[16](_ => 0);
    var i := 0;
    while i < 16
      invariant 0 <= i <= 16
      invariant forall t :: 0 <= t < i ==> IsNearest(Level(src[t]), palette[..], indices[t]) && indices[t] < 8
    {
      var val := Level(src[i]);
      indices[i] := NearestIndex(val, palette);
      i := i + 1;
    }
  }

  /** The tail of step 5: byte 2 + k of the block is (bits >> 8k) & 0xFF. */
  method WriteIndexBytes(bits: nat, dst: array<byte>, off: nat)
    requires off + 8 <= dst.Length
    modifies dst
    ensures forall m :: 0 <= m < 6 ==> dst[off + 2 + m] == (bits / Pow(256, m)) % 256
    ensures forall m :: 0 <= m < dst.Length && !(off + 2 <= m < off + 8) ==> dst[m] == old(dst[m])
  {
    var k := 0;
    while k < 6
      invariant 0 <= k <= 6
      invariant forall m :: 0 <= m < k ==> dst[off + 2 + m] == (bits / Pow(256, m)) % 256
      invariant forall m :: 0 <= m < dst.Length && !(off + 2 <= m < off + 8) ==> dst[m] == old(dst[m])
    {
      dst[off + 2 + k] := (bits / Pow(256, k)) % 256;
      k := k + 1;
    }
  }

  /** Sixteen 3-bit fields fill exactly six bytes: 8^16 == 256^6 == 2^48. */
  lemma FieldWidth()
    ensures Pow(8, 16) == Pow(256, 6)
  {
    assert Pow(8, 1) == 8;
    assert Pow(8, 2) == 64;
    assert Pow(8, 3) == 512;
    assert Pow(8, 4) == 4096;
    assert Pow(8, 5) == 32768;
    assert Pow(8, 6) == 262144;
    assert Pow(8, 7) == 2097152;
    assert Pow(8, 8) == 16777216;
    assert Pow(8, 9) == 134217728;
    assert Pow(8, 10) == 1073741824;
    assert Pow(8, 11) == 8589934592;
    assert Pow(8, 12) == 68719476736;
    assert Pow(8, 13) == 549755813888;
    assert Pow(8, 14) == 4398046511104;
    assert Pow(8, 15) == 35184372088832;
    assert Pow(8, 16) == 281474976710656;
    assert Pow(256, 1) == 256;
    assert Pow(256, 2) == 65536;
    assert Pow(256, 3) == 16777216;
    assert Pow(256, 4) == 4294967296;
    assert Pow(256, 5) == 1099511627776;
    assert Pow(256, 6) == 281474976710656;
  }

  /** Bytes 2..7 written from the packed indices decode back to those indices. */
  lemma IndexField(block: seq<byte>, indices: seq<byte>)
    requires |block| == 8 && |indices| == 16
    requires forall m :: 0 <= m < 6 ==> block[2 + m] == (Pack3(indices) / Pow(256, m)) % 256
    ensures LittleEndian(block[2..8]) == Pack3(indices)
  {
    Pack3Bound(indices);
    FieldWidth();
    LittleEndianOfBytes(block[2..8], Pack3(indices));
  }

  /**
   * Bytes 2..7 written from the packed indices decode back to those indices:
   * the field of texel t, bits 3t..3t+2, holds the low three bits of its index.
   */
  lemma IndexBytesDecode(block: seq<byte>, indices: seq<byte>)
    requires |block| == 8 && |indices| == 16
    requires forall m :: 0 <= m < 6 ==> block[2 + m] == (Pack3(indices) / Pow(256, m)) % 256
    ensures forall t :: 0 <= t < 16 ==> TexelIndex(block, t) == indices[t] % 8
  {
    IndexField(block, indices);
    forall t | 0 <= t < 16
      ensures TexelIndex(block, t) == indices[t] % 8
    {
      Digit3OfPack3(indices, t);
    }
  }

  lemma LowBitsOfSmall(x: nat)
    requires x < 8
    ensures x % 8 == x
  {
  }

  /** What steps 2 to 5 leave in an eight-value block is its BC4 encoding. */
  lemma EightValueBlock(block: seq<byte>, src: seq<byte>, indices: seq<byte>)
    requires |block| == 8 && |src| == 16 && |indices| == 16
    requires IsMax(block[0], src) && IsMin(block[1], src) && block[0] != block[1]
    requires AllNearest(Levels(src), Palette(block[0], block[1]), indices)
    requires forall t :: 0 <= t < 16 ==> indices[t] < 8
    requires forall m :: 0 <= m < 6 ==> block[2 + m] == (Pack3(indices) / Pow(256, m)) % 256
    ensures IsBC4Block(block, src)
  {
    MinAtMostMax(block[1], block[0], src);
    IndexField(block, indices);
    var idx := TexelIndices(block);
    forall t | 0 <= t < 16
      ensures idx[t] == indices[t]
    {
      Digit3OfPack3(indices, t);
      LowBitsOfSmall(indices[t]);
    }
    assert idx == indices;
  }

  /** A tile whose minimum equals its maximum: both endpoints and six zero index bytes. */
  method WriteUniformBlock(v: byte, dst: array<byte>, off: nat)
    requires off + 8 <= dst.Length
    modifies dst
    ensures dst[off] == v && dst[off + 1] == v
    ensures forall k :: off + 2 <= k < off + 8 ==> dst[k] == 0
    ensures forall k :: 0 <= k < dst.Length && !(off <= k < off + 8) ==> dst[k] == old(dst[k])
  {
    dst[off] := v;
    dst[off + 1] := v;
    var i := 0;
    while i < 6
      invariant 0 <= i <= 6
      invariant dst[off] == v && dst[off + 1] == v
      invariant forall k :: off + 2 <= k < off + 2 + i ==> dst[k] == 0
      invariant forall k :: 0 <= k < dst.Length && !(off <= k < off + 8) ==> dst[k] == old(dst[k])
    {
      dst[off + i + 2] := 0;
      i := i + 1;
    }
  }

  /**
   * EncodeBC4Block(src, dst + off): writes the BC4 block of the 16 texels of
   * `src` into dst[off..off + 8] and nothing else.
   */
  method EncodeBC4Block(src: array<byte>, dst: array<byte>, off: nat)
    requires src.Length == 16 && off + 8 <= dst.Length && src != dst
    modifies dst
    ensures IsBC4Block(dst[off..off + 8], src[..])
    ensures forall k :: 0 <= k < dst.Length && !(off <= k < off + 8) ==> dst[k] == old(dst[k])
  {
    var vMin, vMax := BlockMinMax(src);
    if vMin == vMax {
      WriteUniformBlock(vMax, dst, off);
      return;
    }

    var ep0 := vMax;
    var ep1 := vMin;
    if ep0 == ep1 {
      assert false;
    }
    dst[off] := ep0;
    dst[off + 1] := ep1;

    var palette := BuildPalette(ep0, ep1);
    var indices := ChooseIndices(src, palette);
    var bits := PackIndices(indices);
    WriteIndexBytes(bits, dst, off);

    EightValueBlock(dst[off..off + 8], src[..], indices[..]);
  }

  // ---------------------------------------------------------------------
  // BC5 normal maps

  datatype Vec3 = Vec3(x: real, y: real, z: real)

  /** Texel t (row t / 4, column t % 4) of the 4x4 tile (tx, ty) of a width-wide map. */
  function TexelOf(normals: seq<Vec3>, width: nat, height: nat, tx: nat, ty: nat, t: nat): (n: Vec3)
    requires |normals| == width * height && t < 16
    requires tx * 4 + 4 <= width && ty * 4 + 4 <= height
  {
    Grid.Index2DInRange(width, height, tx * 4 + t % 4, ty * 4 + t / 4);
    normals[Grid.Index2D(width, tx * 4 + t % 4, ty * 4 + t / 4)]
  }

  /** The red tile: the x components as UNORM8. */
  function RedTile(normals: seq<Vec3>, width: nat, height: nat, tx: nat, ty: nat): (tile: seq<byte>)
    requires |normals| == width * height
    requires tx * 4 + 4 <= width && ty * 4 + 4 <= height
    ensures |tile| == 16
  {
    seq(16, t requires 0 <= t < 16 => NormalToUNorm8(TexelOf(normals, width, height, tx, ty, t).x))
  }

  /** The green tile: the z components as UNORM8. */
  function GreenTile(normals: seq<Vec3>, width: nat, height: nat, tx: nat, ty: nat): (tile: seq<byte>)
    requires |normals| == width * height
    requires tx * 4 + 4 <= width && ty * 4 + 4 <= height
    ensures |tile| == 16
  {
    seq(16, t requires 0 <= t < 16 => NormalToUNorm8(TexelOf(normals, width, height, tx, ty, t).z))
  }

  /** Where the BC5 block of tile (tx, ty) starts: blocks are stored row by row, 16 bytes each. */
  function BlockOffset(blockCountX: nat, tx: nat, ty: nat): nat
  {
    16 * Grid.Index2D(blockCountX, tx, ty)
  }

  /** Bytes 0..7 of tile (tx, ty)'s block encode its red tile and bytes 8..15 its green tile. */
  ghost predicate TileEncoded(out: seq<byte>, normals: seq<Vec3>, width: nat, height: nat, tx: nat, ty: nat)
  {
    var o := BlockOffset(width / 4, tx, ty);
    && |normals| == width * height
    && tx * 4 + 4 <= width && ty * 4 + 4 <= height
    && o + 16 <= |out|
    && IsBC4Block(out[o..o + 8], RedTile(normals, width, height, tx, ty))
    && IsBC4Block(out[o + 8..o + 16], GreenTile(normals, width, height, tx, ty))
  }

  lemma TileFits(width: nat, height: nat, tx: nat, ty: nat)
    requires width % 4 == 0 && height % 4 == 0
    requires tx < width / 4 && ty < height / 4
    ensures tx * 4 + 4 <= width && ty * 4 + 4 <= height
    ensures BlockOffset(width / 4, tx, ty) + 16 <= 16 * ((width / 4) * (height / 4))
  {
    Grid.Index2DInRange(width / 4, height / 4, tx, ty);
  }

  /** The 4x4 gather: blockR and blockG receive the red and green tile of (tx, ty). */
  method GatherTile(normals: array<Vec3>, width: nat, height: nat, tx: nat, ty: nat,
                    blockR: array<byte>, blockG: array<byte>)
    requires normals.Length == width * height
    requires tx * 4 + 4 <= width && ty * 4 + 4 <= height
    requires blockR.Length == 16 && blockG.Length == 16 && blockR != blockG
    modifies blockR, blockG
    ensures blockR[..] == RedTile(normals[..], width, height, tx, ty)
    ensures blockG[..] == GreenTile(normals[..], width, height, tx, ty)
  {
    var iy := 0;
    while iy < 4
      invariant 0 <= iy <= 4
      invariant forall t :: 0 <= t < 4 * iy ==>
                  blockR[t] == NormalToUNorm8(TexelOf(normals[..], width, height, tx, ty, t).x)
                  && blockG[t] == NormalToUNorm8(TexelOf(normals[..], width, height, tx, ty, t).z)
    {
      var ix := 0;
      while ix < 4
        invariant 0 <= ix <= 4
        invariant forall t :: 0 <= t < 4 * iy + ix ==>
                    blockR[t] == NormalToUNorm8(TexelOf(normals[..], width, height, tx, ty, t).x)
                    && blockG[t] == NormalToUNorm8(TexelOf(normals[..], width, height, tx, ty, t).z)
      {
        var x := tx * 4 + ix;
        var y := ty * 4 + iy;
        Grid.Index2DInRange(width, height, x, y);
        var srcIdx := y * width + x;
        var n := normals[srcIdx];
        var texelIndex := iy * 4 + ix;
        assert texelIndex / 4 == iy && texelIndex % 4 == ix;
        assert n == TexelOf(normals[..], width, height, tx, ty, texelIndex);
        blockR[texelIndex] := NormalToUNorm8(n.x);
        blockG[texelIndex] := NormalToUNorm8(n.z);
        ix := ix + 1;
      }
      iy := iy + 1;
    }
  }

  lemma TileOrder(blockCountX: nat, tx': nat, ty': nat, tx: nat, ty: nat)
    requires tx' < blockCountX && tx < blockCountX
    requires ty' < ty || (ty' == ty && tx' < tx)
    ensures BlockOffset(blockCountX, tx', ty') + 16 <= BlockOffset(blockCountX, tx, ty)
  {
    if ty' < ty {
      Arith.MulMonotone(ty' + 1, ty, blockCountX);
    }
  }

  /** A tile's encoding survives writes that all lie past its block. */
  lemma KeepTile(before: seq<byte>, after: seq<byte>, normals: seq<Vec3>, width: nat, height: nat,
                 tx: nat, ty: nat, lo: nat)
    requires TileEncoded(before, normals, width, height, tx, ty)
    requires |after| == |before| && BlockOffset(width / 4, tx, ty) + 16 <= lo
    requires forall k :: 0 <= k < lo && k < |before| ==> after[k] == before[k]
    ensures TileEncoded(after, normals, width, height, tx, ty)
  {
    var o := BlockOffset(width / 4, tx, ty);
    assert after[o..o + 8] == before[o..o + 8];
    assert after[o + 8..o + 16] == before[o + 8..o + 16];
  }

  /** The body of the tile loop: gather tile (tx, ty), then its red and its green BC4 block at `off`. */
  method EncodeTile(normals: array<Vec3>, width: nat, height: nat, tx: nat, ty: nat,
                    blockR: array<byte>, blockG: array<byte>, out: array<byte>, off: nat)
    requires normals.Length == width * height
    requires tx * 4 + 4 <= width && ty * 4 + 4 <= height
    requires blockR.Length == 16 && blockG.Length == 16 && blockR != blockG
    requires out != blockR && out != blockG
    requires off == BlockOffset(width / 4, tx, ty) && off + 16 <= out.Length
    modifies blockR, blockG, out
    ensures TileEncoded(out[..], normals[..], width, height, tx, ty)
    ensures forall k :: 0 <= k < out.Length && !(off <= k < off + 16) ==> out[k] == old(out[k])
  {
    GatherTile(normals, width, height, tx, ty, blockR, blockG);
    EncodeBC4Block(blockR, out, off);
    ghost var mid := out[..];
    EncodeBC4Block(blockG, out, off + 8);
    assert out[off..off + 8] == mid[off..off + 8];
  }

  /** One pass of the inner tile loop: every tile of row ty, left to right, after the rows above it. */
  method EncodeTileRow(normals: array<Vec3>, width: nat, height: nat, ty: nat,
                       blockR: array<byte>, blockG: array<byte>, out: array<byte>, dstOffset: nat)
    returns (nextOffset: nat)
    requires width % 4 == 0 && height % 4 == 0 && ty < height / 4
    requires normals.Length == width * height
    requires blockR.Length == 16 && blockG.Length == 16 && blockR != blockG
    requires out != blockR && out != blockG
    requires out.Length == 16 * ((width / 4) * (height / 4))
    requires dstOffset == BlockOffset(width / 4, 0, ty)
    requires forall tx': nat, ty': nat :: tx' < width / 4 && ty' < ty ==>
               TileEncoded(out[..], normals[..], width, height, tx', ty')
    modifies blockR, blockG, out
    ensures nextOffset == BlockOffset(width / 4, 0, ty + 1)
    ensures forall tx': nat, ty': nat :: tx' < width / 4 && ty' <= ty ==>
              TileEncoded(out[..], normals[..], width, height, tx', ty')
  {
    var blockCountX := width / 4;
    nextOffset := dstOffset;
    var tx := 0;
    while tx < blockCountX
      invariant 0 <= tx <= blockCountX
      invariant nextOffset == BlockOffset(blockCountX, tx, ty)
      invariant forall tx': nat, ty': nat :: tx' < blockCountX && (ty' < ty || (ty' == ty && tx' < tx)) ==>
                  TileEncoded(out[..], normals[..], width, height, tx', ty')
    {
      TileFits(width, height, tx, ty);
      ghost var before := out[..];
      EncodeTile(normals, width, height, tx, ty, blockR, blockG, out, nextOffset);
      forall tx': nat, ty': nat | tx' < blockCountX && (ty' < ty || (ty' == ty && tx' < tx))
        ensures TileEncoded(out[..], normals[..], width, height, tx', ty')
      {
        TileOrder(blockCountX, tx', ty', tx, ty);
        KeepTile(before, out[..], normals[..], width, height, tx', ty', nextOffset);
      }
      nextOffset := nextOffset + 16;
      tx := tx + 1;
    }
  }

  /**
   * EncodeNormalMapBC5: a width x height map (both multiples of 4) becomes
   * 16 * (width / 4) * (height / 4) bytes, the block of tile (tx, ty) at
   * 16 * (ty * (width / 4) + tx), red block first.
   */
  method EncodeNormalMapBC5(normals: array<Vec3>, width: nat, height: nat) returns (out: array<byte>)
    requires width > 0 && height > 0
    requires width % 4 == 0 && height % 4 == 0
    requires normals.Length == width * height
    ensures fresh(out)
    ensures out.Length == 16 * ((width / 4) * (height / 4))
    ensures forall tx: nat, ty: nat :: tx < width / 4 && ty < height / 4 ==>
              TileEncoded(out[..], normals[..], width, height, tx, ty)
  {
    var blockCountX := width / 4;
    var blockCountY := height / 4;
    var totalBlocks := blockCountX * blockCountY;
    out := new byte[totalBlocks * 16](_ => 0);
    var blockR := new byte[16](_ => 0);
    var blockG := new byte[16](_ => 0);
    var dstOffset := 0;

    var ty := 0;
    while ty < blockCountY
      invariant 0 <= ty <= blockCountY
      invariant dstOffset == BlockOffset(blockCountX, 0, ty)
      invariant forall tx': nat, ty': nat :: tx' < blockCountX && ty' < ty ==>
                  TileEncoded(out[..], normals[..], width, height, tx', ty')
    {
      dstOffset := EncodeTileRow(normals, width, height, ty, blockR, blockG, out, dstOffset);
      ty := ty + 1;
    }
  }
}
