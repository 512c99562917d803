/**
 * Grid2D and Grid3D of SectorFW/Util/Grid.hpp: a dense grid stored row by
 * row in one flat vector, cell (x, y) at y * width + x and cell (x, y, z) at
 * z * width * height + y * width + x.
 *
 * The size type is modelled as unbounded; element access is modelled as a
 * reading function and a writing method, in place of the mutable reference
 * that operator() hands out.
 */
module Grid {
  import opened Arith

  // ---------------------------------------------------------------------
  // Flat index arithmetic

  /** Position of cell (x, y) in the flat storage of a grid `width` cells wide. */
  function Index2D(width: nat, x: nat, y: nat): nat
  {
    y * width + x
  }

  /** Every cell of a width x height grid has its index inside the storage. */
  lemma Index2DInRange(width: nat, height: nat, x: nat, y: nat)
    requires x < width && y < height
    ensures Index2D(width, x, y) < width * height
  {
    MulMonotone(y + 1, height, width);
  }

  /** The flat index decodes back to its coordinates by division and remainder. */
  lemma Index2DDecode(width: nat, x: nat, y: nat)
    requires x < width
    ensures Index2D(width, x, y) / width == y
    ensures Index2D(width, x, y) % width == x
  {
    DivModUnique(Index2D(width, x, y), width, y, x);
  }

  /** Two cells share a storage slot exactly when they are the same cell. */
  lemma Index2DInjective(width: nat, x1: nat, y1: nat, x2: nat, y2: nat)
    requires x1 < width && x2 < width
    ensures Index2D(width, x1, y1) == Index2D(width, x2, y2) <==> x1 == x2 && y1 == y2
  {
    Index2DDecode(width, x1, y1);
    Index2DDecode(width, x2, y2);
  }

  /** Every storage slot belongs to some cell: the indexing covers the storage. */
  lemma Index2DOnto(width: nat, height: nat, i: nat)
    requires i < width * height
    ensures width > 0
    ensures i % width < width && i / width < height
    ensures Index2D(width, i % width, i / width) == i
  {
    if width > 0 && i / width >= height {
      MulMonotone(height, i / width, width);
    }
  }

  /** Position of cell (x, y, z): slices of width * height cells, each stored row by row. */
  function Index3D(width: nat, height: nat, x: nat, y: nat, z: nat): nat
  {
    z * width * height + y * width + x
  }

  lemma Index3DSplit(width: nat, height: nat, x: nat, y: nat, z: nat)
    ensures Index3D(width, height, x, y, z) == z * (width * height) + Index2D(width, x, y)
  {
    assert z * width * height == z * (width * height);
  }

  lemma Index3DInRange(width: nat, height: nat, depth: nat, x: nat, y: nat, z: nat)
    requires x < width && y < height && z < depth
    ensures Index3D(width, height, x, y, z) < width * height * depth
  {
    Index3DSplit(width, height, x, y, z);
    Index2DInRange(width, height, x, y);
    MulMonotone(z + 1, depth, width * height);
    assert width * height * depth == depth * (width * height);
  }

  lemma Index3DDecode(width: nat, height: nat, x: nat, y: nat, z: nat)
    requires x < width && y < height
    ensures Index3D(width, height, x, y, z) / (width * height) == z
    ensures Index3D(width, height, x, y, z) % (width * height) == Index2D(width, x, y)
  {
    Index3DSplit(width, height, x, y, z);
    Index2DInRange(width, height, x, y);
    DivModUnique(Index3D(width, height, x, y, z), width * height, z, Index2D(width, x, y));
  }

  lemma Index3DInjective(width: nat, height: nat, x1: nat, y1: nat, z1: nat, x2: nat, y2: nat, z2: nat)
    requires x1 < width && y1 < height && x2 < width && y2 < height
    ensures Index3D(width, height, x1, y1, z1) == Index3D(width, height, x2, y2, z2)
            <==> x1 == x2 && y1 == y2 && z1 == z2
  {
    Index3DDecode(width, height, x1, y1, z1);
    Index3DDecode(width, height, x2, y2, z2);
    Index2DInjective(width, x1, y1, x2, y2);
  }

  // ---------------------------------------------------------------------
  // The grids

  class Grid2D<T> {
    var width: nat
    var height: nat
    var data: seq<T>

    ghost predicate Valid()
      reads this
    {
      |data| == width * height
    }

    /** Grid2D(width, height, args...): width * height copies of one value. */
    constructor(width: nat, height: nat, fill: T)
      ensures Valid()
      ensures this.width == width && this.height == height
      ensures forall i :: 0 <= i < |data| ==> data[i] == fill
    {
      this.width := width;
      this.height := height;
      data := seq(width * height, _ => fill);
    }

    /** size(): the number of cells, which is the length of the storage. */
    function Size(): (n: nat)
      reads this
      ensures Valid() ==> n == |data|
    {
      width * height
    }

    /** operator() const: the value of cell (x, y). */
    function At(x: nat, y: nat): (v: T)
      reads this
      requires Valid() && x < width && y < height
      ensures Index2D(width, x, y) < |data| && v == data[Index2D(width, x, y)]
    {
      Index2DInRange(width, height, x, y);
      data[Index2D(width, x, y)]
    }

    /** Assignment through operator(): cell (x, y) becomes v and every other cell keeps its value. */
    method Set(x: nat, y: nat, v: T)
      requires Valid() && x < width && y < height
      modifies this
      ensures Valid() && width == old(width) && height == old(height)
      ensures At(x, y) == v
      ensures forall x': nat, y': nat :: x' < width && y' < height && (x', y') != (x, y) ==> At(x', y') == old(At(x', y'))
    {
      Index2DInRange(width, height, x, y);
      data := data[Index2D(width, x, y) := v];
      forall x': nat, y': nat | x' < width && y' < height && (x', y') != (x, y)
        ensures At(x', y') == old(At(x', y'))
      {
        Index2DInjective(width, x, y, x', y');
        Index2DInRange(width, height, x', y');
      }
    }
  }

  class Grid3D<T> {
    var width: nat
    var height: nat
    var depth: nat
    var data: seq<T>

    ghost predicate Valid()
      reads this
    {
      |data| == width * height * depth
    }

    /** Grid3D(width, height, depth, args...): width * height * depth copies of one value. */
    constructor(width: nat, height: nat, depth: nat, fill: T)
      ensures Valid()
      ensures this.width == width && this.height == height && this.depth == depth
      ensures forall i :: 0 <= i < |data| ==> data[i] == fill
    {
      this.width := width;
      this.height := height;
      this.depth := depth;
      data := seq(width * height * depth, _ => fill);
    }

    /** size(): the number of cells, which is the length of the storage. */
    function Size(): (n: nat)
      reads this
      ensures Valid() ==> n == |data|
    {
      width * height * depth
    }

    /** operator() const: the value of cell (x, y, z). */
    function At(x: nat, y: nat, z: nat): (v: T)
      reads this
      requires Valid() && x < width && y < height && z < depth
      ensures Index3D(width, height, x, y, z) < |data| && v == data[Index3D(width, height, x, y, z)]
    {
      Index3DInRange(width, height, depth, x, y, z);
      data[Index3D(width, height, x, y, z)]
    }

    /** Assignment through operator(): cell (x, y, z) becomes v and every other cell keeps its value. */
    method Set(x: nat, y: nat, z: nat, v: T)
      requires Valid() && x < width && y < height && z < depth
      modifies this
      ensures Valid() && width == old(width) && height == old(height) && depth == old(depth)
      ensures At(x, y, z) == v
      ensures forall x': nat, y': nat, z': nat :: x' < width && y' < height && z' < depth && (x', y', z') != (x, y, z)
                ==> At(x', y', z') == old(At(x', y', z'))
    {
      Index3DInRange(width, height, depth, x, y, z);
      data := data[Index3D(width, height, x, y, z) := v];
      forall x': nat, y': nat, z': nat | x' < width && y' < height && z' < depth && (x', y', z') != (x, y, z)
        ensures At(x', y', z') == old(At(x', y', z'))
      {
        Index3DInjective(width, height, x, y, z, x', y', z');
        Index3DInRange(width, height, depth, x', y', z');
      }
    }
  }
}
