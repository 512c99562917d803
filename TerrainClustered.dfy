// Clustered terrain mesh: the per-cluster index pool built over a regular
// grid of cells, the welding of vertices that share a quantised XZ position,
// and the skirt strips added along each cluster's border.

module TerrainClustered {
  import Arith

  /** The UINT32_MAX sentinel of the remap and skirt tables. */
  const UintMax: nat := 0xFFFF_FFFF

  /** Row-major vertex index of grid point (x, z) in a grid vx points wide. */
  function VIdx(x: nat, z: nat, vx: nat): nat
  {
    z * vx + x
  }

  /** Cells per axis split into clusters of cc cells: the last cluster may be narrower. */
  function CeilDiv(cells: nat, cc: nat): (r: nat)
    requires cc > 0
    ensures r * cc >= cells && (r == 0 || (r - 1) * cc < cells)
  {
    var r := (cells + cc - 1) / cc;
    assert r * cc + (cells + cc - 1) % cc == cells + cc - 1;
    r
  }

  /** The two triangles of cell (x, z): (v00, v10, v11) and (v00, v11, v01). */
  function CellIndices(x: nat, z: nat, vx: nat): seq<nat>
  {
    [VIdx(x, z, vx), VIdx(x + 1, z, vx), VIdx(x + 1, z + 1, vx),
     VIdx(x, z, vx), VIdx(x + 1, z + 1, vx), VIdx(x, z + 1, vx)]
  }

  /** The indices of the cells x0 .. x-1 of row z, left to right. */
  function RowIndices(x0: nat, x: nat, z: nat, vx: nat): seq<nat>
    decreases x
  {
    if x <= x0 then [] else RowIndices(x0, x - 1, z, vx) + CellIndices(x - 1, z, vx)
  }

  /** The indices of the cells [x0, x1) x [z0, z), row after row. */
  function BlockIndices(x0: nat, x1: nat, z0: nat, z: nat, vx: nat): seq<nat>
    decreases z
  {
    if z <= z0 then [] else BlockIndices(x0, x1, z0, z - 1, vx) + RowIndices(x0, x1, z - 1, vx)
  }

  /** The cell range [c*cc, min(c*cc + cc, cells)) a cluster covers along one axis. */
  function SpanEnd(c: nat, cc: nat, cells: nat): nat
  {
    if c * cc + cc < cells then c * cc + cc else cells
  }

  /** The grid parameters BuildClusters is called with. */
  datatype Grid = Grid(cellsX: nat, cellsZ: nat, clusterCellsX: nat, clusterCellsZ: nat)
  {
    predicate Valid() { clusterCellsX > 0 && clusterCellsZ > 0 }
    function ClustersX(): nat requires Valid() { CeilDiv(cellsX, clusterCellsX) }
    function ClustersZ(): nat requires Valid() { CeilDiv(cellsZ, clusterCellsZ) }
    function VertsX(): nat { cellsX + 1 }
  }

  /** The local index list of cluster (cx, cz): its cells' triangles, row after row. */
  function ClusterIndices(g: Grid, cx: nat, cz: nat): seq<nat>
  {
    BlockIndices(cx * g.clusterCellsX, SpanEnd(cx, g.clusterCellsX, g.cellsX),
                 cz * g.clusterCellsZ, SpanEnd(cz, g.clusterCellsZ, g.cellsZ), g.VertsX())
  }

  /** The local index lists of all clusters, by cluster id cz * clustersX + cx. */
  function Locals(g: Grid): (ls: seq<seq<nat>>)
    requires g.Valid()
    ensures |ls| == g.ClustersX() * g.ClustersZ()
  {
    var cX := g.ClustersX();
    seq(cX * g.ClustersZ(), id requires 0 <= id < cX * g.ClustersZ() => ClusterIndices(g, id % cX, id / cX))
  }

  /** The concatenation of index lists, in order. */
  function Flatten(ls: seq<seq<nat>>): seq<nat>
  {
    if ls == [] then [] else Flatten(ls[..|ls| - 1]) + ls[|ls| - 1]
  }

  /** A cluster's draw range inside the shared index pool. */
  datatype ClusterRange = ClusterRange(indexOffset: nat, indexCount: nat)

  /** The indices a cluster draws. */
  function Drawn(pool: seq<nat>, r: ClusterRange): seq<nat>
    requires r.indexOffset + r.indexCount <= |pool|
  {
    pool[r.indexOffset .. r.indexOffset + r.indexCount]
  }

  /** Clusters laid out back to back: each range starts where the ranges before it end. */
  ghost predicate Laid(pool: seq<nat>, clusters: seq<ClusterRange>, ls: seq<seq<nat>>)
  {
    && |clusters| == |ls|
    && pool == Flatten(ls)
    && forall id :: 0 <= id < |ls| ==> clusters[id] == ClusterRange(|Flatten(ls[..id])|, |ls[id]|)
  }

  // ---------------------------------------------------------------- BuildClusters

  /**
   * BuildClusters: one cluster per clusterCellsX x clusterCellsZ block of
   * cells, each holding its cells' two triangles, concatenated into one pool.
   */
  method BuildClusters(g: Grid) returns (pool: seq<nat>, clusters: seq<ClusterRange>, clustersX: nat, clustersZ: nat)
    requires g.Valid()
    ensures clustersX == g.ClustersX() && clustersZ == g.ClustersZ()
    ensures |clusters| == clustersX * clustersZ
    ensures Laid(pool, clusters, Locals(g))
  {
    clustersX := CeilDiv(g.cellsX, g.clusterCellsX);
    clustersZ := CeilDiv(g.cellsZ, g.clusterCellsZ);
    var temp := CollectLocals(g, clustersX, clustersZ);
    pool, clusters := Concatenate(temp, clustersX, clustersZ);
  }

  /** The first pass: each cluster's local triangle list, in cluster-id order. */
  method CollectLocals(g: Grid, clustersX: nat, clustersZ: nat) returns (temp: seq<seq<nat>>)
    requires g.Valid() && clustersX == g.ClustersX() && clustersZ == g.ClustersZ()
    ensures temp == Locals(g)
  {
    ghost var ls := Locals(g);
    temp := [];
    var cz := 0;
    while cz < clustersZ
      invariant cz <= clustersZ && |temp| == cz * clustersX <= |ls|
      invariant temp == ls[..|temp|]
    {
      Arith.MulMonotone(cz + 1, clustersZ, clustersX);
      var cx := 0;
      while cx < clustersX
        invariant cx <= clustersX && |temp| == cz * clustersX + cx && (cz + 1) * clustersX <= |ls|
        invariant temp == ls[..|temp|]
      {
        var x0, z0 := cx * g.clusterCellsX, cz * g.clusterCellsZ;
        var x1 := if x0 + g.clusterCellsX < g.cellsX then x0 + g.clusterCellsX else g.cellsX;
        var z1 := if z0 + g.clusterCellsZ < g.cellsZ then z0 + g.clusterCellsZ else g.cellsZ;
        var indices := ClusterLocal(x0, x1, z0, z1, g.cellsX + 1);
        IdSplit(cz, cx, clustersX);
        assert ls[|temp|] == indices;
        temp := temp + [indices];
        cx := cx + 1;
      }
      cz := cz + 1;
    }
  }

  /** Cluster id cz * clustersX + cx splits back into (cx, cz). */
  lemma IdSplit(cz: nat, cx: nat, clustersX: nat)
    requires cx < clustersX
    ensures (cz * clustersX + cx) % clustersX == cx && (cz * clustersX + cx) / clustersX == cz
  {
    Arith.DivModUnique(cz * clustersX + cx, clustersX, cz, cx);
  }

  /** The inner loops of the first pass: two triangles per cell, row after row. */
  method ClusterLocal(x0: nat, x1: nat, z0: nat, z1: nat, vx: nat) returns (indices: seq<nat>)
    ensures indices == BlockIndices(x0, x1, z0, z1, vx)
  {
    indices := [];
    var z := z0;
    while z < z1
      invariant z0 <= z <= (if z0 <= z1 then z1 else z0)
      invariant indices == BlockIndices(x0, x1, z0, z, vx)
    {
      var x := x0;
      while x < x1
        invariant x0 <= x <= (if x0 <= x1 then x1 else x0)
        invariant indices == BlockIndices(x0, x1, z0, z, vx) + RowIndices(x0, x, z, vx)
      {
        var v00, v10 := VIdx(x, z, vx), VIdx(x + 1, z, vx);
        var v01, v11 := VIdx(x, z + 1, vx), VIdx(x + 1, z + 1, vx);
        indices := indices + [v00, v10, v11] + [v00, v11, v01];
        x := x + 1;
      }
      assert RowIndices(x0, x, z, vx) == RowIndices(x0, x1, z, vx);
      z := z + 1;
    }
  }

  /** The second pass: concatenate the local lists, each range starting at the running total. */
  method Concatenate(temp: seq<seq<nat>>, clustersX: nat, clustersZ: nat) returns (pool: seq<nat>, clusters: seq<ClusterRange>)
    requires |temp| == clustersX * clustersZ
    ensures Laid(pool, clusters, temp)
  {
    pool := [];
    clusters := seq(|temp|, _ => ClusterRange(0, 0));
    var running := 0;
    var cz := 0;
    ghost var id := 0;
    while cz < clustersZ
      invariant cz <= clustersZ && |clusters| == |temp| && id == cz * clustersX <= |temp|
      invariant Placed(pool, clusters, temp, id) && running == |pool|
    {
      Arith.MulMonotone(cz + 1, clustersZ, clustersX);
      var cx := 0;
      while cx < clustersX
        invariant cx <= clustersX && id == cz * clustersX + cx && (cz + 1) * clustersX <= |temp|
        invariant |clusters| == |temp| && Placed(pool, clusters, temp, id) && running == |pool|
      {
        var i := cz * clustersX + cx;
        pool, clusters := PlaceOne(pool, clusters, temp, i, running);
        running := running + |temp[i]|;
        cx := cx + 1;
        id := id + 1;
      }
      cz := cz + 1;
    }
    assert temp[..id] == temp;
  }

  /** The first id lists are concatenated into the pool, each range recorded at its running total. */
  ghost predicate Placed(pool: seq<nat>, clusters: seq<ClusterRange>, ls: seq<seq<nat>>, n: nat)
    requires n <= |ls| && |clusters| == |ls|
  {
    && pool == Flatten(ls[..n])
    && forall id :: 0 <= id < n ==> clusters[id] == ClusterRange(|Flatten(ls[..id])|, |ls[id]|)
  }

  /** One step of the second pass: record the range of cluster id and append its list. */
  method PlaceOne(pool: seq<nat>, clusters: seq<ClusterRange>, ls: seq<seq<nat>>, id: nat, running: nat)
    returns (pool': seq<nat>, clusters': seq<ClusterRange>)
    requires id < |ls| && |clusters| == |ls| && Placed(pool, clusters, ls, id) && running == |pool|
    ensures |clusters'| == |ls| && Placed(pool', clusters', ls, id + 1) && |pool'| == running + |ls[id]|
  {
    var local := ls[id];
    clusters' := clusters[id := ClusterRange(running, |local|)];
    pool' := pool + local;
    FlattenSnoc(ls, id);
  }

  lemma FlattenSnoc(ls: seq<seq<nat>>, n: nat)
    requires n < |ls|
    ensures Flatten(ls[..n + 1]) == Flatten(ls[..n]) + ls[n]
  {
    assert ls[..n + 1][..n] == ls[..n];
  }

  // ------------------------------------------------------- what BuildClusters promises

  lemma {:induction false} FlattenSplit(ls: seq<seq<nat>>, n: nat)
    requires n <= |ls|
    ensures Flatten(ls) == Flatten(ls[..n]) + Flatten(ls[n..])
    decreases |ls|
  {
    if n < |ls| {
      var m := |ls| - 1;
      FlattenSplit(ls[..m], n);
      assert ls[..m][..n] == ls[..n];
      assert ls[n..][..|ls[n..]| - 1] == ls[..m][n..];
    } else {
      assert ls[..n] == ls;
    }
  }

  /**
   * Each cluster draws exactly its own cells' triangles, and the ranges are
   * running sums: the first starts at 0, each next one where the previous
   * ends, and the last ends at the pool's end.
   */
  lemma LaidRanges(pool: seq<nat>, clusters: seq<ClusterRange>, ls: seq<seq<nat>>)
    requires Laid(pool, clusters, ls)
    ensures forall id :: 0 <= id < |ls| ==>
              clusters[id].indexOffset + clusters[id].indexCount <= |pool| && Drawn(pool, clusters[id]) == ls[id]
    ensures |ls| > 0 ==>
              clusters[0].indexOffset == 0 &&
              clusters[|ls| - 1].indexOffset + clusters[|ls| - 1].indexCount == |pool|
    ensures forall id :: 0 <= id < |ls| - 1 ==>
              clusters[id + 1].indexOffset == clusters[id].indexOffset + clusters[id].indexCount
  {
    forall id | 0 <= id < |ls|
      ensures clusters[id].indexOffset + clusters[id].indexCount <= |pool| && Drawn(pool, clusters[id]) == ls[id]
      ensures |Flatten(ls[..id + 1])| == clusters[id].indexOffset + clusters[id].indexCount
    {
      FlattenSplit(ls, id + 1);
      FlattenSnoc(ls, id);
    }
    if |ls| > 0 {
      assert ls[..|ls|] == ls;
    }
  }

  lemma {:induction false} RowCount(x0: nat, x: nat, z: nat, vx: nat)
    ensures |RowIndices(x0, x, z, vx)| == if x <= x0 then 0 else 6 * (x - x0)
    decreases x
  {
    if x > x0 {
      RowCount(x0, x - 1, z, vx);
    }
  }

  /** A block of cells holds six indices per cell. */
  lemma {:induction false} BlockCount(x0: nat, x1: nat, z0: nat, z: nat, vx: nat)
    requires x0 <= x1
    ensures |BlockIndices(x0, x1, z0, z, vx)| == if z <= z0 then 0 else 6 * (x1 - x0) * (z - z0)
    decreases z
  {
    if z > z0 {
      BlockCount(x0, x1, z0, z - 1, vx);
      RowCount(x0, x1, z - 1, vx);
      assert 6 * (x1 - x0) * (z - z0) == 6 * (x1 - x0) * (z - 1 - z0) + 6 * (x1 - x0);
    }
  }

  lemma {:induction false} RowInRange(x0: nat, x: nat, z: nat, vx: nat)
    requires x < vx
    ensures forall i :: 0 <= i < |RowIndices(x0, x, z, vx)| ==> RowIndices(x0, x, z, vx)[i] < (z + 2) * vx
    decreases x
  {
    if x > x0 {
      RowInRange(x0, x - 1, z, vx);
    }
  }

  /** Every index of a block of cells names a grid point of the block's last vertex row or before. */
  lemma {:induction false} BlockInRange(x0: nat, x1: nat, z0: nat, z: nat, vx: nat)
    requires x1 < vx
    ensures forall i :: 0 <= i < |BlockIndices(x0, x1, z0, z, vx)| ==> BlockIndices(x0, x1, z0, z, vx)[i] < (z + 1) * vx
    decreases z
  {
    if z > z0 {
      BlockInRange(x0, x1, z0, z - 1, vx);
      RowInRange(x0, x1, z - 1, vx);
      Arith.MulMonotone(z, z + 1, vx);
    }
  }

  lemma {:induction false} RowCellAt(x0: nat, x1: nat, z: nat, vx: nat, x: nat)
    requires x0 <= x < x1
    ensures 6 * (x - x0) + 6 <= |RowIndices(x0, x1, z, vx)|
    ensures RowIndices(x0, x1, z, vx)[6 * (x - x0) .. 6 * (x - x0) + 6] == CellIndices(x, z, vx)
    decreases x1
  {
    RowCount(x0, x1 - 1, z, vx);
    if x < x1 - 1 {
      RowCellAt(x0, x1 - 1, z, vx, x);
    }
  }

  /** Six times the row-major rank of cell (x, z) inside a block x0 .. x1 wide starting at row z0. */
  function CellRank(x0: nat, x1: nat, z0: nat, x: nat, z: nat): nat
    requires x0 <= x <= x1 && z0 <= z
  {
    Arith.MulMonotone(0, z - z0, x1 - x0);
    6 * ((z - z0) * (x1 - x0)) + 6 * (x - x0)
  }

  /** Cell (x, z) of a block owns the six indices at position 6 * (its rank in row-major order). */
  lemma {:induction false} BlockCellAt(x0: nat, x1: nat, z0: nat, z1: nat, vx: nat, x: nat, z: nat)
    requires x0 <= x < x1 && z0 <= z < z1
    ensures CellRank(x0, x1, z0, x, z) + 6 <= |BlockIndices(x0, x1, z0, z1, vx)|
    ensures BlockIndices(x0, x1, z0, z1, vx)[CellRank(x0, x1, z0, x, z) .. CellRank(x0, x1, z0, x, z) + 6] == CellIndices(x, z, vx)
    decreases z1
  {
    if z < z1 - 1 {
      BlockCellAt(x0, x1, z0, z1 - 1, vx, x, z);
      SliceLeft(BlockIndices(x0, x1, z0, z1 - 1, vx), RowIndices(x0, x1, z1 - 1, vx), CellRank(x0, x1, z0, x, z), 6);
    } else {
      BlockCellLastRow(x0, x1, z0, z, vx, x);
    }
  }

  lemma BlockCellLastRow(x0: nat, x1: nat, z0: nat, z: nat, vx: nat, x: nat)
    requires x0 <= x < x1 && z0 <= z
    ensures CellRank(x0, x1, z0, x, z) + 6 <= |BlockIndices(x0, x1, z0, z + 1, vx)|
    ensures BlockIndices(x0, x1, z0, z + 1, vx)[CellRank(x0, x1, z0, x, z) .. CellRank(x0, x1, z0, x, z) + 6] == CellIndices(x, z, vx)
  {
    var prev, row := BlockIndices(x0, x1, z0, z, vx), RowIndices(x0, x1, z, vx);
    BlockCount(x0, x1, z0, z, vx);
    RowCellAt(x0, x1, z, vx, x);
    RowCount(x0, x1, z, vx);
    RankAfterRows(x0, x1, z0, x, z);
    SliceRight(prev, row, 6 * (x - x0), 6);
  }

  lemma RankAfterRows(x0: nat, x1: nat, z0: nat, x: nat, z: nat)
    requires x0 <= x <= x1 && z0 <= z
    ensures CellRank(x0, x1, z0, x, z) == (if z <= z0 then 0 else 6 * (x1 - x0) * (z - z0)) + 6 * (x - x0)
  {
  }

  lemma SliceLeft(a: seq<nat>, b: seq<nat>, k: nat, n: nat)
    requires k + n <= |a|
    ensures (a + b)[k .. k + n] == a[k .. k + n]
  {
  }

  lemma SliceRight(a: seq<nat>, b: seq<nat>, k: nat, n: nat)
    requires k + n <= |b|
    ensures (a + b)[|a| + k .. |a| + k + n] == b[k .. k + n]
  {
  }

  /** The cluster, along one axis, that cell c belongs to. */
  function Owner(c: nat, cc: nat): nat
    requires cc > 0
  {
    c / cc
  }

  /** Cell (x, z) lies in the block of cluster (cx, cz), whose list holds the cell's six indices at the cell's rank. */
  ghost predicate HoldsCell(g: Grid, cx: nat, cz: nat, x: nat, z: nat)
  {
    var x0, x1 := cx * g.clusterCellsX, SpanEnd(cx, g.clusterCellsX, g.cellsX);
    var z0, z1 := cz * g.clusterCellsZ, SpanEnd(cz, g.clusterCellsZ, g.cellsZ);
    && x0 <= x < x1 && z0 <= z < z1
    && CellRank(x0, x1, z0, x, z) + 6 <= |ClusterIndices(g, cx, cz)|
    && ClusterIndices(g, cx, cz)[CellRank(x0, x1, z0, x, z) .. CellRank(x0, x1, z0, x, z) + 6] == CellIndices(x, z, g.VertsX())
  }

  /** Every cell of the grid falls in cluster (x / clusterCellsX, z / clusterCellsZ), whose list holds its two triangles. */
  lemma CellOwned(g: Grid, x: nat, z: nat)
    requires g.Valid() && x < g.cellsX && z < g.cellsZ
    ensures Owner(x, g.clusterCellsX) < g.ClustersX() && Owner(z, g.clusterCellsZ) < g.ClustersZ()
    ensures HoldsCell(g, Owner(x, g.clusterCellsX), Owner(z, g.clusterCellsZ), x, z)
  {
    var cx, cz := Owner(x, g.clusterCellsX), Owner(z, g.clusterCellsZ);
    AxisOwned(x, g.clusterCellsX, g.cellsX);
    AxisOwned(z, g.clusterCellsZ, g.cellsZ);
    BlockCellAt(cx * g.clusterCellsX, SpanEnd(cx, g.clusterCellsX, g.cellsX),
                cz * g.clusterCellsZ, SpanEnd(cz, g.clusterCellsZ, g.cellsZ), g.VertsX(), x, z);
  }

  /** Along one axis, cell c lies in the span of cluster c / cc, which is a cluster of the grid. */
  lemma AxisOwned(c: nat, cc: nat, cells: nat)
    requires cc > 0 && c < cells
    ensures Owner(c, cc) < CeilDiv(cells, cc)
    ensures Owner(c, cc) * cc <= c < SpanEnd(Owner(c, cc), cc, cells)
  {
    var q, r := c / cc, c % cc;
    assert q * cc + r == c;
    var n := CeilDiv(cells, cc);
    if q >= n {
      Arith.MulMonotone(n, q, cc);
    }
  }

  /** Every cluster of the grid covers a non-empty block and holds six indices per cell of it. */
  lemma ClusterSize(g: Grid, cx: nat, cz: nat)
    requires g.Valid() && cx < g.ClustersX() && cz < g.ClustersZ()
    ensures var x0, x1 := cx * g.clusterCellsX, SpanEnd(cx, g.clusterCellsX, g.cellsX);
            var z0, z1 := cz * g.clusterCellsZ, SpanEnd(cz, g.clusterCellsZ, g.cellsZ);
            x0 < x1 <= g.cellsX && z0 < z1 <= g.cellsZ &&
            |ClusterIndices(g, cx, cz)| == 6 * (x1 - x0) * (z1 - z0)
  {
    SpanInside(cx, g.clusterCellsX, g.cellsX);
    SpanInside(cz, g.clusterCellsZ, g.cellsZ);
    BlockCount(cx * g.clusterCellsX, SpanEnd(cx, g.clusterCellsX, g.cellsX),
               cz * g.clusterCellsZ, SpanEnd(cz, g.clusterCellsZ, g.cellsZ), g.VertsX());
  }

  lemma SpanInside(c: nat, cc: nat, cells: nat)
    requires cc > 0 && c < CeilDiv(cells, cc)
    ensures c * cc < SpanEnd(c, cc, cells) <= cells
  {
    Arith.MulMonotone(c, CeilDiv(cells, cc) - 1, cc);
  }

  /** Every index BuildClusters emits names a vertex of the (cellsX + 1) x (cellsZ + 1) grid. */
  lemma PoolInRange(g: Grid, pool: seq<nat>, clusters: seq<ClusterRange>)
    requires g.Valid() && Laid(pool, clusters, Locals(g))
    ensures forall i :: 0 <= i < |pool| ==> pool[i] < g.VertsX() * (g.cellsZ + 1)
  {
    Arith.MulMonotone(0, g.VertsX(), g.cellsZ + 1);
    var ls, m := Locals(g), g.VertsX() * (g.cellsZ + 1);
    forall id | 0 <= id < |ls|
      ensures forall i :: 0 <= i < |ls[id]| ==> ls[id][i] < m
    {
      IdBounds(id, g.ClustersX(), g.ClustersZ());
      ClusterInRange(g, id % g.ClustersX(), id / g.ClustersX());
    }
    FlattenBelow(ls, m);
  }

  lemma IdBounds(id: nat, clustersX: nat, clustersZ: nat)
    requires id < clustersX * clustersZ
    ensures clustersX > 0 && 0 <= id % clustersX < clustersX && 0 <= id / clustersX < clustersZ
  {
    if id / clustersX >= clustersZ {
      Arith.MulMonotone(clustersZ, id / clustersX, clustersX);
    }
  }

  lemma ClusterInRange(g: Grid, cx: nat, cz: nat)
    requires g.Valid() && cz < g.ClustersZ()
    ensures forall i :: 0 <= i < |ClusterIndices(g, cx, cz)| ==> ClusterIndices(g, cx, cz)[i] < g.VertsX() * (g.cellsZ + 1)
  {
    var z1 := SpanEnd(cz, g.clusterCellsZ, g.cellsZ);
    SpanInside(cz, g.clusterCellsZ, g.cellsZ);
    BlockInRange(cx * g.clusterCellsX, SpanEnd(cx, g.clusterCellsX, g.cellsX), cz * g.clusterCellsZ, z1, g.VertsX());
    Arith.MulMonotone(z1 + 1, g.cellsZ + 1, g.VertsX());
  }

  lemma {:induction false} FlattenBelow(ls: seq<seq<nat>>, m: nat)
    requires forall id, i :: 0 <= id < |ls| && 0 <= i < |ls[id]| ==> ls[id][i] < m
    ensures forall i :: 0 <= i < |Flatten(ls)| ==> Flatten(ls)[i] < m
  {
    if ls != [] {
      FlattenBelow(ls[..|ls| - 1], m);
    }
  }

  // ------------------------------------------------------- WeldVerticesAlongBorders

  /** A vertex's XZ position quantised to the grid (lround(x / cellSize), lround(z / cellSize)). */
  datatype XZKey = XZKey(qx: int, qz: int)

  /** A terrain vertex: its quantised XZ position and its height; normal and UV are not modelled. */
  datatype TerrainVertex = TerrainVertex(key: XZKey, y: real)

  /** The first vertex at or after i with the same key as vertex v. */
  function FirstFrom(vs: seq<TerrainVertex>, v: nat, i: nat): (r: nat)
    requires i <= v < |vs|
    ensures i <= r <= v && vs[r].key == vs[v].key
    ensures forall j :: i <= j < r ==> vs[j].key != vs[v].key
    decreases v - i
  {
    if vs[i].key == vs[v].key then i else FirstFrom(vs, v, i + 1)
  }

  /** The representative of vertex v: the first vertex with its key ("the one seen first wins"). */
  function Rep(vs: seq<TerrainVertex>, v: nat): nat
    requires v < |vs|
  {
    FirstFrom(vs, v, 0)
  }

  /** The representative is the only vertex at or before v that has v's key and no earlier twin. */
  lemma RepUnique(vs: seq<TerrainVertex>, v: nat, r: nat)
    requires v < |vs| && r <= v && vs[r].key == vs[v].key
    requires forall j :: 0 <= j < r ==> vs[j].key != vs[v].key
    ensures r == Rep(vs, v)
  {
  }

  /** Two vertices share a representative exactly when they share a key. */
  lemma RepSameKey(vs: seq<TerrainVertex>, u: nat, v: nat)
    requires u < |vs| && v < |vs|
    ensures Rep(vs, u) == Rep(vs, v) <==> vs[u].key == vs[v].key
  {
  }

  /** remap is idempotent: a representative is its own representative, and it never lies after the vertex. */
  lemma RepIdempotent(vs: seq<TerrainVertex>, v: nat)
    requires v < |vs|
    ensures Rep(vs, v) <= v && Rep(vs, Rep(vs, v)) == Rep(vs, v)
  {
    RepSameKey(vs, v, Rep(vs, v));
  }

  /** The vertices after welding: each takes its representative's height. */
  function Welded(vs: seq<TerrainVertex>): (ws: seq<TerrainVertex>)
    ensures |ws| == |vs|
  {
    seq(|vs|, v requires 0 <= v < |vs| => vs[v].(y := vs[Rep(vs, v)].y))
  }

  /** The index pool after welding: each index replaced by its representative. */
  function WeldedPool(vs: seq<TerrainVertex>, pool: seq<nat>): (ps: seq<nat>)
    requires forall i :: 0 <= i < |pool| ==> pool[i] < |vs|
    ensures |ps| == |pool|
  {
    seq(|pool|, i requires 0 <= i < |pool| => Rep(vs, pool[i]))
  }

  /**
   * After welding, vertices sharing a quantised position share a height,
   * keys are untouched, and a representative keeps its own vertex.
   */
  lemma WeldedAgree(vs: seq<TerrainVertex>, u: nat, v: nat)
    requires u < |vs| && v < |vs|
    ensures Welded(vs)[v].key == vs[v].key
    ensures vs[u].key == vs[v].key ==> Welded(vs)[u].y == Welded(vs)[v].y
    ensures Welded(vs)[Rep(vs, v)] == vs[Rep(vs, v)]
  {
    RepSameKey(vs, u, v);
    RepIdempotent(vs, v);
  }

  /** After welding, the pool names only representatives, each at or before the vertex it replaced and at its position. */
  lemma WeldedPoolReps(vs: seq<TerrainVertex>, pool: seq<nat>, i: nat)
    requires forall j :: 0 <= j < |pool| ==> pool[j] < |vs|
    requires i < |pool|
    ensures var p := WeldedPool(vs, pool)[i];
            p <= pool[i] && vs[p].key == vs[pool[i]].key && Rep(vs, p) == p
  {
    RepIdempotent(vs, pool[i]);
  }

  /** The representative depends only on the keys. */
  lemma {:induction false} FirstFromKeys(vs: seq<TerrainVertex>, ws: seq<TerrainVertex>, v: nat, i: nat)
    requires |vs| == |ws| && i <= v < |vs|
    requires forall j :: 0 <= j < |vs| ==> vs[j].key == ws[j].key
    ensures FirstFrom(vs, v, i) == FirstFrom(ws, v, i)
    decreases v - i
  {
    if vs[i].key != vs[v].key {
      FirstFromKeys(vs, ws, v, i + 1);
    }
  }

  /** Welding twice is welding once: the second pass finds every vertex and index already at its representative. */
  lemma WeldIdempotent(vs: seq<TerrainVertex>, pool: seq<nat>)
    requires forall i :: 0 <= i < |pool| ==> pool[i] < |vs|
    ensures Welded(Welded(vs)) == Welded(vs)
    ensures forall i :: 0 <= i < |pool| ==> WeldedPool(vs, pool)[i] < |vs|
    ensures WeldedPool(Welded(vs), WeldedPool(vs, pool)) == WeldedPool(vs, pool)
  {
    var ws := Welded(vs);
    forall v | 0 <= v < |vs|
      ensures Rep(ws, v) == Rep(vs, v) && Rep(vs, v) <= v && Rep(vs, Rep(vs, v)) == Rep(vs, v)
    {
      FirstFromKeys(vs, ws, v, 0);
      RepIdempotent(vs, v);
    }
  }

  /**
   * WeldVerticesAlongBorders: vertices with the same quantised XZ position
   * are merged into the first of them; the pool then refers only to
   * representatives and every vertex takes its representative's height.
   */
  method WeldVerticesAlongBorders(vertices: array<TerrainVertex>, indexPool: array<nat>)
    requires vertices.Length <= UintMax
    requires forall i :: 0 <= i < indexPool.Length ==> indexPool[i] < vertices.Length
    modifies vertices, indexPool
    ensures vertices[..] == Welded(old(vertices[..]))
    ensures indexPool[..] == WeldedPool(old(vertices[..]), old(indexPool[..]))
  {
    ghost var vs, pool := vertices[..], indexPool[..];
    var remap := ChooseRepresentatives(vertices);
    var i := 0;
    while i < indexPool.Length
      invariant i <= indexPool.Length && vertices[..] == vs
      invariant forall j :: 0 <= j < i ==> indexPool[j] == Rep(vs, pool[j])
      invariant forall j :: i <= j < indexPool.Length ==> indexPool[j] == pool[j]
    {
      var r := remap[indexPool[i]];
      if r != UintMax {
        indexPool[i] := r;
      }
      i := i + 1;
    }
    assert indexPool[..] == WeldedPool(vs, pool);
    var vid := 0;
    while vid < vertices.Length
      invariant vid <= vertices.Length && indexPool[..] == WeldedPool(vs, pool)
      invariant forall j :: 0 <= j < vid ==> vertices[j] == Welded(vs)[j]
      invariant forall j :: vid <= j < vertices.Length ==> vertices[j] == vs[j]
    {
      var r := remap[vid];
      RepIdempotent(vs, vid);
      if r != UintMax && r != vid {
        vertices[vid] := vertices[vid].(y := vertices[r].y);
      }
      vid := vid + 1;
    }
  }

  /** The first loop: the dictionary from quantised key to the first vertex seen with it. */
  method ChooseRepresentatives(vertices: array<TerrainVertex>) returns (remap: seq<nat>)
    requires vertices.Length <= UintMax
    ensures |remap| == vertices.Length
    ensures forall v :: 0 <= v < |remap| ==> remap[v] == Rep(vertices[..], v) < UintMax
  {
    ghost var vs := vertices[..];
    remap := seq(vertices.Length, _ => UintMax);
    var firstOf: map<XZKey, nat> := map[];
    var vid := 0;
    while vid < vertices.Length
      invariant vid <= vertices.Length == |remap|
      invariant forall j :: 0 <= j < vid ==> vs[j].key in firstOf && remap[j] == Rep(vs, j) < UintMax
      invariant forall k :: k in firstOf ==> firstOf[k] < vid && vs[firstOf[k]].key == k && Rep(vs, firstOf[k]) == firstOf[k]
    {
      var k := vertices[vid].key;
      if k !in firstOf {
        RepUnique(vs, vid, vid);
        firstOf := firstOf[k := vid];
        remap := remap[vid := vid];
      } else {
        RepSameKey(vs, vid, firstOf[k]);
        remap := remap[vid := firstOf[k]];
      }
      vid := vid + 1;
    }
  }

  // ------------------------------------------------------- AddSkirtsToClusters

  /** A cluster's bounds rounded to grid coordinates: toGridX of lb.x and ub.x, toGridZ of lb.z and ub.z. */
  datatype GridRect = GridRect(x0: int, x1: int, z0: int, z1: int)

  /** The coordinates the four edge loops cast to uint32 are non-negative, so no vertex index wraps around. */
  predicate RectNonNeg(r: GridRect)
  {
    && (r.x0 < r.x1 ==> 0 <= r.x0 && 0 <= r.z0 && 0 <= r.z1)
    && (r.z0 < r.z1 ==> 0 <= r.z0 && 0 <= r.x0 && 0 <= r.x1)
  }

  /** The edges (x, z)-(x+1, z) for x0 <= x < x1, left to right. */
  function HEdges(x0: int, x1: int, z: int, vx: nat): seq<(nat, nat)>
    requires x0 < x1 ==> 0 <= x0 && 0 <= z
    decreases x1 - x0
  {
    if x1 <= x0 then [] else HEdges(x0, x1 - 1, z, vx) + [(VIdx(x1 - 1, z, vx), VIdx(x1, z, vx))]
  }

  /** The edges (x, z)-(x, z+1) for z0 <= z < z1, bottom to top. */
  function VEdges(z0: int, z1: int, x: int, vx: nat): seq<(nat, nat)>
    requires z0 < z1 ==> 0 <= z0 && 0 <= x
    decreases z1 - z0
  {
    if z1 <= z0 then [] else VEdges(z0, z1 - 1, x, vx) + [(VIdx(x, z1 - 1, vx), VIdx(x, z1, vx))]
  }

  /** The border edges of a cluster in the order the four loops visit them: z = z0, z = z1, x = x0, x = x1. */
  function Edges(r: GridRect, vx: nat): seq<(nat, nat)>
    requires RectNonNeg(r)
  {
    HEdges(r.x0, r.x1, r.z0, vx) + HEdges(r.x0, r.x1, r.z1, vx) + VEdges(r.z0, r.z1, r.x0, vx) + VEdges(r.z0, r.z1, r.x1, vx)
  }

  /** The state skirts are added to: the vertices, skirtBottomOf (one entry per original vertex) and the index pool. */
  datatype Skirting = Skirting(vertices: seq<TerrainVertex>, bottomOf: seq<nat>, pool: seq<nat>)

  /** The bottom copy of a top vertex: pushed down by the skirt depth. */
  function Lowered(v: TerrainVertex, depth: real): TerrainVertex
  {
    v.(y := v.y - depth)
  }

  /** The tables before any skirt: no top vertex has a bottom copy yet. */
  function Unskirted(vs: seq<TerrainVertex>, pool: seq<nat>): (s: Skirting)
    ensures s.vertices == vs && s.pool == pool && |s.bottomOf| == |vs|
    ensures forall v :: 0 <= v < |vs| ==> s.bottomOf[v] == UintMax
  {
    Skirting(vs, seq(|vs|, _ => UintMax), pool)
  }

  /** What ensureBottomVertex returns: the recorded copy, or the index the new copy gets. */
  function BottomRef(s: Skirting, top: nat): nat
    requires top < |s.bottomOf|
  {
    if s.bottomOf[top] != UintMax then s.bottomOf[top] else |s.vertices|
  }

  /** The tables after ensureBottomVertex: unchanged when a copy is recorded, else a lowered copy appended and recorded. */
  function WithBottom(s: Skirting, top: nat, depth: real): (s': Skirting)
    requires top < |s.bottomOf| <= |s.vertices|
    ensures |s'.bottomOf| == |s.bottomOf| <= |s'.vertices| && s'.pool == s.pool
  {
    if s.bottomOf[top] != UintMax then s
    else s.(vertices := s.vertices + [Lowered(s.vertices[top], depth)], bottomOf := s.bottomOf[top := |s.vertices|])
  }

  /** addQuad: the two triangles (i0, i1, b1) and (i0, b1, b0) joining a top edge to its bottom copy. */
  function Quad(s: Skirting, i0: nat, i1: nat, depth: real): (s': Skirting)
    requires i0 < |s.bottomOf| && i1 < |s.bottomOf| <= |s.vertices|
    ensures |s'.bottomOf| == |s.bottomOf| <= |s'.vertices| && |s'.pool| == |s.pool| + 6
  {
    var s0 := WithBottom(s, i0, depth);
    var s1 := WithBottom(s0, i1, depth);
    var b0, b1 := BottomRef(s, i0), BottomRef(s0, i1);
    s1.(pool := s1.pool + [i0, i1, b1, i0, b1, b0])
  }

  /** Both ends of every edge name an original vertex. */
  predicate EdgesFit(edges: seq<(nat, nat)>, n: nat)
  {
    forall e :: 0 <= e < |edges| ==> edges[e].0 < n && edges[e].1 < n
  }

  /** One quad per edge, in order. */
  function Quads(s: Skirting, edges: seq<(nat, nat)>, depth: real): (s': Skirting)
    requires EdgesFit(edges, |s.bottomOf|) && |s.bottomOf| <= |s.vertices|
    ensures |s'.bottomOf| == |s.bottomOf| <= |s'.vertices| && |s'.pool| == |s.pool| + 6 * |edges|
  {
    if edges == [] then s
    else
      var e := edges[|edges| - 1];
      Quad(Quads(s, edges[..|edges| - 1], depth), e.0, e.1, depth)
  }

  /** Every cluster's rectangle casts safely and names original vertices only. */
  predicate RectsFit(rects: seq<GridRect>, vx: nat, n: nat)
  {
    AllNonNeg(rects) && forall i :: 0 <= i < |rects| ==> EdgesFit(Edges(rects[i], vx), n)
  }

  /** The skirts of the clusters, in cluster order. */
  function Skirts(s: Skirting, rects: seq<GridRect>, vx: nat, depth: real): (s': Skirting)
    requires RectsFit(rects, vx, |s.bottomOf|) && |s.bottomOf| <= |s.vertices|
    ensures |s'.bottomOf| == |s.bottomOf| <= |s'.vertices| && |s'.pool| == |s.pool| + 6 * TotalEdges(rects, vx)
  {
    if rects == [] then s
    else
      var last := |rects| - 1;
      assert forall i :: 0 <= i < last ==> rects[..last][i] == rects[i];
      Quads(Skirts(s, rects[..last], vx, depth), Edges(rects[last], vx), depth)
  }

  lemma {:induction false} HEdgesSplit(x0: int, x: int, x1: int, z: int, vx: nat)
    requires x0 <= x <= x1 && (x0 < x1 ==> 0 <= x0 && 0 <= z)
    ensures HEdges(x0, x1, z, vx) == HEdges(x0, x, z, vx) + HEdges(x, x1, z, vx)
    decreases x1 - x
  {
    if x < x1 {
      HEdgesSplit(x0, x, x1 - 1, z, vx);
    }
  }

  lemma {:induction false} VEdgesSplit(z0: int, z: int, z1: int, x: int, vx: nat)
    requires z0 <= z <= z1 && (z0 < z1 ==> 0 <= z0 && 0 <= x)
    ensures VEdges(z0, z1, x, vx) == VEdges(z0, z, x, vx) + VEdges(z, z1, x, vx)
    decreases z1 - z
  {
    if z < z1 {
      VEdgesSplit(z0, z, z1 - 1, x, vx);
    }
  }

  lemma QuadsSnoc(s: Skirting, edges: seq<(nat, nat)>, e: (nat, nat), depth: real)
    requires EdgesFit(edges + [e], |s.bottomOf|) && |s.bottomOf| <= |s.vertices|
    ensures EdgesFit(edges, |s.bottomOf|)
    ensures Quads(s, edges + [e], depth) == Quad(Quads(s, edges, depth), e.0, e.1, depth)
  {
    assert (edges + [e])[..|edges|] == edges;
    assert forall i :: 0 <= i < |edges| ==> edges[i] == (edges + [e])[i];
  }

  lemma EdgesFitAppend(a: seq<(nat, nat)>, b: seq<(nat, nat)>, n: nat)
    requires EdgesFit(a + b, n)
    ensures EdgesFit(a, n) && EdgesFit(b, n)
  {
    assert forall i :: 0 <= i < |a| ==> a[i] == (a + b)[i];
    assert forall i :: 0 <= i < |b| ==> b[i] == (a + b)[|a| + i];
  }

  /** Quads over two edge lists in a row is Quads over their concatenation. */
  lemma {:induction false} QuadsAppend(s: Skirting, a: seq<(nat, nat)>, b: seq<(nat, nat)>, depth: real)
    requires EdgesFit(a + b, |s.bottomOf|) && |s.bottomOf| <= |s.vertices|
    ensures EdgesFit(a, |s.bottomOf|) && EdgesFit(b, |s.bottomOf|)
    ensures Quads(s, a + b, depth) == Quads(Quads(s, a, depth), b, depth)
    decreases |b|
  {
    EdgesFitAppend(a, b, |s.bottomOf|);
    if b != [] {
      var b', e := b[..|b| - 1], b[|b| - 1];
      assert a + b == (a + b') + [e] && b == b' + [e];
      QuadsSnoc(s, a + b', e, depth);
      QuadsAppend(s, a, b', depth);
      QuadsSnoc(Quads(s, a, depth), b', e, depth);
    } else {
      assert a + b == a;
    }
  }

  /** One more step of a horizontal loop: its edge is the next one, it fits, and Quads takes one more quad. */
  lemma HEdgesStep(s: Skirting, x0: int, x: int, x1: int, z: int, vx: nat, depth: real)
    requires x0 <= x < x1 && 0 <= x0 && 0 <= z
    requires EdgesFit(HEdges(x0, x1, z, vx), |s.bottomOf|) && |s.bottomOf| <= |s.vertices|
    ensures HEdges(x0, x + 1, z, vx) == HEdges(x0, x, z, vx) + [(VIdx(x, z, vx), VIdx(x + 1, z, vx))]
    ensures EdgesFit(HEdges(x0, x + 1, z, vx), |s.bottomOf|) && VIdx(x, z, vx) < |s.bottomOf| && VIdx(x + 1, z, vx) < |s.bottomOf|
    ensures Quads(s, HEdges(x0, x + 1, z, vx), depth) ==
              Quad(Quads(s, HEdges(x0, x, z, vx), depth), VIdx(x, z, vx), VIdx(x + 1, z, vx), depth)
  {
    var e := (VIdx(x, z, vx), VIdx(x + 1, z, vx));
    HEdgesSplit(x0, x + 1, x1, z, vx);
    EdgesFitAppend(HEdges(x0, x + 1, z, vx), HEdges(x + 1, x1, z, vx), |s.bottomOf|);
    assert HEdges(x0, x + 1, z, vx) == HEdges(x0, x, z, vx) + [e];
    assert HEdges(x0, x + 1, z, vx)[|HEdges(x0, x, z, vx)|] == e;
    QuadsSnoc(s, HEdges(x0, x, z, vx), e, depth);
  }

  /** One more step of a vertical loop: its edge is the next one, it fits, and Quads takes one more quad. */
  lemma VEdgesStep(s: Skirting, z0: int, z: int, z1: int, x: int, vx: nat, depth: real)
    requires z0 <= z < z1 && 0 <= z0 && 0 <= x
    requires EdgesFit(VEdges(z0, z1, x, vx), |s.bottomOf|) && |s.bottomOf| <= |s.vertices|
    ensures VEdges(z0, z + 1, x, vx) == VEdges(z0, z, x, vx) + [(VIdx(x, z, vx), VIdx(x, z + 1, vx))]
    ensures EdgesFit(VEdges(z0, z + 1, x, vx), |s.bottomOf|) && VIdx(x, z, vx) < |s.bottomOf| && VIdx(x, z + 1, vx) < |s.bottomOf|
    ensures Quads(s, VEdges(z0, z + 1, x, vx), depth) ==
              Quad(Quads(s, VEdges(z0, z, x, vx), depth), VIdx(x, z, vx), VIdx(x, z + 1, vx), depth)
  {
    var e := (VIdx(x, z, vx), VIdx(x, z + 1, vx));
    VEdgesSplit(z0, z + 1, z1, x, vx);
    EdgesFitAppend(VEdges(z0, z + 1, x, vx), VEdges(z + 1, z1, x, vx), |s.bottomOf|);
    assert VEdges(z0, z + 1, x, vx) == VEdges(z0, z, x, vx) + [e];
    assert VEdges(z0, z + 1, x, vx)[|VEdges(z0, z, x, vx)|] == e;
    QuadsSnoc(s, VEdges(z0, z, x, vx), e, depth);
  }

  /** ensureBottomVertex: reuse the recorded bottom copy of a top vertex, or append a lowered copy and record it. */
  method EnsureBottomVertex(s: Skirting, top: nat, depth: real) returns (s': Skirting, ref: nat)
    requires top < |s.bottomOf| <= |s.vertices|
    ensures s' == WithBottom(s, top, depth) && ref == BottomRef(s, top)
  {
    ref := s.bottomOf[top];
    if ref != UintMax {
      return s, ref;
    }
    var v := s.vertices[top];
    v := v.(y := v.y - depth);
    ref := |s.vertices|;
    s' := s.(vertices := s.vertices + [v], bottomOf := s.bottomOf[top := ref]);
  }

  /** addQuad: the bottom copies of both ends, then the six indices of the two skirt triangles. */
  method AddQuad(s: Skirting, i0: nat, i1: nat, depth: real) returns (s': Skirting)
    requires i0 < |s.bottomOf| && i1 < |s.bottomOf| <= |s.vertices|
    ensures s' == Quad(s, i0, i1, depth)
  {
    var s0, b0 := EnsureBottomVertex(s, i0, depth);
    var b1;
    s', b1 := EnsureBottomVertex(s0, i1, depth);
    s' := s'.(pool := s'.pool + [i0, i1, b1] + [i0, b1, b0]);
    assert s'.pool == Quad(s, i0, i1, depth).pool;
  }

  /** One horizontal edge loop: a quad for each edge (x, z)-(x+1, z), x0 <= x < x1. */
  method HorizontalStrip(s: Skirting, x0: int, x1: int, z: int, vx: nat, depth: real) returns (s': Skirting)
    requires x0 < x1 ==> 0 <= x0 && 0 <= z
    requires EdgesFit(HEdges(x0, x1, z, vx), |s.bottomOf|) && |s.bottomOf| <= |s.vertices|
    ensures s' == Quads(s, HEdges(x0, x1, z, vx), depth)
  {
    s' := s;
    var x := x0;
    while x < x1
      invariant x0 <= x <= (if x0 <= x1 then x1 else x0)
      invariant EdgesFit(HEdges(x0, x, z, vx), |s.bottomOf|)
      invariant s' == Quads(s, HEdges(x0, x, z, vx), depth)
    {
      var i0, i1 := VIdx(x, z, vx), VIdx(x + 1, z, vx);
      HEdgesStep(s, x0, x, x1, z, vx, depth);
      s' := AddQuad(s', i0, i1, depth);
      x := x + 1;
    }
    assert HEdges(x0, x, z, vx) == HEdges(x0, x1, z, vx);
  }

  /** One vertical edge loop: a quad for each edge (x, z)-(x, z+1), z0 <= z < z1. */
  method VerticalStrip(s: Skirting, z0: int, z1: int, x: int, vx: nat, depth: real) returns (s': Skirting)
    requires z0 < z1 ==> 0 <= z0 && 0 <= x
    requires EdgesFit(VEdges(z0, z1, x, vx), |s.bottomOf|) && |s.bottomOf| <= |s.vertices|
    ensures s' == Quads(s, VEdges(z0, z1, x, vx), depth)
  {
    s' := s;
    var z := z0;
    while z < z1
      invariant z0 <= z <= (if z0 <= z1 then z1 else z0)
      invariant EdgesFit(VEdges(z0, z, x, vx), |s.bottomOf|)
      invariant s' == Quads(s, VEdges(z0, z, x, vx), depth)
    {
      var i0, i1 := VIdx(x, z, vx), VIdx(x, z + 1, vx);
      VEdgesStep(s, z0, z, z1, x, vx, depth);
      s' := AddQuad(s', i0, i1, depth);
      z := z + 1;
    }
    assert VEdges(z0, z, x, vx) == VEdges(z0, z1, x, vx);
  }

  /** The four edge loops of one cluster: z = z0, z = z1, x = x0, x = x1; six indices per quad. */
  method AddClusterSkirt(s: Skirting, r: GridRect, vx: nat, depth: real) returns (s': Skirting, added: nat)
    requires RectNonNeg(r) && EdgesFit(Edges(r, vx), |s.bottomOf|) && |s.bottomOf| <= |s.vertices|
    ensures s' == Quads(s, Edges(r, vx), depth) && added == 6 * |Edges(r, vx)| == |s'.pool| - |s.pool|
  {
    ghost var h0, h1 := HEdges(r.x0, r.x1, r.z0, vx), HEdges(r.x0, r.x1, r.z1, vx);
    ghost var v0, v1 := VEdges(r.z0, r.z1, r.x0, vx), VEdges(r.z0, r.z1, r.x1, vx);
    QuadsAppend(s, h0 + h1 + v0, v1, depth);
    QuadsAppend(s, h0 + h1, v0, depth);
    QuadsAppend(s, h0, h1, depth);
    var s1 := HorizontalStrip(s, r.x0, r.x1, r.z0, vx, depth);
    var s2 := HorizontalStrip(s1, r.x0, r.x1, r.z1, vx, depth);
    var s3 := VerticalStrip(s2, r.z0, r.z1, r.x0, vx, depth);
    s' := VerticalStrip(s3, r.z0, r.z1, r.x1, vx, depth);
    added := |s'.pool| - |s.pool|;
  }

  /** The clusters' ranges after AddSkirtsToClusters: each count grown by its skirt's indices, offsets kept. */
  function Extended(clusters: seq<ClusterRange>, rects: seq<GridRect>, vx: nat): (cs: seq<ClusterRange>)
    requires |rects| == |clusters| && AllNonNeg(rects)
    ensures |cs| == |clusters|
  {
    seq(|clusters|, i requires 0 <= i < |clusters| =>
      clusters[i].(indexCount := clusters[i].indexCount + 6 * |Edges(rects[i], vx)|))
  }

  lemma RectsFitPrefix(rects: seq<GridRect>, vx: nat, n: nat, i: nat)
    requires RectsFit(rects, vx, n) && i < |rects|
    ensures RectsFit(rects[..i], vx, n) && RectsFit(rects[..i + 1], vx, n)
    ensures rects[..i + 1][..i] == rects[..i] && rects[..i + 1][i] == rects[i]
  {
    assert forall j :: 0 <= j < i + 1 ==> rects[..i + 1][j] == rects[j];
  }

  /** The cluster loop of AddSkirtsToClusters, on the terrain's vertices, pool and cluster table. */
  method SkirtAll(vertices: seq<TerrainVertex>, indexPool: seq<nat>, clusters: seq<ClusterRange>, rects: seq<GridRect>,
                  vx: nat, depth: real) returns (s: Skirting, cs: seq<ClusterRange>)
    requires |rects| == |clusters| && RectsFit(rects, vx, |vertices|)
    ensures s == Skirts(Unskirted(vertices, indexPool), rects, vx, depth) && cs == Extended(clusters, rects, vx)
  {
    var s0 := Unskirted(vertices, indexPool);
    s := s0;
    cs := clusters;
    var i := 0;
    while i < |cs|
      invariant i <= |cs| == |clusters| == |rects|
      invariant RectsFit(rects[..i], vx, |s0.bottomOf|)
      invariant s == Skirts(s0, rects[..i], vx, depth)
      invariant forall j :: 0 <= j < i ==> cs[j] == Extended(clusters, rects, vx)[j]
      invariant forall j :: i <= j < |cs| ==> cs[j] == clusters[j]
    {
      RectsFitPrefix(rects, vx, |s0.bottomOf|, i);
      var added;
      s, added := AddClusterSkirt(s, rects[i], vx, depth);
      cs := cs[i := cs[i].(indexCount := cs[i].indexCount + added)];
      i := i + 1;
    }
    assert rects[..i] == rects;
  }

  /** The terrain as the build leaves it: vertices, the shared index pool and the cluster ranges. */
  class Terrain {
    var vertices: seq<TerrainVertex>
    var indexPool: seq<nat>
    var clusters: seq<ClusterRange>
    var vertsX: nat
    var vertsZ: nat

    constructor (vertices: seq<TerrainVertex>, indexPool: seq<nat>, clusters: seq<ClusterRange>, vertsX: nat, vertsZ: nat)
      ensures this.vertices == vertices && this.indexPool == indexPool && this.clusters == clusters
      ensures this.vertsX == vertsX && this.vertsZ == vertsZ
    {
      this.vertices, this.indexPool, this.clusters := vertices, indexPool, clusters;
      this.vertsX, this.vertsZ := vertsX, vertsZ;
    }

    /**
     * AddSkirtsToClusters: for every cluster, a strip of quads under each
     * of its four border edges, appended at the end of the pool; the
     * cluster's count grows by the indices added, its offset is kept.
     */
    method AddSkirtsToClusters(skirtDepth: real, rects: seq<GridRect>)
      requires |rects| == |clusters| && RectsFit(rects, vertsX, |vertices|)
      modifies this
      ensures vertsX == old(vertsX) && vertsZ == old(vertsZ)
      ensures if |old(vertices)| == 0 || |old(clusters)| == 0 || vertsX < 2 || vertsZ < 2 then
                vertices == old(vertices) && indexPool == old(indexPool) && clusters == old(clusters)
              else
                var s := Skirts(Unskirted(old(vertices), old(indexPool)), rects, vertsX, skirtDepth);
                vertices == s.vertices && indexPool == s.pool && clusters == Extended(old(clusters), rects, vertsX)
    {
      if |vertices| == 0 || |clusters| == 0 || vertsX < 2 || vertsZ < 2 {
        return;
      }
      var s, cs := SkirtAll(vertices, indexPool, clusters, rects, vertsX, skirtDepth);
      vertices, indexPool, clusters := s.vertices, s.pool, cs;
    }

    /**
     * AddSkirtsToClusters with the ranges repaired: the skirts are built
     * the same way, then the pool is regrouped so that every cluster's own
     * triangles are followed by its own skirt, with the offsets recomputed
     * as running totals.
     */
    method AddSkirtsToClustersGrouped(skirtDepth: real, rects: seq<GridRect>)
      requires |rects| == |clusters| && RectsFit(rects, vertsX, |vertices|) && RangesIn(indexPool, clusters)
      modifies this
      ensures vertsX == old(vertsX) && vertsZ == old(vertsZ)
      ensures if |old(vertices)| == 0 || |old(clusters)| == 0 || vertsX < 2 || vertsZ < 2 then
                vertices == old(vertices) && indexPool == old(indexPool) && clusters == old(clusters)
              else
                var s := Skirts(Unskirted(old(vertices), old(indexPool)), rects, vertsX, skirtDepth);
                vertices == s.vertices && Laid(indexPool, clusters, Grouped(old(indexPool), old(clusters), s.pool, rects, vertsX))
    {
      if |vertices| == 0 || |clusters| == 0 || vertsX < 2 || vertsZ < 2 {
        return;
      }
      var s, _ := SkirtAll(vertices, indexPool, clusters, rects, vertsX, skirtDepth);
      var lists := GroupLists(indexPool, clusters, s.pool, rects, vertsX);
      var pool', clusters' := Regroup(lists);
      vertices, indexPool, clusters := s.vertices, pool', clusters';
    }
  }

  // ------------------------------------------------------- what the skirts promise

  /** The number of cells between two grid coordinates, zero when the range is empty. */
  function Run(a: int, b: int): nat
  {
    if a < b then b - a else 0
  }

  lemma {:induction false} HEdgesCount(x0: int, x1: int, z: int, vx: nat)
    requires x0 < x1 ==> 0 <= x0 && 0 <= z
    ensures |HEdges(x0, x1, z, vx)| == Run(x0, x1)
    decreases x1 - x0
  {
    if x0 < x1 {
      HEdgesCount(x0, x1 - 1, z, vx);
    }
  }

  lemma {:induction false} VEdgesCount(z0: int, z1: int, x: int, vx: nat)
    requires z0 < z1 ==> 0 <= z0 && 0 <= x
    ensures |VEdges(z0, z1, x, vx)| == Run(z0, z1)
    decreases z1 - z0
  {
    if z0 < z1 {
      VEdgesCount(z0, z1 - 1, x, vx);
    }
  }

  /** A cluster gets one quad per border cell edge: two rows of x1 - x0 and two columns of z1 - z0. */
  lemma EdgeCount(r: GridRect, vx: nat)
    requires RectNonNeg(r)
    ensures |Edges(r, vx)| == 2 * Run(r.x0, r.x1) + 2 * Run(r.z0, r.z1)
  {
    HEdgesCount(r.x0, r.x1, r.z0, vx);
    HEdgesCount(r.x0, r.x1, r.z1, vx);
    VEdgesCount(r.z0, r.z1, r.x0, vx);
    VEdgesCount(r.z0, r.z1, r.x1, vx);
  }

  /**
   * The skirt tables stay consistent with the original vertices vs: those
   * are kept; each recorded bottom copy is a new vertex lowered from its
   * top; no two tops share a copy; every new vertex is some top's copy;
   * every pool index names a vertex.
   */
  ghost predicate Deduped(s: Skirting, vs: seq<TerrainVertex>, depth: real)
  {
    && |s.bottomOf| == |vs| <= |s.vertices| && s.vertices[..|vs|] == vs
    && (forall v :: 0 <= v < |vs| && s.bottomOf[v] != UintMax ==>
          |vs| <= s.bottomOf[v] < |s.vertices| && s.vertices[s.bottomOf[v]] == Lowered(vs[v], depth))
    && (forall v, w :: 0 <= v < |vs| && 0 <= w < |vs| && v != w && s.bottomOf[v] != UintMax ==> s.bottomOf[v] != s.bottomOf[w])
    && (forall j :: |vs| <= j < |s.vertices| ==> IsCopy(s.bottomOf, j))
    && (forall i :: 0 <= i < |s.pool| ==> s.pool[i] < |s.vertices|)
  }

  /** Vertex j is the recorded bottom copy of some top vertex. */
  ghost predicate IsCopy(bottomOf: seq<nat>, j: nat)
  {
    exists v :: 0 <= v < |bottomOf| && bottomOf[v] == j
  }

  /** Later tables keep every copy recorded earlier and extend the pool. */
  ghost predicate Keeps(s: Skirting, s': Skirting)
  {
    && |s'.bottomOf| == |s.bottomOf| && |s.vertices| <= |s'.vertices| && |s.pool| <= |s'.pool|
    && s'.pool[..|s.pool|] == s.pool
    && forall v :: 0 <= v < |s.bottomOf| && s.bottomOf[v] != UintMax ==> s'.bottomOf[v] == s.bottomOf[v]
  }

  /** ensureBottomVertex keeps the tables consistent and returns the top's one recorded copy. */
  lemma WithBottomDeduped(s: Skirting, vs: seq<TerrainVertex>, top: nat, depth: real)
    requires Deduped(s, vs, depth) && top < |vs| && |s.vertices| < UintMax
    ensures var s' := WithBottom(s, top, depth);
            && Deduped(s', vs, depth) && Keeps(s, s') && |s'.vertices| <= |s.vertices| + 1
            && s'.bottomOf[top] == BottomRef(s, top) != UintMax
  {
    var s' := WithBottom(s, top, depth);
    if s.bottomOf[top] == UintMax {
      var n := |s.vertices|;
      assert s'.vertices[..|vs|] == s.vertices[..|vs|];
      forall j | |vs| <= j < |s'.vertices|
        ensures IsCopy(s'.bottomOf, j)
      {
        if j == n {
          assert s'.bottomOf[top] == j;
        } else {
          assert IsCopy(s.bottomOf, j);
          var v :| 0 <= v < |vs| && s.bottomOf[v] == j;
          assert s'.bottomOf[v] == j;
        }
      }
      assert s'.pool[..|s.pool|] == s.pool;
    } else {
      assert s.pool[..|s.pool|] == s.pool;
    }
  }

  /** addQuad keeps the tables consistent and appends the top edge with the tops' recorded copies. */
  lemma QuadDeduped(s: Skirting, vs: seq<TerrainVertex>, i0: nat, i1: nat, depth: real)
    requires Deduped(s, vs, depth) && i0 < |vs| && i1 < |vs| && |s.vertices| + 2 < UintMax
    ensures var s' := Quad(s, i0, i1, depth);
            && Deduped(s', vs, depth) && Keeps(s, s') && |s'.vertices| <= |s.vertices| + 2
            && s'.bottomOf[i0] != UintMax && s'.bottomOf[i1] != UintMax
            && s'.pool == s.pool + [i0, i1, s'.bottomOf[i1], i0, s'.bottomOf[i1], s'.bottomOf[i0]]
  {
    var s0 := WithBottom(s, i0, depth);
    WithBottomDeduped(s, vs, i0, depth);
    WithBottomDeduped(s0, vs, i1, depth);
  }

  lemma KeepsTrans(s1: Skirting, s2: Skirting, s3: Skirting)
    requires Keeps(s1, s2) && Keeps(s2, s3)
    ensures Keeps(s1, s3)
  {
    assert s3.pool[..|s1.pool|] == s3.pool[..|s2.pool|][..|s1.pool|];
  }

  /** The edge loops of one cluster keep the tables consistent, adding at most two vertices per quad. */
  lemma {:induction false} QuadsDeduped(s: Skirting, vs: seq<TerrainVertex>, edges: seq<(nat, nat)>, depth: real)
    requires Deduped(s, vs, depth) && EdgesFit(edges, |vs|) && |s.vertices| + 2 * |edges| < UintMax
    ensures var s' := Quads(s, edges, depth);
            Deduped(s', vs, depth) && Keeps(s, s') && |s'.vertices| <= |s.vertices| + 2 * |edges|
    decreases |edges|
  {
    if edges != [] {
      var init, e := edges[..|edges| - 1], edges[|edges| - 1];
      assert forall i :: 0 <= i < |init| ==> init[i] == edges[i];
      QuadsDeduped(s, vs, init, depth);
      var s1 := Quads(s, init, depth);
      QuadDeduped(s1, vs, e.0, e.1, depth);
      KeepsTrans(s, s1, Quad(s1, e.0, e.1, depth));
    } else {
      assert s.pool[..|s.pool|] == s.pool;
    }
  }

  predicate AllNonNeg(rects: seq<GridRect>)
  {
    forall i :: 0 <= i < |rects| ==> RectNonNeg(rects[i])
  }

  /** The number of border edges of all clusters. */
  function TotalEdges(rects: seq<GridRect>, vx: nat): nat
    requires AllNonNeg(rects)
  {
    if rects == [] then 0 else TotalEdges(rects[..|rects| - 1], vx) + |Edges(rects[|rects| - 1], vx)|
  }

  /**
   * AddSkirtsToClusters keeps the tables consistent: every top vertex gets
   * at most one bottom copy however many edges share it, the original
   * vertices and pool stay in place, and every index added names a vertex.
   */
  lemma {:induction false} SkirtsDeduped(s: Skirting, vs: seq<TerrainVertex>, rects: seq<GridRect>, vx: nat, depth: real)
    requires Deduped(s, vs, depth) && RectsFit(rects, vx, |vs|) && |s.vertices| + 2 * TotalEdges(rects, vx) < UintMax
    ensures var s' := Skirts(s, rects, vx, depth);
            && Deduped(s', vs, depth) && Keeps(s, s') && |s'.vertices| <= |s.vertices| + 2 * TotalEdges(rects, vx)
    decreases |rects|
  {
    if rects != [] {
      var last := |rects| - 1;
      RectsFitPrefix(rects, vx, |vs|, last);
      SkirtsDeduped(s, vs, rects[..last], vx, depth);
      var s1 := Skirts(s, rects[..last], vx, depth);
      QuadsDeduped(s1, vs, Edges(rects[last], vx), depth);
      KeepsTrans(s, s1, Quads(s1, Edges(rects[last], vx), depth));
    } else {
      assert s.pool[..|s.pool|] == s.pool;
    }
  }

  /** The tables AddSkirtsToClusters starts from are consistent when the pool names original vertices only. */
  lemma StartDeduped(vs: seq<TerrainVertex>, pool: seq<nat>, depth: real)
    requires forall i :: 0 <= i < |pool| ==> pool[i] < |vs|
    ensures Deduped(Unskirted(vs, pool), vs, depth)
  {
    assert vs[..|vs|] == vs;
  }

  /** The skirts of the first k clusters are a stage of the skirts of all of them. */
  lemma {:induction false} SkirtsPrefixKeeps(s: Skirting, vs: seq<TerrainVertex>, rects: seq<GridRect>, vx: nat, depth: real, k: nat)
    requires Deduped(s, vs, depth) && RectsFit(rects, vx, |vs|) && |s.vertices| + 2 * TotalEdges(rects, vx) < UintMax
    requires k <= |rects|
    ensures RectsFit(rects[..k], vx, |vs|)
    ensures Keeps(Skirts(s, rects[..k], vx, depth), Skirts(s, rects, vx, depth))
    decreases |rects|
  {
    var all := Skirts(s, rects, vx, depth);
    if k == |rects| {
      assert rects[..k] == rects;
      assert all.pool[..|all.pool|] == all.pool;
    } else {
      var last := |rects| - 1;
      RectsFitPrefix(rects, vx, |vs|, last);
      assert rects[..last][..k] == rects[..k];
      SkirtsPrefixKeeps(s, vs, rects[..last], vx, depth, k);
      SkirtsDeduped(s, vs, rects[..last], vx, depth);
      var s1 := Skirts(s, rects[..last], vx, depth);
      QuadsDeduped(s1, vs, Edges(rects[last], vx), depth);
      KeepsTrans(Skirts(s, rects[..k], vx, depth), s1, all);
    }
  }

  /** The edges of the first i clusters and of one more. */
  lemma TotalEdgesPrefix(rects: seq<GridRect>, vx: nat, i: nat)
    requires AllNonNeg(rects) && i < |rects|
    ensures AllNonNeg(rects[..i + 1])
    ensures TotalEdges(rects[..i + 1], vx) == TotalEdges(rects[..i], vx) + |Edges(rects[i], vx)|
    ensures TotalEdges(rects[..i + 1], vx) <= TotalEdges(rects, vx)
  {
    assert rects[..i + 1][..i] == rects[..i];
    TotalEdgesMonotone(rects, vx, i + 1);
  }

  lemma {:induction false} TotalEdgesMonotone(rects: seq<GridRect>, vx: nat, k: nat)
    requires AllNonNeg(rects) && k <= |rects|
    ensures AllNonNeg(rects[..k])
    ensures TotalEdges(rects[..k], vx) <= TotalEdges(rects, vx)
    decreases |rects|
  {
    if k == |rects| {
      assert rects[..k] == rects;
    } else {
      var last := |rects| - 1;
      assert rects[..last][..k] == rects[..k];
      TotalEdgesMonotone(rects[..last], vx, k);
    }
  }

  /**
   * The indices the skirt of cluster i adds, read from the pool sp the
   * skirts leave behind when the pool held base indices before them.
   */
  function SkirtList(sp: seq<nat>, base: nat, rects: seq<GridRect>, vx: nat, i: nat): (r: seq<nat>)
    requires AllNonNeg(rects) && i < |rects|
    requires |sp| == base + 6 * TotalEdges(rects, vx)
    ensures |r| == 6 * |Edges(rects[i], vx)|
  {
    TotalEdgesPrefix(rects, vx, i);
    sp[base + 6 * TotalEdges(rects[..i], vx) .. base + 6 * TotalEdges(rects[..i + 1], vx)]
  }

  /** The first cluster's skirt comes right after the pool the skirts started from. */
  lemma SkirtListFirst(sp: seq<nat>, base: nat, rects: seq<GridRect>, vx: nat, k: nat)
    requires AllNonNeg(rects) && 0 < |rects| && |sp| == base + 6 * TotalEdges(rects, vx)
    requires k == 6 * |Edges(rects[0], vx)|
    ensures base + k <= |sp|
    ensures SkirtList(sp, base, rects, vx, 0) == sp[base .. base + k]
  {
    TotalEdgesPrefix(rects, vx, 0);
    assert rects[..0] == [];
  }

  /** The skirt of cluster i is exactly what its edge loops append, quad by quad. */
  lemma SkirtListIsQuads(s: Skirting, vs: seq<TerrainVertex>, rects: seq<GridRect>, vx: nat, depth: real, i: nat)
    requires Deduped(s, vs, depth) && RectsFit(rects, vx, |vs|) && |s.vertices| + 2 * TotalEdges(rects, vx) < UintMax
    requires i < |rects|
    ensures RectsFit(rects[..i], vx, |vs|)
    ensures var before := Skirts(s, rects[..i], vx, depth);
            SkirtList(Skirts(s, rects, vx, depth).pool, |s.pool|, rects, vx, i) ==
              Quads(before, Edges(rects[i], vx), depth).pool[|before.pool|..]
  {
    var n := |s.bottomOf|;
    assert n == |vs| <= |s.vertices|;
    RectsFitPrefix(rects, vx, n, i);
    var sp := Skirts(s, rects, vx, depth).pool;
    var before := Skirts(s, rects[..i], vx, depth);
    var after := Skirts(s, rects[..i + 1], vx, depth);
    SkirtsPoolPrefix(s, vs, rects, vx, depth, i + 1);
    SkirtsSnoc(s, rects, vx, depth, i);
    ListFromPools(sp, |s.pool|, rects, vx, i, before.pool, after.pool);
  }

  /** Cluster i's skirt, read from the final pool sp, is what the pool grew by over cluster i. */
  lemma ListFromPools(sp: seq<nat>, base: nat, rects: seq<GridRect>, vx: nat, i: nat, bp: seq<nat>, ap: seq<nat>)
    requires AllNonNeg(rects) && i < |rects| && |sp| == base + 6 * TotalEdges(rects, vx)
    requires AllNonNeg(rects[..i]) && |bp| == base + 6 * TotalEdges(rects[..i], vx)
    requires AllNonNeg(rects[..i + 1]) && |ap| == base + 6 * TotalEdges(rects[..i + 1], vx)
    requires |ap| <= |sp| && sp[..|ap|] == ap
    ensures |bp| <= |ap| && SkirtList(sp, base, rects, vx, i) == ap[|bp|..]
  {
    SkirtListIs(sp, base, rects, vx, i);
    SliceOfPrefix(sp, ap, |bp|);
  }

  /** Where the skirt of cluster i sits in the pool. */
  lemma SkirtListIs(sp: seq<nat>, base: nat, rects: seq<GridRect>, vx: nat, i: nat)
    requires AllNonNeg(rects) && i < |rects|
    requires |sp| == base + 6 * TotalEdges(rects, vx)
    ensures AllNonNeg(rects[..i]) && AllNonNeg(rects[..i + 1])
    ensures base + 6 * TotalEdges(rects[..i], vx) <= base + 6 * TotalEdges(rects[..i + 1], vx) <= |sp|
    ensures SkirtList(sp, base, rects, vx, i) == sp[base + 6 * TotalEdges(rects[..i], vx) .. base + 6 * TotalEdges(rects[..i + 1], vx)]
  {
    TotalEdgesPrefix(rects, vx, i);
  }

  /** A slice of a sequence up to the end of a prefix it starts with is the same slice of the prefix. */
  lemma SliceOfPrefix(q: seq<nat>, p: seq<nat>, a: nat)
    requires |p| <= |q| && q[..|p|] == p && a <= |p|
    ensures q[a..|p|] == p[a..]
  {
    assert q[a..|p|] == q[..|p|][a..];
  }

  /** The pool the skirts of the first k clusters leave is a prefix of the pool all of them leave. */
  lemma SkirtsPoolPrefix(s: Skirting, vs: seq<TerrainVertex>, rects: seq<GridRect>, vx: nat, depth: real, k: nat)
    requires Deduped(s, vs, depth) && RectsFit(rects, vx, |vs|) && |s.vertices| + 2 * TotalEdges(rects, vx) < UintMax
    requires k <= |rects|
    ensures RectsFit(rects[..k], vx, |vs|)
    ensures var p, q := Skirts(s, rects[..k], vx, depth).pool, Skirts(s, rects, vx, depth).pool;
            |p| <= |q| && q[..|p|] == p
  {
    SkirtsPrefixKeeps(s, vs, rects, vx, depth, k);
  }

  /** The skirts of the first i + 1 clusters are those of the first i, then cluster i's edge loops. */
  lemma SkirtsSnoc(s: Skirting, rects: seq<GridRect>, vx: nat, depth: real, i: nat)
    requires RectsFit(rects, vx, |s.bottomOf|) && |s.bottomOf| <= |s.vertices| && i < |rects|
    ensures RectsFit(rects[..i], vx, |s.bottomOf|) && RectsFit(rects[..i + 1], vx, |s.bottomOf|)
    ensures Skirts(s, rects[..i + 1], vx, depth) == Quads(Skirts(s, rects[..i], vx, depth), Edges(rects[i], vx), depth)
  {
    RectsFitPrefix(rects, vx, |s.bottomOf|, i);
  }

  /** Quads peeled from the front: the first edge's quad, then the rest. */
  lemma QuadsFirst(s: Skirting, edges: seq<(nat, nat)>, depth: real)
    requires EdgesFit(edges, |s.bottomOf|) && |s.bottomOf| <= |s.vertices| && |edges| > 0
    ensures edges[0].0 < |s.bottomOf| && edges[0].1 < |s.bottomOf| && EdgesFit(edges[1..], |s.bottomOf|)
    ensures Quads(s, edges, depth) == Quads(Quad(s, edges[0].0, edges[0].1, depth), edges[1..], depth)
  {
    assert edges == [edges[0]] + edges[1..];
    QuadsAppend(s, [edges[0]], edges[1..], depth);
    QuadsSnoc(s, [], edges[0], depth);
    assert [] + [edges[0]] == [edges[0]];
  }

  /** The third index of the first quad an edge list appends is a bottom copy, not an original vertex. */
  lemma QuadsFirstCorner(s: Skirting, vs: seq<TerrainVertex>, edges: seq<(nat, nat)>, depth: real)
    requires Deduped(s, vs, depth) && EdgesFit(edges, |vs|) && |edges| > 0 && |s.vertices| + 2 * |edges| < UintMax
    ensures var s' := Quads(s, edges, depth);
            |s.pool| + 2 < |s'.pool| && s'.pool[|s.pool| + 2] >= |vs|
  {
    QuadsFirst(s, edges, depth);
    var q := Quad(s, edges[0].0, edges[0].1, depth);
    QuadDeduped(s, vs, edges[0].0, edges[0].1, depth);
    var b1 := q.bottomOf[edges[0].1];
    assert q.pool[|s.pool| + 2] == b1 != UintMax;
    assert |vs| <= b1;
    QuadsDeduped(q, vs, edges[1..], depth);
  }

  /** The third index of the first skirt quad is a bottom copy, not an original vertex. */
  lemma FirstSkirtCorner(vs: seq<TerrainVertex>, pool: seq<nat>, rects: seq<GridRect>, vx: nat, depth: real)
    requires forall i :: 0 <= i < |pool| ==> pool[i] < |vs|
    requires |rects| > 0 && RectsFit(rects, vx, |vs|) && |Edges(rects[0], vx)| > 0
    requires |vs| + 2 * TotalEdges(rects, vx) < UintMax
    ensures var s := Skirts(Unskirted(vs, pool), rects, vx, depth);
            |pool| + 2 < |s.pool| && s.pool[..|pool|] == pool && s.pool[|pool| + 2] >= |vs|
  {
    var s0 := Unskirted(vs, pool);
    var e0 := Edges(rects[0], vx);
    StartDeduped(vs, pool, depth);
    SkirtsDeduped(s0, vs, rects, vx, depth);
    TotalEdgesPrefix(rects, vx, 0);
    assert rects[..0] == [];
    QuadsFirstCorner(s0, vs, e0, depth);
    assert rects[..1][..0] == [] && rects[..1][0] == rects[0];
    assert Skirts(s0, rects[..1], vx, depth) == Quads(s0, e0, depth);
    SkirtsPrefixKeeps(s0, vs, rects, vx, depth, 1);
  }

  /** With two clusters laid back to back, the first one's list is followed by an original vertex. */
  lemma SecondClusterStart(vs: seq<TerrainVertex>, pool: seq<nat>, clusters: seq<ClusterRange>, ls: seq<seq<nat>>)
    requires Laid(pool, clusters, ls) && |ls| >= 2 && |ls[1]| >= 3
    requires forall i :: 0 <= i < |pool| ==> pool[i] < |vs|
    ensures clusters[0] == ClusterRange(0, |ls[0]|) && |ls[0]| + 2 < |pool| && pool[|ls[0]| + 2] < |vs|
    ensures ls[0] == pool[..|ls[0]|]
  {
    LaidRanges(pool, clusters, ls);
    assert Drawn(pool, clusters[0]) == ls[0];
    assert Drawn(pool, clusters[1]) == ls[1];
  }

  /**
   * The cluster ranges AddSkirtsToClusters leaves behind are wrong once
   * there are two clusters: the first cluster's range is stretched over the
   * start of the second cluster's triangles rather than over its own skirt,
   * which sits at the end of the pool.
   */
  lemma SkirtRangeMisses(vs: seq<TerrainVertex>, pool: seq<nat>, clusters: seq<ClusterRange>, ls: seq<seq<nat>>,
                         rects: seq<GridRect>, vx: nat, depth: real)
    requires Laid(pool, clusters, ls) && |clusters| >= 2 && |ls[1]| >= 3
    requires forall i :: 0 <= i < |pool| ==> pool[i] < |vs|
    requires |rects| == |clusters| && RectsFit(rects, vx, |vs|) && |Edges(rects[0], vx)| > 0
    requires |vs| + 2 * TotalEdges(rects, vx) < UintMax
    ensures var s := Skirts(Unskirted(vs, pool), rects, vx, depth);
            var c := Extended(clusters, rects, vx)[0];
            && c.indexOffset + c.indexCount <= |s.pool|
            && Drawn(s.pool, c) != ls[0] + SkirtList(s.pool, |pool|, rects, vx, 0)
  {
    var s := Skirts(Unskirted(vs, pool), rects, vx, depth);
    var n0, k := |ls[0]|, 6 * |Edges(rects[0], vx)|;
    SecondClusterStart(vs, pool, clusters, ls);
    FirstSkirtCorner(vs, pool, rects, vx, depth);
    StretchedMisses(s.pool, pool, ls[0], clusters, rects, vx, |vs|, n0, k);
  }

  /**
   * The first cluster's stretched range, read from the final pool sp, is not
   * its own list followed by its own skirt: index n0 + 2 of the range is an
   * original vertex, while the skirt's third index is a bottom copy.
   */
  lemma StretchedMisses(sp: seq<nat>, pool: seq<nat>, l0: seq<nat>, clusters: seq<ClusterRange>, rects: seq<GridRect>,
                        vx: nat, bound: nat, n0: nat, k: nat)
    requires |rects| == |clusters| && AllNonNeg(rects) && 0 < |clusters| && |sp| == |pool| + 6 * TotalEdges(rects, vx)
    requires clusters[0] == ClusterRange(0, n0) && n0 + 2 < |pool| && l0 == pool[..n0]
    requires k == 6 * |Edges(rects[0], vx)| && 2 < k
    requires |pool| + 2 < |sp| && sp[..|pool|] == pool && pool[n0 + 2] < bound <= sp[|pool| + 2]
    ensures var c := Extended(clusters, rects, vx)[0];
            && c.indexOffset + c.indexCount <= |sp|
            && Drawn(sp, c) != l0 + SkirtList(sp, |pool|, rects, vx, 0)
  {
    SkirtListFirst(sp, |pool|, rects, vx, k);
    ExtendedFirst(clusters, rects, vx, n0, k);
    DrawnFromStart(sp, n0 + k);
    StretchedRangeDiffers(sp, pool, n0, k, bound);
  }

  /** The first cluster, starting at 0 with n0 indices, is stretched by its k skirt indices. */
  lemma ExtendedFirst(clusters: seq<ClusterRange>, rects: seq<GridRect>, vx: nat, n0: nat, k: nat)
    requires |rects| == |clusters| && AllNonNeg(rects) && 0 < |clusters|
    requires clusters[0] == ClusterRange(0, n0) && k == 6 * |Edges(rects[0], vx)|
    ensures Extended(clusters, rects, vx)[0] == ClusterRange(0, n0 + k)
  {
  }

  /** A range starting at 0 draws a prefix of the pool. */
  lemma DrawnFromStart(sp: seq<nat>, m: nat)
    requires m <= |sp|
    ensures Drawn(sp, ClusterRange(0, m)) == sp[..m]
  {
  }

  /** A range stretched past its own list into the next one does not read the indices appended at the end. */
  lemma StretchedRangeDiffers(sp: seq<nat>, pool: seq<nat>, n0: nat, k: nat, bound: nat)
    requires |pool| <= |sp| && sp[..|pool|] == pool && n0 + 2 < |pool| && 2 < k && |pool| + k <= |sp|
    requires pool[n0 + 2] < bound <= sp[|pool| + 2]
    ensures sp[..n0 + k] != pool[..n0] + sp[|pool| .. |pool| + k]
  {
    assert sp[..n0 + k][n0 + 2] == pool[n0 + 2];
    assert (pool[..n0] + sp[|pool| .. |pool| + k])[n0 + 2] == sp[|pool| + 2];
  }



  /** Every cluster's range lies inside the pool. */
  predicate RangesIn(pool: seq<nat>, clusters: seq<ClusterRange>)
  {
    forall i :: 0 <= i < |clusters| ==> clusters[i].indexOffset + clusters[i].indexCount <= |pool|
  }

  /** What each cluster should draw once the skirts are built: its own triangles, then its own skirt. */
  function Grouped(pool: seq<nat>, clusters: seq<ClusterRange>, sp: seq<nat>, rects: seq<GridRect>, vx: nat): (ls: seq<seq<nat>>)
    requires |rects| == |clusters| && AllNonNeg(rects) && RangesIn(pool, clusters)
    requires |sp| == |pool| + 6 * TotalEdges(rects, vx)
    ensures |ls| == |clusters|
  {
    seq(|clusters|, i requires 0 <= i < |clusters| => Drawn(pool, clusters[i]) + SkirtList(sp, |pool|, rects, vx, i))
  }

  /** The repair's first pass: each cluster's triangles followed by the skirt indices recorded for it. */
  method GroupLists(pool: seq<nat>, clusters: seq<ClusterRange>, sp: seq<nat>, rects: seq<GridRect>, vx: nat)
    returns (lists: seq<seq<nat>>)
    requires |rects| == |clusters| && AllNonNeg(rects) && RangesIn(pool, clusters)
    requires |sp| == |pool| + 6 * TotalEdges(rects, vx)
    ensures lists == Grouped(pool, clusters, sp, rects, vx)
  {
    ghost var g := Grouped(pool, clusters, sp, rects, vx);
    lists := [];
    var mark := |pool|;
    var i := 0;
    assert rects[..0] == [];
    while i < |clusters|
      invariant i <= |clusters| && AllNonNeg(rects[..i])
      invariant mark == |pool| + 6 * TotalEdges(rects[..i], vx)
      invariant lists == g[..i]
    {
      TotalEdgesPrefix(rects, vx, i);
      var k := 6 * |Edges(rects[i], vx)|;
      assert g[i] == Drawn(pool, clusters[i]) + SkirtList(sp, |pool|, rects, vx, i);
      assert SkirtList(sp, |pool|, rects, vx, i) == sp[mark .. mark + k];
      assert g[..i + 1] == g[..i] + [g[i]];
      lists := lists + [Drawn(pool, clusters[i]) + sp[mark .. mark + k]];
      mark := mark + k;
      i := i + 1;
    }
    assert g[..i] == g;
  }

  /** The repair's second pass: concatenate the lists, each range starting at the running total. */
  method Regroup(lists: seq<seq<nat>>) returns (pool: seq<nat>, clusters: seq<ClusterRange>)
    ensures Laid(pool, clusters, lists)
  {
    pool := [];
    clusters := seq(|lists|, _ => ClusterRange(0, 0));
    var i := 0;
    while i < |lists|
      invariant i <= |lists| == |clusters| && Placed(pool, clusters, lists, i)
    {
      pool, clusters := PlaceOne(pool, clusters, lists, i, |pool|);
      i := i + 1;
    }
    assert lists[..i] == lists;
  }

  /**
   * After the repair every cluster draws its own triangles followed by
   * exactly the quads of its own four border edges.
   */
  lemma GroupedDrawsOwnSkirt(vs: seq<TerrainVertex>, pool: seq<nat>, clusters: seq<ClusterRange>, rects: seq<GridRect>,
                             vx: nat, depth: real, pool': seq<nat>, clusters': seq<ClusterRange>, i: nat)
    requires forall j :: 0 <= j < |pool| ==> pool[j] < |vs|
    requires |rects| == |clusters| && RectsFit(rects, vx, |vs|) && RangesIn(pool, clusters)
    requires |vs| + 2 * TotalEdges(rects, vx) < UintMax && i < |clusters|
    requires Laid(pool', clusters', Grouped(pool, clusters, Skirts(Unskirted(vs, pool), rects, vx, depth).pool, rects, vx))
    ensures RectsFit(rects[..i], vx, |vs|)
    ensures var before := Skirts(Unskirted(vs, pool), rects[..i], vx, depth);
            && clusters'[i].indexOffset + clusters'[i].indexCount <= |pool'|
            && Drawn(pool', clusters'[i]) ==
                 Drawn(pool, clusters[i]) + Quads(before, Edges(rects[i], vx), depth).pool[|before.pool|..]
  {
    var ls := Grouped(pool, clusters, Skirts(Unskirted(vs, pool), rects, vx, depth).pool, rects, vx);
    LaidRanges(pool', clusters', ls);
    StartDeduped(vs, pool, depth);
    SkirtListIsQuads(Unskirted(vs, pool), vs, rects, vx, depth, i);
  }
}
