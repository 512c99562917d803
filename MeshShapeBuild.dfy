/**
 * The collision-mesh asset builder: for each model it picks a triangle budget
 * from the build configuration, lets quadric decimation reduce the mesh (falling
 * back to the original when that fails or empties it), flattens the result into
 * a vertex array and a triangle-list index array, and stores both in a "JMSH"
 * container for the physics engine's mesh shape.
 *
 * Loading, the library's cleanup passes and the decimation itself are outside
 * the model: they are inputs (a mesh, and functions from a mesh or a target to
 * a mesh). The compact arrays have the layout of a convex hull record, so the
 * body of a JMSH file is that record.
 */
module MeshShapeBuild {
  import opened Wrappers
  import opened StructPack
  import opened ConvexBuild

  const TargetTrisDebugMax: nat := 8000
  const TargetTrisReleaseMax: nat := 3000
  const TargetTrisReleaseMin: nat := 500

  /** One triangle as the indices of its three corners. */
  datatype Face = Face(a: u32, b: u32, c: u32)

  /** A triangle mesh: its vertices and its faces. */
  datatype Mesh = Mesh(vertices: seq<Float3>, faces: seq<Face>)

  // ---------------------------------------------------------------------
  // decide_target_triangles

  function Max(x: int, y: int): int { if x < y then y else x }
  function Min(x: int, y: int): int { if x < y then x else y }

  /**
   * The triangle budget for a mesh of n triangles: 60% of it capped at 8000 in
   * Debug, a quarter of it kept between 500 and 3000 in Release, never below 1.
   */
  function DecideTargetTriangles(config: Config, n: nat): (t: nat)
    ensures 1 <= t
    ensures config == Debug ==> t <= TargetTrisDebugMax
    ensures config == Release ==> TargetTrisReleaseMin <= t <= TargetTrisReleaseMax
  {
    match config
      case Debug => Max(1, Min(n * 6 / 10, TargetTrisDebugMax))
      case Release => Max(1, Max(TargetTrisReleaseMin, Min(n / 4, TargetTrisReleaseMax)))
  }

  /** The budgets of the examples: 10000 triangles give 6000 in Debug and 2500 in Release, 1000 give 500 in Release. */
  lemma TargetExamples()
    ensures DecideTargetTriangles(Debug, 10000) == 6000
    ensures DecideTargetTriangles(Release, 10000) == 2500
    ensures DecideTargetTriangles(Release, 1000) == 500
    ensures DecideTargetTriangles(Debug, 1) == 1
  {
  }

  /** A larger mesh never gets a smaller budget. */
  lemma TargetMonotone(config: Config, n: nat, m: nat)
    requires n <= m
    ensures DecideTargetTriangles(config, n) <= DecideTargetTriangles(config, m)
  {
  }

  /**
   * The budget is below the original count, so decimation is attempted, exactly
   * for meshes of at least 2 triangles in Debug and more than 500 in Release.
   */
  lemma TargetBelowOriginal(config: Config, n: nat)
    ensures DecideTargetTriangles(config, n) < n <==>
      (if config == Debug then 2 <= n else TargetTrisReleaseMin < n)
  {
  }

  // ---------------------------------------------------------------------
  // simplify_mesh

  /**
   * simplify_mesh, with `decimate` standing for quadric decimation followed by
   * the cleanup passes (None when it raises): the original mesh when it has no
   * triangles, is already within budget, or the decimation fails or empties it.
   */
  function SimplifyMesh(config: Config, mesh: Mesh, decimate: nat -> Option<Mesh>): (r: Mesh)
    ensures r == mesh || decimate(DecideTargetTriangles(config, |mesh.faces|)) == Some(r)
    ensures |mesh.faces| > 0 ==> |r.faces| > 0
  {
    var n := |mesh.faces|;
    if n == 0 then mesh
    else
      var target := DecideTargetTriangles(config, n);
      if n <= target then mesh
      else match decimate(target)
        case None => mesh
        case Some(simp) => if |simp.faces| == 0 then mesh else simp
  }

  /**
   * A mesh is replaced only when it was over budget and the decimation gave a
   * non-empty mesh; that replacement is then the decimated mesh.
   */
  lemma SimplifyReplacesOnlyOverBudget(config: Config, mesh: Mesh, decimate: nat -> Option<Mesh>)
    ensures var target := DecideTargetTriangles(config, |mesh.faces|);
      SimplifyMesh(config, mesh, decimate) != mesh ==>
        && 0 < |mesh.faces| && target < |mesh.faces|
        && decimate(target).Some? && 0 < |decimate(target).value.faces|
        && SimplifyMesh(config, mesh, decimate) == decimate(target).value
  {
  }

  /** In Release a mesh of at most 500 triangles is never decimated. */
  lemma ReleaseKeepsSmallMeshes(mesh: Mesh, decimate: nat -> Option<Mesh>)
    requires |mesh.faces| <= TargetTrisReleaseMin
    ensures SimplifyMesh(Release, mesh, decimate) == mesh
  {
  }

  // ---------------------------------------------------------------------
  // to_compact_arrays

  /** The corners of the faces one after another: the (-1, 3) face array flattened. */
  function Flatten(fs: seq<Face>): (ix: seq<u32>)
    ensures |ix| == 3 * |fs|
  {
    if fs == [] then [] else [fs[0].a, fs[0].b, fs[0].c] + Flatten(fs[1..])
  }

  /** The n faces a triangle list of 3n indices holds, three indices per face. */
  function Faces(ix: seq<u32>, n: nat): (fs: seq<Face>)
    requires |ix| == 3 * n
    ensures |fs| == n
  {
    if n == 0 then [] else [Face(ix[0], ix[1], ix[2])] + Faces(ix[3..], n - 1)
  }

  /** Flattening loses nothing: the faces come back from the triangle list. */
  lemma {:induction false} FacesFlatten(fs: seq<Face>)
    ensures Faces(Flatten(fs), |fs|) == fs
  {
    if fs != [] {
      var m := |fs| - 1;
      FacesFlatten(fs[1..]);
      assert Flatten(fs)[3..] == Flatten(fs[1..]);
      assert Faces(Flatten(fs), |fs|) == [fs[0]] + Faces(Flatten(fs[1..]), m);
    }
  }

  /**
   * to_compact_arrays, given the mesh after the library has removed its
   * unreferenced vertices: the vertices, and the flattened faces, or no
   * indices at all when there are no vertices or no faces.
   */
  function ToCompactArrays(pruned: Mesh): (arrays: Hull<Float3>)
    ensures arrays.points == pruned.vertices
    ensures |arrays.indices| == if pruned.vertices == [] then 0 else 3 * |pruned.faces|
  {
    if pruned.vertices == [] || pruned.faces == [] then Hull(pruned.vertices, [])
    else Hull(pruned.vertices, Flatten(pruned.faces))
  }

  /** A non-empty mesh's triangle list holds its faces, in order. */
  lemma CompactKeepsFaces(pruned: Mesh)
    requires pruned.vertices != [] && pruned.faces != []
    ensures Faces(ToCompactArrays(pruned).indices, |pruned.faces|) == pruned.faces
  {
    FacesFlatten(pruned.faces);
  }

  // ---------------------------------------------------------------------
  // write_mesh_binary and its reading direction

  /** "JMSH" and version 1. */
  function MeshHeader(): (b: seq<byte>)
    ensures |b| == 8
  {
    Tag('J', 'M', 'S', 'H') + WordBytes(1)
  }

  /** The JMSH file write_mesh_binary leaves, or None when a count does not fit a word and packing raises. */
  function MeshFile(arrays: Hull<Float3>): Option<seq<byte>>
  {
    if Fits(arrays) then Some(MeshHeader() + HullRecord(arrays)) else None
  }

  /** write_mesh_binary: the tag, the version, the two counts, the coordinates, the indices. */
  method WriteMeshBinary(verts: seq<Float3>, indices: seq<u32>) returns (file: Option<seq<byte>>)
    ensures file == MeshFile(Hull(verts, indices))
  {
    var arrays := Hull(verts, indices);
    if !Fits(arrays) {
      return None;
    }
    var out := Tag('J', 'M', 'S', 'H');
    out := out + WordBytes(1);
    var record := PackHull(arrays);
    return Some(out + record);
  }

  /** The arrays a JMSH file holds, or None when it is not one. */
  function ParseMesh(b: seq<byte>): Option<Hull<Float3>>
  {
    if |b| < 16 || b[..4] != Tag('J', 'M', 'S', 'H') || WordAt(b, 4) != 1 || RecordEnd(b, 8) != |b| then None
    else Some(ReadHull(b, 8))
  }

  /** A written JMSH file reads back as the arrays it was written from. */
  lemma MeshFileRoundTrip(arrays: Hull<Float3>)
    requires MeshFile(arrays).Some?
    ensures ParseMesh(MeshFile(arrays).value) == Some(arrays)
  {
    var head, record := MeshHeader(), HullRecord(arrays);
    var b := head + record;
    var w1 := WordBytes(1);
    assert head == Tag('J', 'M', 'S', 'H') + w1;
    assert b[..4] == Tag('J', 'M', 'S', 'H');
    assert WordStoredAt(b, 4, 1) by {
      assert b[4] == w1[0] && b[5] == w1[1] && b[6] == w1[2] && b[7] == w1[3];
    }
    WordRoundTrip(1, b, 4);
    assert b[8 .. |b|] == record;
    ReadRecord(b, 8, arrays, |b|);
  }

  /** Parsing accepts only what the writer produces: a file that parses is the file of what it holds. */
  lemma ParsedMeshIsWritten(b: seq<byte>)
    requires ParseMesh(b).Some?
    ensures MeshFile(ParseMesh(b).value) == Some(b)
  {
    var h := ParseMesh(b).value;
    var vc: nat, ic: nat := WordAt(b, 8), WordAt(b, 12);
    var k := 2 + 3 * vc + ic;
    ParsedFields(b, 8, k);
    assert Fits(h);
    var ws := RecordWords(h);
    assert |b| == 8 + 4 * |ws|;
    assert b[8..] == WordsBytes(ws) by {
      StoredWords(b, 8, ws);
    }
    assert b[..4] == Tag('J', 'M', 'S', 'H');
    assert b[4..8] == WordBytes(1) by {
      WordBytesOf(b, 4);
    }
    assert b == b[..4] + b[4..8] + b[8..];
  }

  /** The fields of the record at i, read as words, are the record's words. */
  lemma ParsedFields(b: seq<byte>, i: nat, k: nat)
    requires i + 8 <= |b| && k == 2 + 3 * WordAt(b, i) + WordAt(b, i + 4) && i + 4 * k == |b|
    ensures Fits(ReadHull(b, i))
    ensures RecordWords(ReadHull(b, i)) == WordsAt(b, i, k)
  {
    var vc: nat, ic: nat := WordAt(b, i), WordAt(b, i + 4);
    var cs, ix := WordsAt(b, i + 8, 3 * vc), WordsAt(b, i + 8 + 12 * vc, ic);
    var h := Hull(Points(cs, vc), ix);
    assert ReadHull(b, i) == h;
    CoordsPoints(cs, vc);
    assert [|h.points|, |h.indices|] == [vc, ic];
    RecordSlices(b, i, vc, ic, k);
    SplitWords(WordsAt(b, i, k), vc, ic, cs, ix);
  }

  /** The words of the record at i: its two counts, then the coordinates, then the indices. */
  lemma RecordSlices(b: seq<byte>, i: nat, vc: nat, ic: nat, k: nat)
    requires i + 8 <= |b| && vc == WordAt(b, i) && ic == WordAt(b, i + 4)
    requires k == 2 + 3 * vc + ic && i + 4 * k == |b|
    ensures WordsAt(b, i, k)[0] == vc && WordsAt(b, i, k)[1] == ic
    ensures WordsAt(b, i, k)[2 .. 2 + 3 * vc] == WordsAt(b, i + 8, 3 * vc)
    ensures WordsAt(b, i, k)[2 + 3 * vc ..] == WordsAt(b, i + 8 + 12 * vc, ic)
  {
    WordsAtSlice(b, i, k, 2, 3 * vc);
    assert i + 4 * 2 == i + 8;
    WordsAtSlice(b, i, k, 2 + 3 * vc, ic);
    assert i + 4 * (2 + 3 * vc) == i + 8 + 12 * vc;
    assert WordsAt(b, i, k)[2 + 3 * vc ..] == WordsAt(b, i, k)[2 + 3 * vc .. k];
  }

  /** A run of words made of two counts and two runs is their concatenation. */
  lemma SplitWords(all: seq<u32>, vc: u32, ic: u32, cs: seq<u32>, ix: seq<u32>)
    requires |all| == 2 + |cs| + |ix| && all[0] == vc && all[1] == ic
    requires all[2 .. 2 + |cs|] == cs && all[2 + |cs|..] == ix
    ensures all == [vc, ic] + cs + ix
  {
    assert all == all[..2] + all[2 .. 2 + |cs|] + all[2 + |cs|..];
    assert all[..2] == [vc, ic];
  }

  /** The bytes of b are the packing of the words read from them. */
  lemma {:induction false} StoredWords(b: seq<byte>, i: nat, ws: seq<u32>)
    requires i + 4 * |ws| == |b| && WordsAt(b, i, |ws|) == ws
    ensures b[i..] == WordsBytes(ws)
    decreases |ws|
  {
    if ws != [] {
      var j, m := i + 4, |ws| - 1;
      WordBytesOf(b, i);
      WordsAtSlice(b, i, |ws|, 1, m);
      assert i + 4 * 1 == j && ws[1..] == ws[1 .. 1 + m];
      StoredWords(b, j, ws[1..]);
      assert ws[0] == WordAt(b, i);
      assert b[i .. j] == WordBytes(ws[0]);
      assert WordsBytes(ws) == WordBytes(ws[0]) + WordsBytes(ws[1..]);
      assert b[i..] == b[i .. j] + b[j..];
    }
  }

  /** The four bytes at i are the packing of the word read from them. */
  lemma WordBytesOf(b: seq<byte>, i: nat)
    requires i + 4 <= |b|
    ensures b[i .. i + 4] == WordBytes(WordAt(b, i))
  {
    var w := WordAt(b, i);
    var b0, b1, b2, b3 := b[i] as int, b[i + 1] as int, b[i + 2] as int, b[i + 3] as int;
    assert w == b0 + 0x100 * (b1 + 0x100 * (b2 + 0x100 * b3));
    assert w % 256 == b0 && w / 0x100 == b1 + 0x100 * (b2 + 0x100 * b3);
    assert (w / 0x100) % 256 == b1 && w / 0x1_0000 == b2 + 0x100 * b3;
    assert (w / 0x1_0000) % 256 == b2 && w / 0x100_0000 == b3;
  }

  // ---------------------------------------------------------------------
  // process_one_model

  datatype MeshOutcome = Fresh | EmptyMesh | PackFailed | WroteMesh(file: seq<byte>)

  /**
   * process_one_model, given the output's modification time (None when it is
   * missing), the source's, the loaded mesh, the decimation, and the library's
   * removal of unreferenced vertices.
   */
  function ProcessMeshModel(
    dstMtime: Option<real>, srcMtime: real, config: Config, loaded: Mesh,
    decimate: nat -> Option<Mesh>, prune: Mesh -> Mesh): (o: MeshOutcome)
    ensures o == Fresh <==> dstMtime.Some? && dstMtime.value >= srcMtime
  {
    if dstMtime.Some? && dstMtime.value >= srcMtime then Fresh
    else
      var arrays := ToCompactArrays(prune(SimplifyMesh(config, loaded, decimate)));
      if arrays.points == [] || arrays.indices == [] then EmptyMesh
      else match MeshFile(arrays)
        case None => PackFailed
        case Some(f) => WroteMesh(f)
  }

  /**
   * A file process_one_model writes holds the vertices and the faces of the
   * simplified, pruned mesh: at least one vertex and at least one triangle.
   */
  lemma ProcessWritesMesh(
    dstMtime: Option<real>, srcMtime: real, config: Config, loaded: Mesh,
    decimate: nat -> Option<Mesh>, prune: Mesh -> Mesh)
    requires ProcessMeshModel(dstMtime, srcMtime, config, loaded, decimate, prune).WroteMesh?
    ensures var f := ProcessMeshModel(dstMtime, srcMtime, config, loaded, decimate, prune).file;
      var pruned := prune(SimplifyMesh(config, loaded, decimate));
      && ParseMesh(f).Some?
      && ParseMesh(f).value.points == pruned.vertices != []
      && Faces(ParseMesh(f).value.indices, |pruned.faces|) == pruned.faces != []
  {
    var pruned := prune(SimplifyMesh(config, loaded, decimate));
    var arrays := ToCompactArrays(pruned);
    MeshFileRoundTrip(arrays);
    CompactKeepsFaces(pruned);
  }

  /** Nothing is written for a mesh that is empty after processing. */
  lemma EmptyWritesNothing(
    dstMtime: Option<real>, srcMtime: real, config: Config, loaded: Mesh,
    decimate: nat -> Option<Mesh>, prune: Mesh -> Mesh)
    requires !(dstMtime.Some? && dstMtime.value >= srcMtime)
    requires var pruned := prune(SimplifyMesh(config, loaded, decimate));
      pruned.vertices == [] || pruned.faces == []
    ensures ProcessMeshModel(dstMtime, srcMtime, config, loaded, decimate, prune) == EmptyMesh
  {
  }
}
