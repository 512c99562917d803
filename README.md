# SectorFW collision-asset build and engine bookkeeping, in Dafny

This project models two parts of the SectorFW game-engine repository.

**The offline collision-asset build (`AssetsBuild/`).** Two Python scripts turn 3D model files into collision data for the Jolt physics engine.

- `generate_convex.py` takes the convex decomposition of a model.
  - It keeps the hulls with the most vertices, using a stable sort.
  - It clamps each hull to Jolt's 256-vertex limit: it compacts the referenced vertices and renumbers the triangles.
  - It writes the hulls as a little-endian `CVXH` file.
- `generate_meshshape.py` picks a triangle target for Debug or Release builds.
  - It decimates toward that target, and falls back to the original mesh when decimation fails.
  - It writes the mesh as a `JMSH` file.
- Both scripts skip a model whose output is at least as new as the source.

Modules: `ConvexBuild`, `MeshShapeBuild` and `StructPack`. `StructPack` holds the "<I"/"<f" packing and its inverse.

**Integer and data-structure logic in the engine (`SectorFW/`, `SectorXConsoleProject/app/`).**

- `Morton`: ZigZag coding, and 2D and 3D Morton codes with their decoders.
- `SxMath`: the integer helpers of `sx_math.h`, namely clamp, sign, wrap, power-of-two tests and rounding, and alignment.
- `OneOrMore`: the one-or-more container and its small-buffer variant, as classes over sequences, with the small-buffer variant's inline storage an array.
- `Grid`: flat 2D and 3D grid indexing, as classes over sequences.
- `BuildOrder`: near-to-far ordering of positions by distance buckets, 16-bit radix keys and a front-K selection.
- `RenderQueue`: the draw-command sorts (an indirect sort, an in-place permutation and an 8-pass LSD radix sort) and the producer's small buffer.
  - `SortSpec` and `CountingSort` hold the stable-sort specification these orders are proved against.
  - `StdSort` stands for `std::sort`.
- `MaterialManager`: the material key and the SRV/CBV/sampler binding-slot caches of the Direct3D 11 material manager, and the deferred release on destruction.
- `TerrainClustered`: the clustered terrain's index pool, the vertex weld along cluster borders and the skirt generation.
- `LeafService`: the leaf-volume slot allocator, the hash-based random numbers and the clump curve ids.
- `AudioService`: the audio load cache with reference counts, the voice tickets with generations, and the command pump.
- `ChunkCrossingMove`: the chunk-key logic for entities crossing chunks, and the budgeted FIFO move queue with its per-thread batch.
- `BlockCompression`: `NormalToUNorm8` and the BC4/BC5 block encoders of `main.cpp`, in the BC4_UNORM and BC5_UNORM layouts of Direct3D 10/11 block compression.

External libraries are parameters or opaque inputs. These are trimesh, V-HACD, quadric decimation, Direct3D, SoLoud and the file system. Each is named in the module that uses it.

`decide_target_triangles` (`AssetsBuild/generate_meshshape.py:129-137`) truncates the scaled triangle count with `int()`, and the model truncates too.

## Model

| member | source | states |
|---|---|---|
| ConvexBuild.Insert | AssetsBuild/generate_convex.py:63 | inserting one index into a strictly increasing list keeps it strictly increasing and adds exactly that index |
| ConvexBuild.Unique | AssetsBuild/generate_convex.py:63 | np.unique: the result is strictly increasing and holds exactly the indices of the input |
| ConvexBuild.IndexOf | AssetsBuild/generate_convex.py:85-86 | the remap table sends a kept vertex to its position in keep |
| ConvexBuild.Keep | AssetsBuild/generate_convex.py:65-72 | keep is strictly increasing and holds only used indices; with at most max_vertices used indices it holds all of them, and over the limit it is exactly the max_vertices lowest used indices (used[:max_vertices]), each below every used index it drops |
| ConvexBuild.KeptTriangles | AssetsBuild/generate_convex.py:75-77 | the kept corners are no more than the input's and all lie in keep |
| ConvexBuild.KeptTrianglesWhole | AssetsBuild/generate_convex.py:75-77 | the mask keeps or drops whole triangles, so the kept corner list is a multiple of three long |
| ConvexBuild.KeptTrianglesFilter | AssetsBuild/generate_convex.py:75-77 | faces[tri_keep] exactly: there is a strictly increasing list m of triangle numbers such that triangle j of the result is triangle m[j] of the input corner by corner, and a triangle appears in m exactly when all three of its corners are in keep |
| ConvexBuild.KeptTrianglesAll | AssetsBuild/generate_convex.py:75-77 | when every corner is in keep, every triangle is kept, in order |
| ConvexBuild.KeptTrianglesNone | AssetsBuild/generate_convex.py:75-82 | when no triangle has all three corners in keep, nothing is kept, which is the empty-index return |
| ConvexBuild.ClampHull | AssetsBuild/generate_convex.py:38-95 | a hull within the vertex limit comes back unchanged; the clamp fails exactly when the corners do not form triangles or a kept index is past the last point; a clamped hull has at most max_vertices points |
| ConvexBuild.KeptCorners | AssetsBuild/generate_convex.py:65-82 | the corner list a clamp keeps is a multiple of three long and no longer than the input's |
| ConvexBuild.ClampCompacts | AssetsBuild/generate_convex.py:63-95 | a clamped hull's points are points[keep]; it has as many points as used vertices when those fit the limit, else exactly max_vertices; every new index is in range, names the same point as the old corner it replaces and is that corner's position in keep; with all used vertices kept, every triangle survives |
| ConvexBuild.MostVertices | AssetsBuild/generate_convex.py:170 | the largest vertex count bounds every hull's count |
| ConvexBuild.CountAsFewer | AssetsBuild/generate_convex.py:170 | ordering by descending vertex count is ordering by the ascending key M minus the count, class by class |
| ConvexBuild.FewerAsCount | AssetsBuild/generate_convex.py:170 | the converse: each class of the ascending key is a class of vertex count |
| ConvexBuild.FewerBelow | AssetsBuild/generate_convex.py:170 | the ascending key stays below M + 1, so the counting sort covers every key |
| ConvexBuild.SameCountSelects | AssetsBuild/generate_convex.py:170 | two sequences with the same classes by key have the same classes by vertex count |
| ConvexBuild.FewerSortedDescends | AssetsBuild/generate_convex.py:170 | sorted by the ascending key means vertex counts never increase |
| ConvexBuild.ByVertexCountSorts | AssetsBuild/generate_convex.py:170 | sorted(reverse=True) by vertex count is a permutation with non-increasing counts and keeps hulls of equal count in their input order (stability) |
| ConvexBuild.GroupedByFewer | AssetsBuild/generate_convex.py:170 | the counting sort on the ascending key gives a permutation with non-increasing counts that keeps each count's hulls in input order |
| ConvexBuild.FewerSorts | AssetsBuild/generate_convex.py:170 | any stable sort on the ascending key does the same |
| ConvexBuild.ByVertexCountUnique | AssetsBuild/generate_convex.py:170 | there is only one stable descending order: any sequence with non-increasing counts and the same per-count order is ByVertexCount |
| ConvexBuild.ByVertexCountIs | AssetsBuild/generate_convex.py:170 | ByVertexCount is the counting sort on the ascending key for the largest count |
| ConvexBuild.FewerUnique | AssetsBuild/generate_convex.py:170 | a stable descending order of counts within M is the counting sort for M |
| ConvexBuild.SameCountsBounded | AssetsBuild/generate_convex.py:170 | a sequence with the same per-count classes as hs has no count above hs's largest |
| ConvexBuild.FewerSelects | AssetsBuild/generate_convex.py:170 | equal classes by vertex count give equal classes by the ascending key |
| ConvexBuild.FewerSorted | AssetsBuild/generate_convex.py:170 | non-increasing counts are sorted by the ascending key |
| ConvexBuild.PickTopHullsPicks | AssetsBuild/generate_convex.py:168-171 | pick_top_hulls returns min(max_hulls, hulls) of the input hulls, in non-increasing vertex count, and every hull left out has no more vertices than any hull picked |
| ConvexBuild.TopOfSorted | AssetsBuild/generate_convex.py:171 | a prefix of a descending permutation is a sub-multiset, still descending, and dominates what it leaves out |
| ConvexBuild.RecordWords | AssetsBuild/generate_convex.py:199-210 | one hull's record is two counts, three words per vertex and one per index |
| ConvexBuild.HullRecord | AssetsBuild/generate_convex.py:199-210 | one hull's record is 8 + 12 per vertex + 4 per index bytes |
| ConvexBuild.RecordPacks | AssetsBuild/generate_convex.py:202-210 | the record is the three writes in order: the "<II" counts, the "<f" coordinates, the "<I" indices |
| ConvexBuild.ConvexHeader | AssetsBuild/generate_convex.py:191-193 | the header is twelve bytes: the tag, version 1 and the hull count |
| ConvexBuild.RecordsSnoc | AssetsBuild/generate_convex.py:195-210 | writing one more hull appends exactly its record |
| ConvexBuild.Clamped | AssetsBuild/generate_convex.py:197 | each hull is clamped before it is written, one for one, and every clamped hull fits the 32-bit count fields |
| ConvexBuild.ClampedSnoc | AssetsBuild/generate_convex.py:195-197 | clamping one more hull extends the clamped list by that hull's clamp |
| ConvexBuild.PackHull | AssetsBuild/generate_convex.py:199-210 | the writes for one clamped hull are its record |
| ConvexBuild.PackNext | AssetsBuild/generate_convex.py:195-210 | one loop pass either appends the next hull's record to what is written, or fails only when some hull cannot be clamped |
| ConvexBuild.WriteConvexBinary | AssetsBuild/generate_convex.py:174-212 | the bytes written are the CVXH file of the hulls, or nothing when a hull fails to clamp |
| ConvexBuild.ReadRecord | AssetsBuild/generate_convex.py:199-210 | a hull's record read back at its offset ends where it was written and gives the hull again |
| ConvexBuild.ReadCounted | AssetsBuild/generate_convex.py:202-210 | the two counts at a record's start fix its length and where its coordinates and indices lie |
| ConvexBuild.ReadFields | AssetsBuild/generate_convex.py:202-210 | the words of a record split back into the counts, the coordinates and the indices |
| ConvexBuild.ParseRecordsRoundTrip | AssetsBuild/generate_convex.py:195-210 | the records of hulls parse back into those hulls |
| ConvexBuild.ParseStep | AssetsBuild/generate_convex.py:195-210 | one record followed by n records parse as n + 1 hulls |
| ConvexBuild.ConvexFileRoundTrip | AssetsBuild/generate_convex.py:174-212 | a written CVXH file parses back into the clamped hulls |
| ConvexBuild.Params | AssetsBuild/generate_convex.py:132-154 | both configurations cap a hull at the engine's 256-vertex limit |
| ConvexBuild.MaxHulls | AssetsBuild/generate_convex.py:242-247 | main keeps at least one hull and never more than the decomposition may produce, strictly fewer in Release |
| ConvexBuild.ProcessOneModel | AssetsBuild/generate_convex.py:215-235 | the model is skipped exactly when the output is at least as new as the source, and nothing is written exactly when it is not skipped and the decomposition is empty |
| ConvexBuild.ProcessWritesTopHulls | AssetsBuild/generate_convex.py:215-235 | a written file parses back into the clamped top hulls, min(max_hulls, hulls) of them, each within the vertex limit |
| MeshShapeBuild.DecideTargetTriangles | AssetsBuild/generate_meshshape.py:124-137 | the target is at least one triangle; Debug never exceeds 8000; Release stays within [500, 3000] |
| MeshShapeBuild.TargetExamples | AssetsBuild/generate_meshshape.py:129-137 | 60 percent in Debug and 25 percent in Release, with the Release floor: 10000 gives 6000 and 2500, 1000 gives 500 in Release, 1 gives 1 in Debug |
| MeshShapeBuild.TargetMonotone | AssetsBuild/generate_meshshape.py:124-137 | more original triangles never give a smaller target |
| MeshShapeBuild.TargetBelowOriginal | AssetsBuild/generate_meshshape.py:124-154 | decimation is attempted (target below the original count) exactly for at least two triangles in Debug and more than 500 in Release |
| MeshShapeBuild.SimplifyMesh | AssetsBuild/generate_meshshape.py:140-176 | the result is the original mesh or the decimation at the decided target, and a mesh with triangles never becomes empty |
| MeshShapeBuild.SimplifyReplacesOnlyOverBudget | AssetsBuild/generate_meshshape.py:145-176 | simplify_mesh returns something other than the input only when the mesh has triangles, its budget is below its triangle count and the decimation succeeded with a non-empty mesh, which is then the result |
| MeshShapeBuild.ReleaseKeepsSmallMeshes | AssetsBuild/generate_meshshape.py:135-154 | in Release a mesh of at most 500 triangles is never decimated |
| MeshShapeBuild.Flatten | AssetsBuild/generate_meshshape.py:194 | flattening the (F,3) face array gives three indices per face |
| MeshShapeBuild.Faces | AssetsBuild/generate_meshshape.py:188 | reshaping 3n indices gives n faces |
| MeshShapeBuild.FacesFlatten | AssetsBuild/generate_meshshape.py:188-194 | reshaping a flattened face list gives the faces back |
| MeshShapeBuild.ToCompactArrays | AssetsBuild/generate_meshshape.py:179-195 | the vertices are kept as they are, and the indices are three per face unless there are no vertices, when they are empty |
| MeshShapeBuild.CompactKeepsFaces | AssetsBuild/generate_meshshape.py:188-195 | for a mesh with vertices and faces the index list reshapes back into exactly its faces |
| MeshShapeBuild.MeshHeader | AssetsBuild/generate_meshshape.py:219-220 | the header is eight bytes: the tag "JMSH" and version 1 |
| MeshShapeBuild.WriteMeshBinary | AssetsBuild/generate_meshshape.py:198-229 | the bytes written are the JMSH file of the vertices and indices, or nothing when a count does not fit 32 bits |
| MeshShapeBuild.MeshFileRoundTrip | AssetsBuild/generate_meshshape.py:215-227 | a written JMSH file parses back into the vertices and indices written |
| MeshShapeBuild.ParsedMeshIsWritten | AssetsBuild/generate_meshshape.py:215-227 | the converse: every byte string that parses as a JMSH file is the file written for what it parses to |
| MeshShapeBuild.ParsedFields | AssetsBuild/generate_meshshape.py:221-227 | the counts, coordinates and indices read from a file body are the words of one record that fits the count fields |
| MeshShapeBuild.RecordSlices | AssetsBuild/generate_meshshape.py:221-227 | a body's words split at the counts into the coordinates and the indices |
| MeshShapeBuild.SplitWords | AssetsBuild/generate_meshshape.py:221-227 | the counts, coordinates and indices rejoined give back the body's words |
| MeshShapeBuild.StoredWords | AssetsBuild/generate_meshshape.py:220-227 | bytes whose little-endian words are ws are the packing of ws |
| MeshShapeBuild.WordBytesOf | AssetsBuild/generate_meshshape.py:220 | any four bytes are the "<I" packing of the word they hold |
| MeshShapeBuild.ProcessMeshModel | AssetsBuild/generate_meshshape.py:232-254 | the model is skipped exactly when the output exists and is at least as new as the source |
| MeshShapeBuild.ProcessWritesMesh | AssetsBuild/generate_meshshape.py:245-254 | a written file parses back into the pruned simplified mesh's vertices and its faces, both non-empty |
| MeshShapeBuild.EmptyWritesNothing | AssetsBuild/generate_meshshape.py:250-252 | a model that is not up to date and prunes to no vertices or no faces writes nothing |
| StructPack.WordRoundTrip | AssetsBuild/generate_convex.py:192 | a word packed with "<I" reads back as the same word |
| StructPack.WordsBytes | AssetsBuild/generate_convex.py:210 | packing k words with "<kI" gives exactly 4k bytes |
| StructPack.WordsAt | AssetsBuild/generate_convex.py:210 | reading k words gives k words |
| StructPack.WordsBytesAt | AssetsBuild/generate_convex.py:210 | word j of a packed run lies at byte offset 4j |
| StructPack.WordsRoundTrip | AssetsBuild/generate_convex.py:210 | a packed run of words, wherever it sits in a buffer, reads back as the same words |
| StructPack.WordRead | AssetsBuild/generate_convex.py:202-210 | any single word of a packed run reads back at its offset |
| StructPack.WordsBytesAppend | AssetsBuild/generate_convex.py:202-210 | packing two runs one after the other is packing their concatenation, so consecutive writes form one run |
| StructPack.WordsAtSlice | AssetsBuild/generate_meshshape.py:221-227 | reading a sub-run of words is the slice of reading the whole run |
| StructPack.Coords | AssetsBuild/generate_convex.py:205 | flattening points gives three coordinates per point |
| StructPack.Points | AssetsBuild/generate_convex.py:205 | regrouping 3n coordinates gives n points |
| StructPack.PointsCoords | AssetsBuild/generate_convex.py:205 | regrouping flattened points gives the points back |
| StructPack.CoordsPoints | AssetsBuild/generate_meshshape.py:223 | flattening regrouped coordinates gives the coordinates back |
| Morton.SignSmear64 | SectorFW/inc/SectorFW/Util/Morton.h:9 | the arithmetic shift `v >> 63` is all ones exactly when the sign bit is set, and zero otherwise |
| Morton.SignSmear32 | SectorFW/inc/SectorFW/Util/Morton.h:61 | the same for `v >> 31` on a 32-bit value |
| Morton.ZigZag64Shape | SectorFW/inc/SectorFW/Util/Morton.h:7-10 | ZigZag64 shifts a non-negative value left (even code) and shifts and complements a negative one (odd code) |
| Morton.UnZigZag64Shape | SectorFW/inc/SectorFW/Util/Morton.h:56-58 | UnZigZag64 halves an even code and halves and complements an odd one |
| Morton.ZigZag64RoundTrip | SectorFW/inc/SectorFW/Util/Morton.h:7-10 | UnZigZag64 inverts ZigZag64 on every 64-bit value |
| Morton.ZigZag32Shape | SectorFW/inc/SectorFW/Util/Morton.h:60-62 | ZigZag32 maps non-negative values to even codes and negative values to odd codes, as in the 64-bit case |
| Morton.UnZigZag32Shape | SectorFW/inc/SectorFW/Util/Morton.h:63-65 | UnZigZag32 halves even codes and halves and complements odd ones |
| Morton.ZigZag32RoundTrip | SectorFW/inc/SectorFW/Util/Morton.h:60-65 | UnZigZag32 inverts ZigZag32 on every 32-bit value |
| Morton.ZigZagSmallValues | SectorFW/inc/SectorFW/Util/Morton.h:7-10 | 0, -1, 1 and -2 encode to 0, 1, 2 and 3 in both widths |
| Morton.Compact1By1Fits | SectorFW/inc/SectorFW/Util/Morton.h:40-53 | a decoded 2D coordinate fits in 32 bits, so the narrowing to `uint32_t` loses nothing |
| Morton.Part1By1OnEvenBits | SectorFW/inc/SectorFW/Util/Morton.h:25-33 | Part1By1 puts bits only on even positions |
| Morton.Compact1By1OfPart1By1 | SectorFW/inc/SectorFW/Util/Morton.h:25-47 | Compact1By1 undoes Part1By1 on the low 32 bits |
| Morton.Morton2DRoundTripX | SectorFW/inc/SectorFW/Util/Morton.h:34-51 | decoding the x part of Morton2D64(x, y) gives the low 32 bits of x |
| Morton.Morton2DRoundTripY | SectorFW/inc/SectorFW/Util/Morton.h:34-54 | decoding the y part of Morton2D64(x, y) gives the low 32 bits of y |
| Morton.Part1By2OnThirdBits | SectorFW/inc/SectorFW/Util/Morton.h:73-81 | Part1By2_64 puts bits only on every third position |
| Morton.Compact1By2OfPart1By2 | SectorFW/inc/SectorFW/Util/Morton.h:73-91 | Compact1By2_64 undoes Part1By2_64 on the low 21 bits |
| Morton.Compact1By2ThirdOnly | SectorFW/inc/SectorFW/Util/Morton.h:83-84 | Compact1By2_64 reads only the every-third-bit positions of its input |
| Morton.InterleaveSeparates3 | SectorFW/inc/SectorFW/Util/Morton.h:96-98 | three spread words shifted by 0, 1 and 2 do not overlap and can each be recovered by shift and mask |
| Morton.Morton3DRoundTrip | SectorFW/inc/SectorFW/Util/Morton.h:96-108 | DeMorton3D64(Morton3D64(x, y, z)) gives the low 21 bits of each coordinate |
| Morton.Morton3DZZRoundTrip | SectorFW/inc/SectorFW/Util/Morton.h:113-124 | a signed coordinate triple survives Morton3D64_ZZ then DeMorton3D64_ZZ when each ZigZag code fits in 21 bits |
| SxMath.Clamp | SectorFW/inc/SectorFW/Math/sx_math.h:68-71 | for lo <= hi the result lies in [lo, hi]; it is x when x is in range, lo below it and hi above it |
| SxMath.Clamp01 | SectorFW/inc/SectorFW/Math/sx_math.h:73 | clamp01 lies in [0, 1] and keeps a value already in [0, 1] |
| SxMath.TruncDiv | SectorFW/inc/SectorFW/Math/sx_math.h:158 | the C++ signed quotient: its magnitude is abs(a) / abs(b) and its sign is that of a * b |
| SxMath.TruncRem | SectorFW/inc/SectorFW/Math/sx_math.h:158 | the C++ signed remainder: smaller than the divisor in magnitude, with the sign of the dividend, and a == (a / b) * b + a % b |
| SxMath.EuclidFromTrunc | SectorFW/inc/SectorFW/Math/sx_math.h:158-159 | for a negative dividend, adding the width to a negative truncating remainder gives the mathematical remainder |
| SxMath.Wrap | SectorFW/inc/SectorFW/Math/sx_math.h:146-162 | for a signed common type and hi > lo, the integer wrap lies in [lo, hi) and equals lo + ((x - lo) mod (hi - lo)), the truncating remainder corrected by the width |
| SxMath.WrapUnsigned | SectorFW/inc/SectorFW/Math/sx_math.h:146-162 | for an unsigned common type of 2^n values the result is an n-bit value; for lo < hi and x in range it lies in [lo, hi) and is lo plus ((x - lo) mod 2^n) mod (hi - lo), x - lo wrapping first |
| SxMath.WrapUnsignedAgrees | SectorFW/inc/SectorFW/Math/sx_math.h:146-162 | for lo <= x the unsigned wrap equals the signed one |
| SxMath.WrapUnsignedBelowLo | SectorFW/inc/SectorFW/Math/sx_math.h:146-162 | below lo the two differ: on 32-bit words wrap(3u, 5u, 10u) is 9 and wrap(-1, 0, 5u) is 0, where the signed wrap gives 8 and 4 |
| SxMath.Sign | SectorFW/inc/SectorFW/Math/sx_math.h:183-187 | sign of a signed or floating value is -1, 0 or 1, and is 1 exactly for x > 0 and -1 exactly for x < 0 |
| SxMath.SignUnsigned | SectorFW/inc/SectorFW/Math/sx_math.h:188-190 | sign of an unsigned value is 0 exactly for 0, and 1 otherwise |
| SxMath.OneBitIsPowerOfTwo | SectorFW/inc/SectorFW/Math/sx_math.h:201-204 | a word with a single set bit passes is_power_of_two |
| SxMath.PowerOfTwoIsOneBit | SectorFW/inc/SectorFW/Math/sx_math.h:201-204 | a word passing is_power_of_two has a single set bit |
| SxMath.IsPowerOfTwoIffOneBit | SectorFW/inc/SectorFW/Math/sx_math.h:201-204 | is_power_of_two(x) holds if and only if x has exactly one set bit |
| SxMath.SmearAllIsBelowPower | SectorFW/inc/SectorFW/Math/sx_math.h:208-210 | for 1 < v <= 2^31, smearing v - 1 and adding one gives a power of two that is at least v and less than 2v |
| SxMath.SmearAllOverflows | SectorFW/inc/SectorFW/Math/sx_math.h:208-210 | for v > 2^31, smearing v - 1 gives all ones, so adding one wraps to 0 |
| SxMath.CeilPow2 | SectorFW/inc/SectorFW/Math/sx_math.h:205-211 | ceil_pow2 is 1 for v <= 1, the least power of two not below v for 1 < v <= 2^31, and 0 (wrapped) above that |
| SxMath.Smear | SectorFW/inc/SectorFW/Math/sx_math.h:209 | the loop over s = 1, 2, 4, 8, 16 ORs v with v >> s at each step |
| SxMath.CeilPow2Result | SectorFW/inc/SectorFW/Math/sx_math.h:208-210 | one more than the smeared v - 1 is the least power of two not below v, or 0 past 2^31 |
| SxMath.BitWidth | SectorFW/inc/SectorFW/Math/sx_math.h:215 | std::bit_width(v) is the w with v >> w == 0 and, for v != 0, v >> (w - 1) == 1; it is 0 exactly for 0 |
| SxMath.FloorPow2IsGreatestPowerBelow | SectorFW/inc/SectorFW/Math/sx_math.h:212-216 | floor_pow2 is 0 for 0, and otherwise a power of two not above v and greater than v / 2 |
| SxMath.AlignUp | SectorFW/inc/SectorFW/Math/sx_math.h:222-226 | align_up on 32-bit words, with the wrap of value + alignment - 1 written out; a zero alignment returns the value |
| SxMath.AlignDown | SectorFW/inc/SectorFW/Math/sx_math.h:227-231 | align_down on 32-bit words; a zero alignment returns the value |
| SxMath.AlignUpBounds | SectorFW/inc/SectorFW/Math/sx_math.h:222-226 | when value + a - 1 does not wrap, align_up is a multiple of a, not below the value and less than a above it |
| SxMath.AlignDownBounds | SectorFW/inc/SectorFW/Math/sx_math.h:227-231 | align_down is a multiple of a, not above the value and within a of it |
| SxMath.AlignZero | SectorFW/inc/SectorFW/Math/sx_math.h:224-229 | a zero alignment returns the value unchanged in both directions |
| SxMath.BitAndClearLow | SectorFW/inc/SectorFW/Math/sx_math.h:239 | ANDing a w-bit word with the mask that clears its low k bits rounds it down to a multiple of 2^k |
| SxMath.MaskClearsLow | SectorFW/inc/SectorFW/Math/sx_math.h:235-239 | value & ~(a - 1) for a = 2^k is value / a * a |
| SxMath.AlignPow2Agrees | SectorFW/inc/SectorFW/Math/sx_math.h:233-240 | for an alignment that is a power of two, align_up_pow2 and align_down_pow2 equal align_up and align_down, wrap-around included |
| OneOrMore.OneOrMore.constructor | SectorFW/inc/SectorFW/Util/OneOrMore.hpp:21-22 | a new container holds no values and uses the monostate alternative |
| OneOrMore.OneOrMore.Add | SectorFW/inc/SectorFW/Util/OneOrMore.hpp:46-63 | add appends the value after the earlier ones, and the single alternative is used exactly when the container was empty |
| OneOrMore.OneOrMore.Emplace | SectorFW/inc/SectorFW/Util/OneOrMore.hpp:85-104 | emplace appends the value and returns the last element, which is the value added |
| OneOrMore.OneOrMore.Size | SectorFW/inc/SectorFW/Util/OneOrMore.hpp:109-113 | size() is the number of held values: 0 for monostate, 1 for the single value, the vector's length otherwise |
| OneOrMore.OneOrMore.Empty | SectorFW/inc/SectorFW/Util/OneOrMore.hpp:114 | empty() holds exactly when no value is held |
| OneOrMore.OneOrMore.Get | SectorFW/inc/SectorFW/Util/OneOrMore.hpp:121-130 | get(index) returns a value if and only if index < size(), and that value is the index-th one in insertion order |
| OneOrMore.OneOrMore.At | SectorFW/inc/SectorFW/Util/OneOrMore.hpp:137-141 | operator[] on an index below size() returns the value get(index) would return |
| OneOrMore.OneOrMore.Reserve | SectorFW/inc/SectorFW/Util/OneOrMore.hpp:146-162 | reserve never changes the values; n <= 1 changes nothing, a larger n leaves the vector alternative in use |
| OneOrMore.OneOrMore.Clear | SectorFW/inc/SectorFW/Util/OneOrMore.hpp:164 | clear() returns to the empty alternative |
| OneOrMore.OneOrMore.Range | SectorFW/inc/SectorFW/Util/OneOrMore.hpp:27-37 | the begin/end pointer range covers size() elements, the i-th of which is get(i) |
| OneOrMore.OneOrMore.Iterate | SectorFW/inc/SectorFW/Util/OneOrMore.hpp:169-210 | iterating from begin() to end(), or for_each, visits every value once, in insertion order |
| OneOrMore.OneOrMoreSBO.constructor | SectorFW/inc/SectorFW/Util/OneOrMore.hpp:216-223 | a new container is in the Empty kind and holds no values |
| OneOrMore.OneOrMoreSBO.Size | SectorFW/inc/SectorFW/Util/OneOrMore.hpp:229 | size() is the number of held values |
| OneOrMore.OneOrMoreSBO.Empty | SectorFW/inc/SectorFW/Util/OneOrMore.hpp:234 | empty() holds exactly when no value is held |
| OneOrMore.OneOrMoreSBO.Clear | SectorFW/inc/SectorFW/Util/OneOrMore.hpp:238-241 | clear() leaves an empty container of the Empty kind |
| OneOrMore.OneOrMoreSBO.MoveInlineToHeap | SectorFW/inc/SectorFW/Util/OneOrMore.hpp:255-260 | the migration loop copies the inline values, in order, into the heap vector and switches to the Heap kind |
| OneOrMore.OneOrMoreSBO.Emplace | SectorFW/inc/SectorFW/Util/OneOrMore.hpp:247-264 | emplace appends the value; up to four values stay inline, and the fifth moves all of them to the heap first |
| OneOrMore.OneOrMoreSBO.Reserve | SectorFW/inc/SectorFW/Util/OneOrMore.hpp:269-277 | reserve never changes the values; n above the inline capacity switches to the heap vector, otherwise nothing changes |
| OneOrMore.OneOrMoreSBO.At | SectorFW/inc/SectorFW/Util/OneOrMore.hpp:285-288 | operator[] below size() returns the i-th value in insertion order, inline or on the heap |
| OneOrMore.OneOrMoreSBO.Iterate | SectorFW/inc/SectorFW/Util/OneOrMore.hpp:292-317 | iterating from begin() to end() visits every value once, in insertion order |
| Grid.Index2DInRange | SectorFW/inc/SectorFW/Util/Grid.hpp:49-51 | every cell (x, y) of a width x height grid indexes inside the width * height storage |
| Grid.Index2DDecode | SectorFW/inc/SectorFW/Util/Grid.hpp:49-51 | the flat index y * width + x divides back into y and leaves x as the remainder |
| Grid.Index2DInjective | SectorFW/inc/SectorFW/Util/Grid.hpp:49-51 | two cells share a slot if and only if they are the same cell |
| Grid.Index2DOnto | SectorFW/inc/SectorFW/Util/Grid.hpp:27-28 | every storage slot belongs to exactly the cell (i % width, i / width) of the grid |
| Grid.Index3DSplit | SectorFW/inc/SectorFW/Util/Grid.hpp:186-190 | the 3D index is the slice offset z * (width * height) plus the 2D index inside the slice |
| Grid.Index3DInRange | SectorFW/inc/SectorFW/Util/Grid.hpp:147-149 | every cell (x, y, z) indexes inside the width * height * depth storage |
| Grid.Index3DDecode | SectorFW/inc/SectorFW/Util/Grid.hpp:186-190 | the 3D index divides back into z and leaves the 2D index of (x, y) as the remainder |
| Grid.Index3DInjective | SectorFW/inc/SectorFW/Util/Grid.hpp:186-190 | two cells of a 3D grid share a slot if and only if they are the same cell |
| Grid.Grid2D.constructor | SectorFW/inc/SectorFW/Util/Grid.hpp:38-41 | a new grid has the given width and height and width * height copies of one value |
| Grid.Grid2D.Size | SectorFW/inc/SectorFW/Util/Grid.hpp:95 | size() is the number of stored cells |
| Grid.Grid2D.At | SectorFW/inc/SectorFW/Util/Grid.hpp:58-60 | cell (x, y) is the stored value at y * width + x, which lies inside the storage |
| Grid.Grid2D.Set | SectorFW/inc/SectorFW/Util/Grid.hpp:49-51 | writing through operator() changes cell (x, y) only; the dimensions and every other cell keep their values |
| Grid.Grid3D.constructor | SectorFW/inc/SectorFW/Util/Grid.hpp:134-138 | a new grid has the given dimensions and width * height * depth copies of one value |
| Grid.Grid3D.Size | SectorFW/inc/SectorFW/Util/Grid.hpp:170 | size() is the number of stored cells |
| Grid.Grid3D.At | SectorFW/inc/SectorFW/Util/Grid.hpp:158-160 | cell (x, y, z) is the stored value at z * width * height + y * width + x, inside the storage |
| Grid.Grid3D.Set | SectorFW/inc/SectorFW/Util/Grid.hpp:147-149 | writing through operator() changes cell (x, y, z) only; the dimensions and every other cell keep their values |
| BuildOrder.TruncMonotone | SectorFW/inc/SectorFW/Core/build_order.h:32 | the cast of a float to int (rounding toward zero) never decreases as its argument grows |
| BuildOrder.RoundEvenMonotone | SectorFW/inc/SectorFW/Core/build_order.h:84 | lrintf's round-half-to-even never decreases as its argument grows |
| BuildOrder.RoundEvenNearest | SectorFW/inc/SectorFW/Core/build_order.h:84 | lrintf moves a value by at most one half |
| BuildOrder.FractionMonotone | SectorFW/inc/SectorFW/Core/build_order.h:31 | the fraction (d2 - near2) / max(far2 - near2, 1e-12) never decreases as d2 grows |
| BuildOrder.ClampBin | SectorFW/inc/SectorFW/Core/build_order.h:33 | the bin clamp yields a bin below B: b itself inside [0, B), 0 below it and B - 1 above it |
| BuildOrder.DistanceBin | SectorFW/inc/SectorFW/Core/build_order.h:29-34 | DistanceBin with the integer cast free of the 32-bit range lies in [0, B - 1] |
| BuildOrder.DistanceBinAgrees | SectorFW/inc/SectorFW/Core/build_order.h:29-34 | DistanceBin as compiled and the range-free DistanceBin agree whenever the scaled fraction fits a 32-bit int |
| BuildOrder.DistanceBinEnds | SectorFW/inc/SectorFW/Core/build_order.h:29-34 | a point at or beyond far2 lands in the last bin, one nearer than near2 in bin 0 |
| BuildOrder.DistanceBinMonotone | SectorFW/inc/SectorFW/Core/build_order.h:29-34 | a nearer point never gets a later bin |
| BuildOrder.DistanceBinAsWrittenFarPointFirst | SectorFW/inc/SectorFW/Core/build_order.h:32 | as compiled for x86, with near2 = 0, far2 = 1 and B = 32, the point at d2 = 1 gets bin 31 and the point at d2 = 2^27 gets bin 0 |
| BuildOrder.QuantizeD2 | SectorFW/inc/SectorFW/Core/build_order.h:82-87 | QuantizeD2 with the rounding free of the 32-bit long lies in [0, 65535] |
| BuildOrder.QuantizeD2Nearest | SectorFW/inc/SectorFW/Core/build_order.h:82-87 | inside [near2, far2] the key is within one half of the fraction scaled to 0..65535 |
| BuildOrder.QuantizeD2Agrees | SectorFW/inc/SectorFW/Core/build_order.h:82-87 | QuantizeD2 as compiled and the range-free QuantizeD2 agree whenever the rounded value fits a 32-bit long |
| BuildOrder.QuantizeD2Monotone | SectorFW/inc/SectorFW/Core/build_order.h:82-87 | a nearer point never gets a larger key |
| BuildOrder.QuantizeD2AsWrittenFarPointNearest | SectorFW/inc/SectorFW/Core/build_order.h:84-85 | as compiled with a 32-bit long, d2 = 40000 with near2 = 0 and far2 = 1 gets key 0, where the range-free form gives 65535 |
| BuildOrder.Dists | SectorFW/inc/SectorFW/Core/build_order.h:37-43 | one squared camera distance per row |
| BuildOrder.BuildNearToFarOrder | SectorFW/inc/SectorFW/Core/build_order.h:46-79 | (corrected bins) the bucket loops (bin every row, count, prefix sums, scatter) produce exactly the rows 0..N-1 stably grouped by bin |
| BuildOrder.NearToFarOrderSorted | SectorFW/inc/SectorFW/Core/build_order.h:46-79 | the bucket order is a permutation of 0..N-1 with non-decreasing bins, stable within a bin, and a row follows a strictly nearer row only when both share a bin |
| BuildOrder.BuildOrderFixedRadix16 | SectorFW/inc/SectorFW/Core/build_order.h:89-162 | (corrected bins) quantizing, then a counting pass on the low byte and one on the high byte, yields the rows stably sorted by the 16-bit key |
| BuildOrder.QuantizeAll | SectorFW/inc/SectorFW/Core/build_order.h:136-138 | key[i] is the 16-bit key of row i |
| BuildOrder.IdentityOrder | SectorFW/inc/SectorFW/Core/build_order.h:143-145 | the temporary order starts as 0, 1, ..., N - 1 |
| BuildOrder.Radix16Step | SectorFW/inc/SectorFW/Core/build_order.h:147-161 | the low-byte pass followed by the high-byte pass is the stable sort by the whole 16-bit key |
| BuildOrder.Radix16OrderSorted | SectorFW/inc/SectorFW/Core/build_order.h:141-161 | the radix order is a permutation of 0..N-1 sorted by key and stable, and a row follows a strictly nearer one only when their keys tie |
| BuildOrder.BuildFrontKStrict | SectorFW/inc/SectorFW/Core/build_order.h:166-184 | the order is a permutation of 0..N-1, and with K clamped to N its first K rows are the K nearest, nearest first, none farther than any later row |
| BuildOrder.KeyRows | SectorFW/inc/SectorFW/Core/build_order.h:173-176 | entry i pairs row i with its squared distance |
| BuildOrder.RowsOf | SectorFW/inc/SectorFW/Core/build_order.h:183 | order[i] is the row of entry i |
| BuildOrder.SelectNearest | SectorFW/inc/SectorFW/Core/build_order.h:177-181 | nth_element followed by sort of the first K: the array is a rearrangement, and its first K entries are in order and no farther than any later entry |
| BuildOrder.NearestFrom | SectorFW/inc/SectorFW/Core/build_order.h:178-179 | the first entry from p on with the smallest squared distance |
| SortSpec.GroupedSorted | SectorFW/inc/SectorFW/Core/build_order.h:74-78 | the concatenation of the buckets 0..B-1 is sorted by the key |
| SortSpec.GroupedPermutes | SectorFW/inc/SectorFW/Core/build_order.h:74-78 | with every key below B, concatenating the buckets keeps every element exactly once |
| SortSpec.GroupedIsStableSort | SectorFW/inc/SectorFW/Core/build_order.h:74-78 | laying the input out bucket by bucket is a stable sort: sorted, a permutation, and each key's elements in input order |
| SortSpec.StableSortUnique | SectorFW/inc/SectorFW/Core/build_order.h:74-78 | any sorted sequence holding, for each key, the elements of that key in input order is the bucket-by-bucket layout |
| SortSpec.GroupedFollows | SectorFW/inc/SectorFW/Core/build_order.h:45-79 | when the key never decreases as the distance grows, an element follows a strictly nearer one only when the two share a key |
| SortSpec.SortedIsGrouped | SectorFW/inc/SectorFW/Core/build_order.h:141-161 | a sequence already sorted by a key below B is its own bucket layout |
| SortSpec.GroupedLex | SectorFW/inc/SectorFW/Core/build_order.h:159-160 | grouping by the high byte a sequence sorted by the low byte sorts it by the combined key |
| SortSpec.RadixStep | SectorFW/inc/SectorFW/Core/build_order.h:141-161 | one least-significant-digit step: a stable pass on the high digit after a stable pass on the low digit is the stable sort by high * R + low |
| CountingSort.CountingPass | SectorFW/inc/SectorFW/Core/build_order.h:147-157 | one counting pass writes the stable bucket-by-bucket layout of its input into dst, and cnt[b] is the size of bucket b |
| CountingSort.CountKeys | SectorFW/inc/SectorFW/Core/build_order.h:149 | the counting loop leaves cnt[b] equal to the number of elements with key b |
| CountingSort.PrefixSums | SectorFW/inc/SectorFW/Core/build_order.h:150-151 | the prefix-sum loop leaves ofs[b] equal to the number of elements with a key below b, where bucket b starts |
| CountingSort.ScatterStep | SectorFW/inc/SectorFW/Core/build_order.h:152-156 | one scatter step writes the element into the next free slot of its bucket, inside the output |
| CountingSort.PassDone | SectorFW/inc/SectorFW/Core/build_order.h:152-156 | once every element is scattered, the output is the stable bucket layout |
| RenderQueue.SortKey | SectorFW/inc/SectorFW/Graphics/RenderQueue.h:158 | the sort key of a command is a 64-bit value |
| RenderQueue.ApplyPermutationInPlace | SectorFW/inc/SectorFW/Graphics/RenderQueue.h:208-226 | for a permutation idx, slot i ends up holding the command that was at idx[i] |
| RenderQueue.RotateCycle | SectorFW/inc/SectorFW/Graphics/RenderQueue.h:216-224 | the inner loop rotates one whole cycle of idx: every slot of the cycle gets its command and is marked visited, and the visited slots stay whole cycles |
| RenderQueue.RotateNext | SectorFW/inc/SectorFW/Graphics/RenderQueue.h:219-223 | a step that continues the cycle keeps the loop state and leaves one slot fewer unvisited |
| RenderQueue.RotateLast | SectorFW/inc/SectorFW/Graphics/RenderQueue.h:221 | the step that returns to i puts the saved command in the last slot and closes the cycle |
| RenderQueue.CycleClosed | SectorFW/inc/SectorFW/Graphics/RenderQueue.h:218-224 | a walk that returns to its start is a whole cycle, so adding it to the visited slots keeps them closed under idx |
| RenderQueue.GatherRearranges | SectorFW/inc/SectorFW/Graphics/RenderQueue.h:205 | gathering the commands through a permutation of 0..N-1 rearranges them: the same commands, counted with multiplicity |
| RenderQueue.RearrangedIsPermutation | SectorFW/inc/SectorFW/Graphics/RenderQueue.h:205 | a rearrangement of 0..N-1 has every entry in range and none twice |
| RenderQueue.IndirectSortStd | SectorFW/inc/SectorFW/Graphics/RenderQueue.h:147-206 | the commands end up sorted by sort key and are a rearrangement of the input; with at most one command nothing changes |
| RenderQueue.SortIndex | SectorFW/inc/SectorFW/Graphics/RenderQueue.h:161-203 | the index order, by top-12-bit buckets then std::sort per bucket for 32768 or more commands and one std::sort otherwise, is a permutation of 0..N-1 sorted by key |
| RenderQueue.GatherSorted | SectorFW/inc/SectorFW/Graphics/RenderQueue.h:201-205 | an index order sorted by key that rearranges 0..N-1 is a permutation, and applying it sorts the commands by key |
| RenderQueue.IndexAndKeys | SectorFW/inc/SectorFW/Graphics/RenderQueue.h:156-159 | indexBuf[i] = i and keysBuf[i] is the sort key of command i |
| RenderQueue.TopBucketBelow | SectorFW/inc/SectorFW/Graphics/RenderQueue.h:173-175 | the top 12 bits of a 64-bit key name one of the 4096 buckets |
| RenderQueue.TopBucketOrders | SectorFW/inc/SectorFW/Graphics/RenderQueue.h:173-175 | a smaller top-12-bit bucket means a smaller key |
| RenderQueue.SortBuckets | SectorFW/inc/SectorFW/Graphics/RenderQueue.h:190-198 | sorting each bucket in place, start advancing by count[b], sorts the whole order by key and keeps its entries |
| RenderQueue.SortBucket | SectorFW/inc/SectorFW/Graphics/RenderQueue.h:192-196 | one bucket iteration sorts bucket b when it holds more than one index |
| RenderQueue.SortedAcrossBuckets | SectorFW/inc/SectorFW/Graphics/RenderQueue.h:190-198 | sorted smaller buckets followed by a sorted run of bucket b are sorted as a whole |
| RenderQueue.RadixSortSingle | SectorFW/inc/SectorFW/Graphics/RenderQueue.h:228-254 | (its only call, at RenderQueue.h lines 98-101, is commented out) eight stable 8-bit counting passes, low byte first, with the buffers swapped after each, leave cmds stably sorted by sort key |
| RenderQueue.RadixPass | SectorFW/inc/SectorFW/Graphics/RenderQueue.h:235-252 | pass p turns an order sorted by the key bytes below p into one stably sorted by the bytes below p + 1 |
| RenderQueue.RadixPassesSort | SectorFW/inc/SectorFW/Graphics/RenderQueue.h:233-234 | after the eight passes the order is the stable sort by the whole 64-bit key |
| RenderQueue.DigitStep | SectorFW/inc/SectorFW/Graphics/RenderQueue.h:237-249 | a stable pass on byte p after the passes on the lower bytes sorts by the bytes below p + 1 |
| RenderQueue.RadixCoversKeys | SectorFW/inc/SectorFW/Graphics/RenderQueue.h:231-233 | eight 8-bit digits cover the whole 64-bit key |
| RenderQueue.SmallBuf.constructor | SectorFW/inc/SectorFW/Graphics/RenderQueue.h:394-396 | a new buffer holds 128 slots and size 0 |
| RenderQueue.SmallBuf.PushBack | SectorFW/inc/SectorFW/Graphics/RenderQueue.h:397-398 | push_back appends the command after the buffered ones and increments size |
| RenderQueue.SmallBuf.Full | SectorFW/inc/SectorFW/Graphics/RenderQueue.h:399 | full() holds exactly when size has reached 128 |
| RenderQueue.SmallBuf.Clear | SectorFW/inc/SectorFW/Graphics/RenderQueue.h:400 | clear() empties the buffer |
| RenderQueue.ProducerSession.constructor | SectorFW/inc/SectorFW/Graphics/RenderQueue.h:498-501 | a new session has nothing buffered and has sent nothing |
| RenderQueue.ProducerSession.Push | SectorFW/inc/SectorFW/Graphics/RenderQueue.h:406-419 | the command is appended to everything pushed so far; the push that fills the buffer sends all 128 commands to the queue and empties the buffer, any other push only buffers |
| RenderQueue.ProducerSession.FlushChunk | SectorFW/inc/SectorFW/Graphics/RenderQueue.h:503-506 | the buffered commands go to the queue in order and the buffer empties |
| RenderQueue.ProducerSession.FlushAll | SectorFW/inc/SectorFW/Graphics/RenderQueue.h:490-496 | after FlushAll the queue holds everything pushed, in push order; with nothing buffered nothing is sent |
| RenderQueue.Queue.constructor | SectorFW/inc/SectorFW/Graphics/RenderQueue.h:528-537 | the per-frame instance limit lies in 1..65536 and every frame buffer starts with write position 0 |
| StdSort.SortRange | SectorFW/inc/SectorFW/Graphics/RenderQueue.h:194-195 | std::sort of a range leaves it sorted by key and a rearrangement of what it was, and touches nothing outside it |
| StdSort.SmallestFrom | SectorFW/inc/SectorFW/Graphics/RenderQueue.h:194-195 | the first entry of the unsorted part with the smallest key |
| MaterialManager.Find | SectorFW/src/Graphics/DX11MaterialManager.cpp:41-42 | a map lookup finds a value exactly when some entry has the slot, and the value found is stored at that slot |
| MaterialManager.BoundMeaning | SectorFW/src/Graphics/DX11MaterialManager.cpp:192-199 | a slot counts as bound exactly when some binding of the cache's input type sits at it and the material supplies that slot |
| MaterialManager.BoundFits | SectorFW/src/Graphics/DX11MaterialManager.cpp:195-197 | when building does not throw, every bound slot lies below the 128-slot bitset and the material supplies it |
| MaterialManager.ScanLayout | SectorFW/src/Graphics/DX11MaterialManager.cpp:192-210 | the scan throws exactly when a taken binding lies beyond the bitset; otherwise minSlot and count span the bound slots (UINT_MAX and 0 when none), and the cache is contiguous exactly when every slot of the span is bound |
| MaterialManager.MarkSlots | SectorFW/src/Graphics/DX11MaterialManager.cpp:192-199 | the bitset ends up marking exactly the bound slots, with minSlot and maxSlot their lowest and highest, or the loop throws exactly when a taken slot is beyond the bitset |
| MaterialManager.ScanOne | SectorFW/src/Graphics/DX11MaterialManager.cpp:193-198 | one binding either throws (and then the whole list throws) or extends the marks and the extremes to one more binding |
| MaterialManager.MarkOne | SectorFW/src/Graphics/DX11MaterialManager.cpp:196-198 | setting one bit and taking std::min and std::max keeps the marks and the extremes exact for the grown set |
| MaterialManager.AllMarked | SectorFW/src/Graphics/DX11MaterialManager.cpp:205-210 | the contiguity flag holds exactly when every slot from minSlot to maxSlot is marked |
| MaterialManager.FillFromBindings | SectorFW/src/Graphics/DX11MaterialManager.cpp:212-221 | the contiguous texture array has count entries, and each one holds the material's view of its slot when a taken binding sits there and null otherwise |
| MaterialManager.CollectFromBindings | SectorFW/src/Graphics/DX11MaterialManager.cpp:222-230 | the individual texture pairs are exactly those of the taken bindings, in binding order |
| MaterialManager.FillFromMap | SectorFW/src/Graphics/DX11MaterialManager.cpp:262-267 | the contiguous constant-buffer or sampler array has count entries, entry i holding the map's value at minSlot + i when present |
| MaterialManager.BuildBindingCacheSRV | SectorFW/src/Graphics/DX11MaterialManager.cpp:184-233 | it throws exactly when a taken texture slot is beyond the bitset; otherwise the cache spans the bound texture slots, with the material's views in place when contiguous and the taken bindings' pairs when not |
| MaterialManager.BuildFromMap | SectorFW/src/Graphics/DX11MaterialManager.cpp:234-276 | as for textures, except that a non-contiguous cache lists every entry of the material's map |
| MaterialManager.BuildBindingCacheCBV | SectorFW/src/Graphics/DX11MaterialManager.cpp:234-276 | throws exactly when a taken constant-buffer slot is beyond the bitset; otherwise the constant-buffer cache spans the bound slots as BuildFromMap promises |
| MaterialManager.BuildBindingCacheSampler | SectorFW/src/Graphics/DX11MaterialManager.cpp:277-319 | throws exactly when a taken sampler slot is beyond the bitset; otherwise the sampler cache spans the bound slots as BuildFromMap promises |
| MaterialManager.ValidIffBound | SectorFW/src/Graphics/DX11MaterialManager.cpp:107-120 | a built cache has minSlot different from UINT_MAX, and so is marked valid, exactly when at least one slot is bound |
| MaterialManager.Bind | SectorFW/src/Graphics/DX11MaterialManager.cpp:148-183 | binding a cache leaves the register table unchanged when invalid, writes its run from minSlot when contiguous and its pairs one by one otherwise |
| MaterialManager.ContiguousWrites | SectorFW/src/Graphics/DX11MaterialManager.cpp:151 | a valid contiguous cache writes exactly the bound slots, each with the material's view |
| MaterialManager.SRVBindsBoundSlots | SectorFW/src/Graphics/DX11MaterialManager.cpp:148-159 | binding a stored texture cache sets exactly the texture slots the shader binds and the material supplies, each to the material's view, and nothing when none is bound |
| MaterialManager.MapBindsBoundSlots | SectorFW/src/Graphics/DX11MaterialManager.cpp:160-183 | binding a stored constant-buffer or sampler cache sets every bound slot to the material's view; a contiguous one sets nothing else, a non-contiguous one also sets every other slot the material supplies |
| MaterialManager.SlotList | SectorFW/src/Graphics/DX11MaterialManager.cpp:14-34 | one key list is the map's (slot, handle index) pairs, a permutation of them sorted by slot |
| MaterialManager.MakeKey | SectorFW/src/Graphics/DX11MaterialManager.cpp:10-36 | the key holds the shader index and the five maps' pairs, each list sorted by slot |
| MaterialManager.StrictFromUnique | SectorFW/src/Graphics/DX11MaterialManager.cpp:29-34 | sorting the pairs of a map, which holds each slot once, gives a list strictly increasing by slot |
| MaterialManager.StrictListsEqual | SectorFW/src/Graphics/DX11MaterialManager.cpp:29-34 | two lists strictly increasing by slot with the same elements are the same list |
| MaterialManager.ListsAgree | SectorFW/src/Graphics/DX11MaterialManager.cpp:29-34 | the sorted key lists of two maps with the same pairs are equal, whatever order the maps iterate in |
| MaterialManager.SameKeyIffSamePairs | SectorFW/src/Graphics/DX11MaterialManager.cpp:10-36 | two descs get the same key exactly when they name the same shader index and the same (slot, handle index) pairs in every map |
| MaterialManager.MarkValidReady | SectorFW/src/Graphics/DX11MaterialManager.cpp:107-120 | a cache built without throwing and then marked valid when minSlot is not UINT_MAX is one the binding lemmas apply to |
| MaterialManager.BuildReady | SectorFW/src/Graphics/DX11MaterialManager.cpp:107-120 | building one cache throws exactly when its builder throws; otherwise it returns a ready cache of the right input type |
| MaterialManager.Invalidated | SectorFW/src/Graphics/DX11MaterialManager.cpp:135-139 | after the first step of destruction, binding any of the five caches writes no slot, and the children held are unchanged |
| MaterialManager.ReleasesMatchAcquisitions | SectorFW/src/Graphics/DX11MaterialManager.cpp:57-146 | destroying a created material releases exactly the children its creation acquired, in the same order, all at one frame |
| MaterialManager.Manager.constructor | SectorFW/inc/SectorFW/Graphics/DX11/DX11MaterialManager.h:73-78 | starts with no slots, empty key caches and no reference calls |
| MaterialManager.Manager.FindExisting | SectorFW/src/Graphics/DX11MaterialManager.cpp:38-45 | the result is the handle registered under the desc's key if there is one, and None otherwise, whatever order the desc's maps list their entries in |
| MaterialManager.Manager.RegisterKey | SectorFW/src/Graphics/DX11MaterialManager.cpp:46-50 | the key is emplaced to the handle and the slot index to the key, an existing entry kept; a fresh key for a fresh slot keeps the two caches inverse |
| MaterialManager.Manager.RemoveFromCaches | SectorFW/src/Graphics/DX11MaterialManager.cpp:125-131 | when the slot has a key, that key leaves both caches and nothing else changes; otherwise nothing changes |
| MaterialManager.Manager.AcquireViews | SectorFW/src/Graphics/DX11MaterialManager.cpp:57-63 | one loop of creation puts each entry's view into the map and its handle into the used list, and records an AddRef for each child in order |
| MaterialManager.Manager.AcquireAll | SectorFW/src/Graphics/DX11MaterialManager.cpp:57-95 | the five loops fill the five view maps and three used lists and record exactly the AddRefs the desc calls for, in order |
| MaterialManager.Manager.CreateResource | SectorFW/src/Graphics/DX11MaterialManager.cpp:52-123 | all AddRefs are recorded; the result is absent exactly when one cache build throws, and otherwise holds the template, the flag, the used lists and the five caches built and marked valid |
| MaterialManager.Manager.ReleaseAll | SectorFW/src/Graphics/DX11MaterialManager.cpp:143-145 | one loop of destruction records a deferred Release at the given frame for each handle, in order |
| MaterialManager.Manager.DestroyResource | SectorFW/src/Graphics/DX11MaterialManager.cpp:132-146 | the slot's five caches become invalid and every child it holds is released at currentFrame + RENDER_BUFFER_COUNT, wrapped to 64 bits |
| MaterialManager.Manager.Store | SectorFW/inc/SectorFW/Util/ResouceManagerBase.hpp:37-50 | the created data lands in a reused free slot, or in a new slot at the end, and the key caches and reference calls are unchanged |
| TerrainClustered.CeilDiv | SectorFW/src/Graphics/TerrainClustered.cpp:708-709 | the cluster count per axis is the least number of clusters whose cells cover the axis |
| TerrainClustered.Locals | SectorFW/src/Graphics/TerrainClustered.cpp:730-765 | there is one local list per cluster, clustersX * clustersZ of them; their contents are stated by CellOwned and ClusterSize |
| TerrainClustered.BuildClusters | SectorFW/src/Graphics/TerrainClustered.cpp:698-794 | the cluster counts are the rounded-up quotients, there is one range per cluster, and the pool is the clusters' local lists laid back to back, each range drawing exactly its own list |
| TerrainClustered.CollectLocals | SectorFW/src/Graphics/TerrainClustered.cpp:730-766 | the first pass fills every cluster id cz * clustersX + cx with that cluster's local list |
| TerrainClustered.IdSplit | SectorFW/src/Graphics/TerrainClustered.cpp:723 | cluster id cz * clustersX + cx splits back into cx and cz, so no two clusters share an id |
| TerrainClustered.ClusterLocal | SectorFW/src/Graphics/TerrainClustered.cpp:754-764 | the inner loops emit the triangles (v00, v10, v11) and (v00, v11, v01) of every cell of the block, row after row |
| TerrainClustered.Concatenate | SectorFW/src/Graphics/TerrainClustered.cpp:776-793 | the second pass lays the local lists back to back, each range starting at the running total and counting its list's indices |
| TerrainClustered.PlaceOne | SectorFW/src/Graphics/TerrainClustered.cpp:779-791 | one step records the range of one cluster and appends its list, the running total growing by its length |
| TerrainClustered.FlattenSplit | SectorFW/src/Graphics/TerrainClustered.cpp:776-793 | concatenating all lists is concatenating a prefix of them and then the rest |
| TerrainClustered.LaidRanges | SectorFW/src/Graphics/TerrainClustered.cpp:776-793 | each cluster's range lies inside the pool and draws exactly its list; the first starts at 0, each next one starts where the previous ends, and the last ends at the pool's end |
| TerrainClustered.RowCount | SectorFW/src/Graphics/TerrainClustered.cpp:755-763 | one row of cells from x0 to x yields six indices per cell |
| TerrainClustered.BlockCount | SectorFW/src/Graphics/TerrainClustered.cpp:754-764 | a block of cells yields six indices per cell |
| TerrainClustered.RowInRange | SectorFW/src/Graphics/TerrainClustered.cpp:756-759 | every index of a row of cells names a grid point no further than the next vertex row |
| TerrainClustered.BlockInRange | SectorFW/src/Graphics/TerrainClustered.cpp:754-764 | every index of a block of cells names a grid point of its last vertex row or before |
| TerrainClustered.RowCellAt | SectorFW/src/Graphics/TerrainClustered.cpp:755-763 | cell x of a row owns the six indices at 6 * (x - x0), which are that cell's two triangles |
| TerrainClustered.BlockCellAt | SectorFW/src/Graphics/TerrainClustered.cpp:754-764 | cell (x, z) of a block owns the six indices at its row-major rank times six, which are that cell's two triangles |
| TerrainClustered.BlockCellLastRow | SectorFW/src/Graphics/TerrainClustered.cpp:754-764 | a cell of the last row of a block sits at its rank in the block one row taller |
| TerrainClustered.RankAfterRows | SectorFW/src/Graphics/TerrainClustered.cpp:754-764 | a cell's position is six indices per full row before it plus six per cell before it in its row |
| TerrainClustered.CellOwned | SectorFW/src/Graphics/TerrainClustered.cpp:730-764 | every cell of the grid falls in the cluster (x / clusterCellsX, z / clusterCellsZ), which exists and whose list holds that cell's two triangles |
| TerrainClustered.AxisOwned | SectorFW/src/Graphics/TerrainClustered.cpp:734-737 | along one axis, cell c lies in the span of cluster c / cc, and that cluster exists |
| TerrainClustered.ClusterSize | SectorFW/src/Graphics/TerrainClustered.cpp:734-764 | every cluster covers a non-empty block inside the grid and holds six indices per cell of it |
| TerrainClustered.SpanInside | SectorFW/src/Graphics/TerrainClustered.cpp:734-737 | every cluster's span along an axis is non-empty and ends inside the grid |
| TerrainClustered.PoolInRange | SectorFW/src/Graphics/TerrainClustered.cpp:727-764 | every index BuildClusters emits names a vertex of the (cellsX + 1) x (cellsZ + 1) grid |
| TerrainClustered.IdBounds | SectorFW/src/Graphics/TerrainClustered.cpp:723 | every id below clustersX * clustersZ splits into a valid (cx, cz) |
| TerrainClustered.ClusterInRange | SectorFW/src/Graphics/TerrainClustered.cpp:734-764 | every index of a cluster's list names a vertex of the grid |
| TerrainClustered.FlattenBelow | SectorFW/src/Graphics/TerrainClustered.cpp:790 | concatenating lists whose indices are below a bound gives a list whose indices are below it |
| TerrainClustered.FirstFrom | SectorFW/src/Graphics/TerrainClustered.cpp:198-208 | the first vertex at or after i with the key of vertex v lies between i and v, and no vertex between i and it has that key |
| TerrainClustered.RepUnique | SectorFW/src/Graphics/TerrainClustered.cpp:198-208 | the representative is the only vertex at or before v with v's key and no earlier vertex with that key |
| TerrainClustered.RepSameKey | SectorFW/src/Graphics/TerrainClustered.cpp:198-208 | two vertices share a representative exactly when they share a quantised key |
| TerrainClustered.RepIdempotent | SectorFW/src/Graphics/TerrainClustered.cpp:201-206 | the representative never comes after the vertex and is its own representative |
| TerrainClustered.Welded | SectorFW/src/Graphics/TerrainClustered.cpp:216-222 | welding keeps the number of vertices; what each vertex becomes is stated by WeldedAgree |
| TerrainClustered.WeldedPool | SectorFW/src/Graphics/TerrainClustered.cpp:211-214 | welding keeps the number of indices; what each index becomes is stated by WeldedPoolReps |
| TerrainClustered.WeldedAgree | SectorFW/src/Graphics/TerrainClustered.cpp:216-222 | welding keeps every key, gives vertices with the same key the same height, and leaves representatives untouched |
| TerrainClustered.WeldedPoolReps | SectorFW/src/Graphics/TerrainClustered.cpp:211-214 | after welding, every index names a representative with the same key, at or before the vertex it replaced |
| TerrainClustered.FirstFromKeys | SectorFW/src/Graphics/TerrainClustered.cpp:198-208 | the representative depends only on the keys, so changing heights does not change it |
| TerrainClustered.WeldIdempotent | SectorFW/src/Graphics/TerrainClustered.cpp:177-223 | welding twice is welding once, for the vertices and for the index pool |
| TerrainClustered.WeldVerticesAlongBorders | SectorFW/src/Graphics/TerrainClustered.cpp:177-223 | every vertex takes its representative's height and every index is replaced by its representative |
| TerrainClustered.ChooseRepresentatives | SectorFW/src/Graphics/TerrainClustered.cpp:194-208 | the dictionary pass gives each vertex the first vertex seen with its quantised key, always below UINT32_MAX |
| TerrainClustered.Unskirted | SectorFW/src/Graphics/TerrainClustered.cpp:290 | before any skirt, the vertices and pool are as given and no top vertex has a bottom copy |
| TerrainClustered.WithBottom | SectorFW/src/Graphics/TerrainClustered.cpp:293-303 | ensureBottomVertex keeps the size of the copy table and the pool, and never removes vertices |
| TerrainClustered.Quad | SectorFW/src/Graphics/TerrainClustered.cpp:316-324 | addQuad appends exactly six indices and keeps the vertices; which ones is stated by QuadDeduped |
| TerrainClustered.Quads | SectorFW/src/Graphics/TerrainClustered.cpp:326-349 | a run of edges appends six indices per edge |
| TerrainClustered.Skirts | SectorFW/src/Graphics/TerrainClustered.cpp:306-354 | the skirts of all clusters append six indices per border edge of every cluster |
| TerrainClustered.HEdgesSplit | SectorFW/src/Graphics/TerrainClustered.cpp:327-337 | a horizontal edge run splits at any x between its ends |
| TerrainClustered.VEdgesSplit | SectorFW/src/Graphics/TerrainClustered.cpp:339-349 | a vertical edge run splits at any z between its ends |
| TerrainClustered.QuadsSnoc | SectorFW/src/Graphics/TerrainClustered.cpp:327-349 | one more edge adds one quad after those of the earlier edges |
| TerrainClustered.QuadsAppend | SectorFW/src/Graphics/TerrainClustered.cpp:327-349 | the quads of two edge runs in a row are those of their concatenation |
| TerrainClustered.HEdgesStep | SectorFW/src/Graphics/TerrainClustered.cpp:327-331 | one more step of a horizontal loop adds the edge (x, z)-(x+1, z), which fits the grid, and its quad |
| TerrainClustered.VEdgesStep | SectorFW/src/Graphics/TerrainClustered.cpp:339-343 | one more step of a vertical loop adds the edge (x, z)-(x, z+1), which fits the grid, and its quad |
| TerrainClustered.EnsureBottomVertex | SectorFW/src/Graphics/TerrainClustered.cpp:293-303 | reuses the recorded bottom copy of a top vertex, or appends a copy lowered by the skirt depth and records it |
| TerrainClustered.AddQuad | SectorFW/src/Graphics/TerrainClustered.cpp:316-324 | takes the bottom copies of both ends, then appends (i0, i1, b1) and (i0, b1, b0) |
| TerrainClustered.HorizontalStrip | SectorFW/src/Graphics/TerrainClustered.cpp:327-337 | one horizontal loop adds a quad for each edge (x, z)-(x+1, z) from x0 to x1 |
| TerrainClustered.VerticalStrip | SectorFW/src/Graphics/TerrainClustered.cpp:339-349 | one vertical loop adds a quad for each edge (x, z)-(x, z+1) from z0 to z1 |
| TerrainClustered.AddClusterSkirt | SectorFW/src/Graphics/TerrainClustered.cpp:306-350 | the four loops of one cluster add the quads of its border edges, and added counts six indices per quad |
| TerrainClustered.Extended | SectorFW/src/Graphics/TerrainClustered.cpp:352-353 | each range keeps its offset and grows by its skirt's indices |
| TerrainClustered.SkirtAll | SectorFW/src/Graphics/TerrainClustered.cpp:306-354 | the cluster loop leaves the skirts of all clusters in the tables and every range extended by its own skirt count |
| TerrainClustered.Terrain.constructor | SectorFW/inc/SectorFW/Graphics/TerrainClustered.h:47-60 | holds the given vertices, pool, cluster ranges and vertex grid size |
| TerrainClustered.Terrain.AddSkirtsToClusters | SectorFW/src/Graphics/TerrainClustered.cpp:264-355 | does nothing on an empty terrain, a terrain without clusters or a grid under two vertices per axis; otherwise appends every cluster's skirts and grows each count by its skirt, offsets kept |
| TerrainClustered.Terrain.AddSkirtsToClustersGrouped | SectorFW/src/Graphics/TerrainClustered.cpp:264-355 | the same guard and skirts, after which every cluster's range draws its own triangles followed by its own skirt |
| TerrainClustered.HEdgesCount | SectorFW/src/Graphics/TerrainClustered.cpp:327-337 | a horizontal loop has x1 - x0 edges, none when x1 <= x0 |
| TerrainClustered.VEdgesCount | SectorFW/src/Graphics/TerrainClustered.cpp:339-349 | a vertical loop has z1 - z0 edges, none when z1 <= z0 |
| TerrainClustered.EdgeCount | SectorFW/src/Graphics/TerrainClustered.cpp:326-349 | a cluster has two rows of x1 - x0 edges and two columns of z1 - z0 edges |
| TerrainClustered.WithBottomDeduped | SectorFW/src/Graphics/TerrainClustered.cpp:293-303 | ensureBottomVertex keeps the copy tables consistent, adds at most one vertex, and leaves the top with exactly one recorded copy |
| TerrainClustered.QuadDeduped | SectorFW/src/Graphics/TerrainClustered.cpp:316-324 | addQuad keeps the tables consistent, adds at most two vertices and appends the edge with the tops' one recorded copies |
| TerrainClustered.KeepsTrans | SectorFW/src/Graphics/TerrainClustered.cpp:290-303 | a copy recorded once stays recorded through later steps |
| TerrainClustered.QuadsDeduped | SectorFW/src/Graphics/TerrainClustered.cpp:326-349 | the edge loops of a cluster keep the tables consistent and add at most two vertices per quad |
| TerrainClustered.SkirtsDeduped | SectorFW/src/Graphics/TerrainClustered.cpp:289-354 | across all clusters, a top vertex gets at most one bottom copy, each copy is the top lowered by the depth, the original vertices and pool stay in place, and every index names a vertex |
| TerrainClustered.StartDeduped | SectorFW/src/Graphics/TerrainClustered.cpp:290 | the starting tables are consistent when the pool names original vertices only |
| TerrainClustered.SkirtsPrefixKeeps | SectorFW/src/Graphics/TerrainClustered.cpp:306-354 | the tables after the first k clusters are kept by the rest of the loop |
| TerrainClustered.TotalEdgesPrefix | SectorFW/src/Graphics/TerrainClustered.cpp:306-354 | the edges of the first i + 1 clusters are those of the first i plus cluster i's |
| TerrainClustered.TotalEdgesMonotone | SectorFW/src/Graphics/TerrainClustered.cpp:306-354 | the edges of a prefix of the clusters are no more than those of all of them |
| TerrainClustered.SkirtList | SectorFW/src/Graphics/TerrainClustered.cpp:321-323 | cluster i's skirt has six indices per border edge |
| TerrainClustered.SkirtListFirst | SectorFW/src/Graphics/TerrainClustered.cpp:321-323 | the first cluster's skirt starts right after the original pool |
| TerrainClustered.SkirtListIsQuads | SectorFW/src/Graphics/TerrainClustered.cpp:306-354 | cluster i's skirt is exactly what its four edge loops append |
| TerrainClustered.ListFromPools | SectorFW/src/Graphics/TerrainClustered.cpp:306-354 | cluster i's skirt is what the pool grew by while cluster i was handled |
| TerrainClustered.SkirtListIs | SectorFW/src/Graphics/TerrainClustered.cpp:306-354 | cluster i's skirt sits in the final pool between the skirt totals of the first i and the first i + 1 clusters |
| TerrainClustered.SkirtsPoolPrefix | SectorFW/src/Graphics/TerrainClustered.cpp:306-354 | the pool after the first k clusters is a prefix of the final pool |
| TerrainClustered.SkirtsSnoc | SectorFW/src/Graphics/TerrainClustered.cpp:306-354 | the skirts of the first i + 1 clusters are those of the first i followed by cluster i's edge loops |
| TerrainClustered.QuadsFirst | SectorFW/src/Graphics/TerrainClustered.cpp:327-349 | the quads of an edge run are its first edge's quad, then those of the rest |
| TerrainClustered.QuadsFirstCorner | SectorFW/src/Graphics/TerrainClustered.cpp:316-322 | the third index of the first quad of a run is a bottom copy, not an original vertex |
| TerrainClustered.FirstSkirtCorner | SectorFW/src/Graphics/TerrainClustered.cpp:306-322 | the third index of the first skirt quad is a bottom copy, and the original pool stays at the front |
| TerrainClustered.SecondClusterStart | SectorFW/src/Graphics/TerrainClustered.cpp:776-793 | with two clusters back to back, the first draws the pool's first indices and the second's third index is an original vertex |
| TerrainClustered.SkirtRangeMisses | SectorFW/src/Graphics/TerrainClustered.cpp:350-353 | once there are two clusters and the first has a border edge, the first cluster's extended range does not draw its own triangles followed by its own skirt |
| TerrainClustered.StretchedMisses | SectorFW/src/Graphics/TerrainClustered.cpp:352-353 | a range stretched from 0 by the skirt's count reads an original vertex where the skirt's bottom copy should be |
| TerrainClustered.ExtendedFirst | SectorFW/src/Graphics/TerrainClustered.cpp:352-353 | the first cluster, at offset 0 with n0 indices, becomes the range from 0 of n0 plus its skirt's indices |
| TerrainClustered.DrawnFromStart | SectorFW/src/Graphics/TerrainClustered.cpp:352-353 | a range starting at 0 draws a prefix of the pool |
| TerrainClustered.StretchedRangeDiffers | SectorFW/src/Graphics/TerrainClustered.cpp:352-353 | a prefix of the final pool that runs into the next cluster differs from the first list followed by the first skirt |
| TerrainClustered.Grouped | SectorFW/src/Graphics/TerrainClustered.cpp:350-353 | the intended draw lists, one per cluster; their contents are stated by GroupedDrawsOwnSkirt |
| TerrainClustered.GroupLists | SectorFW/src/Graphics/TerrainClustered.cpp:350-353 | the repair's first pass gives each cluster its own triangles followed by the skirt indices it added |
| TerrainClustered.Regroup | SectorFW/src/Graphics/TerrainClustered.cpp:776-793 | the repair's second pass lays the lists back to back, each range drawing exactly its own list |
| TerrainClustered.GroupedDrawsOwnSkirt | SectorFW/src/Graphics/TerrainClustered.cpp:326-353 | after the repair, every cluster draws its own triangles followed by exactly the quads of its own four border edges |
| LeafService.Low24 | SectorXConsoleProject/app/LeafService.cpp:20 | the low 24 bits of the hash are below 2^24 |
| LeafService.Rand01 | SectorXConsoleProject/app/LeafService.cpp:17-21 | the state advances to the hash of the seed, and the draw lies in [0, 1) as the hash's low 24 bits over 2^24 |
| LeafService.ClumpCurveInVolume | SectorXConsoleProject/app/LeafService.cpp:575-588 | every clump of volume volIdx rides one of that volume's 16 guide curves, and its starting progress lies in [0, 1) |
| LeafService.ClumpIndex | SectorXConsoleProject/app/LeafService.cpp:606 | the clump of volume volIdx and lane c sits inside the clump array |
| LeafService.FirstFree | SectorXConsoleProject/app/LeafService.cpp:445-454 | the slot chosen is the first unused one; none is found only when every slot is in use |
| LeafService.ReleaseAsWritten | SectorXConsoleProject/app/LeafService.cpp:460-479 | as written: a used slot stays used exactly when its volume UID is among the active slot indices, UIDs kept |
| LeafService.Released | SectorXConsoleProject/app/LeafService.cpp:460-479 | corrected: a used slot stays used exactly when an active volume sits in that slot, UIDs kept |
| LeafService.FreedUpToMembers | SectorXConsoleProject/app/LeafService.cpp:467-478 | the UIDs erased from the map are exactly those of the used slots that no active volume sits in |
| LeafService.ReleasedAgrees | SectorXConsoleProject/app/LeafService.cpp:460-479 | the corrected release keeps the slot table and the UID map in agreement, and a UID stays mapped exactly when its slot is active |
| LeafService.ReleaseAsWrittenFreesActiveSlot | SectorXConsoleProject/app/LeafService.cpp:462-471 | with UID 7 in slot 0 and an active volume in slot 0, the as-written release frees slot 0 and forgets UID 7, while the corrected one keeps both |
| LeafService.LeafService.constructor | SectorXConsoleProject/app/LeafService.h:228-233 | every slot free, no UID mapped and no active volume |
| LeafService.LeafService.AllocateSlot | SectorXConsoleProject/app/LeafService.cpp:440-458 | a known UID gets its slot back and nothing changes; otherwise the first free slot is taken and mapped, or UINT32_MAX is returned with nothing changed when all 16 are in use; the table and the map stay in agreement |
| LeafService.LeafService.PushActiveVolume | SectorXConsoleProject/app/LeafService.cpp:302-312 | a known UID keeps its slot and the volume is appended with it; a new UID takes the first free slot, which is marked used with that UID and recorded in the UID map, and the volume is appended with that slot; when no slot is free, slots, map and active list are unchanged |
| LeafService.LeafService.ClearActiveVolumes | SectorXConsoleProject/app/LeafService.h:179 | the active volumes are emptied and the UID map is kept |
| LeafService.LeafService.CollectActiveSlots | SectorXConsoleProject/app/LeafService.cpp:462-466 | the set gathered holds exactly the slots of the active volumes |
| LeafService.LeafService.ReleaseUnusedSlots | SectorXConsoleProject/app/LeafService.cpp:460-479 | (corrected) every used slot no active volume sits in is freed and its UID erased, the rest kept, and the table and map stay in agreement |
| LeafService.LeafService.FreeSlotsOutside | SectorXConsoleProject/app/LeafService.cpp:467-478 | the release loop frees exactly the used slots outside the given set and erases exactly their UIDs |
| LeafService.LeafService.InitClumpsCPU | SectorXConsoleProject/app/LeafService.cpp:570-609 | every clump (volIdx, c) holds the seed, guide curve and starting progress derived from the base seed |
| LeafService.LeafService.InitVolumeClumps | SectorXConsoleProject/app/LeafService.cpp:577-607 | the inner loop fills the eight clumps of one volume and leaves the others as they were |
| AudioService.Wrap32 | SectorFW/src/Audio/AudioService.cpp:364-365 | a uint32_t sum that fits is kept as it is |
| AudioService.LoadCmd | SectorFW/src/Audio/AudioService.cpp:69-93 | a load command names the handle and the path, and is a LoadWav exactly for a wav |
| AudioService.CacheKeyInjective | SectorFW/src/Audio/AudioService.cpp:53-77 | two cache keys are equal exactly when they name the same kind and the same path |
| AudioService.LoadHandleIsCached | SectorFW/src/Audio/AudioService.cpp:51-97 | a load returns a non-zero handle cached under its key, and the id maps back to that key |
| AudioService.LoadKeepsCacheValid | SectorFW/src/Audio/AudioService.cpp:51-97 | a load keeps the path cache and the id map inverse, while the id counter has not wrapped |
| AudioService.LoadCachedOrFresh | SectorFW/src/Audio/AudioService.cpp:56-71 | a cached key returns its handle, bumps its count and queues nothing; an uncached key gets a fresh id, a count of 1 and one load command |
| AudioService.LoadTwiceSameHandle | SectorFW/src/Audio/AudioService.cpp:56-62 | loading the same path twice gives the same handle and queues nothing the second time |
| AudioService.WavAndStreamDiffer | SectorFW/src/Audio/AudioService.cpp:53-77 | a wav and a stream of one path get different handles |
| AudioService.UnloadKeepsCacheValid | SectorFW/src/Audio/AudioService.cpp:99-134 | an unload keeps the path cache and the id map inverse |
| AudioService.LoadThenUnloadRestores | SectorFW/src/Audio/AudioService.cpp:51-134 | a load followed by an unload of its handle restores both caches; commands are queued only when the key was not cached, and then a load and an unload |
| AudioService.Resolve | SectorFW/src/Audio/AudioService.cpp:182-189 | a ticket resolves exactly when it is valid, in range, of the slot's generation and with a published voice, and then to that voice |
| AudioService.VoicesCleared | SectorFW/src/Audio/AudioService.cpp:350-351 | every slot keeps its generation and loses its voice |
| AudioService.LoadCommandEffect | SectorFW/src/Audio/AudioService.cpp:220-255 | a load command leaves an entry of the command's kind and path with a source, its count one higher than before, and every other entry unchanged |
| AudioService.LoadThenUnloadCommand | SectorFW/src/Audio/AudioService.cpp:220-266 | on the audio side, a load followed by an unload restores a positive count, and removes an entry that was not there before |
| AudioService.PumpKeepsGenerations | SectorFW/src/Audio/AudioService.cpp:208-360 | running commands never changes a ticket slot's generation |
| AudioService.PlayPublishes | SectorFW/src/Audio/AudioService.cpp:268-307 | a play touches only its ticket's slot; with a current ticket, a loaded source and a non-zero voice, the ticket resolves to that voice, and a ticket that starts resolving resolves to it |
| AudioService.ShutdownUnpublishesAll | SectorFW/src/Audio/AudioService.cpp:339-352 | after shutdown no sound is loaded and no ticket resolves |
| AudioService.AudioService.constructor | SectorFW/inc/SectorFW/Audio/AudioService.h:155-169 | empty caches, id counter at 1, empty queue, every ticket slot at generation 0 with no voice, not initialised |
| AudioService.AudioService.Initialize | SectorFW/src/Audio/AudioService.cpp:19-30 | an initialised engine stays initialised; otherwise it is initialised exactly when the engine's init returns 0; the result is the flag |
| AudioService.AudioService.Push | SectorFW/inc/SectorFW/Audio/AudioService.h:286-290 | the command is appended to the queue |
| AudioService.AudioService.EnqueueLoad | SectorFW/src/Audio/AudioService.cpp:51-97 | the caches, the handle and the queued commands are those of a load, and the caches stay inverse |
| AudioService.AudioService.EnqueueLoadWav | SectorFW/src/Audio/AudioService.cpp:51-73 | a load of kind wav |
| AudioService.AudioService.EnqueueLoadStream | SectorFW/src/Audio/AudioService.cpp:75-97 | a load of kind stream |
| AudioService.AudioService.EnqueueUnload | SectorFW/src/Audio/AudioService.cpp:99-134 | the caches and the queued commands are those of an unload, and the caches stay inverse |
| AudioService.AudioService.TryResolve | SectorFW/src/Audio/AudioService.cpp:182-189 | the voice a ticket resolves to, as Resolve states |
| AudioService.AudioService.AllocTicket | SectorFW/src/Audio/AudioService.cpp:361-369 | the ticket takes slot ticketAlloc mod 2^16, the allocator and the slot's generation advance with 32-bit wrap-around, the voice is cleared, and neither the new ticket nor the slot's previous one resolves |
| AudioService.AudioService.ReleaseTicket | SectorFW/src/Audio/AudioService.cpp:191-202 | a stale or invalid ticket changes nothing; a current one clears its voice, keeps its generation and queues a stop when a voice was published; either way it no longer resolves |
| AudioService.AudioService.EnqueuePlay | SectorFW/src/Audio/AudioService.cpp:135-141 | allocates a ticket as AllocTicket does and queues a play for it, which does not resolve yet |
| AudioService.AudioService.EnqueueStop | SectorFW/src/Audio/AudioService.cpp:142-146 | queues a stop unless the voice is 0 |
| AudioService.AudioService.EnqueueSetVolume | SectorFW/src/Audio/AudioService.cpp:147-151 | queues a volume change unless the voice is 0 |
| AudioService.AudioService.EnqueueSetPan | SectorFW/src/Audio/AudioService.cpp:152-156 | queues a pan change unless the voice is 0 |
| AudioService.AudioService.EnqueueSetPitch | SectorFW/src/Audio/AudioService.cpp:157-161 | queues a pitch change unless the voice is 0 |
| AudioService.AudioService.EnqueueSet3D | SectorFW/src/Audio/AudioService.cpp:162-171 | queues a 3D update unless the voice is 0 |
| AudioService.AudioService.EnqueueSetListener | SectorFW/src/Audio/AudioService.cpp:172-181 | always queues a listener update |
| AudioService.AudioService.UnpublishAllVoices | SectorFW/src/Audio/AudioService.cpp:350-351 | every ticket slot loses its voice and keeps its generation |
| AudioService.AudioService.Execute | SectorFW/src/Audio/AudioService.cpp:218-353 | one command changes the sounds and ticket slots as Apply states, and the path caches are cleared exactly by a shutdown |
| AudioService.AudioService.RunBatch | SectorFW/src/Audio/AudioService.cpp:216-354 | the swapped batch runs its commands in order |
| AudioService.AudioService.PumpCommands | SectorFW/src/Audio/AudioService.cpp:208-360 | the queue is emptied and its commands run in order; the path caches are cleared when a shutdown was among them and kept otherwise |
| AudioService.AudioService.Shutdown | SectorFW/src/Audio/AudioService.cpp:39-49 | when not initialised nothing changes (queue, sounds, voices and both caches); otherwise a shutdown is queued, the whole queue runs, both caches are cleared and the service is no longer initialised |
| ChunkCrossingMove.Relocate | SectorFW/inc/SectorFW/Core/ChunkCrossingMove.hpp:46-53 | a relocation happens exactly when the two managers differ, and then moves the given entity from the first to the second |
| ChunkCrossingMove.ChunkHandle.constructor | SectorFW/inc/SectorFW/Core/ChunkCrossingMove.hpp:22-26 | a fresh handle has the zero key and no cached chunk, and is not valid |
| ChunkCrossingMove.ResolveChunk | SectorFW/inc/SectorFW/Core/ChunkCrossingMove.hpp:60-66 | a handle with key code 0 resolves to nothing; otherwise to the registry's owner of its key; the cache is set to the result |
| ChunkCrossingMove.MoveIfCrossed | SectorFW/inc/SectorFW/Core/ChunkCrossingMove.hpp:79-118 | no destination chunk means no crossing and no change; with a destination the cached chunk becomes it, crossed or not; with stable pointers a crossing is a change of cached chunk, otherwise a change of node key (code and level); a crossing points the handle at the destination; an entity is relocated only across different managers, from the old owner to the new one, and skipped otherwise |
| ChunkCrossingMove.Routable | SectorFW/inc/SectorFW/Core/ChunkCrossingMove.hpp:308-313 | the routable moves are at most the taken ones, and each goes between two different managers |
| ChunkCrossingMove.AddToBucketsGrows | SectorFW/inc/SectorFW/Core/ChunkCrossingMove.hpp:312 | adding a move to the buckets adds exactly one id |
| ChunkCrossingMove.AddToBucketsDistinct | SectorFW/inc/SectorFW/Core/ChunkCrossingMove.hpp:305-312 | adding a move keeps one bucket per (source, destination) pair, adding its pair when new |
| ChunkCrossingMove.BucketizeCounts | SectorFW/inc/SectorFW/Core/ChunkCrossingMove.hpp:305-313 | the buckets hold exactly one id per routable move, one bucket per manager pair |
| ChunkCrossingMove.CountInserted | SectorFW/inc/SectorFW/Core/ChunkCrossingMove.hpp:321-324 | the successful inserts of a bucket are at most its ids |
| ChunkCrossingMove.CountAllInserted | SectorFW/inc/SectorFW/Core/ChunkCrossingMove.hpp:315-326 | the successful inserts of all buckets are at most their ids |
| ChunkCrossingMove.BudgetMover.constructor | SectorFW/inc/SectorFW/Core/ChunkCrossingMove.hpp:268-269 | the queue and the scratch list start empty |
| ChunkCrossingMove.BudgetMover.Enqueue | SectorFW/inc/SectorFW/Core/ChunkCrossingMove.hpp:272-277 | a move between two different keys is appended to the queue; a move to the same key is dropped |
| ChunkCrossingMove.BudgetMover.EnqueueBulk | SectorFW/inc/SectorFW/Core/ChunkCrossingMove.hpp:280-284 | the moves are appended to the queue in order |
| ChunkCrossingMove.BudgetMover.GroupMoves | SectorFW/inc/SectorFW/Core/ChunkCrossingMove.hpp:305-313 | the taken moves whose keys resolve to two different managers are grouped by manager pair |
| ChunkCrossingMove.BudgetMover.MoveBuckets | SectorFW/inc/SectorFW/Core/ChunkCrossingMove.hpp:315-326 | the count returned is the number of successful inserts over all buckets |
| ChunkCrossingMove.BudgetMover.Flush | SectorFW/inc/SectorFW/Core/ChunkCrossingMove.hpp:287-329 | a zero budget does nothing; otherwise the first min(size, budget) moves leave the queue, the rest stay in order, and the count is the successful inserts among the routable ones taken, never more than were taken |
| ChunkCrossingMove.BudgetMover.Clear | SectorFW/inc/SectorFW/Core/ChunkCrossingMove.hpp:332 | the queue and the scratch list are emptied |
| ChunkCrossingMove.BudgetMover.Size | SectorFW/inc/SectorFW/Core/ChunkCrossingMove.hpp:333 | the size is the queue's length |
| ChunkCrossingMove.RoutableRevSnoc | SectorFW/inc/SectorFW/Core/ChunkCrossingMove.hpp:308-313 | one more taken move adds its relocation exactly when both keys resolve to different managers |
| ChunkCrossingMove.RoutableRevIsRoutable | SectorFW/inc/SectorFW/Core/ChunkCrossingMove.hpp:308-313 | filtering the taken moves front to back and back to front gives the same relocations |
| ChunkCrossingMove.LocalBatch.constructor | SectorFW/inc/SectorFW/Core/ChunkCrossingMove.hpp:228-231 | the batch belongs to its owner and starts empty |
| ChunkCrossingMove.LocalBatch.Add | SectorFW/inc/SectorFW/Core/ChunkCrossingMove.hpp:247-250 | a move between two different keys is appended; a move to the same key is dropped |
| ChunkCrossingMove.LocalBatch.AddRange | SectorFW/inc/SectorFW/Core/ChunkCrossingMove.hpp:252 | the moves are appended in order |
| ChunkCrossingMove.LocalBatch.Flush | SectorFW/inc/SectorFW/Core/ChunkCrossingMove.hpp:254 | an empty batch or one without owner changes nothing; otherwise its moves are appended to the owner's queue and the batch is emptied |
| ChunkCrossingMove.LocalBatch.ClearKeepCapacity | SectorFW/inc/SectorFW/Core/ChunkCrossingMove.hpp:257 | the batch is emptied |
| ChunkCrossingMove.LocalBatch.Cancel | SectorFW/inc/SectorFW/Core/ChunkCrossingMove.hpp:259 | the batch loses its owner and is emptied |
| ChunkCrossingMove.LocalBatch.Size | SectorFW/inc/SectorFW/Core/ChunkCrossingMove.hpp:260 | the size is the batch's length |
| ChunkCrossingMove.MoveIfCrossedDeferred | SectorFW/inc/SectorFW/Core/ChunkCrossingMove.hpp:340-376 | the crossing test and the handle update of MoveIfCrossed: no destination chunk means no crossing and no change to the handle, and with a destination the cached chunk becomes it, crossed or not; a crossing queues the move from the old key to the new one when the handle had a cached chunk (stable pointers) or a non-zero key code, and the keys differ |
| BlockCompression.Clamp01 | SectorXConsoleProject/app/main.cpp:729 | the clamped value lies in [0, 1] and a value already there is kept |
| BlockCompression.NormalToUNorm8 | SectorXConsoleProject/app/main.cpp:725-731 | the byte is within half a step of the clamped (v + 1) / 2 scaled to 255, which is rounding to nearest |
| BlockCompression.NormalToUNorm8Monotone | SectorXConsoleProject/app/main.cpp:725-731 | a larger normal component never gives a smaller byte |
| BlockCompression.NormalToUNorm8Ends | SectorXConsoleProject/app/main.cpp:725-731 | -1 and below give 0, 0 gives 128, 1 and above give 255 |
| BlockCompression.Digit3 | SectorXConsoleProject/app/main.cpp:809 | a 3-bit field is below 8 |
| BlockCompression.Pack3Snoc | SectorXConsoleProject/app/main.cpp:807-810 | packing one more index puts its low three bits at the next 3-bit field |
| BlockCompression.Pack3Bound | SectorXConsoleProject/app/main.cpp:807-810 | n packed indices fit in 3n bits |
| BlockCompression.Digit3OfPack3 | SectorXConsoleProject/app/main.cpp:807-810 | the i-th 3-bit field of the packed word is the low three bits of index i |
| BlockCompression.LittleEndianOfBytes | SectorXConsoleProject/app/main.cpp:812-815 | bytes holding successive 8-bit fields of a word read back, little-endian, as that word |
| BlockCompression.Level | SectorXConsoleProject/app/main.cpp:789 | a texel value, in units of 1/1785, lies between 0 and full scale |
| BlockCompression.PaletteEntry | SectorXConsoleProject/app/main.cpp:774-782 | every palette entry lies between 0 and full scale |
| BlockCompression.Levels | SectorXConsoleProject/app/main.cpp:787-789 | the tile's 16 values in palette units, texel by texel |
| BlockCompression.Palette | SectorXConsoleProject/app/main.cpp:774-782 | the eight entries: the two endpoints, then (7 - i) ep0 + i ep1 over 7 for i from 1 to 6 |
| BlockCompression.TexelIndices | SectorXConsoleProject/app/main.cpp:805-815 | the 16 indices read back from the block's index bytes |
| BlockCompression.MinAtMostMax | SectorXConsoleProject/app/main.cpp:741-745 | the minimum of a tile is at most its maximum |
| BlockCompression.UniformBlockExact | SectorXConsoleProject/app/main.cpp:748-755 | a uniform tile's block has every index 0, which selects the common value |
| BlockCompression.ErrZero | SectorXConsoleProject/app/main.cpp:794-795 | the squared error is never negative and is 0 exactly at the texel's own value |
| BlockCompression.EndpointTexelsExact | SectorXConsoleProject/app/main.cpp:784-803 | in eight-value mode a texel equal to an endpoint gets that endpoint's index |
| BlockCompression.BlockMinMax | SectorXConsoleProject/app/main.cpp:738-745 | the loop finds the tile's minimum and maximum |
| BlockCompression.BuildPalette | SectorXConsoleProject/app/main.cpp:773-782 | the palette array holds the eight palette entries |
| BlockCompression.NearestIndex | SectorXConsoleProject/app/main.cpp:790-802 | the index chosen is the first palette entry with the smallest squared error |
| BlockCompression.ErrBelowInitial | SectorXConsoleProject/app/main.cpp:790 | every real error is below the initial best error, so an entry is always chosen |
| BlockCompression.PackIndices | SectorXConsoleProject/app/main.cpp:806-810 | the 48-bit word holds index i's low three bits at bits 3i to 3i + 2 |
| BlockCompression.ChooseIndices | SectorXConsoleProject/app/main.cpp:785-803 | every texel gets the nearest palette index, each below 8 |
| BlockCompression.WriteIndexBytes | SectorXConsoleProject/app/main.cpp:812-815 | bytes 2 to 7 of the block hold the six little-endian bytes of the word and nothing else changes |
| BlockCompression.IndexField | SectorXConsoleProject/app/main.cpp:812-815 | the six index bytes read back as the packed word |
| BlockCompression.IndexBytesDecode | SectorXConsoleProject/app/main.cpp:805-815 | each index read back from the block is the chosen index's low three bits |
| BlockCompression.EightValueBlock | SectorXConsoleProject/app/main.cpp:757-815 | endpoints max and min, nearest indices and their packed bytes make a BC4 block of the tile |
| BlockCompression.WriteUniformBlock | SectorXConsoleProject/app/main.cpp:748-755 | both endpoints hold the common value, the index bytes are 0 and nothing outside the block changes |
| BlockCompression.EncodeBC4Block | SectorXConsoleProject/app/main.cpp:735-816 | the 8 bytes written are the BC4 encoding of the tile: endpoint 0 its maximum, endpoint 1 its minimum, all indices 0 for a uniform tile, otherwise eight-value mode with every texel at its nearest palette entry; nothing outside the block changes |
| BlockCompression.RedTile | SectorXConsoleProject/app/main.cpp:845-857 | a tile has 16 red texels, each the x component of its normal as a byte |
| BlockCompression.GreenTile | SectorXConsoleProject/app/main.cpp:845-857 | a tile has 16 green texels, each the z component of its normal as a byte |
| BlockCompression.TileFits | SectorXConsoleProject/app/main.cpp:828-833 | every tile of the map lies inside the image, and its block inside the output |
| BlockCompression.GatherTile | SectorXConsoleProject/app/main.cpp:845-858 | the two 16-byte buffers hold the tile's red (x) and green (z) bytes in row-major order |
| BlockCompression.TileOrder | SectorXConsoleProject/app/main.cpp:840-867 | a tile earlier in row-major order has its block entirely before a later tile's block |
| BlockCompression.KeepTile | SectorXConsoleProject/app/main.cpp:840-867 | a tile stays encoded while later writes stay beyond its block |
| BlockCompression.EncodeTile | SectorXConsoleProject/app/main.cpp:845-865 | the tile's block holds the BC4 encoding of its red tile then of its green tile, and nothing else changes |
| BlockCompression.EncodeTileRow | SectorXConsoleProject/app/main.cpp:842-868 | after a row of tiles, every tile of that row and of the rows before is encoded, and the offset moves to the next row's first block |
| BlockCompression.EncodeNormalMapBC5 | SectorXConsoleProject/app/main.cpp:819-870 | the output has 16 bytes per 4x4 tile, and every tile's block encodes its red and green tiles as BC4 |

## Left out

Convex and mesh builds (`AssetsBuild/generate_convex.py`, `AssetsBuild/generate_meshshape.py`):
- `load_mesh` (trimesh loading, scene flattening and the capability-probed cleanup passes) is an external library. Its result is an input of the model.
- V-HACD decomposition (`run_vhacd`) and quadric decimation are external libraries. The model takes the hulls, and a decimation function that may fail, as parameters. `ConvexBuild.Params` records the profile settings handed to V-HACD.
- The removal of unreferenced vertices in `to_compact_arrays` is a trimesh call. The model takes it as a pruning function parameter.
- The float64 to float32 conversion of coordinates is floating point. Points are carried as their float32 bit patterns.
- `int(n * 0.6)` and `int(n * 0.25)` are modelled as exact `n * 6 / 10` and `n / 4`. The floating-point rounding of the products is left out.
- File modification times are parameters. Directory creation, the `os.walk` discovery loop in `main`, the extension filter, the output path computation and the log messages are I/O.
- The command-line parsing of the configuration, including its lower-casing, is left out. The profile is a `Config` value.
- A CVXH file that is partly written when a later hull fails to clamp is not modelled. The model returns no file for such a decomposition.
- A JMSH file is also left partly written, holding the 8 bytes of tag and version, when the `"<II"` count pack raises on a count that does not fit 32 bits (`AssetsBuild/generate_meshshape.py:217-221`). The model returns no file in that case.

Morton codes (`SectorFW/inc/SectorFW/Util/Morton.h`):
- The BMI2 `_pdep_u64` branch (lines 16-23) is a CPU intrinsic. The portable bit-spreading path is modelled.
- The int32 overload of `Morton3D64_ZZ` (lines 129-131) is left out. It widens and forwards to the int64 version, which is modelled.

Math helpers (`SectorFW/inc/SectorFW/Math/sx_math.h`):
- The floating-point helpers are left out: the float branches of `clamp`, `wrap` and `sign`, `wrap01`, `wrap_angle_pi`, `shortest_angle_delta`, `deg2rad`, `rad2deg`, `approx_equal`, `lerp`, `remap`, `smoothstep`, `saturate`, `absdiff`, `rsqrt` and `LerpColor`.
- SxMath.Wrap: for a signed common type, `x - lo` and `hi - lo` are taken without overflow. Their signed overflow at the extremes of the type is undefined behaviour and is not modelled. The unsigned common type is `WrapUnsigned`.
- SxMath.AlignUpBounds: does not cover the case where `value + alignment - 1` wraps past the top of the unsigned type. The bound is stated for values where that sum fits.

Grid (`SectorFW/inc/SectorFW/Util/Grid.hpp`):
- The width/height/depth getters, `begin`/`end` and `data()` only expose fields. The `size_t` overflow of `w * h * d` is not modelled.

Render queue (`SectorFW/inc/SectorFW/Graphics/RenderQueue.h`):
- `RebindIfNeeded`, `PushSOA`, `AllocInstance`, the concurrent per-frame queues, `RadixSortMulti` and `EnsureScratch` are concurrency or buffer management and are left out.
- `RENDER_BUFFER_COUNT` is a parameter.
- `std::sort` is modelled by a selection sort (`StdSort.SortRange`) whose contract promises only what `std::sort` promises: a sorted permutation.
- `FlushAll` is modelled for a session bound to its queue.
- RenderTypes.h is not part of this model. The draw command is a datatype with the fields the sorts use.

Build order (`SectorFW/inc/SectorFW/Core/build_order.h`):
- The AVX2 distance path is a CPU intrinsic.
- Float rounding of the distance fraction is left out. The fraction is computed over reals, with the overflowing casts written out.
- BuildOrder.BuildNearToFarOrder, BuildOrder.BuildOrderFixedRadix16: both order by the range-free bins `DistanceBin` and `QuantizeD2` (through `BinKey` and `QuantKey`), the corrected bins of the Findings. The compiled `(int)` cast and `lrintf` agree with these bins whenever the scaled value fits 32 bits (`DistanceBinAgrees`, `QuantizeD2Agrees`). Past that, the compiled order is not modelled.
- BuildOrder.BuildNearToFarOrder: requires B <= 256. The template accepts a larger B, but it stores each row's bin as a `uint8_t` while it counts the full bin (`build_order.h:62-63`). For B > 256 the scatter (lines 74-77) then places rows by the truncated bin, so the result is not a permutation. That defect is not modelled. B defaults to 32, and the engine uses no B above 256.
- `BuildFrontK_Strict` uses `nth_element`. The order it leaves among the elements after the first K is left out. Only their multiset is stated.

Material manager (`SectorFW/src/Graphics/DX11MaterialManager.cpp`):
- The Direct3D `*SetShaderResources`, `*SetConstantBuffers` and `*SetSamplers` calls become writes to a table of device registers.
- The iteration order of `unordered_map` is given as a sequence parameter.
- The texture, buffer and sampler managers' `Get` calls are view functions passed in. Their reference counting lives outside this file and is not part of this model.

Clustered terrain (`SectorFW/src/Graphics/TerrainClustered.cpp`):
- Cluster rectangles are inputs. The float AABB bounds, the `cellSize` inference and its `lround` are left out.
- The weld key quantisation (`makeKey` with `lround`) is taken as given keys per vertex.
- Height generation, normals and UVs are floating point. `CheckClusterBorderEquality` is a debug check.
- The vertex index `z * vx + x` and the `running` pool offset are `uint32_t` in the source. The model computes them as unbounded naturals, so their 32-bit wrap for grids or pools of 2^32 or more indices is not modelled.

Leaf service (`SectorXConsoleProject/app/LeafService.cpp`):
- `Hash` is modelled as the function it computes and carries no contract of its own. `Rand01` states the range of its result.
- `RandRange`, the float fields of the clumps, the GPU buffers, `InitCurveParams` and `Commit` are floating point or Direct3D.

Audio service (`SectorFW/src/Audio/AudioService.cpp`):
- SoLoud calls are left out. The engine's voice numbers and load results are parameters.
- The mutexes and atomics, `IsVoiceAlive_OnAudioThread` and `update3dAudio` are concurrency or engine calls.
- The load cache's `refCount` is an unbounded `nat`. The source's is a `uint32_t`, whose wrap after 2^32 loads of one path is not modelled.
- AudioTypes.h is not part of this model. A ticket is valid iff its generation is non-zero, and a handle is truthy iff its id is non-zero.

Chunk-crossing moves (`SectorFW/inc/SectorFW/Core/ChunkCrossingMove.hpp`):
- `UpdateSpatialAttachment` (lines 161-205) and `RelocateCrossedBatch` (lines 129-144) are left out. They call into the partition and entity-manager templates.
- `LocalBatch`'s move constructor and assignment, its destructor, `FlushNoThrow` and `ClearAndRelease` are C++ object-lifetime code.
- `PartitionTraits` becomes the stable-pointer parameter. `partition.GetChunk` becomes the optional destination input.
- The mutexes are left out.
- ChunkCrossingMove.BudgetMover.Flush: whether `InsertWithID_ForManagerMove` accepts an entity is a function of the relocation alone (`inserted`), so two inserts of the same relocation in one flush always have the same outcome. The entity managers' state, which decides the outcome in the source, is not modelled. Neither is `MoveSparseIDsTo` (`ChunkCrossingMove.hpp:325`). The same abstraction applies to `MoveBuckets`, `CountInserted` and `CountAllInserted`.
- The buckets of `ChunkCrossingMove` follow the order in which their chunk first appears. The source keeps them in an `unordered_map`, whose iteration order is unspecified, so the model picks one of the orders the source allows.
- ChunkCrossingMove.MoveIfCrossed, ChunkCrossingMove.MoveIfCrossedDeferred: both require the ghost `ChunkHandle.Consistent()`: a cached chunk is the node the handle's key names. The source never checks this. It holds for a fresh handle and both methods preserve it, but a handle changed by code outside the model may break it.
- partition.hpp is not part of this model. `SpatialChunkKey` is a datatype.

Block compression (`SectorXConsoleProject/app/main.cpp`):
- `NormalToUNorm8` computes in `float`. The model computes over reals, so float rounding at the half-step boundaries is left out.
- The BC4 palette is computed in floats. The model computes it exactly, in units of 1/1785. The float rounding of the palette and of the error comparison is left out.

## Findings

| source | as written | input that shows it | evidently intended | confidence | as-written member | corrected member |
|---|---|---|---|---|---|---|
| SectorXConsoleProject/app/LeafService.cpp:462-471 | `activeUIDs` is filled with each active volume's `volumeSlot` (a slot index) but is searched for each slot's `volumeUID` | volume UID 7 held in slot 0 and active this frame in slot 0: the set holds 0, UID 7 is not found, and slot 0 is freed while in use | a slot is freed iff no active volume occupies it, so the set holds slot indices and is searched by slot index | high, not executed | LeafService.ReleaseAsWritten and LeafService.ReleaseAsWrittenFreesActiveSlot | LeafService.LeafService.ReleaseUnusedSlots, with LeafService.ReleasedAgrees |
| SectorFW/inc/SectorFW/Core/build_order.h:30-34 | `(int)(t * B)` of an out-of-range float gives INT_MIN on x86, which the clamp sends to bin 0 | near2 = 0, far2 = 1, B = 32: d2 = 1 gets bin 31 but d2 = 2^27 gets bin 0, so the farther point is drawn first | distances beyond far2 land in the last bin, B - 1, so the bin never decreases as d2 grows | medium (the cast is undefined behaviour in C++; the value is the x86 one), not executed | BuildOrder.DistanceBinAsWrittenFarPointFirst | BuildOrder.DistanceBin, with BuildOrder.DistanceBinMonotone |
| SectorFW/inc/SectorFW/Core/build_order.h:82-87 | `lrintf(t * 65535.0f)` of a value past the 32-bit range gives INT_MIN on Windows x86, which the clamp sends to key 0 | near2 = 0, far2 = 1: d2 = 40000 gets key 0, the nearest key, instead of 65535 | distances beyond far2 get the largest key 65535, so the key never decreases as d2 grows | medium (the result of an out-of-range lrintf is unspecified; the value is the x86 one), not executed | BuildOrder.QuantizeD2AsWrittenFarPointNearest | BuildOrder.QuantizeD2, with BuildOrder.QuantizeD2Monotone |
| SectorFW/src/Graphics/TerrainClustered.cpp:350-353 | each cluster's skirt indices are appended at the end of the shared pool, yet only its `indexCount` grows and its `indexOffset` stays | two clusters: cluster 0's range is stretched over the start of cluster 1's triangles, and its own skirt lies after cluster 1's range | each cluster's range covers its own triangles followed by its own skirt, which needs the pool regrouped cluster by cluster | medium (the drawing code that reads the cluster ranges is not part of this model), not executed | TerrainClustered.SkirtRangeMisses and TerrainClustered.StretchedMisses | TerrainClustered.Terrain.AddSkirtsToClustersGrouped, with TerrainClustered.GroupedDrawsOwnSkirt |
