# Havok collision spells and colour spells of NifSkope, in Dafny

This project models the Havok collision spells of the NIF editor NifSkope
(`src/spells/havok.cpp`) and its colour spells (`src/spells/color.cpp`),
and proves properties of that model. The spells covered are:

- **Create Convex Shape** and **Create Combined Convex Shape**: run a convex
  hull over one mesh, or over all meshes, then deduplicate and sort the hull
  vertices and normals into a `bhkConvexVerticesShape`.
- **A -> B**: recompute the B-side pivot and axes of a constraint from its
  A side.
- **Pack Strips**: merge the strips data of a `bhkNiTriStripsShape` into one
  packed vertex, triangle and normal list.
- **Create Convex Decomposition** and **Create Combined Convex
  Decomposition**:
  - build the flat buffers handed to the decomposition library;
  - choose its parameters;
  - turn each returned hull into a shape;
  - ask the MOPP generator for a tree when there are more than four shapes.
- **Choose**, **Set All** and **Replace** on colours.

Modelling choices:

- Coordinates are mathematical reals. Vector equality is exact, as in the
  source.
- Some operations outside the source are function parameters:
  - the convex hull routine;
  - the decomposition library;
  - vector normalisation;
  - the colour wheel;
  - the MOPP code computation.
- The constraint spell's pivot and axis maps are function parameters. The
  body transforms they come from are modelled on their own
  (`Frames.BodyTrans`), and `Constraints` is not connected to them.
- A dialog's answer is an input: `None` means it was cancelled.
- `quint16` and `uint32` index arithmetic wraps explicitly:
  `PackStrips.Shift16`, `Decomposition.Wrap16` and `MeshBuffers.Shift32`.

The modules follow the source:

| module | what it holds |
|---|---|
| `Geometry` | vectors, `Vector4::lexLessThan` and sortedness |
| `NifVersion` | `havokConst` and the Havok unit scale |
| `ConvexHull` | `createCVS` and the two CVS spells |
| `MeshBuffers` | the point and index buffers built from meshes |
| `PackStrips` | `spPackHavokStrips` |
| `Frames` | `spConstraintHelper::bodyTrans` |
| `Constraints` | `spConstraintHelper::cast` |
| `Mopp` | `HavokMoppCode` and the MOPP decision |
| `Decomposition` | the two decomposition spells |
| `ColorSpells` | the colour spells |

## Model

| member | source | states |
|---|---|---|
| Geometry.LexLessStrictTotal | src/spells/havok.cpp:114 | The vertex order used by the sort is irreflexive, transitive, asymmetric and total on distinct vectors. |
| Geometry.StrictlySortedUnique | src/spells/havok.cpp:105-137 | Two strictly sorted lists with the same elements are equal. The output of the dedup and sort is fixed by its element set. |
| NifVersion.HavokScale | src/spells/havok.cpp:167-169 | The scale is 70 exactly for version 20.2.0.7 with user version 12 or more, and 7 otherwise. It is always positive, so dividing by it is defined. |
| ConvexHull.Rescaled | src/spells/havok.cpp:106-126 | Multiplying a rescaled vertex back by the scale gives the hull vertex again. A rescaled normal keeps its direction, and its plane distance times the scale is the original one. |
| ConvexHull.CollectDistinct | src/spells/havok.cpp:105-113 | The append-unless-contained loop yields a duplicate-free list. Its elements are exactly the rescaled hull elements. It is never longer than the hull. |
| ConvexHull.SortLex | src/spells/havok.cpp:114 | The in-place sort leaves the array lexicographically sorted and a permutation of its old contents. |
| ConvexHull.SortedDistinct | src/spells/havok.cpp:105-137 | Dedup then sort gives a strictly increasing list holding exactly the rescaled hull elements. |
| ConvexHull.CreateCvs | src/spells/havok.cpp:51-141 | The result is absent exactly when the dialog is cancelled. Otherwise it has strictly sorted vertices equal as a set to the hull vertices divided by the scale, and strictly sorted normals equal as a set to the hull normals with only their distance divided. The radius is the one chosen in the dialog. |
| ConvexHull.NormalsKeepDirection | src/spells/havok.cpp:122-130 | Every output normal has the direction of some hull normal and that normal's plane distance divided by the scale. |
| ConvexHull.VertexAppearsOnce | src/spells/havok.cpp:105-120 | Every rescaled hull vertex appears in the output, and no output vertex appears twice. |
| ConvexHull.OutputIsCanonical | src/spells/havok.cpp:105-137 | Hulls with the same elements, in any order and with any repetition, give the same output list. |
| ConvexHull.HullReportAsWritten | src/spells/havok.cpp:242 | The single-mesh spell's message, as written, agrees with the corrected report on the vertex count. It agrees as a whole exactly when the shape has as many normals as vertices. |
| ConvexHull.HullReportAsWrittenMiscounts | src/spells/havok.cpp:242 | A shape with one vertex and two normals is reported as having one normal. |
| ConvexHull.ReportCountsHullElements | src/spells/havok.cpp:359 | For a shape built from a hull, the corrected report gives the number of distinct rescaled hull vertices and the number of distinct rescaled hull normals. |
| ConvexHull.CastCvs | src/spells/havok.cpp:160-246 | The hull input is the mesh vertices moved by the shape translation, and the scale follows the file version. The shape has the `CreateCvs` guarantees. The corrected report gives its own vertex and normal counts. Nothing is created when the dialog is cancelled. |
| ConvexHull.CastCombinedCvs | src/spells/havok.cpp:263-363 | The hull input is the translated vertices of every mesh with valid data, in mesh order. The shape and the report have the guarantees of the single-mesh spell. |
| ConvexHull.CombinedPointsAppend | src/spells/havok.cpp:292-296 | Gathering two runs of meshes gives the concatenation of their vertex lists. |
| ConvexHull.InvalidMeshesContributeNothing | src/spells/havok.cpp:365-369 | Meshes without valid geometry data add no hull input. |
| MeshBuffers.FlattenMesh | src/spells/havok.cpp:811-835 | The flat point buffer reads back as every vertex scaled and translated, in order. The flat index buffer reads back as the mesh triangles. |
| MeshBuffers.CombineDecomposition | src/spells/havok.cpp:1305-1331 | A mesh without valid data leaves both buffers unchanged. Otherwise both buffers keep their old contents as a prefix. The new points read back as the translated vertices, and the new triangles as the mesh triangles rebased, modulo 2^32, by the earlier point count. |
| MeshBuffers.RebasedIndexReachesOwnVertex | src/spells/havok.cpp:1315-1329 | Below 2^32, a rebased index of the appended mesh reads back that mesh's own vertex in the merged buffer. |
| MeshBuffers.CombineCvs | src/spells/havok.cpp:365-377 | A mesh without valid data leaves the list unchanged. Otherwise the old list is kept and followed by the mesh vertices moved by its translation. |
| PackStrips.RebaseBlock | src/spells/havok.cpp:590-604 | Each triangle is shifted by the base, wrapping at 2^16. The normals are the face normals of the triangles before the shift, one per triangle, in order. |
| PackStrips.PackBlock | src/spells/havok.cpp:577-611 | A valid block appends its vertices divided by 7, its triangles rebased by the vertex count before it, and its face normals. A block that is not strips data appends nothing. |
| PackStrips.PackStrips | src/spells/havok.cpp:568-617 | The result is "no mesh data" exactly when the packed vertex list or the packed triangle list is empty. Otherwise it holds the packed vertices, triangles and normals of all blocks. |
| PackStrips.OneNormalPerTriangle | src/spells/havok.cpp:599-610 | The packed normal list is as long as the packed triangle list. |
| PackStrips.FaceNormalRotation | src/spells/havok.cpp:595-599 | The face normal pushed for a triangle, the normalized cross product of its edges from the first corner, does not change when the triangle's corners are rotated. |
| PackStrips.PackedPrefix | src/spells/havok.cpp:576-611 | Packing more blocks only appends to the vertex and triangle lists. |
| PackStrips.BlockVerticesInPacked | src/spells/havok.cpp:606-608 | The vertices of a block sit, divided by 7, right after those of the earlier blocks. |
| PackStrips.PackedTriangleAt | src/spells/havok.cpp:601-609 | Triangle k of block j sits after the earlier blocks' triangles, shifted by their vertex count. |
| PackStrips.PackedCornerAddressesOwnBlock | src/spells/havok.cpp:590-609 | While shifted indices fit in 16 bits, every corner of a packed triangle names the same vertex, divided by 7, that it named in its own block. |
| Frames.BodyTrans | src/spells/havok.cpp:489-508 | The result is the start transform with the transform of every `NiAVObject` ancestor composed on the left, nearest ancestor first. This holds for any parent chain that ends. |
| Frames.StackIsProduct | src/spells/havok.cpp:504 | For an associative composition with a left identity, composing ancestors one by one equals composing their product with the start. |
| Frames.AvTransformsSkipOthers | src/spells/havok.cpp:500-505 | Blocks that are not `NiAVObject`s contribute nothing to the product, and the walk continues past them. |
| Frames.WalkFollowsParents | src/spells/havok.cpp:500 | The walk starts at the body's parent, each step follows one parent link, and it stops at the first negative link. |
| Frames.WalkFuelIrrelevant | src/spells/havok.cpp:500 | Any large enough bound on the number of links gives the same walk. |
| Constraints.ApplicableExactlyListedNames | src/spells/havok.cpp:389-400 | The spell applies exactly to the six constraint types it lists by name. |
| Constraints.ResolveKind | src/spells/havok.cpp:407-415 | Only a malleable or breakable constraint changes type. It becomes a ragdoll exactly when the Ragdoll sub-structure is present. It becomes a limited hinge exactly when Ragdoll is absent and Limited Hinge present, and a hinge exactly when only Hinge of the three is present. It keeps its own type exactly when none is present. |
| Constraints.DataLocationOf | src/spells/havok.cpp:428-444 | Data exists exactly for ragdoll, limited hinge and hinge. A ragdoll's data is its Ragdoll sub-structure, a limited hinge's its Limited Hinge and a hinge's its Hinge, each when present, and the block itself otherwise. |
| Constraints.FieldNames | src/spells/havok.cpp:451-467 | A field table exists exactly for the ragdoll, the limited hinge and the hinge. In each table no write clobbers a field that a later step still reads. |
| Constraints.Set | src/spells/havok.cpp:449 | Writing a field changes only that field, if it exists, and keeps the set of fields. |
| Constraints.Rewrite | src/spells/havok.cpp:446-484 | For a field table whose written fields differ from the fields still to be read (both tables of the spell qualify), the fields are kept as a set, and the non-target fields keep their values. Pivot B is the mapped Pivot A. Each B-side axis is the rotated original of its A-side field. |
| Constraints.Cast | src/spells/havok.cpp:402-487 | The missing-bodies warning happens exactly when an entity is not a rigid body. A rewrite keeps the set of fields of the data it rewrites. |
| Constraints.HingeSuffixExactlyHinges | src/spells/havok.cpp:452 | The "ends with HingeConstraint" test holds exactly for the limited hinge and the hinge. |
| Constraints.DataImpliesTable | src/spells/havok.cpp:466-467 | Once constraint data is found, the field-name test never returns early. |
| Constraints.RewritesExactlyWhen | src/spells/havok.cpp:402-487 | The cast writes if and only if both bodies are found and the constraint is, or wraps, a ragdoll, limited hinge or hinge. |
| Constraints.UnresolvedWritesNothing | src/spells/havok.cpp:443-444 | A prismatic constraint, and a wrapper with none of the three sub-structures, is left unchanged. |
| Constraints.DirectUsesOwnData | src/spells/havok.cpp:428-441 | A ragdoll, limited hinge or hinge constraint with both bodies is rewritten. The rewrite happens in its own sub-structure when it has one, and in the block itself otherwise. |
| Constraints.WrapperUsesFirstProbe | src/spells/havok.cpp:407-441 | A wrapper is rewritten in the first present sub-structure, in the order ragdoll, limited hinge, hinge. |
| Constraints.HingeWrites | src/spells/havok.cpp:446-484 | A hinge writes Pivot B, Axle B and both Perp2 B axes from their A-side values. Every other field keeps its value. |
| Constraints.RagdollWrites | src/spells/havok.cpp:446-477 | A ragdoll writes Pivot B, Plane B and Twist B from their A-side values. Every other field keeps its value. |
| Mopp.MoppGenerator.constructor | src/spells/havok.cpp:690-697 | A new generator has no library, no entry points and no vertices. |
| Mopp.MoppGenerator.Initialize | src/spells/havok.cpp:705-717 | A loaded library is not reloaded. An unloaded one is loaded and its exported entry points resolved. A load failure resolves nothing and is retried later. Success (`Ready`) means the three needed entry points are resolved. |
| Mopp.MoppGenerator.AddVertex | src/spells/havok.cpp:719-722 | One hull's vertices are appended to what the library was given. |
| Mopp.MoppGenerator.RetrieveMoppCode | src/spells/havok.cpp:723-738 | The code returned is exactly what the library computes from all the vertices given so far, empty when its length is zero. |
| Mopp.MoppOutcome | src/spells/havok.cpp:945-962 | No tree is requested for four shapes or fewer. Generation fails exactly for more than four shapes with an empty code. A tree carries the non-empty code. |
| Mopp.InitializeTwice | src/spells/havok.cpp:705-717 | After a successful load, a second initialization answers as the first. The answer is "ready" exactly when the library exports the three needed entry points. |
| Decomposition.FillModeOfInvertsCode | src/spells/havok.cpp:845-849 | The fill-method switch (`FillModeOf`) and the enumeration agree in both directions. Exactly the three enumerators select a mode. |
| Decomposition.DecompositionParameters | src/spells/havok.cpp:838-849 | The fill mode given to the library has the dialog's fill method as its enumerator value. A fill method that is no enumerator leaves the library default. |
| Decomposition.FillModeFollowsDialog | src/spells/havok.cpp:845-849 | The fill mode passed is the one chosen in the dialog, in both directions. |
| Decomposition.CombinedParametersAsWritten | src/spells/havok.cpp:1116-1122 | The combined spell's parameters as written equal the single-mesh spell's in everything but the fill mode, which stays the library default. The two agree exactly when the dialog asks for the default mode or for no enumerator. |
| Decomposition.CombinedIgnoresFillMethod | src/spells/havok.cpp:1116-1122 | Choosing "Surface" in the combined spell decomposes with flood fill, where the single-mesh spell uses surface-only. |
| Decomposition.GatherDecompositionInput | src/spells/havok.cpp:1106-1113 | The flat buffers read back as the translated points of all valid meshes, and as their triangles rebased by the points gathered before each mesh. |
| Decomposition.HullVertices | src/spells/havok.cpp:875-882 | Each hull point becomes the vector (x, y, z, 0) divided by the scale, in order. |
| Decomposition.HullNormals | src/spells/havok.cpp:885-900 | One normal per hull triangle, built from the triangle's indices truncated to 16 bits. |
| Decomposition.ShapeVerticesScaleBack | src/spells/havok.cpp:875-882 | Every shape vertex has w = 0 and, multiplied by the scale, is the hull point again. |
| Decomposition.NormalPerTriangle | src/spells/havok.cpp:885-900 | A shape has one vertex per hull point and one normal per hull triangle. Each normal is the normalized cross product of that triangle's edges over the shape vertices. |
| Decomposition.BuildShapes | src/spells/havok.cpp:868-921 | One shape per hull, in order, each with radius 0.001 and the chosen material. Each hull's vertices are handed to the MOPP generator in the same order. |
| Decomposition.Decompose | src/spells/havok.cpp:851-962 | Failure happens exactly when the library fails. Otherwise one shape per hull, and the list material is the looked-up enumeration value, or 0 when the lookup fails. The MOPP status is that of the code computed from all hull vertices. |
| Decomposition.CreateHacd | src/spells/havok.cpp:784-1029 | Cancelled exactly when the dialog is cancelled. The library receives the scaled and translated mesh and the dialog's parameters. The shapes and the list material follow the hulls it returns and the material lookup. When shapes are built, the MOPP generator has been given every hull's shape vertices in hull order, and the MOPP status is that of the code computed from them. Otherwise the generator is given nothing. The library stays loaded and its entry points stay resolved. |
| Decomposition.CreateCombinedHacd | src/spells/havok.cpp:1058-1302 | The same as the single-mesh spell, over the combined buffers of all meshes, with the corrected parameters: the fill mode follows the dialog (see Findings and Left out). |
| Decomposition.HacdApplicable | src/spells/havok.cpp:770-782 | The MOPP generator is initialized as by `Initialize`: a loaded library is kept, an unloaded one is loaded from the given library. The spell is applicable exactly when the generator is then ready and the block is triangle geometry of version 10.0.1.0 or later with valid data. |
| Decomposition.CombinedHacdApplicable | src/spells/havok.cpp:1047-1056 | The MOPP generator is initialized as by `Initialize`. The spell is applicable exactly when the generator is then ready, the file has one root and nothing is selected. |
| Decomposition.CombinedPrefix | src/spells/havok.cpp:1109-1113 | Combining more meshes only appends to the points and the triangles. |
| Decomposition.CombinedCornerReadsOwnMesh | src/spells/havok.cpp:1315-1330 | While rebased indices stay below 2^32, every corner of a combined triangle names its own mesh's translated vertex. |
| ColorSpells.ChooseColor | src/spells/color.cpp:33-47 | A Color3, Color4 or ByteColor4 value gets the colour picked from its current colour. Any other value is left alone. |
| ColorSpells.SetAllColor | src/spells/color.cpp:66-77 | For Color3 and Color4 arrays, every entry gets the colour picked from the first entry. Arrays of other types are not written. |
| ColorSpells.SpinBoxValue | src/spells/color.cpp:92-93 | The search index is clamped into the spin box range, and an in-range request is kept. |
| ColorSpells.ReplaceInPlace | src/spells/color.cpp:171-179 | The array becomes the old array with every entry equal to the chosen entry's original colour replaced. |
| ColorSpells.SetReplaceColor | src/spells/color.cpp:159-206 | Written exactly for a Color3 or Color4 array with the dialog accepted. The new array replaces every colour equal to the entry at the clamped index. |
| ColorSpells.ReplacedExactly | src/spells/color.cpp:173-179 | The replacement keeps the length and changes exactly the entries equal to the search colour. |
| ColorSpells.ChosenEntryReplaced | src/spells/color.cpp:171-177 | The chosen entry itself always receives the replacement. |
| ColorSpells.SearchColorGone | src/spells/color.cpp:173-179 | The search colour no longer occurs afterwards, unless it is the replacement. |
| ColorSpells.ReplacedIdempotent | src/spells/color.cpp:173-179 | Replacing a second time with the same colours changes nothing. |
| ColorSpells.SearchIndexInRange | src/spells/color.cpp:93 | The search index always names an entry of the array, whatever was typed. |

## Left out

- Float arithmetic: single-precision rounding, `normalize` (a function parameter) and the quaternion and matrix arithmetic of transforms are not modelled.
- `Constraints.Rewrite`: the pivot and axis transformations are abstract maps. That Pivot B is the A pivot carried through body A's transform, the inverse of body B's transform and the Havok constant is not proved.
- `spStiffSpringHelper` (spring length, havok.cpp:525-551) is left out. It is one float expression over `bodyTrans`, which is modelled.
- `triangulate` of the strips is a given. The model starts from each block's triangles.
- The convex hull routine, the decomposition library and the MOPP generator's computation are function parameters. `GetConvexMoppCode` is left out because no spell calls it.
- Dialog widgets are left out. Each dialog's result is an input, as is the `dialValues` kept between casts.
- Scene-graph writes are left out:
  - block insertion and removal;
  - link updates;
  - collision object and rigid body creation;
  - "Unknown 6 Floats";
  - the packed shape's constant fields (havok.cpp:619-656);
  - the rigid body layer, motion and quality enumerations (havok.cpp:973-986);
  - the MOPP origin, scale and data fields (havok.cpp:999-1023).
- The block-tree walk that collects `NiTriShape`/`NiTriStrips` children is left out. The meshes arrive as a sequence, with `None` for a block without valid data.
- The `isApplicable` tests of the CVS and colour spells are left out beyond the `requires` they justify: valid data, an array with a first entry.
- `Frames.BodyTrans`: the loop is proved only for parent chains that end. A cyclic chain, on which the source loops for ever, is excluded by a bounded ghost measure.
- `Decomposition.DecompositionParameters`: the library's default fill mode, used when the fill method is not an enumerator, is taken to be flood fill. The library's header is not part of this model.
- `ColorSpells.ChooseColor`: the ByteColor4 reinterpreting cast is not modelled. The value written is the one picked.
- `Mopp.MoppGenerator.RetrieveMoppCode`: origin and scale outputs are left out. The wrapper (havok.cpp:719-738) never resets the library. Whether `ComputeMoppCode` or `Finalize` clear the library's vertex buffer is not visible, since the library is not part of this model. The model assumes they do not, so the batches accumulate across decompositions.
- `ConvexHull.CastCvs` reports with the corrected `ConvexHull.Report`: the vertex count, then the normal count. The source at havok.cpp:242 reports the vertex count twice. The as-written message is `ConvexHull.HullReportAsWritten`.
- `Decomposition.CreateCombinedHacd` passes the corrected parameters, whose fill mode follows the dialog. The source passes none (havok.cpp:1116-1122), so the library runs its default flood fill. The as-written parameters are `Decomposition.CombinedParametersAsWritten`.
- `Decomposition.CreateHacd` and `Decomposition.CreateCombinedHacd` hand possibly empty point and triangle lists to the library. The source passes `&points[0]` and `&triangles[0]` (havok.cpp:851-852, 1124-1125), which is undefined behaviour on an empty vector. That happens for a mesh without triangles, or a combined spell with no valid mesh. The model treats the call as defined.
- `Decomposition.HullNormals` indexes the hull vertices with 16-bit truncated indices. The model requires those indices to stay within the hull, which the source never checks.

## Findings

| source | as written | input that shows it | evidently intended | confidence | as-written member | corrected member |
|---|---|---|---|---|---|---|
| src/spells/havok.cpp:242 | The "Created hull with %1 vertices, %2 normals" message passes the vertex count for both placeholders. | A hull with 1 distinct vertex and 2 distinct normals is reported as "1 vertices, 1 normals". | Report the normal count second, as the combined spell does at line 359. | high (not executed) | ConvexHull.HullReportAsWritten, ConvexHull.HullReportAsWrittenMiscounts | ConvexHull.Report, ConvexHull.ReportCountsHullElements |
| src/spells/havok.cpp:1116-1122 | The combined decomposition builds its parameters without the fill-method switch of lines 845-849. | Choosing "Surface" in the dialog still runs flood fill. | Set the fill mode from the dialog's fill method, as the single-mesh spell does. | high (not executed) | Decomposition.CombinedParametersAsWritten, Decomposition.CombinedIgnoresFillMethod | Decomposition.DecompositionParameters, Decomposition.FillModeFollowsDialog |
