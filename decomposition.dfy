/** The convex-decomposition spells `spCreateHACD` and
    `spCreateCombinedHACD`: build the decomposition input, choose the
    decomposition parameters, turn every hull the library returns into a
    `bhkConvexVerticesShape`, and decide on a MOPP tree.

    The decomposition library is a function parameter from its input (the
    points and triangles it reads from the flat buffers, and the parameters)
    to its hulls, or to nothing when `Compute` fails. */
module Decomposition {
  import opened Wrappers
  import opened Geometry
  import opened NifVersion
  import opened MeshBuffers
  import opened PackStrips
  import opened ConvexHull
  import opened Mopp

  // ------------------------------------------------------------ parameters

  /** The library's voxel fill modes. */
  datatype FillMode = FloodFill | SurfaceOnly | RaycastFill

  /** The fill mode of a default-constructed parameter set of the library. */
  const LibraryDefaultFillMode: FillMode := FloodFill

  /** `VHacdDialog::DialValues`; `fillMethod` is the raw enumerator value of
      `FillMethod` (FloodFill 0, Surface 1, Raycast 2) as the dialog's combo
      box index produces it. */
  datatype DialValues = DialValues(
    resolution: nat,
    maxConvexHulls: nat,
    maxNumVerticesPerCH: nat,
    fillMethod: nat,
    minimumVolumePercentErrorAllowed: real,
    matlsIndex: int,
    staticCollision: bool)

  /** The library's `Parameters` fields the spells set. */
  datatype Parameters = Parameters(
    maxConvexHulls: nat,
    resolution: nat,
    minimumVolumePercentErrorAllowed: real,
    maxNumVerticesPerCH: nat,
    fillMode: FillMode)

  /** The enumerator value of the dialog's fill method for a fill mode. */
  function FillMethodCode(m: FillMode): nat {
    match m
    case FloodFill => 0
    case SurfaceOnly => 1
    case RaycastFill => 2
  }

  /** The `switch` on the fill method: the three enumerators select a fill
      mode, any other value selects nothing. */
  function FillModeOf(fillMethod: nat): Option<FillMode> {
    if fillMethod == 0 then Some(FloodFill)
    else if fillMethod == 1 then Some(SurfaceOnly)
    else if fillMethod == 2 then Some(RaycastFill)
    else None
  }

  /** The switch and the enumeration agree in both directions. */
  lemma FillModeOfInvertsCode(m: FillMode, code: nat)
    ensures FillModeOf(FillMethodCode(m)) == Some(m)
    ensures FillModeOf(code) == Some(m) ==> code == FillMethodCode(m)
    ensures FillModeOf(code).Some? <==> code < 3
  {
  }

  /** The parameters of `spCreateHACD::cast`: the dialog's limits copied, and
      the fill mode its fill method selects (the library default when the
      switch selects nothing). This is also what the combined spell should
      pass. */
  function DecompositionParameters(d: DialValues): (p: Parameters)
    ensures d.fillMethod < 3 ==> FillMethodCode(p.fillMode) == d.fillMethod
    ensures d.fillMethod >= 3 ==> p.fillMode == LibraryDefaultFillMode
  {
    var fill := FillModeOf(d.fillMethod);
    Parameters(d.maxConvexHulls, d.resolution, d.minimumVolumePercentErrorAllowed, d.maxNumVerticesPerCH,
               if fill.Some? then fill.value else LibraryDefaultFillMode)
  }

  /** The fill mode chosen in the dialog is the one the library is given. */
  lemma FillModeFollowsDialog(d: DialValues, m: FillMode)
    ensures d.fillMethod == FillMethodCode(m) ==> DecompositionParameters(d).fillMode == m
    ensures DecompositionParameters(d).fillMode == m ==>
      (d.fillMethod == FillMethodCode(m) || (d.fillMethod >= 3 && m == LibraryDefaultFillMode))
  {
    FillModeOfInvertsCode(m, d.fillMethod);
  }

  /** The parameters of `spCreateCombinedHACD::cast` as written: the same
      limits, but no fill mode is set, so the library default stays. They
      differ from the single-mesh spell's parameters in the fill mode only,
      and agree with them exactly when the dialog asks for the default mode
      or for no enumerator at all. */
  function CombinedParametersAsWritten(d: DialValues): (p: Parameters)
    ensures p == DecompositionParameters(d).(fillMode := LibraryDefaultFillMode)
    ensures p == DecompositionParameters(d) <==>
      d.fillMethod == FillMethodCode(LibraryDefaultFillMode) || d.fillMethod >= 3
  {
    Parameters(d.maxConvexHulls, d.resolution, d.minimumVolumePercentErrorAllowed, d.maxNumVerticesPerCH,
               LibraryDefaultFillMode)
  }

  /** Choosing "Surface" in the combined spell's dialog still decomposes with
      flood fill, where the single-mesh spell uses surface-only filling. */
  lemma CombinedIgnoresFillMethod()
    ensures var d := DialValues(400000, 16, 16, FillMethodCode(SurfaceOnly), 0.01, 4, false);
      && CombinedParametersAsWritten(d).fillMode == FloodFill
      && DecompositionParameters(d).fillMode == SurfaceOnly
  {
  }

  // ------------------------------------------------------------- input

  /** The single-mesh decomposition input points: the flattened vertices. */
  function PlacedAll(verts: seq<Vec3>, scale: real, trans: Vec3): seq<Vec3> {
    seq(|verts|, k requires 0 <= k < |verts| => Placed(verts[k], scale, trans))
  }

  /** The combined decomposition triangles: each valid mesh's triangles
      rebased, in uint32 arithmetic, by the number of points gathered before
      that mesh. */
  function CombinedTriangles(meshes: seq<Option<GeomData>>): seq<Tri> {
    if meshes == [] then []
    else
      var init := meshes[..|meshes| - 1];
      var last := meshes[|meshes| - 1];
      CombinedTriangles(init) +
        (if last.None? then []
         else seq(|last.value.triangles|, k requires 0 <= k < |last.value.triangles| =>
                Shift32(last.value.triangles[k], |CombinedPoints(init)|)))
  }

  /** The loop of `spCreateCombinedHACD::cast` over the meshes, calling
      `combine` for each: the flat buffers read as the combined points and
      the rebased triangles of all meshes. */
  method GatherDecompositionInput(meshes: seq<Option<GeomData>>) returns (points: seq<real>, triangles: seq<nat>)
    ensures |points| % 3 == 0 && |triangles| % 3 == 0
    ensures Points(points) == CombinedPoints(meshes)
    ensures Triples(triangles) == CombinedTriangles(meshes)
  {
    points, triangles := [], [];
    for i := 0 to |meshes|
      invariant |points| % 3 == 0 && |triangles| % 3 == 0
      invariant Points(points) == CombinedPoints(meshes[..i])
      invariant Triples(triangles) == CombinedTriangles(meshes[..i])
    {
      var points', triangles' := CombineDecomposition(points, triangles, meshes[i]);
      assert meshes[..i + 1] == meshes[..i] + [meshes[i]];
      if meshes[i].Some? {
        CombinePointsStep(meshes[..i], meshes[i], points, points');
        CombineTrianglesStep(meshes[..i], meshes[i], |points| / 3, triangles, triangles');
      } else {
        assert (meshes[..i] + [meshes[i]])[..i] == meshes[..i];
      }
      points, triangles := points', triangles';
    }
    assert meshes[..|meshes|] == meshes;
  }

  /** One `combine` call extends the point buffer by one mesh. */
  lemma CombinePointsStep(ms: seq<Option<GeomData>>, mesh: Option<GeomData>, points: seq<real>, points': seq<real>)
    requires mesh.Some?
    requires |points| % 3 == 0 && Points(points) == CombinedPoints(ms)
    requires |points'| == |points| + 3 * |mesh.value.vertices| && points'[..|points|] == points
    requires Points(points'[|points|..]) == Translated(mesh.value.vertices, mesh.value.translation)
    ensures Points(points') == CombinedPoints(ms + [mesh])
  {
    var added := points'[|points|..];
    assert points' == points + added;
    PointsConcat(points, added);
    assert (ms + [mesh])[..|ms|] == ms;
  }

  /** One `combine` call extends the triangle buffer by one mesh. */
  lemma CombineTrianglesStep(ms: seq<Option<GeomData>>, mesh: Option<GeomData>, base: nat,
                             triangles: seq<nat>, triangles': seq<nat>)
    requires mesh.Some? && base == |CombinedPoints(ms)|
    requires |triangles| % 3 == 0 && Triples(triangles) == CombinedTriangles(ms)
    requires |triangles'| == |triangles| + 3 * |mesh.value.triangles| && triangles'[..|triangles|] == triangles
    requires Triples(triangles'[|triangles|..]) ==
      seq(|mesh.value.triangles|, k requires 0 <= k < |mesh.value.triangles| => Shift32(mesh.value.triangles[k], base))
    ensures Triples(triangles') == CombinedTriangles(ms + [mesh])
  {
    var added := triangles'[|triangles|..];
    assert triangles' == triangles + added;
    TriplesConcat(triangles, added);
    assert (ms + [mesh])[..|ms|] == ms;
  }

  /** Corner `c` of a triangle rebased in uint32 arithmetic. */
  lemma CornerShift32(t: Tri, base: nat, c: nat)
    requires c < 3
    ensures Corner(Shift32(t, base), c) == (Corner(t, c) + base) % Uint32Modulus
  {
    if c == 0 {
      assert Corner(Shift32(t, base), c) == (t.a + base) % Uint32Modulus;
    } else if c == 1 {
      assert Corner(Shift32(t, base), c) == (t.b + base) % Uint32Modulus;
    } else {
      assert Corner(Shift32(t, base), c) == (t.c + base) % Uint32Modulus;
    }
  }

  // ------------------------------------------------------------- hull shapes

  /** A hull of the decomposition: points and triangles indexing them. */
  datatype Hull = Hull(points: seq<Vec3>, triangles: seq<Tri>)

  /** The created `bhkConvexVerticesShape`: vertices, one normal per hull
      triangle, radius and material. */
  datatype CvsShape = CvsShape(verts: seq<Vec4>, norms: seq<Vec4>, radius: real, material: nat)

  const HullRadius: real := 0.001

  /** A hull triangle's indices truncated to quint16. */
  function Wrap16(t: Tri): Tri {
    Tri(t.a % Uint16Modulus, t.b % Uint16Modulus, t.c % Uint16Modulus)
  }

  /** Every truncated triangle index names a point of the hull, as the
      indexing of the hull vertex list demands. */
  predicate IndexesOwnPoints(h: Hull) {
    IndexesBelow(h.triangles, |h.points|)
  }

  predicate IndexesBelow(tris: seq<Tri>, n: nat) {
    forall k :: 0 <= k < |tris| ==>
      var t := Wrap16(tris[k]);
      t.a < n && t.b < n && t.c < n
  }

  /** A hull point as a shape vertex: (x, y, z, 0) divided by the scale. */
  function ShapeVertex(p: Vec3, havokScale: real): Vec4
    requires havokScale != 0.0
  {
    Div4(Vec4(p.x, p.y, p.z, 0.0), havokScale)
  }

  function ShapeVertices(points: seq<Vec3>, havokScale: real): seq<Vec4>
    requires havokScale != 0.0
  {
    seq(|points|, k requires 0 <= k < |points| => ShapeVertex(points[k], havokScale))
  }

  function XyzAll(vs: seq<Vec4>): seq<Vec3> {
    seq(|vs|, k requires 0 <= k < |vs| => Xyz(vs[k]))
  }

  /** The face normal of each truncated triangle over the shape vertices,
      with a zero fourth component. */
  function ShapeNormals(verts: seq<Vec4>, tris: seq<Tri>, unitNormal: Vec3 -> Vec3): seq<Vec4> {
    seq(|tris|, k requires 0 <= k < |tris| => Extend(FaceNormal(XyzAll(verts), Wrap16(tris[k]), unitNormal)))
  }

  function HullShape(h: Hull, havokScale: real, unitNormal: Vec3 -> Vec3, material: nat): CvsShape
    requires havokScale != 0.0
  {
    var verts := ShapeVertices(h.points, havokScale);
    CvsShape(verts, ShapeNormals(verts, h.triangles, unitNormal), HullRadius, material)
  }

  /** The loop over `ch.m_points`. */
  method HullVertices(points: seq<Vec3>, havokScale: real) returns (verts: seq<Vec4>)
    requires havokScale != 0.0
    ensures verts == ShapeVertices(points, havokScale)
  {
    verts := [];
    for i := 0 to |points|
      invariant verts == ShapeVertices(points[..i], havokScale)
    {
      verts := verts + [ShapeVertex(points[i], havokScale)];
    }
    assert points[..|points|] == points;
  }

  /** The loop over `ch.m_triangles`. */
  method HullNormals(verts: seq<Vec4>, tris: seq<Tri>, unitNormal: Vec3 -> Vec3) returns (norms: seq<Vec4>)
    requires IndexesBelow(tris, |verts|)
    ensures norms == ShapeNormals(verts, tris, unitNormal)
  {
    norms := [];
    for i := 0 to |tris|
      invariant norms == ShapeNormals(verts, tris[..i], unitNormal)
    {
      var t := Wrap16(tris[i]);
      var u := Sub3(Xyz(verts[t.b]), Xyz(verts[t.a]));
      var v := Sub3(Xyz(verts[t.c]), Xyz(verts[t.a]));
      var n := unitNormal(Cross(u, v));
      norms := norms + [Extend(n)];
    }
    assert tris[..|tris|] == tris;
  }

  /** A shape vertex scaled back is the hull point, and lies in the w = 0
      hyperplane. */
  lemma ShapeVerticesScaleBack(points: seq<Vec3>, havokScale: real)
    requires havokScale != 0.0
    ensures |ShapeVertices(points, havokScale)| == |points|
    ensures forall k :: 0 <= k < |points| ==>
      var v := ShapeVertices(points, havokScale)[k];
      v.w == 0.0 && Vec3(v.x * havokScale, v.y * havokScale, v.z * havokScale) == points[k]
  {
    forall k | 0 <= k < |points|
      ensures var v := ShapeVertices(points, havokScale)[k];
        v.w == 0.0 && Vec3(v.x * havokScale, v.y * havokScale, v.z * havokScale) == points[k]
    {
      var p := points[k];
      assert p.x / havokScale * havokScale == p.x;
      assert p.y / havokScale * havokScale == p.y;
      assert p.z / havokScale * havokScale == p.z;
    }
  }

  /** One normal per hull triangle, each built from the triangle's own
      corners. */
  lemma NormalPerTriangle(h: Hull, havokScale: real, unitNormal: Vec3 -> Vec3, material: nat)
    requires havokScale != 0.0 && IndexesOwnPoints(h)
    ensures var s := HullShape(h, havokScale, unitNormal, material);
      && |s.norms| == |h.triangles| && |s.verts| == |h.points|
      && forall k :: 0 <= k < |h.triangles| ==>
           var t := Wrap16(h.triangles[k]);
           s.norms[k] == Extend(unitNormal(Cross(Sub3(Xyz(s.verts[t.b]), Xyz(s.verts[t.a])),
                                                 Sub3(Xyz(s.verts[t.c]), Xyz(s.verts[t.a])))))
  {
  }

  // ---------------------------------------------------------------- casts

  /** The material: the enumeration value of the chosen name, or 0 when the
      lookup fails. */
  function MaterialValue(lookup: Option<nat>): nat {
    if lookup.Some? then lookup.value else 0
  }

  datatype HacdOutcome =
    | Cancelled
    | ComputeFailed
    | Built(shapes: seq<CvsShape>, listMaterial: nat, mopp: MoppStatus)

  /** The hulls of a successful decomposition all index their own points. */
  predicate HullsWellFormed(hulls: Option<seq<Hull>>) {
    hulls.Some? ==> forall k :: 0 <= k < |hulls.value| ==> IndexesOwnPoints(hulls.value[k])
  }

  /** The per-hull loop: one shape per hull, each hull's vertices handed to
      the MOPP generator before its normals are computed. */
  method BuildShapes(mopp: MoppGenerator, hulls: seq<Hull>, havokScale: real, unitNormal: Vec3 -> Vec3, material: nat)
    returns (shapes: seq<CvsShape>)
    requires havokScale != 0.0 && AddVerticesEntry in mopp.resolved
    requires forall k :: 0 <= k < |hulls| ==> IndexesOwnPoints(hulls[k])
    modifies mopp
    ensures shapes == seq(|hulls|, k requires 0 <= k < |hulls| => HullShape(hulls[k], havokScale, unitNormal, material))
    ensures mopp.batches == old(mopp.batches) +
      seq(|hulls|, k requires 0 <= k < |hulls| => ShapeVertices(hulls[k].points, havokScale))
    ensures mopp.loaded == old(mopp.loaded) && mopp.resolved == old(mopp.resolved)
  {
    shapes := [];
    for p := 0 to |hulls|
      invariant shapes == seq(p, k requires 0 <= k < p => HullShape(hulls[k], havokScale, unitNormal, material))
      invariant mopp.batches == old(mopp.batches) +
        seq(p, k requires 0 <= k < p => ShapeVertices(hulls[k].points, havokScale))
      invariant mopp.loaded == old(mopp.loaded) && mopp.resolved == old(mopp.resolved)
    {
      var h := hulls[p];
      var hullVerts := HullVertices(h.points, havokScale);
      mopp.AddVertex(hullVerts);
      var hullNorms := HullNormals(hullVerts, h.triangles, unitNormal);
      shapes := shapes + [CvsShape(hullVerts, hullNorms, HullRadius, material)];
    }
  }

  /** The decomposition and everything after it, common to both spells. */
  method Decompose(mopp: MoppGenerator, hulls: Option<seq<Hull>>, havokScale: real, unitNormal: Vec3 -> Vec3,
                   materialLookup: Option<nat>, moppCompute: seq<seq<Vec4>> -> seq<byte>)
    returns (o: HacdOutcome)
    requires havokScale != 0.0 && mopp.Ready() && HullsWellFormed(hulls)
    modifies mopp
    ensures o.ComputeFailed? <==> hulls.None?
    ensures hulls.None? ==> mopp.batches == old(mopp.batches)
    ensures o.Built? ==>
      && |o.shapes| == |hulls.value|
      && (forall k :: 0 <= k < |o.shapes| ==>
            o.shapes[k] == HullShape(hulls.value[k], havokScale, unitNormal, MaterialValue(materialLookup)))
      && o.listMaterial == MaterialValue(materialLookup)
      && mopp.batches == old(mopp.batches) +
           seq(|hulls.value|, k requires 0 <= k < |hulls.value| => ShapeVertices(hulls.value[k].points, havokScale))
      && o.mopp == MoppOutcome(|o.shapes|, moppCompute(mopp.batches))
    ensures o.Built? || o.ComputeFailed?
    ensures mopp.loaded == old(mopp.loaded) && mopp.resolved == old(mopp.resolved)
  {
    if hulls.None? {
      return ComputeFailed;
    }
    var material := MaterialValue(materialLookup);
    var shapes := BuildShapes(mopp, hulls.value, havokScale, unitNormal, material);
    var status := NotRequested;
    if |shapes| > 4 {
      var code := mopp.RetrieveMoppCode(moppCompute);
      if |code| == 0 {
        status := GenerationFailed;
      } else {
        status := Tree(code);
      }
    }
    o := Built(shapes, material, status);
  }

  /** `spCreateHACD::cast` from the dialog on. */
  method CreateHacd(mopp: MoppGenerator, version: nat, userVersion: int, dialog: Option<DialValues>,
                    verts: seq<Vec3>, trans: Vec3, triShapeScale: real, tris: seq<Tri>,
                    decompose: (seq<Vec3>, seq<Tri>, Parameters) -> Option<seq<Hull>>,
                    unitNormal: Vec3 -> Vec3, materialLookup: Option<nat>,
                    moppCompute: seq<seq<Vec4>> -> seq<byte>)
    returns (o: HacdOutcome)
    requires mopp.Ready()
    requires dialog.Some? ==>
      HullsWellFormed(decompose(PlacedAll(verts, triShapeScale, trans), tris, DecompositionParameters(dialog.value)))
    modifies mopp
    ensures o.Cancelled? <==> dialog.None?
    ensures dialog.Some? ==>
      var hulls := decompose(PlacedAll(verts, triShapeScale, trans), tris, DecompositionParameters(dialog.value));
      && (o.ComputeFailed? <==> hulls.None?)
      && (o.Built? ==>
            && |o.shapes| == |hulls.value|
            && (forall k :: 0 <= k < |o.shapes| ==>
                  o.shapes[k] == HullShape(hulls.value[k], HavokScale(version, userVersion), unitNormal,
                                           MaterialValue(materialLookup)))
            && o.listMaterial == MaterialValue(materialLookup)
            && mopp.batches == old(mopp.batches) +
                 seq(|hulls.value|, k requires 0 <= k < |hulls.value| =>
                       ShapeVertices(hulls.value[k].points, HavokScale(version, userVersion)))
            && o.mopp == MoppOutcome(|o.shapes|, moppCompute(mopp.batches)))
    ensures !o.Built? ==> mopp.batches == old(mopp.batches)
    ensures mopp.loaded == old(mopp.loaded) && mopp.resolved == old(mopp.resolved)
  {
    var havokScale := HavokScale(version, userVersion);
    if dialog.None? {
      return Cancelled;
    }
    var points, triangles := FlattenMesh(verts, trans, triShapeScale, tris);
    var params := DecompositionParameters(dialog.value);
    var hulls := decompose(Points(points), Triples(triangles), params);
    o := Decompose(mopp, hulls, havokScale, unitNormal, materialLookup, moppCompute);
  }

  /** `spCreateCombinedHACD::cast` from the dialog on, with the corrected
      parameters: the fill mode is passed as the single-mesh spell passes
      it, where the source leaves the library default
      (`CombinedParametersAsWritten`). */
  method CreateCombinedHacd(mopp: MoppGenerator, version: nat, userVersion: int, dialog: Option<DialValues>,
                            meshes: seq<Option<GeomData>>,
                            decompose: (seq<Vec3>, seq<Tri>, Parameters) -> Option<seq<Hull>>,
                            unitNormal: Vec3 -> Vec3, materialLookup: Option<nat>,
                            moppCompute: seq<seq<Vec4>> -> seq<byte>)
    returns (o: HacdOutcome)
    requires mopp.Ready()
    requires dialog.Some? ==>
      HullsWellFormed(decompose(CombinedPoints(meshes), CombinedTriangles(meshes), DecompositionParameters(dialog.value)))
    modifies mopp
    ensures o.Cancelled? <==> dialog.None?
    ensures dialog.Some? ==>
      var hulls := decompose(CombinedPoints(meshes), CombinedTriangles(meshes), DecompositionParameters(dialog.value));
      && (o.ComputeFailed? <==> hulls.None?)
      && (o.Built? ==>
            && |o.shapes| == |hulls.value|
            && (forall k :: 0 <= k < |o.shapes| ==>
                  o.shapes[k] == HullShape(hulls.value[k], HavokScale(version, userVersion), unitNormal,
                                           MaterialValue(materialLookup)))
            && o.listMaterial == MaterialValue(materialLookup)
            && mopp.batches == old(mopp.batches) +
                 seq(|hulls.value|, k requires 0 <= k < |hulls.value| =>
                       ShapeVertices(hulls.value[k].points, HavokScale(version, userVersion)))
            && o.mopp == MoppOutcome(|o.shapes|, moppCompute(mopp.batches)))
    ensures !o.Built? ==> mopp.batches == old(mopp.batches)
    ensures mopp.loaded == old(mopp.loaded) && mopp.resolved == old(mopp.resolved)
  {
    var havokScale := HavokScale(version, userVersion);
    if dialog.None? {
      return Cancelled;
    }
    var points, triangles := GatherDecompositionInput(meshes);
    var params := DecompositionParameters(dialog.value);
    var hulls := decompose(Points(points), Triples(triangles), params);
    o := Decompose(mopp, hulls, havokScale, unitNormal, materialLookup, moppCompute);
  }

  /** `spCreateHACD::isApplicable`: the MOPP generator must initialize, and
      the block must be triangle geometry of version 10.0.1.0 or later with
      valid data. */
  method HacdApplicable(mopp: MoppGenerator, library: Option<set<EntryPoint>>,
                        isTriBasedGeom: bool, version: nat, hasData: bool)
    returns (applicable: bool)
    modifies mopp
    ensures old(mopp.loaded) ==> mopp.loaded && mopp.resolved == old(mopp.resolved)
    ensures !old(mopp.loaded) ==>
      mopp.loaded == library.Some? && mopp.resolved == (if library.Some? then library.value else {})
    ensures mopp.batches == old(mopp.batches)
    ensures applicable <==> mopp.Ready() && isTriBasedGeom && CheckVersion(version, 0x0A000100, 0) && hasData
  {
    var ok := mopp.Initialize(library);
    if !ok {
      return false;
    }
    applicable := isTriBasedGeom && CheckVersion(version, 0x0A000100, 0) && hasData;
  }

  /** `spCreateCombinedHACD::isApplicable`: the MOPP generator must
      initialize, the file must have one root and nothing may be selected. */
  method CombinedHacdApplicable(mopp: MoppGenerator, library: Option<set<EntryPoint>>,
                                rootCount: nat, selectionValid: bool)
    returns (applicable: bool)
    modifies mopp
    ensures old(mopp.loaded) ==> mopp.loaded && mopp.resolved == old(mopp.resolved)
    ensures !old(mopp.loaded) ==>
      mopp.loaded == library.Some? && mopp.resolved == (if library.Some? then library.value else {})
    ensures mopp.batches == old(mopp.batches)
    ensures applicable <==> mopp.Ready() && rootCount == 1 && !selectionValid
  {
    var ok := mopp.Initialize(library);
    if !ok {
      return false;
    }
    applicable := rootCount == 1 && !selectionValid;
  }

  // ---------------------------------------------------------------- lemmas

  /** The combined triangles of the meshes gathered so far are a prefix of
      those of all meshes, and likewise for the points. */
  lemma {:induction false} CombinedPrefix(meshes: seq<Option<GeomData>>, j: nat)
    requires j <= |meshes|
    ensures CombinedPoints(meshes[..j]) <= CombinedPoints(meshes)
    ensures CombinedTriangles(meshes[..j]) <= CombinedTriangles(meshes)
    decreases |meshes| - j
  {
    if j < |meshes| {
      CombinedPrefix(meshes, j + 1);
      assert meshes[..j + 1][..j] == meshes[..j];
    } else {
      assert meshes[..j] == meshes;
    }
  }

  /** A triangle of mesh `j`, once rebased, names the points of mesh `j`
      itself in the combined points, provided the rebased index stays
      below 2^32. */
  lemma CombinedCornerReadsOwnMesh(meshes: seq<Option<GeomData>>, j: nat, k: nat, c: nat)
    requires j < |meshes| && meshes[j].Some?
    requires k < |meshes[j].value.triangles| && c < 3
    requires Corner(meshes[j].value.triangles[k], c) < |meshes[j].value.vertices|
    requires |CombinedPoints(meshes[..j])| + |meshes[j].value.vertices| <= Uint32Modulus
    ensures |CombinedTriangles(meshes[..j])| + k < |CombinedTriangles(meshes)|
    ensures var i := Corner(CombinedTriangles(meshes)[|CombinedTriangles(meshes[..j])| + k], c);
      i < |CombinedPoints(meshes)| &&
      CombinedPoints(meshes)[i] == Add3(meshes[j].value.vertices[Corner(meshes[j].value.triangles[k], c)],
                                        meshes[j].value.translation)
  {
    var m := meshes[j].value;
    var base := |CombinedPoints(meshes[..j])|;
    CombinedTriangleAt(meshes, j, k);
    CombinedMeshPoints(meshes, j);
    ShiftedCornerReads32(CombinedPoints(meshes), base, m, m.triangles[k], c);
  }

  /** Triangle `k` of mesh `j` sits, rebased, right after the triangles of
      the meshes before it. */
  lemma CombinedTriangleAt(meshes: seq<Option<GeomData>>, j: nat, k: nat)
    requires j < |meshes| && meshes[j].Some? && k < |meshes[j].value.triangles|
    ensures |CombinedTriangles(meshes[..j])| + k < |CombinedTriangles(meshes)|
    ensures CombinedTriangles(meshes)[|CombinedTriangles(meshes[..j])| + k] ==
      Shift32(meshes[j].value.triangles[k], |CombinedPoints(meshes[..j])|)
  {
    var m := meshes[j].value;
    var base := |CombinedPoints(meshes[..j])|;
    CombinedPrefix(meshes, j + 1);
    assert meshes[..j + 1][..j] == meshes[..j];
    var newTris := seq(|m.triangles|, q requires 0 <= q < |m.triangles| => Shift32(m.triangles[q], base));
    ElementOfPrefix(CombinedTriangles(meshes[..j]), newTris, CombinedTriangles(meshes), k);
  }

  /** The translated vertices of mesh `j` sit right after the points of the
      meshes before it. */
  lemma CombinedMeshPoints(meshes: seq<Option<GeomData>>, j: nat)
    requires j < |meshes| && meshes[j].Some?
    ensures |CombinedPoints(meshes[..j])| + |meshes[j].value.vertices| <= |CombinedPoints(meshes)|
    ensures forall i :: 0 <= i < |meshes[j].value.vertices| ==>
      CombinedPoints(meshes)[|CombinedPoints(meshes[..j])| + i] ==
        Translated(meshes[j].value.vertices, meshes[j].value.translation)[i]
  {
    var pre := CombinedPoints(meshes[..j]);
    var own := Translated(meshes[j].value.vertices, meshes[j].value.translation);
    var all := CombinedPoints(meshes);
    CombinedPointsThrough(meshes, j);
    forall i | 0 <= i < |own|
      ensures all[|pre| + i] == own[i]
    {
      ElementOfPrefix(pre, own, all, i);
    }
  }

  /** The points of the meshes up to and including mesh `j` start the
      combined points. */
  lemma CombinedPointsThrough(meshes: seq<Option<GeomData>>, j: nat)
    requires j < |meshes| && meshes[j].Some?
    ensures CombinedPoints(meshes[..j]) + Translated(meshes[j].value.vertices, meshes[j].value.translation)
      <= CombinedPoints(meshes)
  {
    CombinedPrefix(meshes, j + 1);
    var upTo := meshes[..j + 1];
    assert upTo[..|upTo| - 1] == meshes[..j];
    assert upTo[|upTo| - 1] == meshes[j];
  }

  /** A corner rebased by `base` without wrapping reads, in a list that holds
      the mesh's translated vertices from `base` on, the vertex it named. */
  lemma ShiftedCornerReads32(all: seq<Vec3>, base: nat, m: GeomData, t: Tri, c: nat)
    requires c < 3 && Corner(t, c) < |m.vertices|
    requires base + |m.vertices| <= Uint32Modulus && base + |m.vertices| <= |all|
    requires forall i :: 0 <= i < |m.vertices| ==> all[base + i] == Translated(m.vertices, m.translation)[i]
    ensures Corner(Shift32(t, base), c) < |all|
    ensures all[Corner(Shift32(t, base), c)] == Add3(m.vertices[Corner(t, c)], m.translation)
  {
    CornerShift32(t, base, c);
    assert (Corner(t, c) + base) % Uint32Modulus == Corner(t, c) + base;
    assert all[base + Corner(t, c)] == Translated(m.vertices, m.translation)[Corner(t, c)];
  }
}
