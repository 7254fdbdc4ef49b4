/** Post-processing of a convex hull into the vertex and normal lists of a
    `bhkConvexVerticesShape` (`createCVS` and the spells that call it). */
module ConvexHull {
  import opened Wrappers
  import opened Geometry
  import opened MeshBuffers
  import opened NifVersion

  /** Which of the two hull lists an element belongs to: vertices are scaled
      as a whole, normals only in their plane-distance component. */
  datatype HullPart = Vertices | Normals

  /** The hull produced by the external convex-hull routine. */
  datatype HullData = HullData(verts: seq<Vec4>, norms: seq<Vec4>)

  /** What the precision dialog returns when accepted. */
  datatype CvsDialog = CvsDialog(precision: real, collisionRadius: real)

  /** `CVSResult`. */
  datatype CvsResult = CvsResult(verts: seq<Vec4>, norms: seq<Vec4>, collRadius: real)

  /** One hull element after the unit conversion: multiplying back by the
      scale gives the whole vertex again, and for a normal only the plane
      distance changes. */
  function Rescaled(part: HullPart, v: Vec4, havokScale: real): (r: Vec4)
    requires havokScale != 0.0
    ensures part == Vertices ==>
      Vec4(r.x * havokScale, r.y * havokScale, r.z * havokScale, r.w * havokScale) == v
    ensures part == Normals ==> Xyz(r) == Xyz(v) && r.w * havokScale == v.w
  {
    match part
    case Vertices => Div4(v, havokScale)
    case Normals => Vec4(v.x, v.y, v.z, v.w / havokScale)
  }

  /** The set of rescaled hull elements. */
  ghost function RescaledSet(hull: seq<Vec4>, part: HullPart, havokScale: real): set<Vec4>
    requires havokScale != 0.0
  {
    set h | h in hull :: Rescaled(part, h, havokScale)
  }

  /** The append-unless-contained loop: rescale every hull element and keep
      the first occurrence of each value. */
  method CollectDistinct(hull: seq<Vec4>, part: HullPart, havokScale: real) returns (list: seq<Vec4>)
    requires havokScale != 0.0
    ensures Distinct(list)
    ensures Elems(list) == RescaledSet(hull, part, havokScale)
    ensures |list| <= |hull|
  {
    list := [];
    for i := 0 to |hull|
      invariant Distinct(list)
      invariant Elems(list) == RescaledSet(hull[..i], part, havokScale)
      invariant |list| <= i
    {
      var v := Rescaled(part, hull[i], havokScale);
      assert hull[..i + 1] == hull[..i] + [hull[i]];
      assert RescaledSet(hull[..i + 1], part, havokScale) == RescaledSet(hull[..i], part, havokScale) + {v};
      if v !in list {
        list := list + [v];
      }
      assert v in list;
    }
    assert hull[..|hull|] == hull;
  }

  /** `std::sort( ..., Vector4::lexLessThan )` on the list, in place. */
  method SortLex(a: array<Vec4>)
    modifies a
    ensures LexSorted(a[..])
    ensures multiset(a[..]) == old(multiset(a[..]))
  {
    for i := 0 to a.Length
      invariant LexSorted(a[..i])
      invariant multiset(a[..]) == old(multiset(a[..]))
    {
      Insert(a, i);
    }
    assert a[..a.Length] == a[..];
  }

  /** Moves `a[i]` down into the sorted prefix `a[..i]`. */
  method Insert(a: array<Vec4>, i: nat)
    requires i < a.Length
    requires LexSorted(a[..i])
    modifies a
    ensures LexSorted(a[..i + 1])
    ensures multiset(a[..]) == old(multiset(a[..]))
  {
    var j := i;
    while j > 0 && LexLess(a[j], a[j - 1])
      invariant 0 <= j <= i
      invariant multiset(a[..]) == old(multiset(a[..]))
      invariant forall k :: 0 < k <= i && k != j && k != j + 1 ==> LexLe(a[k - 1], a[k])
      invariant 0 < j < i ==> LexLe(a[j - 1], a[j + 1])
      invariant j < i ==> LexLess(a[j], a[j + 1])
    {
      Swap(a, j);
      j := j - 1;
    }
    if j > 0 {
      LexLessStrictTotal(a[j], a[j - 1], a[j]);
    }
  }

  /** Exchanges `a[j - 1]` and `a[j]`. */
  method Swap(a: array<Vec4>, j: nat)
    requires 0 < j < a.Length
    modifies a
    ensures a[j - 1] == old(a[j]) && a[j] == old(a[j - 1])
    ensures forall k :: 0 <= k < a.Length && k != j - 1 && k != j ==> a[k] == old(a[k])
    ensures multiset(a[..]) == old(multiset(a[..]))
  {
    a[j - 1], a[j] := a[j], a[j - 1];
  }

  /** Distinctness and the element set survive a permutation. */
  lemma PermutationKeepsElements(s: seq<Vec4>, t: seq<Vec4>)
    requires multiset(s) == multiset(t)
    requires Distinct(s)
    ensures Elems(t) == Elems(s)
    ensures Distinct(t)
  {
    forall v ensures v in Elems(t) <==> v in Elems(s) {
      assert v in Elems(t) <==> v in multiset(t);
      assert v in Elems(s) <==> v in multiset(s);
    }
    if !Distinct(t) {
      var p, q :| 0 <= p < q < |t| && t[p] == t[q];
      assert multiset(t)[t[p]] >= 2 by {
        MultiplicityAtLeastTwo(t, p, q);
      }
      DistinctMultiplicity(s, t[p]);
      assert false;
    }
  }

  lemma MultiplicityAtLeastTwo(t: seq<Vec4>, p: nat, q: nat)
    requires p < q < |t| && t[p] == t[q]
    ensures multiset(t)[t[p]] >= 2
  {
    assert t == t[..p] + [t[p]] + t[p + 1..q] + [t[q]] + t[q + 1..];
  }

  lemma {:induction false} DistinctMultiplicity(s: seq<Vec4>, v: Vec4)
    requires Distinct(s)
    ensures multiset(s)[v] <= 1
  {
    if s != [] {
      var r := s[1..];
      assert s == [s[0]] + r;
      assert Distinct(r);
      DistinctMultiplicity(r, v);
      if v == s[0] {
        assert v !in r;
        assert multiset(r)[v] == 0;
      }
    }
  }

  /** Dedup, then sort, one hull list. */
  method SortedDistinct(hull: seq<Vec4>, part: HullPart, havokScale: real) returns (out: seq<Vec4>)
    requires havokScale != 0.0
    ensures StrictlyLexSorted(out)
    ensures Elems(out) == RescaledSet(hull, part, havokScale)
    ensures |out| <= |hull|
  {
    var list := CollectDistinct(hull, part, havokScale);
    var a := new Vec4[|list|](i requires 0 <= i < |list| => list[i]);
    assert a[..] == list;
    SortLex(a);
    out := a[..];
    PermutationKeepsElements(list, out);
    SortedDistinctIsStrict(out);
  }

  /** `createCVS`: when the dialog is accepted, compute the hull with the chosen
      precision, then dedup and sort its rescaled vertices and normals. */
  method CreateCvs(verts: seq<Vec3>, havokScale: real, dialog: Option<CvsDialog>,
                   convexHull: (seq<Vec3>, real) -> HullData)
    returns (r: Option<CvsResult>)
    requires havokScale != 0.0
    ensures r.None? <==> dialog.None?
    ensures r.Some? ==>
      var hull := convexHull(verts, dialog.value.precision);
      && StrictlyLexSorted(r.value.verts)
      && Elems(r.value.verts) == RescaledSet(hull.verts, Vertices, havokScale)
      && StrictlyLexSorted(r.value.norms)
      && Elems(r.value.norms) == RescaledSet(hull.norms, Normals, havokScale)
      && r.value.collRadius == dialog.value.collisionRadius
  {
    if dialog.None? {
      return None;
    }
    var hull := convexHull(verts, dialog.value.precision);
    var sortedVerts := SortedDistinct(hull.verts, Vertices, havokScale);
    var sortedNorms := SortedDistinct(hull.norms, Normals, havokScale);
    r := Some(CvsResult(sortedVerts, sortedNorms, dialog.value.collisionRadius));
  }

  /** A normal of the output keeps the direction of some hull normal and
      divides only its plane distance by the scale. */
  lemma NormalsKeepDirection(hullNorms: seq<Vec4>, out: seq<Vec4>, havokScale: real, n: Vec4)
    requires havokScale != 0.0
    requires Elems(out) == RescaledSet(hullNorms, Normals, havokScale)
    requires n in out
    ensures exists m :: m in hullNorms && Xyz(n) == Xyz(m) && n.w == m.w / havokScale
  {
    assert n in Elems(out);
  }

  /** Every hull vertex, rescaled, appears exactly once in the output. */
  lemma VertexAppearsOnce(hullVerts: seq<Vec4>, out: seq<Vec4>, havokScale: real, h: Vec4)
    requires havokScale != 0.0
    requires StrictlyLexSorted(out)
    requires Elems(out) == RescaledSet(hullVerts, Vertices, havokScale)
    requires h in hullVerts
    ensures exists k :: 0 <= k < |out| && out[k] == Div4(h, havokScale)
    ensures forall p, q :: 0 <= p < q < |out| ==> out[p] != out[q]
  {
    assert Div4(h, havokScale) in Elems(out);
    forall p, q | 0 <= p < q < |out| ensures out[p] != out[q] {
      LexLessStrictTotal(out[p], out[q], out[p]);
    }
  }

  /** The sorted output depends only on the set of rescaled hull elements:
      hulls listing the same elements in another order or with other
      repetitions give the same list. */
  lemma OutputIsCanonical(hull1: seq<Vec4>, hull2: seq<Vec4>, part: HullPart, havokScale: real,
                          out1: seq<Vec4>, out2: seq<Vec4>)
    requires havokScale != 0.0
    requires Elems(hull1) == Elems(hull2)
    requires StrictlyLexSorted(out1) && Elems(out1) == RescaledSet(hull1, part, havokScale)
    requires StrictlyLexSorted(out2) && Elems(out2) == RescaledSet(hull2, part, havokScale)
    ensures out1 == out2
  {
    assert RescaledSet(hull1, part, havokScale) == RescaledSet(hull2, part, havokScale) by {
      forall h ensures h in hull1 <==> h in hull2 {
        assert h in hull1 <==> h in Elems(hull1);
        assert h in hull2 <==> h in Elems(hull2);
      }
    }
    StrictlySortedUnique(out1, out2);
  }

  // ------------------------------------------------- the two CVS spells

  /** The counts reported by the "Created hull with %1 vertices, %2 normals"
      message. */
  datatype HullReport = HullReport(vertices: nat, normals: nat)

  /** The report of `spCreateCVS::cast` as written: the vertex count is
      passed for both placeholders. It agrees with the corrected report on
      the vertex count, and as a whole only for shapes with as many normals
      as vertices. */
  function HullReportAsWritten(r: CvsResult): (m: HullReport)
    ensures m.vertices == Report(r).vertices
    ensures m == Report(r) <==> |r.norms| == |r.verts|
  {
    HullReport(|r.verts|, |r.verts|)
  }

  /** A shape with one vertex and two normals is reported as having one
      normal. */
  lemma HullReportAsWrittenMiscounts()
    ensures var r := CvsResult([Vec4(0.0, 0.0, 0.0, 0.0)],
                               [Vec4(1.0, 0.0, 0.0, 0.0), Vec4(0.0, 1.0, 0.0, 0.0)], 0.1);
      HullReportAsWritten(r).normals == 1 && |r.norms| == 2
  {
  }

  /** The report as `spCreateCombinedCVS::cast` writes it: the number of
      vertices and the number of normals of the created shape. */
  function Report(r: CvsResult): HullReport {
    HullReport(|r.verts|, |r.norms|)
  }

  /** For a shape built from a hull, the corrected report gives the number
      of distinct rescaled hull vertices and the number of distinct rescaled
      hull normals. */
  lemma ReportCountsHullElements(hull: HullData, havokScale: real, r: CvsResult)
    requires havokScale != 0.0
    requires StrictlyLexSorted(r.verts) && Elems(r.verts) == RescaledSet(hull.verts, Vertices, havokScale)
    requires StrictlyLexSorted(r.norms) && Elems(r.norms) == RescaledSet(hull.norms, Normals, havokScale)
    ensures Report(r) == HullReport(|RescaledSet(hull.verts, Vertices, havokScale)|,
                                    |RescaledSet(hull.norms, Normals, havokScale)|)
  {
    StrictIsDistinct(r.verts);
    DistinctCount(r.verts);
    StrictIsDistinct(r.norms);
    DistinctCount(r.norms);
  }

  /** The mesh vertices moved by the shape's translation. */
  function Translated(verts: seq<Vec3>, trans: Vec3): seq<Vec3> {
    seq(|verts|, k requires 0 <= k < |verts| => Add3(verts[k], trans))
  }

  /** The hull input of the combined spell: the translated vertices of every
      mesh with valid data, in mesh order. */
  function CombinedPoints(meshes: seq<Option<GeomData>>): seq<Vec3> {
    if meshes == [] then []
    else
      var last := meshes[|meshes| - 1];
      CombinedPoints(meshes[..|meshes| - 1]) +
        (if last.Some? then Translated(last.value.vertices, last.value.translation) else [])
  }

  /** What both spells promise about the shape they create from a hull
      input: sorted distinct vertices and normals, the rescaled hull as a
      set, the dialog's radius, and a report of the shape's own counts. */
  ghost predicate ShapeOf(input: seq<Vec3>, havokScale: real, dialog: Option<CvsDialog>,
                          convexHull: (seq<Vec3>, real) -> HullData,
                          r: Option<CvsResult>, report: Option<HullReport>)
    requires havokScale != 0.0
  {
    && (r.None? <==> dialog.None?)
    && (report.None? <==> r.None?)
    && (r.Some? ==>
          var hull := convexHull(input, dialog.value.precision);
          && StrictlyLexSorted(r.value.verts)
          && Elems(r.value.verts) == RescaledSet(hull.verts, Vertices, havokScale)
          && StrictlyLexSorted(r.value.norms)
          && Elems(r.value.norms) == RescaledSet(hull.norms, Normals, havokScale)
          && r.value.collRadius == dialog.value.collisionRadius
          && report.value == HullReport(|r.value.verts|, |r.value.norms|))
  }

  /** `spCreateCVS::cast`: move the mesh vertices by the shape's
      translation, build the hull shape and report it (with the corrected
      report). */
  method CastCvs(version: nat, userVersion: int, verts: seq<Vec3>, trans: Vec3, dialog: Option<CvsDialog>,
                 convexHull: (seq<Vec3>, real) -> HullData)
    returns (r: Option<CvsResult>, report: Option<HullReport>)
    ensures ShapeOf(Translated(verts, trans), HavokScale(version, userVersion), dialog, convexHull, r, report)
  {
    var havokScale := HavokScale(version, userVersion);
    var vertsTrans: seq<Vec3> := [];
    for i := 0 to |verts|
      invariant vertsTrans == Translated(verts[..i], trans)
    {
      assert verts[..i + 1] == verts[..i] + [verts[i]];
      vertsTrans := vertsTrans + [Add3(verts[i], trans)];
    }
    assert verts[..|verts|] == verts;
    r := CreateCvs(vertsTrans, havokScale, dialog, convexHull);
    report := if r.Some? then Some(Report(r.value)) else None;
  }

  /** `spCreateCombinedCVS::cast`: gather the translated vertices of every
      mesh, build one hull shape from all of them and report it. */
  method CastCombinedCvs(version: nat, userVersion: int, meshes: seq<Option<GeomData>>, dialog: Option<CvsDialog>,
                         convexHull: (seq<Vec3>, real) -> HullData)
    returns (r: Option<CvsResult>, report: Option<HullReport>)
    ensures ShapeOf(CombinedPoints(meshes), HavokScale(version, userVersion), dialog, convexHull, r, report)
  {
    var havokScale := HavokScale(version, userVersion);
    var points: seq<Vec3> := [];
    for i := 0 to |meshes|
      invariant points == CombinedPoints(meshes[..i])
    {
      points := CombineCvs(points, meshes[i]);
      assert meshes[..i + 1][..i] == meshes[..i];
      if meshes[i].Some? {
        assert points == CombinedPoints(meshes[..i]) + Translated(meshes[i].value.vertices, meshes[i].value.translation);
      }
    }
    assert meshes[..|meshes|] == meshes;
    r := CreateCvs(points, havokScale, dialog, convexHull);
    report := if r.Some? then Some(Report(r.value)) else None;
  }

  /** Gathering meshes in two runs gives the concatenation of the runs. */
  lemma {:induction false} CombinedPointsAppend(a: seq<Option<GeomData>>, b: seq<Option<GeomData>>)
    ensures CombinedPoints(a + b) == CombinedPoints(a) + CombinedPoints(b)
    decreases |b|
  {
    if b == [] {
      assert a + b == a;
    } else {
      var init := b[..|b| - 1];
      assert (a + b)[..|a + b| - 1] == a + init;
      CombinedPointsAppend(a, init);
    }
  }

  /** Meshes without valid data contribute no hull input. */
  lemma {:induction false} InvalidMeshesContributeNothing(meshes: seq<Option<GeomData>>)
    requires forall k :: 0 <= k < |meshes| ==> meshes[k].None?
    ensures CombinedPoints(meshes) == []
  {
    if meshes != [] {
      InvalidMeshesContributeNothing(meshes[..|meshes| - 1]);
    }
  }
}
