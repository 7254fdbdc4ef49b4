/** The flat point and triangle-index buffers handed to the convex
    decomposition library, and the translated point list handed to the hull
    routine, built from one or several triangle meshes. */
module MeshBuffers {
  import opened Wrappers
  import opened Geometry

  const Uint32Modulus: nat := 0x1_0000_0000

  /** The vertices, translation and triangles of an `NiTriBasedGeomData`. */
  datatype GeomData = GeomData(vertices: seq<Vec3>, translation: Vec3, triangles: seq<Tri>)

  /** How the decomposition library reads a flat point buffer: consecutive
      (x, y, z) triples. */
  function Points(s: seq<real>): (r: seq<Vec3>)
    requires |s| % 3 == 0
    ensures |r| == |s| / 3
  {
    if s == [] then [] else [Vec3(s[0], s[1], s[2])] + Points(s[3..])
  }

  /** How the decomposition library reads a flat index buffer: consecutive
      index triples. */
  function Triples(s: seq<nat>): (r: seq<Tri>)
    requires |s| % 3 == 0
    ensures |r| == |s| / 3
  {
    if s == [] then [] else [Tri(s[0], s[1], s[2])] + Triples(s[3..])
  }

  lemma {:induction false} PointsAppend(s: seq<real>, x: real, y: real, z: real)
    requires |s| % 3 == 0
    ensures Points(s + [x, y, z]) == Points(s) + [Vec3(x, y, z)]
    decreases |s|
  {
    if s == [] {
      assert [x, y, z][3..] == [];
    } else {
      assert (s + [x, y, z])[3..] == s[3..] + [x, y, z];
      PointsAppend(s[3..], x, y, z);
    }
  }

  lemma {:induction false} TriplesAppend(s: seq<nat>, a: nat, b: nat, c: nat)
    requires |s| % 3 == 0
    ensures Triples(s + [a, b, c]) == Triples(s) + [Tri(a, b, c)]
    decreases |s|
  {
    if s == [] {
      assert [a, b, c][3..] == [];
    } else {
      assert (s + [a, b, c])[3..] == s[3..] + [a, b, c];
      TriplesAppend(s[3..], a, b, c);
    }
  }

  lemma {:induction false} PointsConcat(s: seq<real>, t: seq<real>)
    requires |s| % 3 == 0 && |t| % 3 == 0
    ensures Points(s + t) == Points(s) + Points(t)
    decreases |s|
  {
    if s == [] {
      assert s + t == t;
    } else {
      assert (s + t)[..3] == s[..3];
      assert (s + t)[3..] == s[3..] + t;
      PointsConcat(s[3..], t);
    }
  }

  lemma {:induction false} TriplesConcat(s: seq<nat>, t: seq<nat>)
    requires |s| % 3 == 0 && |t| % 3 == 0
    ensures Triples(s + t) == Triples(s) + Triples(t)
    decreases |s|
  {
    if s == [] {
      assert s + t == t;
    } else {
      assert (s + t)[..3] == s[..3];
      assert (s + t)[3..] == s[3..] + t;
      TriplesConcat(s[3..], t);
    }
  }

  /** `v * triShapeScale + trans`, component by component. */
  function Placed(v: Vec3, scale: real, trans: Vec3): Vec3 {
    Vec3(v.x * scale + trans.x, v.y * scale + trans.y, v.z * scale + trans.z)
  }

  /** A triangle whose indices are moved up by `base`, in uint32 arithmetic. */
  function Shift32(t: Tri, base: nat): Tri {
    Tri((t.a + base) % Uint32Modulus, (t.b + base) % Uint32Modulus, (t.c + base) % Uint32Modulus)
  }

  /** The single-mesh decomposition input: every vertex scaled by the shape's
      scale and moved by its translation, triangles copied as they are. */
  method FlattenMesh(verts: seq<Vec3>, trans: Vec3, triShapeScale: real, tris: seq<Tri>)
    returns (points: seq<real>, triangles: seq<nat>)
    ensures |points| == 3 * |verts| && |triangles| == 3 * |tris|
    ensures Points(points) == seq(|verts|, k requires 0 <= k < |verts| => Placed(verts[k], triShapeScale, trans))
    ensures Triples(triangles) == tris
  {
    points := [];
    for i := 0 to |verts|
      invariant |points| == 3 * i
      invariant forall k :: 0 <= k < i ==> Points(points)[k] == Placed(verts[k], triShapeScale, trans)
    {
      var p := Placed(verts[i], triShapeScale, trans);
      PointsAppend(points, p.x, p.y, p.z);
      points := points + [p.x, p.y, p.z];
    }
    triangles := [];
    for i := 0 to |tris|
      invariant |triangles| == 3 * i
      invariant Triples(triangles) == tris[..i]
    {
      var t := tris[i];
      TriplesAppend(triangles, t.a, t.b, t.c);
      triangles := triangles + [t.a, t.b, t.c];
      assert tris[..i + 1] == tris[..i] + [t];
    }
    assert tris[..|tris|] == tris;
  }

  /** `spCreateCombinedHACD::combine`: append one mesh to the running buffers,
      rebasing its triangle indices by the number of vertices already there.
      A mesh without valid geometry data leaves both buffers as they were. */
  method CombineDecomposition(points: seq<real>, triangles: seq<nat>, mesh: Option<GeomData>)
    returns (points': seq<real>, triangles': seq<nat>)
    requires |points| % 3 == 0 && |triangles| % 3 == 0
    ensures mesh.None? ==> points' == points && triangles' == triangles
    ensures mesh.Some? ==>
      && |points'| == |points| + 3 * |mesh.value.vertices|
      && |triangles'| == |triangles| + 3 * |mesh.value.triangles|
      && points'[..|points|] == points
      && triangles'[..|triangles|] == triangles
      && Points(points'[|points|..]) == seq(|mesh.value.vertices|, k requires 0 <= k < |mesh.value.vertices| =>
           Add3(mesh.value.vertices[k], mesh.value.translation))
      && Triples(triangles'[|triangles|..]) == seq(|mesh.value.triangles|, k requires 0 <= k < |mesh.value.triangles| =>
           Shift32(mesh.value.triangles[k], |points| / 3))
  {
    points', triangles' := points, triangles;
    if mesh.None? {
      return;
    }
    var verts, trans, tris := mesh.value.vertices, mesh.value.translation, mesh.value.triangles;
    var added: seq<real> := [];
    for i := 0 to |verts|
      invariant |added| == 3 * i
      invariant Points(added) == seq(i, k requires 0 <= k < i => Add3(verts[k], trans))
    {
      var v := verts[i];
      PointsAppend(added, v.x + trans.x, v.y + trans.y, v.z + trans.z);
      added := added + [v.x + trans.x, v.y + trans.y, v.z + trans.z];
    }
    points' := points + added;
    var appended: seq<nat> := [];
    for i := 0 to |tris|
      invariant |appended| == 3 * i
      invariant Triples(appended) == seq(i, k requires 0 <= k < i => Shift32(tris[k], |points| / 3))
    {
      var t := tris[i];
      var s := Shift32(t, |points| / 3);
      TriplesAppend(appended, s.a, s.b, s.c);
      appended := appended + [s.a, s.b, s.c];
    }
    triangles' := triangles + appended;
    assert points'[|points|..] == added;
    assert triangles'[|triangles|..] == appended;
  }

  /** After a combine, a triangle index `i` of the appended mesh, rebased by
      the earlier vertex count, reads back the appended mesh's own vertex `i`:
      the merged buffers describe the same triangles as the separate meshes. */
  lemma RebasedIndexReachesOwnVertex(points: seq<real>, added: seq<real>, i: nat)
    requires |points| % 3 == 0 && |added| % 3 == 0
    requires i < |added| / 3
    requires |points| / 3 + i < Uint32Modulus
    ensures (i + |points| / 3) % Uint32Modulus == |points| / 3 + i
    ensures |points| / 3 + i < |points + added| / 3
    ensures Points(points + added)[|points| / 3 + i] == Points(added)[i]
  {
    var n := |points| / 3;
    PointsConcat(points, added);
    assert |Points(points)| == n;
    assert Points(points + added)[n + i] == (Points(points) + Points(added))[n + i];
  }

  /** `spCreateCombinedCVS::combine`: append one mesh's vertices, each moved by
      the translation of its data block.  A mesh without valid geometry data
      leaves the list as it was. */
  method CombineCvs(points: seq<Vec3>, mesh: Option<GeomData>) returns (points': seq<Vec3>)
    ensures mesh.None? ==> points' == points
    ensures mesh.Some? ==>
      && |points'| == |points| + |mesh.value.vertices|
      && points'[..|points|] == points
      && forall k :: 0 <= k < |mesh.value.vertices| ==>
           points'[|points| + k] == Add3(mesh.value.vertices[k], mesh.value.translation)
  {
    points' := points;
    if mesh.None? {
      return;
    }
    for i := 0 to |mesh.value.vertices|
      invariant |points'| == |points| + i
      invariant points'[..|points|] == points
      invariant forall k :: 0 <= k < i ==> points'[|points| + k] == Add3(mesh.value.vertices[k], mesh.value.translation)
    {
      points' := points' + [Add3(mesh.value.vertices[i], mesh.value.translation)];
    }
  }
}
