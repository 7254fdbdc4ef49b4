/** `spPackHavokStrips`: merge the triangulated strips of every
    `NiTriStripsData` block of a `bhkNiTriStripsShape` into one packed vertex,
    triangle and normal list. */
module PackStrips {
  import opened Wrappers
  import opened Geometry

  const Uint16Modulus: nat := 0x1_0000

  /** One strips data block: its vertices and its strips already triangulated
      (`triangulate` is not part of this model). */
  datatype StripsData = StripsData(vertices: seq<Vec3>, triangles: seq<Tri>)

  datatype PackResult =
    | NoMeshData   // "No mesh data was found."; no packed shape is inserted
    | Packed(vertices: seq<Vec3>, triangles: seq<Tri>, normals: seq<Vec3>)

  /** `QVector::value( i )`: the element, or a zero vector past the end. */
  function ValueAt(vs: seq<Vec3>, i: nat): Vec3 {
    if i < |vs| then vs[i] else Zero3
  }

  /** Corner `c` (0, 1 or 2) of a triangle, `tri[c]`. */
  function Corner(t: Tri, c: nat): nat
    requires c < 3
  {
    if c == 0 then t.a else if c == 1 then t.b else t.c
  }

  lemma CornerShift16(t: Tri, base: nat, c: nat)
    requires c < 3
    ensures Corner(Shift16(t, base), c) == (Corner(t, c) + base) % Uint16Modulus
  {
    if c == 0 {
      assert Corner(Shift16(t, base), c) == (t.a + base) % Uint16Modulus;
    } else if c == 1 {
      assert Corner(Shift16(t, base), c) == (t.b + base) % Uint16Modulus;
    } else {
      assert Corner(Shift16(t, base), c) == (t.c + base) % Uint16Modulus;
    }
  }

  /** `tri[n] += vertices.count()` on quint16 fields: wraps at 2^16. */
  function Shift16(t: Tri, base: nat): Tri {
    Tri((t.a + base) % Uint16Modulus, (t.b + base) % Uint16Modulus, (t.c + base) % Uint16Modulus)
  }

  /** The normal pushed for a triangle: the normalized cross product of its
      two edges from the first corner; `unitNormal` stands for `normalize`. */
  function FaceNormal(vrts: seq<Vec3>, t: Tri, unitNormal: Vec3 -> Vec3): Vec3 {
    var a, b, c := ValueAt(vrts, t.a), ValueAt(vrts, t.b), ValueAt(vrts, t.c);
    unitNormal(Cross(Sub3(b, a), Sub3(c, a)))
  }

  /** Rotating a triangle's corners keeps its face normal: the normal does
      not depend on the corner its index list starts from. */
  lemma FaceNormalRotation(vrts: seq<Vec3>, t: Tri, unitNormal: Vec3 -> Vec3)
    ensures FaceNormal(vrts, Tri(t.b, t.c, t.a), unitNormal) == FaceNormal(vrts, t, unitNormal)
  {
    var a, b, c := ValueAt(vrts, t.a), ValueAt(vrts, t.b), ValueAt(vrts, t.c);
    CrossRotation(a, b, c);
  }

  /** `(b - a) x (c - a) == (c - b) x (a - b)`. */
  lemma CrossRotation(a: Vec3, b: Vec3, c: Vec3)
    ensures Cross(Sub3(c, b), Sub3(a, b)) == Cross(Sub3(b, a), Sub3(c, a))
  {
  }

  function BlockVertices(d: Option<StripsData>): seq<Vec3> {
    if d.None? then [] else seq(|d.value.vertices|, k requires 0 <= k < |d.value.vertices| => Div3(d.value.vertices[k], 7.0))
  }

  function BlockTriangles(d: Option<StripsData>, base: nat): seq<Tri> {
    if d.None? then [] else seq(|d.value.triangles|, k requires 0 <= k < |d.value.triangles| => Shift16(d.value.triangles[k], base))
  }

  function BlockNormals(d: Option<StripsData>, unitNormal: Vec3 -> Vec3): seq<Vec3> {
    if d.None? then []
    else seq(|d.value.triangles|, k requires 0 <= k < |d.value.triangles| => FaceNormal(d.value.vertices, d.value.triangles[k], unitNormal))
  }

  /** The packed vertex list: every valid block's vertices divided by 7, in
      block order. */
  function PackedVertices(blocks: seq<Option<StripsData>>): seq<Vec3> {
    if blocks == [] then []
    else PackedVertices(blocks[..|blocks| - 1]) + BlockVertices(blocks[|blocks| - 1])
  }

  /** The packed triangle list: each block's triangles shifted by the number
      of vertices packed before that block. */
  function PackedTriangles(blocks: seq<Option<StripsData>>): seq<Tri> {
    if blocks == [] then []
    else
      var init := blocks[..|blocks| - 1];
      PackedTriangles(init) + BlockTriangles(blocks[|blocks| - 1], |PackedVertices(init)|)
  }

  function PackedNormals(blocks: seq<Option<StripsData>>, unitNormal: Vec3 -> Vec3): seq<Vec3> {
    if blocks == [] then []
    else PackedNormals(blocks[..|blocks| - 1], unitNormal) + BlockNormals(blocks[|blocks| - 1], unitNormal)
  }

  /** The `QMutableVectorIterator` loop over one block's triangles: push the
      face normal of each triangle, then shift its indices by `base`. */
  method RebaseBlock(tris: array<Tri>, vrts: seq<Vec3>, base: nat, unitNormal: Vec3 -> Vec3)
    returns (nrms: seq<Vec3>)
    modifies tris
    ensures tris[..] == seq(tris.Length, k requires 0 <= k < tris.Length => Shift16(old(tris[k]), base))
    ensures nrms == seq(tris.Length, k requires 0 <= k < tris.Length => FaceNormal(vrts, old(tris[k]), unitNormal))
  {
    nrms := [];
    for i := 0 to tris.Length
      invariant |nrms| == i
      invariant forall k :: 0 <= k < i ==> tris[k] == Shift16(old(tris[k]), base)
      invariant forall k :: 0 <= k < i ==> nrms[k] == FaceNormal(vrts, old(tris[k]), unitNormal)
      invariant forall k :: i <= k < tris.Length ==> tris[k] == old(tris[k])
    {
      var tri := tris[i];
      nrms := nrms + [FaceNormal(vrts, tri, unitNormal)];
      tris[i] := Shift16(tri, base);
    }
  }

  /** One pass of the block loop: rebase the block's triangles by the
      vertices packed so far, then append its vertices, triangles and
      normals. A block that is not strips data is skipped. */
  method PackBlock(vertices: seq<Vec3>, triangles: seq<Tri>, normals: seq<Vec3>,
                   d: Option<StripsData>, unitNormal: Vec3 -> Vec3)
    returns (vertices': seq<Vec3>, triangles': seq<Tri>, normals': seq<Vec3>)
    ensures vertices' == vertices + BlockVertices(d)
    ensures triangles' == triangles + BlockTriangles(d, |vertices|)
    ensures normals' == normals + BlockNormals(d, unitNormal)
  {
    vertices', triangles', normals' := vertices, triangles, normals;
    if d.None? {
      return;
    }
    var data := d.value;
    var tris := new Tri[|data.triangles|](k requires 0 <= k < |data.triangles| => data.triangles[k]);
    assert tris[..] == data.triangles;
    var nrms := RebaseBlock(tris, data.vertices, |vertices|, unitNormal);
    for i := 0 to |data.vertices|
      invariant vertices' == vertices + BlockVertices(d)[..i]
    {
      vertices' := vertices' + [Div3(data.vertices[i], 7.0)];
      assert BlockVertices(d)[..i + 1] == BlockVertices(d)[..i] + [Div3(data.vertices[i], 7.0)];
    }
    assert BlockVertices(d)[..|data.vertices|] == BlockVertices(d);
    triangles' := triangles' + tris[..];
    normals' := normals' + nrms;
  }

  lemma PackedVerticesStep(blocks: seq<Option<StripsData>>, b: nat)
    requires b < |blocks|
    ensures PackedVertices(blocks[..b + 1]) == PackedVertices(blocks[..b]) + BlockVertices(blocks[b])
  {
    assert blocks[..b + 1][..b] == blocks[..b];
  }

  lemma PackedTrianglesStep(blocks: seq<Option<StripsData>>, b: nat)
    requires b < |blocks|
    ensures PackedTriangles(blocks[..b + 1])
         == PackedTriangles(blocks[..b]) + BlockTriangles(blocks[b], |PackedVertices(blocks[..b])|)
  {
    assert blocks[..b + 1][..b] == blocks[..b];
  }

  /** The packed lists of one more block. */
  lemma PackedStep(blocks: seq<Option<StripsData>>, b: nat, unitNormal: Vec3 -> Vec3)
    requires b < |blocks|
    ensures PackedVertices(blocks[..b + 1]) == PackedVertices(blocks[..b]) + BlockVertices(blocks[b])
    ensures PackedTriangles(blocks[..b + 1])
         == PackedTriangles(blocks[..b]) + BlockTriangles(blocks[b], |PackedVertices(blocks[..b])|)
    ensures PackedNormals(blocks[..b + 1], unitNormal) == PackedNormals(blocks[..b], unitNormal) + BlockNormals(blocks[b], unitNormal)
  {
    assert blocks[..b + 1][..b] == blocks[..b];
  }

  /** `spPackHavokStrips::cast` up to the insertion of the packed blocks. */
  method PackStrips(blocks: seq<Option<StripsData>>, unitNormal: Vec3 -> Vec3) returns (r: PackResult)
    ensures r.NoMeshData? <==> PackedVertices(blocks) == [] || PackedTriangles(blocks) == []
    ensures r.Packed? ==>
      && r.vertices == PackedVertices(blocks)
      && r.triangles == PackedTriangles(blocks)
      && r.normals == PackedNormals(blocks, unitNormal)
  {
    var vertices: seq<Vec3> := [];
    var triangles: seq<Tri> := [];
    var normals: seq<Vec3> := [];
    for b := 0 to |blocks|
      invariant vertices == PackedVertices(blocks[..b])
      invariant triangles == PackedTriangles(blocks[..b])
      invariant normals == PackedNormals(blocks[..b], unitNormal)
    {
      PackedStep(blocks, b, unitNormal);
      vertices, triangles, normals := PackBlock(vertices, triangles, normals, blocks[b], unitNormal);
    }
    assert blocks[..|blocks|] == blocks;
    if vertices == [] || triangles == [] {
      return NoMeshData;
    }
    r := Packed(vertices, triangles, normals);
  }

  /** One normal per packed triangle. */
  lemma {:induction false} OneNormalPerTriangle(blocks: seq<Option<StripsData>>, unitNormal: Vec3 -> Vec3)
    ensures |PackedNormals(blocks, unitNormal)| == |PackedTriangles(blocks)|
  {
    if blocks != [] {
      OneNormalPerTriangle(blocks[..|blocks| - 1], unitNormal);
    }
  }

  /** Packing more blocks only appends: the packed lists of a prefix of the
      blocks are prefixes of the packed lists of all blocks. */
  lemma PackedPrefix(blocks: seq<Option<StripsData>>, j: nat)
    requires j <= |blocks|
    ensures PackedVertices(blocks[..j]) <= PackedVertices(blocks)
    ensures PackedTriangles(blocks[..j]) <= PackedTriangles(blocks)
  {
    PackedVerticesPrefix(blocks, j);
    PackedTrianglesPrefix(blocks, j);
  }

  lemma {:induction false} PackedTrianglesPrefix(blocks: seq<Option<StripsData>>, j: nat)
    requires j <= |blocks|
    ensures PackedTriangles(blocks[..j]) <= PackedTriangles(blocks)
    decreases |blocks| - j
  {
    if j < |blocks| {
      PackedTrianglesPrefix(blocks, j + 1);
      assert blocks[..j + 1][..j] == blocks[..j];
    } else {
      assert blocks[..j] == blocks;
    }
  }

  /** The packed vertices of a prefix of the blocks are a prefix of the
      packed vertices of all blocks. */
  lemma {:induction false} PackedVerticesPrefix(blocks: seq<Option<StripsData>>, j: nat)
    requires j <= |blocks|
    ensures PackedVertices(blocks[..j]) <= PackedVertices(blocks)
    decreases |blocks| - j
  {
    if j < |blocks| {
      PackedVerticesPrefix(blocks, j + 1);
      assert blocks[..j + 1][..j] == blocks[..j];
    } else {
      assert blocks[..j] == blocks;
    }
  }

  /** The packed vertices up to block `j`, followed by those of block `j`,
      start the packed vertices of all blocks. */
  lemma PackedVerticesThrough(blocks: seq<Option<StripsData>>, j: nat)
    requires j < |blocks|
    ensures PackedVertices(blocks[..j]) + BlockVertices(blocks[j]) <= PackedVertices(blocks)
  {
    PackedVerticesPrefix(blocks, j + 1);
    PackedVerticesStep(blocks, j);
  }

  /** The vertices of block `j` sit in the packed list right after those of
      the earlier blocks. */
  lemma BlockVerticesInPacked(blocks: seq<Option<StripsData>>, j: nat)
    requires j < |blocks| && blocks[j].Some?
    ensures var base := |PackedVertices(blocks[..j])|;
      && base + |blocks[j].value.vertices| <= |PackedVertices(blocks)|
      && forall i :: 0 <= i < |blocks[j].value.vertices| ==>
           PackedVertices(blocks)[base + i] == Div3(blocks[j].value.vertices[i], 7.0)
  {
    PackedVerticesThrough(blocks, j);
    BlockVerticesAfter(PackedVertices(blocks[..j]), blocks[j], PackedVertices(blocks));
  }

  /** A list that starts with `pre` and a block's vertices holds those
      vertices, divided by 7, right after `pre`. */
  lemma BlockVerticesAfter(pre: seq<Vec3>, d: Option<StripsData>, all: seq<Vec3>)
    requires d.Some? && pre + BlockVertices(d) <= all
    ensures |pre| + |d.value.vertices| <= |all|
    ensures forall i :: 0 <= i < |d.value.vertices| ==> all[|pre| + i] == Div3(d.value.vertices[i], 7.0)
  {
    forall i | 0 <= i < |d.value.vertices|
      ensures all[|pre| + i] == Div3(d.value.vertices[i], 7.0)
    {
      ElementOfPrefix(pre, BlockVertices(d), all, i);
    }
  }

  /** A list that starts with `pre + mid` holds `mid[i]` right after `pre`. */
  lemma ElementOfPrefix<T>(pre: seq<T>, mid: seq<T>, all: seq<T>, i: nat)
    requires pre + mid <= all && i < |mid|
    ensures |pre| + i < |all| && all[|pre| + i] == mid[i]
  {
    assert (pre + mid)[|pre| + i] == mid[i];
  }

  /** A corner shifted by `base` without wrapping reads, in a list that holds
      `vs` (divided by 7) from position `base` on, the vertex it named in `vs`. */
  lemma ShiftedCornerReads(all: seq<Vec3>, base: nat, vs: seq<Vec3>, t: Tri, c: nat)
    requires c < 3 && Corner(t, c) < |vs|
    requires base + |vs| <= Uint16Modulus && base + |vs| <= |all|
    requires forall i :: 0 <= i < |vs| ==> all[base + i] == Div3(vs[i], 7.0)
    ensures Corner(Shift16(t, base), c) < |all|
    ensures all[Corner(Shift16(t, base), c)] == Div3(vs[Corner(t, c)], 7.0)
  {
    CornerShift16(t, base, c);
    assert (Corner(t, c) + base) % Uint16Modulus == Corner(t, c) + base;
  }

  /** Triangle `k` of block `j` sits in the packed triangle list after the
      triangles of the earlier blocks, shifted by their vertex count. */
  lemma PackedTriangleAt(blocks: seq<Option<StripsData>>, j: nat, k: nat)
    requires j < |blocks| && blocks[j].Some?
    requires k < |blocks[j].value.triangles|
    ensures |PackedTriangles(blocks[..j])| + k < |PackedTriangles(blocks)|
    ensures PackedTriangles(blocks)[|PackedTriangles(blocks[..j])| + k]
         == Shift16(blocks[j].value.triangles[k], |PackedVertices(blocks[..j])|)
  {
    var blockTris := BlockTriangles(blocks[j], |PackedVertices(blocks[..j])|);
    PackedTrianglesThrough(blocks, j);
    ElementOfPrefix(PackedTriangles(blocks[..j]), blockTris, PackedTriangles(blocks), k);
  }

  /** The packed triangles up to block `j`, followed by the rebased
      triangles of block `j`, start the packed triangles of all blocks. */
  lemma PackedTrianglesThrough(blocks: seq<Option<StripsData>>, j: nat)
    requires j < |blocks|
    ensures PackedTriangles(blocks[..j]) + BlockTriangles(blocks[j], |PackedVertices(blocks[..j])|)
         <= PackedTriangles(blocks)
  {
    PackedTrianglesPrefix(blocks, j + 1);
    PackedTrianglesStep(blocks, j);
  }

  /** Every corner of a triangle of block `j` that names a vertex of that
      block still names that vertex (divided by 7) in the packed vertex list,
      as long as the shifted indices fit in 16 bits. */
  lemma PackedCornerAddressesOwnBlock(blocks: seq<Option<StripsData>>, j: nat, k: nat, c: nat)
    requires j < |blocks| && blocks[j].Some?
    requires k < |blocks[j].value.triangles| && c < 3
    requires Corner(blocks[j].value.triangles[k], c) < |blocks[j].value.vertices|
    requires |PackedVertices(blocks[..j])| + |blocks[j].value.vertices| <= Uint16Modulus
    ensures |PackedTriangles(blocks[..j])| + k < |PackedTriangles(blocks)|
    ensures var i := Corner(PackedTriangles(blocks)[|PackedTriangles(blocks[..j])| + k], c);
      i < |PackedVertices(blocks)| &&
      PackedVertices(blocks)[i] == Div3(blocks[j].value.vertices[Corner(blocks[j].value.triangles[k], c)], 7.0)
  {
    PackedTriangleAt(blocks, j, k);
    BlockVerticesInPacked(blocks, j);
    ShiftedCornerReads(PackedVertices(blocks), |PackedVertices(blocks[..j])|, blocks[j].value.vertices,
                       blocks[j].value.triangles[k], c);
  }
}
