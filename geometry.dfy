/** The vector and triangle types the Havok spells work with.  Coordinates are
    mathematical reals: the single-precision rounding of the source is not
    modelled, but its exact (not epsilon-based) equality is. */
module Geometry {

  datatype Vec3 = Vec3(x: real, y: real, z: real)

  /** A Vector4; for hull vertices the fourth component is unused, for hull
      normals it holds the plane distance. */
  datatype Vec4 = Vec4(x: real, y: real, z: real, w: real)

  /** A triangle of three vertex indices (a `Triangle` of three quint16, or a
      decomposition hull triangle of three uint32). */
  datatype Tri = Tri(a: nat, b: nat, c: nat)

  const Zero3 := Vec3(0.0, 0.0, 0.0)

  function Add3(u: Vec3, v: Vec3): Vec3 { Vec3(u.x + v.x, u.y + v.y, u.z + v.z) }

  function Sub3(u: Vec3, v: Vec3): Vec3 { Vec3(u.x - v.x, u.y - v.y, u.z - v.z) }

  function Div3(v: Vec3, s: real): Vec3
    requires s != 0.0
  {
    Vec3(v.x / s, v.y / s, v.z / s)
  }

  function Div4(v: Vec4, s: real): Vec4
    requires s != 0.0
  {
    Vec4(v.x / s, v.y / s, v.z / s, v.w / s)
  }

  function Cross(u: Vec3, v: Vec3): Vec3 {
    Vec3(u.y * v.z - u.z * v.y, u.z * v.x - u.x * v.z, u.x * v.y - u.y * v.x)
  }

  /** `Vector3( v4 )`: the first three components. */
  function Xyz(v: Vec4): Vec3 { Vec3(v.x, v.y, v.z) }

  /** `Vector4( v3 )`: the fourth component is zero. */
  function Extend(v: Vec3): Vec4 { Vec4(v.x, v.y, v.z, 0.0) }

  /** `Vector4::lexLessThan`: lexicographic comparison on (x, y, z, w). */
  predicate LexLess(a: Vec4, b: Vec4) {
    if a.x != b.x then a.x < b.x
    else if a.y != b.y then a.y < b.y
    else if a.z != b.z then a.z < b.z
    else a.w < b.w
  }

  predicate LexLe(a: Vec4, b: Vec4) { a == b || LexLess(a, b) }

  /** LexLess is a strict total order: irreflexive, transitive and total. */
  lemma LexLessStrictTotal(a: Vec4, b: Vec4, c: Vec4)
    ensures !LexLess(a, a)
    ensures LexLess(a, b) && LexLess(b, c) ==> LexLess(a, c)
    ensures a != b ==> LexLess(a, b) || LexLess(b, a)
    ensures !(LexLess(a, b) && LexLess(b, a))
  {
  }

  /** A sequence in non-decreasing lexicographic order (stated on neighbours). */
  ghost predicate LexSorted(s: seq<Vec4>) {
    forall k :: 0 < k < |s| ==> LexLe(s[k - 1], s[k])
  }

  /** Sortedness on neighbours gives sortedness on every pair. */
  lemma {:induction false} LexSortedAllPairs(s: seq<Vec4>, p: int, q: int)
    requires LexSorted(s)
    requires 0 <= p < q < |s|
    ensures LexLe(s[p], s[q])
    decreases q - p
  {
    if p + 1 < q {
      LexSortedAllPairs(s, p + 1, q);
      LexLessStrictTotal(s[p], s[p + 1], s[q]);
    }
  }

  /** A sequence in strictly increasing lexicographic order. */
  ghost predicate StrictlyLexSorted(s: seq<Vec4>) {
    forall p, q :: 0 <= p < q < |s| ==> LexLess(s[p], s[q])
  }

  /** The set of elements of a sequence. */
  function Elems<T>(s: seq<T>): set<T> { set v | v in s }

  lemma ElemsEmpty<T>(s: seq<T>)
    ensures s == [] <==> Elems(s) == {}
  {
    if s != [] {
      assert s[0] in Elems(s);
    }
  }

  ghost predicate Distinct<T>(s: seq<T>) {
    forall p, q :: 0 <= p < q < |s| ==> s[p] != s[q]
  }

  /** A strictly sorted sequence has no duplicates. */
  lemma StrictIsDistinct(s: seq<Vec4>)
    requires StrictlyLexSorted(s)
    ensures Distinct(s)
  {
    forall p, q | 0 <= p < q < |s| ensures s[p] != s[q] {
      LexLessStrictTotal(s[p], s[q], s[p]);
    }
  }

  /** A sequence without duplicates has as many elements as entries. */
  lemma {:induction false} DistinctCount<T>(s: seq<T>)
    requires Distinct(s)
    ensures |Elems(s)| == |s|
  {
    if s != [] {
      var init := s[..|s| - 1];
      var last := s[|s| - 1];
      DistinctCount(init);
      assert Elems(s) == Elems(init) + {last};
      assert last !in Elems(init);
    }
  }

  /** Sorted and free of duplicates means strictly sorted. */
  lemma SortedDistinctIsStrict(s: seq<Vec4>)
    requires LexSorted(s) && Distinct(s)
    ensures StrictlyLexSorted(s)
  {
    forall p, q | 0 <= p < q < |s| ensures LexLess(s[p], s[q]) {
      LexSortedAllPairs(s, p, q);
    }
  }

  /** Two strictly sorted sequences holding the same elements are equal: the
      sorted output is determined by its element set alone. */
  lemma {:induction false} StrictlySortedUnique(a: seq<Vec4>, b: seq<Vec4>)
    requires StrictlyLexSorted(a) && StrictlyLexSorted(b)
    requires Elems(a) == Elems(b)
    ensures a == b
  {
    ElemsEmpty(a);
    ElemsEmpty(b);
    if a != [] && b != [] {
      assert a[0] in Elems(b);
      assert b[0] in Elems(a);
      if a[0] != b[0] {
        var k :| 0 <= k < |b| && b[k] == a[0];
        var m :| 0 <= m < |a| && a[m] == b[0];
        LexLessStrictTotal(a[0], b[0], a[0]);
        assert false;
      }
      var a', b' := a[1..], b[1..];
      forall v | v in a' ensures v in b' {
        assert v in Elems(b);
        var k :| 1 <= k < |a| && a[k] == v;
        assert v != a[0];
      }
      forall v | v in b' ensures v in a' {
        assert v in Elems(a);
        var k :| 1 <= k < |b| && b[k] == v;
        assert v != b[0];
      }
      assert Elems(a') == Elems(b');
      StrictlySortedUnique(a', b');
      assert a == [a[0]] + a' && b == [b[0]] + b';
    }
  }
}
