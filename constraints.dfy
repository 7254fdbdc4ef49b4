/** `spConstraintHelper` ("A -> B"): recomputes the B-side pivot and axes of a
    Havok constraint from its A-side values, so that both bodies agree.

    The geometry (the body transforms from `bodyTrans`, rotation inversion,
    the scaling by the Havok constant) is abstracted into two maps:
    `pivotMap` carries an A-side pivot to the B side and `axisMap` carries an
    A-side direction to the B side. What is modelled is which constraint data
    is selected and which fields are read and written. */
module Constraints {
  import opened Wrappers
  import opened Geometry

  /** The block types the spell applies to, plus any other block type. */
  datatype Kind = Malleable | Breakable | Ragdoll | LimitedHinge | Hinge | Prismatic | OtherKind

  /** The block type's name in the file format. */
  function KindName(k: Kind): string {
    match k
    case Malleable => "bhkMalleableConstraint"
    case Breakable => "bhkBreakableConstraint"
    case Ragdoll => "bhkRagdollConstraint"
    case LimitedHinge => "bhkLimitedHingeConstraint"
    case Hinge => "bhkHingeConstraint"
    case Prismatic => "bhkPrismaticConstraint"
    case OtherKind => "NiObject"
  }

  /** The sub-structures a wrapping constraint may carry. */
  datatype SubStruct = RagdollData | LimitedHingeData | HingeData

  /** The vector fields of constraint data. */
  datatype Field =
    | PivotA | PivotB
    | AxleA | AxleB | PlaneA | PlaneB | TwistA | TwistB
    | Perp2AxleInA1 | Perp2AxleInB1 | Perp2AxleInA2 | Perp2AxleInB2

  /** A constraint block: its type, its own fields, the sub-structures that
      are present with their fields, and whether both entities link to a
      `bhkRigidBody`. */
  datatype Constraint = Constraint(
    kind: Kind,
    fields: map<Field, Vec4>,
    subs: map<SubStruct, map<Field, Vec4>>,
    bodiesFound: bool)

  /** Where the constraint data was found. */
  datatype DataLocation = InSub(sub: SubStruct) | WholeBlock

  /** Which A-side field each B-side field is computed from. */
  datatype FieldTable = FieldTable(
    axle: (Field, Field),
    twist: (Field, Field),
    twist2: Option<(Field, Field)>)

  datatype Outcome =
    | MissingBodies                                  // warning, nothing written
    | Unchanged                                      // returns before any write
    | Rewritten(at: DataLocation, fields: map<Field, Vec4>)

  predicate EndsWith(s: string, suffix: string) {
    |suffix| <= |s| && s[|s| - |suffix|..] == suffix
  }

  /** `spConstraintHelper::isApplicable`. */
  predicate IsApplicable(k: Kind) {
    k != OtherKind
  }

  /** The type names `isApplicable` accepts. */
  const ListedNames: set<string> :=
    {"bhkMalleableConstraint", "bhkBreakableConstraint", "bhkRagdollConstraint",
     "bhkLimitedHingeConstraint", "bhkHingeConstraint", "bhkPrismaticConstraint"}

  /** The applicable types are exactly the six constraint type names the
      spell lists. */
  lemma ApplicableExactlyListedNames(k: Kind)
    ensures IsApplicable(k) <==> KindName(k) in ListedNames
  {
  }

  /** A malleable or breakable constraint takes the type of the first
      sub-structure found, probing Ragdoll, then Limited Hinge, then Hinge. */
  function ResolveKind(k: Kind, present: set<SubStruct>): (r: Kind)
    ensures r in {k, Ragdoll, LimitedHinge, Hinge}
    ensures k !in {Malleable, Breakable} ==> r == k
    ensures k in {Malleable, Breakable} ==>
      && (r == Ragdoll <==> RagdollData in present)
      && (r == LimitedHinge <==> RagdollData !in present && LimitedHingeData in present)
      && (r == Hinge <==> RagdollData !in present && LimitedHingeData !in present && HingeData in present)
      && (r == k <==> !WrapsKnown(present))
  {
    if k == Malleable || k == Breakable then
      if RagdollData in present then Ragdoll
      else if LimitedHingeData in present then LimitedHinge
      else if HingeData in present then Hinge
      else k
    else k
  }

  /** A wrapper carries one of the three sub-structures the spell knows. */
  predicate WrapsKnown(present: set<SubStruct>) {
    RagdollData in present || LimitedHingeData in present || HingeData in present
  }

  /** The sub-structure that holds the data of a (resolved) kind. */
  function DataSub(k: Kind): Option<SubStruct> {
    match k
    case Ragdoll => Some(RagdollData)
    case LimitedHinge => Some(LimitedHingeData)
    case Hinge => Some(HingeData)
    case _ => None
  }

  /** The data of a resolved kind: its sub-structure when present, the block
      itself otherwise; no data for the kinds the spell does not handle. */
  function DataLocationOf(k: Kind, present: set<SubStruct>): (loc: Option<DataLocation>)
    ensures loc.Some? <==> k in {Ragdoll, LimitedHinge, Hinge}
    ensures k == Ragdoll ==> loc == Some(if RagdollData in present then InSub(RagdollData) else WholeBlock)
    ensures k == LimitedHinge ==>
      loc == Some(if LimitedHingeData in present then InSub(LimitedHingeData) else WholeBlock)
    ensures k == Hinge ==> loc == Some(if HingeData in present then InSub(HingeData) else WholeBlock)
  {
    match DataSub(k)
    case None => None
    case Some(s) => if s in present then Some(InSub(s)) else Some(WholeBlock)
  }

  /** The hinge-family table: the axle and both perpendicular axes. */
  const HingeTable := FieldTable((AxleA, AxleB), (Perp2AxleInA1, Perp2AxleInB1), Some((Perp2AxleInA2, Perp2AxleInB2)))

  /** The ragdoll table: the plane and the twist axis, no second twist. */
  const RagdollTable := FieldTable((PlaneA, PlaneB), (TwistA, TwistB), None)

  /** The field-name table: the hinge family by the type name's suffix, the
      ragdoll by its name; no table for any other type. A table exists
      exactly for the three kinds that have data, and in every table the
      writes never clobber a field still to be read. */
  function FieldNames(k: Kind): (r: Option<FieldTable>)
    ensures r.Some? <==> k in {Ragdoll, LimitedHinge, Hinge}
    ensures r.Some? ==> ReadsBeforeWrites(r.value)
  {
    HingeSuffixExactlyHinges(k);
    if EndsWith(KindName(k), "HingeConstraint") then
      Some(HingeTable)
    else if k == Ragdoll then
      Some(RagdollTable)
    else None
  }

  /** `get<Vector4>` of a field: the zero vector when the field is absent. */
  function Get(fields: map<Field, Vec4>, f: Field): Vec4 {
    if f in fields then fields[f] else Vec4(0.0, 0.0, 0.0, 0.0)
  }

  /** `set<Vector4>` of a field: a write to an absent field does nothing. */
  function Set(fields: map<Field, Vec4>, f: Field, v: Vec4): (r: map<Field, Vec4>)
    ensures r.Keys == fields.Keys
    ensures f in fields ==> r[f] == v
    ensures forall g :: g in fields && g != f ==> r[g] == fields[g]
  {
    if f in fields then fields[f := v] else fields
  }

  /** The B-side fields a table writes, Pivot B included. */
  function Targets(table: FieldTable): set<Field> {
    {PivotB, table.axle.1, table.twist.1} + (if table.twist2.Some? then {table.twist2.value.1} else {})
  }

  /** No field a table writes is read by a later step, and no two steps
      write the same field. */
  predicate ReadsBeforeWrites(table: FieldTable) {
    && table.axle.0 != PivotB && table.twist.0 != PivotB && table.twist.0 != table.axle.1
    && PivotB != table.axle.1 && PivotB != table.twist.1 && table.axle.1 != table.twist.1
    && (table.twist2.Some? ==>
          && table.twist2.value.0 !in {PivotB, table.axle.1, table.twist.1}
          && table.twist2.value.1 !in {PivotB, table.axle.1, table.twist.1})
  }

  /** The sequence of `set<Vector4>` calls of the cast, each reading the
      current data: the pivot, the axle, the twist and, for hinges, the
      second twist. Since no target is read after it is written, every
      target ends up holding its source's ORIGINAL value carried to the B
      side, and every other field keeps its value. */
  function Rewrite(fields: map<Field, Vec4>, table: FieldTable, pivotMap: Vec3 -> Vec3, axisMap: Vec3 -> Vec3)
    : (r: map<Field, Vec4>)
    requires ReadsBeforeWrites(table)
    ensures r.Keys == fields.Keys
    ensures forall f :: f in fields && f !in Targets(table) ==> r[f] == fields[f]
    ensures PivotB in fields ==> r[PivotB] == Extend(pivotMap(Xyz(Get(fields, PivotA))))
    ensures table.axle.1 in fields ==> r[table.axle.1] == Extend(axisMap(Xyz(Get(fields, table.axle.0))))
    ensures table.twist.1 in fields ==> r[table.twist.1] == Extend(axisMap(Xyz(Get(fields, table.twist.0))))
    ensures table.twist2.Some? && table.twist2.value.1 in fields ==>
      r[table.twist2.value.1] == Extend(axisMap(Xyz(Get(fields, table.twist2.value.0))))
  {
    var f1 := Set(fields, PivotB, Extend(pivotMap(Xyz(Get(fields, PivotA)))));
    var f2 := Set(f1, table.axle.1, Extend(axisMap(Xyz(Get(f1, table.axle.0)))));
    var f3 := Set(f2, table.twist.1, Extend(axisMap(Xyz(Get(f2, table.twist.0)))));
    if table.twist2.Some? then
      Set(f3, table.twist2.value.1, Extend(axisMap(Xyz(Get(f3, table.twist2.value.0)))))
    else f3
  }

  /** The fields of the selected data. */
  function FieldsAt(c: Constraint, loc: DataLocation): map<Field, Vec4> {
    match loc
    case WholeBlock => c.fields
    case InSub(s) => if s in c.subs then c.subs[s] else map[]
  }

  /** `spConstraintHelper::cast`. */
  function Cast(c: Constraint, pivotMap: Vec3 -> Vec3, axisMap: Vec3 -> Vec3): (o: Outcome)
    requires IsApplicable(c.kind)
    ensures !c.bodiesFound <==> o.MissingBodies?
    ensures o.Rewritten? ==> o.fields.Keys == FieldsAt(c, o.at).Keys
  {
    var k := ResolveKind(c.kind, c.subs.Keys);
    if !c.bodiesFound then MissingBodies
    else
      match DataLocationOf(k, c.subs.Keys)
      case None => Unchanged
      case Some(loc) =>
        match FieldNames(k)
        // never taken: a kind with data has a table (`DataImpliesTable`), so
        // the early return after the Pivot B write cannot happen
        case None => Unchanged
        case Some(table) => Rewritten(loc, Rewrite(FieldsAt(c, loc), table, pivotMap, axisMap))
  }

  // ---------------------------------------------------------------- lemmas

  /** The suffix test on the type name picks out exactly the two hinge types. */
  lemma HingeSuffixExactlyHinges(k: Kind)
    ensures EndsWith(KindName(k), "HingeConstraint") <==> k in {LimitedHinge, Hinge}
  {
    HingeNamesMatch();
    if k !in {LimitedHinge, Hinge} {
      OtherNamesDiffer(k);
    }
  }

  /** The two hinge type names end with "HingeConstraint". */
  lemma HingeNamesMatch()
    ensures EndsWith(KindName(LimitedHinge), "HingeConstraint")
    ensures EndsWith(KindName(Hinge), "HingeConstraint")
  {
    assert KindName(LimitedHinge)[10..] == "HingeConstraint";
    assert KindName(Hinge)[3..] == "HingeConstraint";
  }

  /** No other type name does. */
  lemma OtherNamesDiffer(k: Kind)
    requires k !in {LimitedHinge, Hinge}
    ensures !EndsWith(KindName(k), "HingeConstraint")
  {
    match k
    case Malleable => NotHingeSuffix("bhkMalleableConstraint");
    case Breakable => NotHingeSuffix("bhkBreakableConstraint");
    case Ragdoll => NotHingeSuffix("bhkRagdollConstraint");
    case Prismatic => NotHingeSuffix("bhkPrismaticConstraint");
    case OtherKind =>
  }

  /** A name whose letter where the suffix would start is not an `H` does
      not end with "HingeConstraint". */
  lemma NotHingeSuffix(s: string)
    requires |s| >= 15 && s[|s| - 15] != 'H'
    ensures !EndsWith(s, "HingeConstraint")
  {
    assert s[|s| - 15..][0] == s[|s| - 15];
  }

  /** Once data is found, a field table exists: the emptiness test on the
      field names never stops the cast. */
  lemma DataImpliesTable(k: Kind, present: set<SubStruct>)
    requires DataLocationOf(k, present).Some?
    ensures FieldNames(k).Some?
  {
    HingeSuffixExactlyHinges(k);
  }

  /** The cast writes exactly when both bodies are found and the constraint
      is, or wraps, a ragdoll, limited hinge or hinge. */
  lemma RewritesExactlyWhen(c: Constraint, pivotMap: Vec3 -> Vec3, axisMap: Vec3 -> Vec3)
    requires IsApplicable(c.kind)
    ensures Cast(c, pivotMap, axisMap).Rewritten? <==>
      c.bodiesFound &&
      (c.kind in {Ragdoll, LimitedHinge, Hinge} ||
       (c.kind in {Malleable, Breakable} && WrapsKnown(c.subs.Keys)))
  {
    var k := ResolveKind(c.kind, c.subs.Keys);
    if DataLocationOf(k, c.subs.Keys).Some? {
      DataImpliesTable(k, c.subs.Keys);
    }
  }

  /** Prismatic constraints, and wrappers with none of the three
      sub-structures, are returned untouched. */
  lemma UnresolvedWritesNothing(c: Constraint, pivotMap: Vec3 -> Vec3, axisMap: Vec3 -> Vec3)
    requires c.bodiesFound
    requires c.kind == Prismatic ||
             (c.kind in {Malleable, Breakable} && !WrapsKnown(c.subs.Keys))
    ensures Cast(c, pivotMap, axisMap) == Unchanged
  {
  }

  /** A wrapper is resolved by the first sub-structure found, in the order
      Ragdoll, Limited Hinge, Hinge, and its data is that sub-structure. */
  lemma WrapperUsesFirstProbe(c: Constraint, pivotMap: Vec3 -> Vec3, axisMap: Vec3 -> Vec3)
    requires c.kind in {Malleable, Breakable} && c.bodiesFound
    ensures RagdollData in c.subs ==>
      Cast(c, pivotMap, axisMap).Rewritten? && Cast(c, pivotMap, axisMap).at == InSub(RagdollData)
    ensures RagdollData !in c.subs && LimitedHingeData in c.subs ==>
      Cast(c, pivotMap, axisMap).Rewritten? && Cast(c, pivotMap, axisMap).at == InSub(LimitedHingeData)
    ensures RagdollData !in c.subs && LimitedHingeData !in c.subs && HingeData in c.subs ==>
      Cast(c, pivotMap, axisMap).Rewritten? && Cast(c, pivotMap, axisMap).at == InSub(HingeData)
  {
    HingeSuffixExactlyHinges(LimitedHinge);
    HingeSuffixExactlyHinges(Hinge);
  }

  /** A ragdoll, limited hinge or hinge constraint is rewritten in its own
      sub-structure when it has one, and in the block itself otherwise. */
  lemma DirectUsesOwnData(c: Constraint, pivotMap: Vec3 -> Vec3, axisMap: Vec3 -> Vec3)
    requires c.kind in {Ragdoll, LimitedHinge, Hinge} && c.bodiesFound
    ensures Cast(c, pivotMap, axisMap).Rewritten?
    ensures c.kind == Ragdoll ==>
      Cast(c, pivotMap, axisMap).at == if RagdollData in c.subs then InSub(RagdollData) else WholeBlock
    ensures c.kind == LimitedHinge ==>
      Cast(c, pivotMap, axisMap).at == if LimitedHingeData in c.subs then InSub(LimitedHingeData) else WholeBlock
    ensures c.kind == Hinge ==>
      Cast(c, pivotMap, axisMap).at == if HingeData in c.subs then InSub(HingeData) else WholeBlock
  {
    DataImpliesTable(c.kind, c.subs.Keys);
  }

  /** Hinge-family constraints write Pivot B, Axle B and both Perp2 B
      fields; every other field, the A side included, keeps its value. */
  lemma HingeWrites(c: Constraint, pivotMap: Vec3 -> Vec3, axisMap: Vec3 -> Vec3)
    requires IsApplicable(c.kind) && c.bodiesFound
    requires ResolveKind(c.kind, c.subs.Keys) in {LimitedHinge, Hinge}
    ensures var o := Cast(c, pivotMap, axisMap);
      && o.Rewritten?
      && var before := FieldsAt(c, o.at);
      && (forall f :: f in before && f !in {PivotB, AxleB, Perp2AxleInB1, Perp2AxleInB2} ==> o.fields[f] == before[f])
      && (PivotB in before ==> o.fields[PivotB] == Extend(pivotMap(Xyz(Get(before, PivotA)))))
      && (AxleB in before ==> o.fields[AxleB] == Extend(axisMap(Xyz(Get(before, AxleA)))))
      && (Perp2AxleInB1 in before ==> o.fields[Perp2AxleInB1] == Extend(axisMap(Xyz(Get(before, Perp2AxleInA1)))))
      && (Perp2AxleInB2 in before ==> o.fields[Perp2AxleInB2] == Extend(axisMap(Xyz(Get(before, Perp2AxleInA2)))))
  {
    var k := ResolveKind(c.kind, c.subs.Keys);
    HingeSuffixExactlyHinges(k);
    assert Targets(HingeTable) == {PivotB, AxleB, Perp2AxleInB1, Perp2AxleInB2};
  }

  /** Ragdolls write Pivot B, Plane B and Twist B, and no second twist. */
  lemma RagdollWrites(c: Constraint, pivotMap: Vec3 -> Vec3, axisMap: Vec3 -> Vec3)
    requires IsApplicable(c.kind) && c.bodiesFound
    requires ResolveKind(c.kind, c.subs.Keys) == Ragdoll
    ensures var o := Cast(c, pivotMap, axisMap);
      && o.Rewritten?
      && var before := FieldsAt(c, o.at);
      && (forall f :: f in before && f !in {PivotB, PlaneB, TwistB} ==> o.fields[f] == before[f])
      && (PivotB in before ==> o.fields[PivotB] == Extend(pivotMap(Xyz(Get(before, PivotA)))))
      && (PlaneB in before ==> o.fields[PlaneB] == Extend(axisMap(Xyz(Get(before, PlaneA)))))
      && (TwistB in before ==> o.fields[TwistB] == Extend(axisMap(Xyz(Get(before, TwistA)))))
  {
    HingeSuffixExactlyHinges(Ragdoll);
    assert Targets(RagdollTable) == {PivotB, PlaneB, TwistB};
  }
}
