/**
 * Relation synthesis (`processRelationDescriptors` and its validators). A relation
 * is checked against the resolved entities; a ONE-to-MANY relation then gives each
 * of its two entities one attribute pointing at the other. Every other combination
 * of sides is accepted and adds nothing.
 */
module Relations {
  import opened Wrappers
  import opened JavaStrings
  import opened Descriptors
  import opened Errors
  import opened Entities
  import opened Resolution

  /** The class a LIST relation attribute has (`List.class`). */
  const ListType := "java.util.List"
  /** The class a SET relation attribute has (`Set.class`). */
  const SetType := "java.util.Set"

  /** `validateRelationSideDescriptor`: entity name, then attribute name, then side. */
  function SideError(side: RelationSideDescriptor): Option<Error> {
    if IsBlank(side.entity) then Some(RelationSideNeedsEntity)
    else if IsBlank(side.attributeName) then Some(RelationSideNeedsAttributeName)
    else if side.side.None? then Some(RelationSideNeedsSide)
    else None
  }

  /** A side with an entity name, an attribute name and a side. */
  predicate ValidSide(side: RelationSideDescriptor) {
    !IsBlank(side.entity) && !IsBlank(side.attributeName) && side.side.Some?
  }

  /** The side `side` of a relation names a resolved entity that has no attribute of the
      side's attribute name yet. */
  predicate SideFits(s: Store, side: RelationSideDescriptor)
    requires s.Valid() && ValidSide(side)
  {
    side.entity.value in s.index && side.attributeName.value !in s.arena[s.index[side.entity.value]].Attributes()
  }

  /** A relation that `validateRelationDescriptor` accepts. */
  predicate ValidRelation(s: Store, r: RelationDescriptor)
    requires s.Valid()
  {
    && r.source.Some? && r.target.Some?
    && ValidSide(r.source.value) && ValidSide(r.target.value)
    && SideFits(s, r.source.value) && SideFits(s, r.target.value)
  }

  /** `validateRelationDescriptor`: the first violated check, in the generator's order. */
  function RelationError(s: Store, r: RelationDescriptor): Option<Error>
    requires s.Valid()
  {
    if r.source.None? || r.target.None? then Some(RelationNeedsBothSides)
    else
      var source, target := r.source.value, r.target.value;
      if SideError(source).Some? then SideError(source)
      else if SideError(target).Some? then SideError(target)
      else if source.entity.value !in s.index then Some(UnknownSourceEntity)
      else if target.entity.value !in s.index then Some(UnknownTargetEntity)
      else if source.attributeName.value in s.arena[s.index[source.entity.value]].Attributes() then
        Some(RelationAttributeExists(source.attributeName.value))
      else if target.attributeName.value in s.arena[s.index[target.entity.value]].Attributes() then
        Some(RelationAttributeExists(target.attributeName.value))
      else None
  }

  /** The side checks reject exactly the incomplete sides. */
  lemma SideErrorIffInvalid(side: RelationSideDescriptor)
    ensures SideError(side).None? <==> ValidSide(side)
  {
  }

  /** A relation is rejected exactly when it breaks one of the rules. */
  lemma RelationErrorIffInvalid(s: Store, r: RelationDescriptor)
    requires s.Valid()
    ensures RelationError(s, r).None? <==> ValidRelation(s, r)
  {
    if r.source.Some? && r.target.Some? {
      SideErrorIffInvalid(r.source.value);
      SideErrorIffInvalid(r.target.value);
    }
  }

  /** `createRelationAttribute`: an attribute standing for the relation to `target`. With a
      collection type it is typed `List` or `Set` to match; without one it has no type. */
  function CreateRelationAttribute(
    attributeName: string, collectionType: Option<CollectionType>, target: EntityRef,
    joinColumn: Option<string>, joinTable: Option<string>): (a: Attribute)
    ensures a.name == attributeName && !a.reintroduced && a.relationInfo.Some?
    ensures a.relationInfo.value.target == target
    ensures a.relationInfo.value.joinColumn == joinColumn && a.relationInfo.value.joinTable == joinTable
    ensures a.typeName.None? <==> a.relationInfo.value.collectionType.None?
    ensures a.typeName == Some(ListType) <==> a.relationInfo.value.collectionType == Some(ListCollection)
    ensures a.typeName == Some(SetType) <==> a.relationInfo.value.collectionType == Some(SetCollection)
    ensures collectionType == Some(LIST) <==> a.typeName == Some(ListType)
    ensures collectionType.None? <==> a.typeName.None?
  {
    var info := RelationInfo(target, joinColumn, joinTable, None);
    match collectionType
    case None => Attribute(attributeName, None, false, None, Some(info))
    case Some(LIST) => Attribute(attributeName, Some(ListType), false, None, Some(info.(collectionType := Some(ListCollection))))
    case Some(SET) => Attribute(attributeName, Some(SetType), false, None, Some(info.(collectionType := Some(SetCollection))))
  }

  /** The source side is ONE and the target side is MANY. */
  predicate OneToMany(r: RelationDescriptor)
    requires r.source.Some? && r.target.Some?
  {
    r.source.value.side == Some(ONE) && r.target.value.side == Some(MANY)
  }

  /** The slot of the entity a side names. */
  function SlotOf(s: Store, side: RelationSideDescriptor): EntityRef
    requires s.Valid() && ValidSide(side) && side.entity.value in s.index
  {
    s.index[side.entity.value]
  }

  /** The attribute a ONE-to-MANY relation gives its source entity: typed by the source
      side's collection type, pointing at the target entity. */
  function SourceAttribute(s: Store, r: RelationDescriptor): Attribute
    requires s.Valid() && ValidRelation(s, r)
  {
    CreateRelationAttribute(r.source.value.attributeName.value, r.source.value.collectionType,
      SlotOf(s, r.target.value), r.joinColumn, r.joinTable)
  }

  /** The attribute a ONE-to-MANY relation gives its target entity: untyped, pointing at
      the source entity. */
  function TargetAttribute(s: Store, r: RelationDescriptor): Attribute
    requires s.Valid() && ValidRelation(s, r)
  {
    CreateRelationAttribute(r.target.value.attributeName.value, None, SlotOf(s, r.source.value), r.joinColumn, r.joinTable)
  }

  /** One iteration of `processRelationDescriptors`: validate, copy both attribute lists, add
      the pair for a ONE-to-MANY relation, then store the source's list and after it the
      target's. */
  function ApplyRelation(s: Store, r: RelationDescriptor): (t: Result<Store, Error>)
    requires s.Valid()
    ensures t.Success? ==> t.value.Valid() && t.value.index == s.index && |t.value.arena| == |s.arena|
  {
    if RelationError(s, r).Some? then Failure(RelationError(s, r).value)
    else
      RelationErrorIffInvalid(s, r);
      var src, tgt := SlotOf(s, r.source.value), SlotOf(s, r.target.value);
      var srcAttrs, tgtAttrs := s.arena[src].Attributes(), s.arena[tgt].Attributes();
      var srcAttrs' := if OneToMany(r) then srcAttrs[r.source.value.attributeName.value := SourceAttribute(s, r)] else srcAttrs;
      var tgtAttrs' := if OneToMany(r) then tgtAttrs[r.target.value.attributeName.value := TargetAttribute(s, r)] else tgtAttrs;
      var arena1 := s.arena[src := s.arena[src].(attributes := Some(srcAttrs'))];
      var arena2 := arena1[tgt := arena1[tgt].(attributes := Some(tgtAttrs'))];
      assert EntityWithin(s.arena[src], |s.arena|) && EntityWithin(s.arena[tgt], |s.arena|);
      assert forall i :: 0 <= i < |arena2| ==> EntityWithin(arena2[i], |arena2|) by {
        forall i | 0 <= i < |arena2| ensures EntityWithin(arena2[i], |arena2|) {
          assert EntityWithin(s.arena[i], |s.arena|);
        }
      }
      Success(Store(arena2, s.index))
  }

  /** `processRelationDescriptors` for one schema: its relations in order; the first
      exception aborts the run. */
  function ApplyRelations(s: Store, rels: seq<RelationDescriptor>): (t: Result<Store, Error>)
    requires s.Valid()
    ensures t.Success? ==> t.value.Valid() && t.value.index == s.index && |t.value.arena| == |s.arena|
    decreases |rels|
  {
    if rels == [] then Success(s)
    else
      var next :- ApplyRelation(s, rels[0]);
      ApplyRelations(next, rels[1..])
  }

  /** A ONE-to-MANY relation between two different entities gives each exactly one new
      attribute: the source one typed by the source side's collection type and pointing at
      the target, the target one untyped and pointing at the source, both carrying the
      join column and table. Every other entity stays as it was. */
  lemma OneToManyAddsOneAttributeEach(s: Store, r: RelationDescriptor)
    requires s.Valid() && ApplyRelation(s, r).Success?
    requires r.source.Some? && r.target.Some? && OneToMany(r)
    ensures ValidRelation(s, r)
    ensures var t := ApplyRelation(s, r).value;
      var src, tgt := SlotOf(s, r.source.value), SlotOf(s, r.target.value);
      var sa, ta := r.source.value.attributeName.value, r.target.value.attributeName.value;
      src != tgt ==>
        && sa !in s.arena[src].Attributes() && ta !in s.arena[tgt].Attributes()
        && t.arena[src].Attributes() == s.arena[src].Attributes()[sa := SourceAttribute(s, r)]
        && t.arena[tgt].Attributes() == s.arena[tgt].Attributes()[ta := TargetAttribute(s, r)]
        && t.arena[src].Attributes()[sa].relationInfo.value.target == tgt
        && t.arena[tgt].Attributes()[ta].relationInfo.value.target == src
        && t.arena[tgt].Attributes()[ta].typeName.None?
        && (r.source.value.collectionType == Some(LIST) <==> t.arena[src].Attributes()[sa].typeName == Some(ListType))
        && |t.arena[src].Attributes()| == |s.arena[src].Attributes()| + 1
        && |t.arena[tgt].Attributes()| == |s.arena[tgt].Attributes()| + 1
        && forall j :: 0 <= j < |s.arena| && j != src && j != tgt ==> t.arena[j] == s.arena[j]
  {
    RelationErrorIffInvalid(s, r);
  }

  /** A relation whose sides are not ONE and MANY passes validation and changes no entity's
      attributes, names, roots or anything else apart from giving it an attribute list. */
  lemma OtherSidesAddNothing(s: Store, r: RelationDescriptor)
    requires s.Valid() && ApplyRelation(s, r).Success?
    requires r.source.Some? && r.target.Some? && !OneToMany(r)
    ensures var t := ApplyRelation(s, r).value;
      forall j :: 0 <= j < |s.arena| ==>
        t.arena[j].Attributes() == s.arena[j].Attributes() && t.arena[j].(attributes := None) == s.arena[j].(attributes := None)
  {
  }

  /** A ONE-to-MANY relation from an entity to itself keeps only the target side's
      attribute: the target's list, copied before the source attribute was added, is
      stored last. */
  lemma SelfRelationLosesSourceAttribute(s: Store, r: RelationDescriptor)
    requires s.Valid() && ApplyRelation(s, r).Success?
    requires r.source.Some? && r.target.Some? && OneToMany(r)
    requires r.source.value.entity == r.target.value.entity
    ensures ValidRelation(s, r)
    ensures var t := ApplyRelation(s, r).value;
      var slot := SlotOf(s, r.source.value);
      var sa, ta := r.source.value.attributeName.value, r.target.value.attributeName.value;
      && t.arena[slot].Attributes() == s.arena[slot].Attributes()[ta := TargetAttribute(s, r)]
      && (sa != ta ==> sa !in t.arena[slot].Attributes())
  {
    RelationErrorIffInvalid(s, r);
  }
}
