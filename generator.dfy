/**
 * `generateEntities` and the mutable map it fills.
 *
 * `Generate` is the whole resolution run as a function of the parsed schemas:
 * validation, grouping, the duplicate check, the processing order, the root
 * check, the merge of every descriptor and, last, the relations of every schema.
 * `EntityMap` is the generator's `Map<String, GeneratedEntity>` together with the
 * entity objects it holds; its methods update it in place as the generator does,
 * and `GenerateEntities` drives them with the generator's loops.
 */
module Generator {
  import opened Wrappers
  import opened JavaStrings
  import opened Descriptors
  import opened Errors
  import opened Entities
  import opened Validation
  import opened Grouping
  import opened Resolution
  import opened Relations

  /** The relations of every schema, schema after schema (line 422). */
  function ApplySchemaRelations(s: Store, schemas: seq<SchemaDescriptor>): (t: Result<Store, Error>)
    requires s.Valid()
    ensures t.Success? ==> t.value.Valid() && t.value.index == s.index && |t.value.arena| == |s.arena|
    decreases |schemas|
  {
    if schemas == [] then Success(s)
    else
      var next :- ApplyRelations(s, schemas[0].Relations());
      ApplySchemaRelations(next, schemas[1..])
  }

  /** Every entity descriptor of valid schemas is itself valid and named. */
  lemma {:induction false} ValidSchemasHaveValidEntities(schemas: seq<SchemaDescriptor>)
    requires forall i :: 0 <= i < |schemas| ==> ValidSchema(schemas[i])
    ensures forall d :: d in AllEntities(schemas) ==> ValidEntity(d)
    ensures AllNamed(AllEntities(schemas))
  {
    if schemas != [] {
      ValidSchemasHaveValidEntities(schemas[1..]) by {
        forall i | 0 <= i < |schemas[1..]| ensures ValidSchema(schemas[1..][i]) {
          assert schemas[1..][i] == schemas[i + 1];
        }
      }
      assert ValidSchema(schemas[0]);
      var all := AllEntities(schemas);
      assert all == schemas[0].Entities() + AllEntities(schemas[1..]);
      forall d | d in all ensures ValidEntity(d) {
        if d in schemas[0].Entities() {
          var j :| 0 <= j < |schemas[0].Entities()| && schemas[0].Entities()[j] == d;
        }
      }
      forall i | 0 <= i < |all| ensures all[i].name.Some? {
        assert all[i] in all;
      }
    }
  }

  /** Lists with the same elements carry the same names. */
  lemma SameElementsSameNames(a: seq<EntityDescriptor>, b: seq<EntityDescriptor>)
    requires forall d :: d in a <==> d in b
    ensures Names(a) == Names(b)
  {
  }

  /** The groups are keyed by exactly the names of the descriptors. */
  lemma GroupKeys(ds: seq<EntityDescriptor>)
    requires AllNamed(ds)
    ensures GroupByName(ds).Keys == Names(ds)
  {
  }

  /** The processing queue of valid schemas holds exactly their descriptors. */
  lemma QueueOfValidSchemas(schemas: seq<SchemaDescriptor>, hashOrder: seq<string>)
    requires forall i :: 0 <= i < |schemas| ==> ValidSchema(schemas[i])
    requires IsEnumeration(hashOrder, Names(AllEntities(schemas)))
    ensures AllNamed(AllEntities(schemas))
    ensures var ds := AllEntities(schemas);
      var groups := GroupByName(ds);
      && groups.Keys == Names(ds)
      && var queue := Flatten(RootFirst(hashOrder, groups), groups);
      && (forall d :: d in queue <==> d in ds)
      && (forall i :: 0 <= i < |queue| ==> ValidEntity(queue[i]))
      && Names(queue) == Names(ds)
  {
    ValidSchemasHaveValidEntities(schemas);
    var ds := AllEntities(schemas);
    GroupKeys(ds);
    var groups := GroupByName(ds);
    var queue := Flatten(RootFirst(hashOrder, groups), groups);
    ProcessingQueueIsPermutation(ds, hashOrder);
    assert multiset(queue) == multiset(ds);
    forall d ensures d in queue <==> d in ds {
      assert d in queue <==> d in multiset(queue);
      assert d in ds <==> d in multiset(ds);
    }
    forall i | 0 <= i < |queue| ensures ValidEntity(queue[i]) {
      assert queue[i] in ds;
    }
    SameElementsSameNames(queue, ds);
  }

  /** Every stage of the run after validation is defined on valid schemas. */
  lemma QueueDefined(schemas: seq<SchemaDescriptor>, hashOrder: seq<string>)
    requires forall i :: 0 <= i < |schemas| ==> ValidSchema(schemas[i])
    requires IsEnumeration(hashOrder, Names(AllEntities(schemas)))
    ensures AllNamed(AllEntities(schemas))
    ensures var groups := GroupByName(AllEntities(schemas));
      && (forall i :: 0 <= i < |hashOrder| ==> hashOrder[i] in groups)
      && var order := RootFirst(hashOrder, groups);
      && (forall i :: 0 <= i < |order| ==> order[i] in groups)
      && var queue := Flatten(order, groups);
      && AllNamed(queue)
      && (forall i :: 0 <= i < |queue| ==> ValidEntity(queue[i]))
  {
    var ds := AllEntities(schemas);
    QueueOfValidSchemas(schemas, hashOrder);
    var groups := GroupByName(ds);
    assert groups.Keys == Names(ds);
    assert forall i :: 0 <= i < |hashOrder| ==> hashOrder[i] in groups by {
      forall i | 0 <= i < |hashOrder| ensures hashOrder[i] in groups {
        assert hashOrder[i] in hashOrder;
      }
    }
    var order := RootFirst(hashOrder, groups);
    assert forall i :: 0 <= i < |order| ==> order[i] in groups by {
      RootFirstOrder(hashOrder, groups);
      forall i | 0 <= i < |order| ensures order[i] in groups {
        assert order[i] in order;
      }
    }
    var queue := Flatten(order, groups);
    assert AllNamed(queue) by {
      forall i | 0 <= i < |queue| ensures queue[i].name.Some? {
        assert queue[i] in ds;
      }
    }
  }

  /** The run after validation, for schemas that all passed it. */
  function ResolveSchemas(schemas: seq<SchemaDescriptor>, classpath: set<string>, hashOrder: seq<string>)
    : (r: Result<Store, Error>)
    requires forall i :: 0 <= i < |schemas| ==> ValidSchema(schemas[i])
    requires IsEnumeration(hashOrder, Names(AllEntities(schemas)))
    ensures r.Success? ==> r.value.Valid()
  {
    QueueDefined(schemas, hashOrder);
    var groups := GroupByName(AllEntities(schemas));
    if DuplicateEntityError(hashOrder, groups).Some? then Failure(DuplicateEntityError(hashOrder, groups).value)
    else
      var order := RootFirst(hashOrder, groups);
      var queue := Flatten(order, groups);
      if order == [] then Success(EmptyStore)
      else if UnknownRootError(queue, groups.Keys).Some? then Failure(UnknownRootError(queue, groups.Keys).value)
      else
        var s :- ProcessAll(EmptyStore, queue, classpath);
        ApplySchemaRelations(s, schemas)
  }

  /** `generateEntities` after parsing: the resolved entities, or the exception that aborts
      the run. `hashOrder` is the iteration order of the grouping `HashMap`. */
  function Generate(schemas: seq<SchemaDescriptor>, classpath: set<string>, hashOrder: seq<string>)
    : (r: Result<Store, Error>)
    requires IsEnumeration(hashOrder, Names(AllEntities(schemas)))
    ensures r.Success? ==> r.value.Valid()
  {
    if schemas == [] then Failure(SchemasRequired)
    else if SchemasError(schemas).Some? then Failure(SchemasError(schemas).value)
    else
      SchemasErrorIffInvalid(schemas);
      ResolveSchemas(schemas, classpath, hashOrder)
  }

  /** A run without schemas is refused, and a run over schemas of which one is invalid
      fails with the exception of the first invalid schema; a schema without entities is
      one of those. */
  lemma GenerateRejectsInvalidSchemas(schemas: seq<SchemaDescriptor>, classpath: set<string>, hashOrder: seq<string>)
    requires IsEnumeration(hashOrder, Names(AllEntities(schemas)))
    ensures schemas == [] ==> Generate(schemas, classpath, hashOrder) == Failure(SchemasRequired)
    ensures (exists i :: 0 <= i < |schemas| && !ValidSchema(schemas[i])) ==>
      SchemasError(schemas).Some? && Generate(schemas, classpath, hashOrder) == Failure(SchemasError(schemas).value)
    ensures (exists i :: 0 <= i < |schemas| && |schemas[i].Entities()| == 0) ==> Generate(schemas, classpath, hashOrder).Failure?
  {
    SchemasErrorIffInvalid(schemas);
  }

  /** Over valid schemas, a name with two rootless descriptors, in one schema or in two,
      aborts the run with a duplicate-entity exception naming such a name. */
  lemma GenerateRejectsDuplicateEntities(schemas: seq<SchemaDescriptor>, classpath: set<string>, hashOrder: seq<string>)
    requires IsEnumeration(hashOrder, Names(AllEntities(schemas)))
    requires schemas != [] && forall i :: 0 <= i < |schemas| ==> ValidSchema(schemas[i])
    requires exists n, i, j :: (0 <= i < j < |AllEntities(schemas)|
      && Defines(AllEntities(schemas)[i], n) && Defines(AllEntities(schemas)[j], n))
    ensures var r := Generate(schemas, classpath, hashOrder);
      r.Failure? && r.error.DuplicateEntity?
      && exists i, j :: (0 <= i < j < |AllEntities(schemas)|
        && Defines(AllEntities(schemas)[i], r.error.name) && Defines(AllEntities(schemas)[j], r.error.name))
  {
    SchemasErrorIffInvalid(schemas);
    QueueOfValidSchemas(schemas, hashOrder);
    var ds := AllEntities(schemas);
    var groups := GroupByName(ds);
    DuplicateIffTwoDefinitions(ds, hashOrder);
    var n := DuplicateErrorName(hashOrder, groups);
    RootlessOfGroupCount(ds, n);
  }

  /** Valid schemas hold at least one group, so the early return for an empty map is
      never taken after validation. */
  lemma ValidSchemasGiveGroups(schemas: seq<SchemaDescriptor>, hashOrder: seq<string>)
    requires schemas != [] && forall i :: 0 <= i < |schemas| ==> ValidSchema(schemas[i])
    requires IsEnumeration(hashOrder, Names(AllEntities(schemas)))
    ensures AllNamed(AllEntities(schemas))
    ensures RootFirst(hashOrder, GroupByName(AllEntities(schemas))) != []
  {
    QueueOfValidSchemas(schemas, hashOrder);
    var ds := AllEntities(schemas);
    var groups := GroupByName(ds);
    assert ValidSchema(schemas[0]);
    assert ds == schemas[0].Entities() + AllEntities(schemas[1..]);
    assert ds[0] in ds;
    assert ds[0].name.value in hashOrder;
    RootFirstPermutes(hashOrder, groups);
    assert hashOrder[0] in multiset(hashOrder);
  }

  /** The stages a successful resolution of valid schemas went through. */
  lemma ResolveSchemasStages(schemas: seq<SchemaDescriptor>, classpath: set<string>, hashOrder: seq<string>)
    requires schemas != [] && forall i :: 0 <= i < |schemas| ==> ValidSchema(schemas[i])
    requires IsEnumeration(hashOrder, Names(AllEntities(schemas)))
    requires ResolveSchemas(schemas, classpath, hashOrder).Success?
    ensures AllNamed(AllEntities(schemas))
    ensures var groups := GroupByName(AllEntities(schemas));
      var queue := Flatten(RootFirst(hashOrder, groups), groups);
      && (forall i :: 0 <= i < |queue| ==> ValidEntity(queue[i]))
      && DuplicateEntityError(hashOrder, groups).None?
      && UnknownRootError(queue, groups.Keys).None?
      && ProcessAll(EmptyStore, queue, classpath).Success?
      && ResolveSchemas(schemas, classpath, hashOrder) == ApplySchemaRelations(ProcessAll(EmptyStore, queue, classpath).value, schemas)
  {
    QueueDefined(schemas, hashOrder);
    ValidSchemasGiveGroups(schemas, hashOrder);
  }

  /** A successful run over valid schemas: no duplicate definitions, every root known, and
      every entity name bound in the result. */
  lemma ResolveSchemasSucceedsOnlyOnConsistentSchemas(schemas: seq<SchemaDescriptor>, classpath: set<string>, hashOrder: seq<string>)
    requires schemas != [] && forall i :: 0 <= i < |schemas| ==> ValidSchema(schemas[i])
    requires IsEnumeration(hashOrder, Names(AllEntities(schemas)))
    requires ResolveSchemas(schemas, classpath, hashOrder).Success?
    ensures AllNamed(AllEntities(schemas))
    ensures var ds := AllEntities(schemas);
      && !(exists n, i, j :: 0 <= i < j < |ds| && Defines(ds[i], n) && Defines(ds[j], n))
      && (forall i :: 0 <= i < |ds| && ds[i].root.Some? ==> Grouping.RootKnown(ds[i], Names(ds)))
      && ResolveSchemas(schemas, classpath, hashOrder).value.index.Keys == Names(ds)
  {
    ResolveSchemasStages(schemas, classpath, hashOrder);
    QueueOfValidSchemas(schemas, hashOrder);
    var ds := AllEntities(schemas);
    DuplicateIffTwoDefinitions(ds, hashOrder);
    RootCheckOverAllDescriptors(ds, hashOrder);
  }

  /** A successful run comes from consistent schemas: all are valid, no name is defined
      twice without a root, every root names an entity of some schema, and every entity
      name is bound in the result. */
  lemma GenerateSucceedsOnlyOnConsistentSchemas(schemas: seq<SchemaDescriptor>, classpath: set<string>, hashOrder: seq<string>)
    requires IsEnumeration(hashOrder, Names(AllEntities(schemas)))
    requires Generate(schemas, classpath, hashOrder).Success?
    ensures schemas != [] && forall i :: 0 <= i < |schemas| ==> ValidSchema(schemas[i])
    ensures AllNamed(AllEntities(schemas))
    ensures var ds := AllEntities(schemas);
      && !(exists n, i, j :: 0 <= i < j < |ds| && Defines(ds[i], n) && Defines(ds[j], n))
      && (forall i :: 0 <= i < |ds| && ds[i].root.Some? ==> Grouping.RootKnown(ds[i], Names(ds)))
      && Generate(schemas, classpath, hashOrder).value.index.Keys == Names(ds)
  {
    SchemasErrorIffInvalid(schemas);
    ResolveSchemasSucceedsOnlyOnConsistentSchemas(schemas, classpath, hashOrder);
  }

  /** The attribute stream of `processEntityDescriptor` (lines 228-251), descriptor by
      descriptor: the first offender aborts; of several with one name the first is kept. */
  method CollectAttributeDescriptors(ads: seq<AttributeDescriptor>, working: AttributeSet, classpath: set<string>)
    returns (r: Result<AttributeSet, Error>)
    requires forall i :: 0 <= i < |ads| ==> ValidAttribute(ads[i])
    ensures r == CollectAttributes(ads, working, classpath)
  {
    var generated: AttributeSet := map[];
    for i := 0 to |ads|
      invariant CollectAttributes(ads[..i], working, classpath) == Success(generated)
    {
      var ad := ads[i];
      assert ads[..i + 1][..i] == ads[..i];
      if ad.typeName.value !in classpath {
        CollectAttributesPrefixFailure(ads, i + 1, working, classpath);
        return Failure(ClassNotFound(ad.name.value));
      }
      if ad.name.value in working && !ad.IsReintroduced() {
        CollectAttributesPrefixFailure(ads, i + 1, working, classpath);
        return Failure(DuplicateAttribute(ad.name.value));
      }
      if ad.name.value !in generated {
        generated := generated[ad.name.value := ResolveAttribute(ad)];
      }
    }
    assert ads[..|ads|] == ads;
    return Success(generated);
  }

  /** Part way through the replacement loop: the new attributes not pending any more have
      replaced or joined the working ones. */
  predicate Replaced(attributes: AttributeSet, working: AttributeSet, generated: AttributeSet, pending: set<string>) {
    && pending <= generated.Keys
    && attributes.Keys == working.Keys + (generated.Keys - pending)
    && forall k :: k in attributes ==>
         attributes[k] == if k in generated && k !in pending then generated[k] else working[k]
  }

  /** Storing one pending attribute moves it out of the pending set. */
  lemma ReplaceStep(attributes: AttributeSet, working: AttributeSet, generated: AttributeSet, pending: set<string>, k: string)
    requires Replaced(attributes, working, generated, pending) && k in pending
    ensures Replaced(attributes[k := generated[k]], working, generated, pending - {k})
  {
  }

  /** With nothing pending, the new attributes have replaced the old ones of their names. */
  lemma ReplacedAll(attributes: AttributeSet, working: AttributeSet, generated: AttributeSet)
    requires Replaced(attributes, working, generated, {})
    ensures attributes.Keys == working.Keys + generated.Keys
    ensures forall k :: k in generated ==> attributes[k] == generated[k]
    ensures forall k :: k in working && k !in generated ==> attributes[k] == working[k]
    ensures attributes == working + generated
  {
  }

  /** The replacement loop of `processEntityDescriptor` (lines 254-259): each new attribute
      is added, and one whose name is taken is removed and added again, so the new
      definitions replace the old ones and the other attributes stay. */
  method ReplaceAttributes(working: AttributeSet, generated: AttributeSet) returns (attributes: AttributeSet)
    ensures attributes.Keys == working.Keys + generated.Keys
    ensures forall k :: k in generated ==> attributes[k] == generated[k]
    ensures forall k :: k in working && k !in generated ==> attributes[k] == working[k]
    ensures attributes == working + generated
  {
    attributes := working;
    var pending := generated.Keys;
    while pending != {}
      invariant Replaced(attributes, working, generated, pending)
      decreases |pending|
    {
      var k :| k in pending;
      ReplaceStep(attributes, working, generated, pending, k);
      ghost var next := attributes[k := generated[k]];
      if k !in attributes {
        attributes := attributes[k := generated[k]];
      } else {
        attributes := attributes - {k};
        attributes := attributes[k := generated[k]];
      }
      assert attributes == next;
      pending := pending - {k};
    }
    ReplacedAll(attributes, working, generated);
  }

  /** The generator's `Map<String, GeneratedEntity>` and the objects it refers to. */
  class EntityMap {
    var arena: seq<GeneratedEntity>
    var index: map<string, EntityRef>

    /** The map and its objects as a value. */
    function State(): Store
      reads this
    {
      Store(arena, index)
    }

    /** `new HashMap<>()`: no entities. */
    constructor ()
      ensures State() == EmptyStore
    {
      arena := [];
      index := map[];
    }

    /** `processEntityDescriptor`: merges one descriptor into the map, or reports the
        exception that aborts the run. */
    method ProcessEntityDescriptor(d: EntityDescriptor, classpath: set<string>) returns (error: Option<Error>)
      requires State().Valid() && ValidEntity(d)
      modifies this
      ensures error.None? <==> ProcessEntity(old(State()), d, classpath).Success?
      ensures error.None? ==> State() == ProcessEntity(old(State()), d, classpath).value
      ensures error.Some? ==> ProcessEntity(old(State()), d, classpath) == Failure(error.value)
    {
      var s := State();
      var name := d.name.value;
      var slot: nat, entity := |arena|, NewEntity;
      if name in index {
        slot, entity := index[name], arena[index[name]];
      }
      var attributes := entity.Attributes();
      if d.root.Some? {
        var rootName := d.root.value.name.value;
        if !d.root.value.ExtendsRoot() {
          if rootName !in index {
            return Some(MissingRootEntity(rootName));
          }
          entity := entity.(root := Some(index[rootName]));
          attributes := arena[index[rootName]].Attributes() + attributes;
        } else if rootName in index {
          slot, entity := index[rootName], arena[index[rootName]];
        }
      }
      assert slot == TargetSlot(s, d) && attributes == Working(s, d);
      if IsBlank(entity.name) {
        entity := entity.(name := d.name);
      }
      if IsBlank(entity.deployment) {
        entity := entity.(deployment := d.deployment);
      }
      if IsBlank(entity.classFile) {
        entity := entity.(classFile := d.classFile);
      }

      var collected := CollectAttributeDescriptors(d.Attributes(), attributes, classpath);
      if collected.Failure? {
        return Some(collected.error);
      }
      var generated := collected.value;
      attributes := ReplaceAttributes(attributes, generated);
      assert attributes == Working(s, d) + generated;
      entity := entity.(attributes := Some(attributes));
      if slot < |arena| {
        arena := arena[slot := entity];
      } else {
        arena := arena + [entity];
      }
      index := index[name := slot];
      error := None;
    }

    /** `processRelationDescriptors`: the relations of one schema, in order. Each is
        validated, both attribute lists are copied, a ONE-to-MANY relation adds one
        attribute to each copy, and the source's list is stored before the target's. */
    method ProcessRelationDescriptors(schema: SchemaDescriptor) returns (error: Option<Error>)
      requires State().Valid()
      modifies this
      ensures error.None? <==> ApplyRelations(old(State()), schema.Relations()).Success?
      ensures error.None? ==> State() == ApplyRelations(old(State()), schema.Relations()).value
      ensures error.Some? ==> ApplyRelations(old(State()), schema.Relations()) == Failure(error.value)
    {
      var relations := schema.Relations();
      if |relations| == 0 {
        return None;
      }
      for i := 0 to |relations|
        invariant State().Valid()
        invariant ApplyRelations(old(State()), relations) == ApplyRelations(State(), relations[i..])
      {
        var relation := relations[i];
        assert relations[i..][1..] == relations[i + 1..];
        ghost var before := State();
        error := RelationError(State(), relation);
        if error.Some? {
          return;
        }
        RelationErrorIffInvalid(State(), relation);
        var source, target := relation.source.value, relation.target.value;
        var sourceSlot, targetSlot := index[source.entity.value], index[target.entity.value];
        var sourceAttribs, targetAttribs := arena[sourceSlot].Attributes(), arena[targetSlot].Attributes();
        if source.side == Some(ONE) && target.side == Some(MANY) {
          var sourceAttrib := CreateRelationAttribute(source.attributeName.value, source.collectionType,
            targetSlot, relation.joinColumn, relation.joinTable);
          var targetAttrib := CreateRelationAttribute(target.attributeName.value, None,
            sourceSlot, relation.joinColumn, relation.joinTable);
          sourceAttribs := sourceAttribs[source.attributeName.value := sourceAttrib];
          targetAttribs := targetAttribs[target.attributeName.value := targetAttrib];
        }
        arena := arena[sourceSlot := arena[sourceSlot].(attributes := Some(sourceAttribs))];
        arena := arena[targetSlot := arena[targetSlot].(attributes := Some(targetAttribs))];
        assert ApplyRelation(before, relation) == Success(State());
      }
      error := None;
    }

    /** One group of the merge loop (line 419): its descriptors in input order. */
    method ProcessDescriptors(descriptors: seq<EntityDescriptor>, classpath: set<string>) returns (error: Option<Error>)
      requires State().Valid() && forall i :: 0 <= i < |descriptors| ==> ValidEntity(descriptors[i])
      modifies this
      ensures error.None? <==> ProcessAll(old(State()), descriptors, classpath).Success?
      ensures error.None? ==> State() == ProcessAll(old(State()), descriptors, classpath).value
      ensures error.Some? ==> ProcessAll(old(State()), descriptors, classpath) == Failure(error.value)
    {
      for j := 0 to |descriptors|
        invariant State().Valid()
        invariant ProcessAll(old(State()), descriptors, classpath) == ProcessAll(State(), descriptors[j..], classpath)
      {
        assert descriptors[j..][1..] == descriptors[j + 1..];
        error := ProcessEntityDescriptor(descriptors[j], classpath);
        if error.Some? {
          return;
        }
      }
      error := None;
    }

    /** The merge loop of `generateEntities` (lines 418-419): the groups in processing
        order, each group's descriptors in input order. */
    method ProcessGroups(order: seq<string>, groups: map<string, seq<EntityDescriptor>>, classpath: set<string>)
      returns (error: Option<Error>)
      requires State().Valid()
      requires forall i :: 0 <= i < |order| ==> order[i] in groups
      requires forall i :: 0 <= i < |Flatten(order, groups)| ==> ValidEntity(Flatten(order, groups)[i])
      modifies this
      ensures error.None? <==> ProcessAll(old(State()), Flatten(order, groups), classpath).Success?
      ensures error.None? ==> State() == ProcessAll(old(State()), Flatten(order, groups), classpath).value
      ensures error.Some? ==> ProcessAll(old(State()), Flatten(order, groups), classpath) == Failure(error.value)
    {
      ghost var queue := Flatten(order, groups);
      ghost var rest := queue;
      assert order[0..] == order;
      for g := 0 to |order|
        invariant State().Valid()
        invariant rest == Flatten(order[g..], groups)
        invariant forall i :: 0 <= i < |rest| ==> ValidEntity(rest[i])
        invariant ProcessAll(old(State()), queue, classpath) == ProcessAll(State(), rest, classpath)
      {
        var descriptors := groups[order[g]];
        ghost var later := FlattenFrom(order, groups, g);
        ProcessAllAppend(State(), descriptors, later, classpath);
        error := ProcessDescriptors(descriptors, classpath);
        if error.Some? {
          return;
        }
        rest := later;
      }
      assert order[|order|..] == [];
      error := None;
    }

    /** The relation loop of `generateEntities` (line 422): every schema's relations, schema
        after schema. */
    method ProcessSchemaRelations(schemas: seq<SchemaDescriptor>) returns (error: Option<Error>)
      requires State().Valid()
      modifies this
      ensures error.None? <==> ApplySchemaRelations(old(State()), schemas).Success?
      ensures error.None? ==> State() == ApplySchemaRelations(old(State()), schemas).value
      ensures error.Some? ==> ApplySchemaRelations(old(State()), schemas) == Failure(error.value)
    {
      for i := 0 to |schemas|
        invariant State().Valid()
        invariant ApplySchemaRelations(old(State()), schemas) == ApplySchemaRelations(State(), schemas[i..])
      {
        assert schemas[i..][1..] == schemas[i + 1..];
        error := ProcessRelationDescriptors(schemas[i]);
        if error.Some? {
          return;
        }
      }
      error := None;
    }
  }

  /** The groups from `g` on are the group at `g`, then those after it. */
  lemma FlattenFrom(order: seq<string>, groups: map<string, seq<EntityDescriptor>>, g: nat)
    returns (later: seq<EntityDescriptor>)
    requires g < |order| && forall i :: 0 <= i < |order| ==> order[i] in groups
    requires forall i :: 0 <= i < |Flatten(order[g..], groups)| ==> ValidEntity(Flatten(order[g..], groups)[i])
    ensures later == Flatten(order[g + 1..], groups)
    ensures Flatten(order[g..], groups) == groups[order[g]] + later
    ensures forall i :: 0 <= i < |groups[order[g]]| ==> ValidEntity(groups[order[g]][i])
    ensures forall i :: 0 <= i < |later| ==> ValidEntity(later[i])
  {
    assert order[g..][1..] == order[g + 1..];
    var descriptors := groups[order[g]];
    later := Flatten(order[g + 1..], groups);
    var all := Flatten(order[g..], groups);
    assert all == descriptors + later;
    forall i | 0 <= i < |descriptors| ensures ValidEntity(descriptors[i]) {
      assert all[i] == descriptors[i];
    }
    forall i | 0 <= i < |later| ensures ValidEntity(later[i]) {
      assert all[|descriptors| + i] == later[i];
    }
  }

  /** Merging a list of descriptors is merging its first part, then the rest. */
  lemma {:induction false} ProcessAllAppend(s: Store, a: seq<EntityDescriptor>, b: seq<EntityDescriptor>, classpath: set<string>)
    requires s.Valid()
    requires forall i :: 0 <= i < |a| ==> ValidEntity(a[i])
    requires forall i :: 0 <= i < |b| ==> ValidEntity(b[i])
    ensures forall i :: 0 <= i < |a + b| ==> ValidEntity((a + b)[i])
    ensures ProcessAll(s, a + b, classpath) ==
      match ProcessAll(s, a, classpath)
      case Success(t) => ProcessAll(t, b, classpath)
      case Failure(e) => Failure(e)
    decreases |a|
  {
    assert forall i :: 0 <= i < |a + b| ==> ValidEntity((a + b)[i]) by {
      forall i | 0 <= i < |a + b| ensures ValidEntity((a + b)[i]) {
        if i >= |a| {
          assert (a + b)[i] == b[i - |a|];
        }
      }
    }
    if a == [] {
      assert a + b == b;
    } else {
      assert (a + b)[0] == a[0] && (a + b)[1..] == a[1..] + b;
      var first := ProcessEntity(s, a[0], classpath);
      if first.Success? {
        ProcessAllAppend(first.value, a[1..], b, classpath);
      }
    }
  }

  /** The schema validation loop of `generateEntities` (lines 388-391): schemas in the
      order given, the first invalid one aborting the run. */
  method ValidateSchemas(schemas: seq<SchemaDescriptor>) returns (error: Option<Error>)
    ensures error == SchemasError(schemas)
  {
    for i := 0 to |schemas|
      invariant SchemasError(schemas) == SchemasError(schemas[i..])
    {
      assert schemas[i..][1..] == schemas[i + 1..];
      error := ValidateSchemaDescriptor(schemas[i]);
      if error.Some? {
        return;
      }
    }
    return None;
  }

  /** `generateEntities` after parsing: validation, grouping and the checks, then every
      group's descriptors merged into a fresh map in processing order, then the relations
      of every schema. */
  method GenerateEntities(schemas: seq<SchemaDescriptor>, classpath: set<string>, hashOrder: seq<string>)
    returns (result: Result<Store, Error>)
    requires IsEnumeration(hashOrder, Names(AllEntities(schemas)))
    ensures result == Generate(schemas, classpath, hashOrder)
  {
    if |schemas| == 0 {
      return Failure(SchemasRequired);
    }
    var invalid := ValidateSchemas(schemas);
    if invalid.Some? {
      return Failure(invalid.value);
    }
    SchemasErrorIffInvalid(schemas);
    result := ResolveSchemaDescriptors(schemas, classpath, hashOrder);
  }

  /** The part of `generateEntities` after validation: group, check, order, process the
      entities and then the relations, all into one fresh map. */
  method ResolveSchemaDescriptors(schemas: seq<SchemaDescriptor>, classpath: set<string>, hashOrder: seq<string>)
    returns (result: Result<Store, Error>)
    requires forall i :: 0 <= i < |schemas| ==> ValidSchema(schemas[i])
    requires IsEnumeration(hashOrder, Names(AllEntities(schemas)))
    ensures result == ResolveSchemas(schemas, classpath, hashOrder)
  {
    QueueDefined(schemas, hashOrder);
    var groups := GroupByName(AllEntities(schemas));
    var duplicate := DuplicateEntityError(hashOrder, groups);
    if duplicate.Some? {
      return Failure(duplicate.value);
    }
    var order := RootFirst(hashOrder, groups);
    if |order| == 0 {
      return Success(EmptyStore);
    }
    var unknownRoot := UnknownRootError(Flatten(order, groups), groups.Keys);
    if unknownRoot.Some? {
      return Failure(unknownRoot.value);
    }

    var entities := new EntityMap();
    var error := entities.ProcessGroups(order, groups, classpath);
    if error.Some? {
      return Failure(error.value);
    }
    error := entities.ProcessSchemaRelations(schemas);
    if error.Some? {
      return Failure(error.value);
    }
    return Success(entities.State());
  }
}
