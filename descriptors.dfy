/**
 * The raw descriptors a schema document is parsed into. Every field may be absent
 * in the document (Java leaves it `null`); the getters that default a missing
 * collection or flag are member functions. Descriptors are values: nothing can
 * change one after parsing.
 */
module Descriptors {
  import opened Wrappers

  /** An attribute of an entity: its name, its type (the JSON field `type`), `reintroduce` and `flags`. */
  datatype AttributeDescriptor = AttributeDescriptor(
    name: Option<string>,
    typeName: Option<string>,
    reintroduce: Option<bool>,
    flags: Option<seq<string>>)
  {
    /** `isReintroduced()`: an absent `reintroduce` means false. */
    function IsReintroduced(): (r: bool)
      ensures reintroduce.None? ==> !r
      ensures reintroduce.Some? ==> r == reintroduce.value
    {
      reintroduce.GetOr(false)
    }

    /** `getFlags()`: absent flags read as the empty collection. */
    function Flags(): (r: seq<string>)
      ensures flags.None? ==> r == []
      ensures flags.Some? ==> r == flags.value
    {
      flags.GetOr([])
    }
  }

  /** The `root` of an entity: the name of another entity and whether to extend it. */
  datatype RootDescriptor = RootDescriptor(name: Option<string>, extend: Option<bool>) {

    /** `extendsRoot()`: an absent `extend` means true (extension is the default). */
    function ExtendsRoot(): (r: bool)
      ensures extend.None? ==> r
      ensures extend.Some? ==> r == extend.value
    {
      extend.GetOr(true)
    }
  }

  /** An entity fragment. A descriptor without a root defines an entity; one with a root
      extends or inherits from the root entity. */
  datatype EntityDescriptor = EntityDescriptor(
    name: Option<string>,
    deployment: Option<string>,
    classFile: Option<string>,
    root: Option<RootDescriptor>,
    attributes: Option<seq<AttributeDescriptor>>)
  {
    /** `getAttributes()`: absent attributes read as the empty collection, in declared order otherwise. */
    function Attributes(): (r: seq<AttributeDescriptor>)
      ensures attributes.None? ==> r == []
      ensures attributes.Some? ==> r == attributes.value
    {
      attributes.GetOr([])
    }
  }

  /** `EntityRelationSideDescriptor.Side`. */
  datatype Side = ONE | MANY

  /** `EntityRelationSideDescriptor.CollectionType`. */
  datatype CollectionType = LIST | SET

  /** One end of a relation. */
  datatype RelationSideDescriptor = RelationSideDescriptor(
    entity: Option<string>,
    attributeName: Option<string>,
    side: Option<Side>,
    collectionType: Option<CollectionType>)

  /** A relation between two entities: two sides and the join information. */
  datatype RelationDescriptor = RelationDescriptor(
    source: Option<RelationSideDescriptor>,
    target: Option<RelationSideDescriptor>,
    joinTable: Option<string>,
    joinColumn: Option<string>)

  /** One schema document: its entity fragments and its relations. */
  datatype SchemaDescriptor = SchemaDescriptor(
    entities: Option<seq<EntityDescriptor>>,
    relations: Option<seq<RelationDescriptor>>)
  {
    /** `getEntities()`: absent entities read as the empty collection, in parsed order otherwise. */
    function Entities(): (r: seq<EntityDescriptor>)
      ensures entities.None? ==> r == []
      ensures entities.Some? ==> r == entities.value
    {
      entities.GetOr([])
    }

    /** `getRelations()`: absent relations read as the empty collection, in parsed order otherwise. */
    function Relations(): (r: seq<RelationDescriptor>)
      ensures relations.None? ==> r == []
      ensures relations.Some? ==> r == relations.value
    {
      relations.GetOr([])
    }
  }
}
