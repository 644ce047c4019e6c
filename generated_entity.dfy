/**
 * The resolved entity metadata: `GeneratedEntity` and its nested `Attribute` and
 * `RelationInfo`. Entities are shared by reference in the generator; here a
 * reference is the index of an entity in the resolution arena (see module
 * Resolution), so two names bound to the same entity hold the same index.
 */
module Entities {
  import opened Wrappers

  /** A reference to a generated entity: its slot in the arena. */
  type EntityRef = nat

  /** `RelationInfo.CollectionType`. */
  datatype RelationCollectionType = ListCollection | SetCollection

  /** The relation a synthesised attribute stands for. */
  datatype RelationInfo = RelationInfo(
    target: EntityRef,
    joinColumn: Option<string>,
    joinTable: Option<string>,
    collectionType: Option<RelationCollectionType>)

  /** An attribute of a generated entity. Its type is the name of a class, `None` when unset. */
  datatype Attribute = Attribute(
    name: string,
    typeName: Option<string>,
    reintroduced: bool,
    flags: Option<seq<string>>,
    relationInfo: Option<RelationInfo>)
  {
    /** `getFlags()`: unset flags read as the empty collection. */
    function Flags(): (r: seq<string>)
      ensures flags.None? ==> r == []
      ensures flags.Some? ==> r == flags.value
    {
      flags.GetOr([])
    }
  }

  /** `Attribute.equals`: attributes are the same exactly when their names are. */
  predicate AttributeEquals(a: Attribute, b: Attribute) {
    a.name == b.name
  }

  /** A set of attributes under name equality, held as a map from name to attribute. */
  type AttributeSet = map<string, Attribute>

  /** Every attribute is stored under its own name. */
  predicate NameKeyed(m: AttributeSet) {
    forall k :: k in m ==> m[k].name == k
  }

  /** A name-keyed map is a set in the sense of `Attribute.equals`: no two of its
      attributes are equal, and it holds exactly one attribute per name. */
  lemma {:induction false} NameKeyedIsAttributeSet(m: AttributeSet)
    requires NameKeyed(m)
    ensures forall a, b :: a in m.Values && b in m.Values && AttributeEquals(a, b) ==> a == b
    ensures |m.Values| == |m.Keys|
    decreases |m.Keys|
  {
    if m.Keys != {} {
      var k :| k in m.Keys;
      var rest := m - {k};
      NameKeyedIsAttributeSet(rest);
      assert rest.Keys == m.Keys - {k};
      forall j | j in rest
        ensures rest[j] != m[k]
      {
        assert rest[j].name == j != k == m[k].name;
      }
      assert m.Values == rest.Values + {m[k]} by {
        forall v | v in m.Values ensures v in rest.Values + {m[k]} {
          var j :| j in m && m[j] == v;
          if j != k {
            assert rest[j] == v;
          }
        }
      }
    }
  }

  /** A generated entity. Every field is unset (`None`) until resolution fills it. */
  datatype GeneratedEntity = GeneratedEntity(
    name: Option<string>,
    deployment: Option<string>,
    classFile: Option<string>,
    root: Option<EntityRef>,
    attributes: Option<AttributeSet>)
  {
    /** `getAttributes()`: unset attributes read as the empty collection. */
    function Attributes(): (r: AttributeSet)
      ensures attributes.None? ==> r == map[]
      ensures attributes.Some? ==> r == attributes.value
    {
      attributes.GetOr(map[])
    }
  }

  /** `new GeneratedEntity()`: nothing set, in particular no root. */
  const NewEntity := GeneratedEntity(None, None, None, None, None)

  /** `GeneratedEntity.equals`: entities are the same exactly when their names are. */
  predicate EntityEquals(a: GeneratedEntity, b: GeneratedEntity) {
    a.name == b.name
  }

  /** `String.hashCode` before reduction to 32 bits: the characters as digits in base 31. */
  function StringHash(s: string): nat {
    if s == [] then 0 else StringHash(s[..|s| - 1]) * 31 + s[|s| - 1] as nat
  }

  /** Java's wrap-around of an integer into a signed 32-bit `int`. */
  function ToInt32(x: int): (r: int)
    ensures -0x8000_0000 <= r < 0x8000_0000
    ensures (r - x) % 0x1_0000_0000 == 0
  {
    var m := x % 0x1_0000_0000;
    if m >= 0x8000_0000 then m - 0x1_0000_0000 else m
  }

  /** `GeneratedEntity.hashCode`, i.e. `Objects.hash(name)` = `31 + name.hashCode()` in 32-bit arithmetic. */
  function EntityHashCode(e: GeneratedEntity): int {
    ToInt32(31 + if e.name.Some? then StringHash(e.name.value) else 0)
  }

  /** `Attribute.hashCode`, i.e. `Objects.hash(name)`. */
  function AttributeHashCode(a: Attribute): int {
    ToInt32(31 + StringHash(a.name))
  }

  /** Equality and hashing agree: equal entities and equal attributes hash alike, whatever
      else differs between them. */
  lemma HashAgreesWithEquals(e1: GeneratedEntity, e2: GeneratedEntity, a1: Attribute, a2: Attribute)
    ensures EntityEquals(e1, e2) ==> EntityHashCode(e1) == EntityHashCode(e2)
    ensures AttributeEquals(a1, a2) ==> AttributeHashCode(a1) == AttributeHashCode(a2)
  {
  }
}
