/**
 * Structural validation of parsed schema descriptors (`validateEntityDescriptor`,
 * `validateSchemaDescriptor`). The checks run in a fixed order and the first
 * violation aborts the run; `EntityError` and `SchemaError` name that first
 * violation, and the validator methods walk the descriptors as the generator does.
 */
module Validation {
  import opened Wrappers
  import opened JavaStrings
  import opened Descriptors
  import opened Errors

  /** An attribute descriptor with a non-blank name and type. */
  predicate ValidAttribute(a: AttributeDescriptor) {
    !IsBlank(a.name) && !IsBlank(a.typeName)
  }

  /** An entity descriptor that passes every check: a name; a named root if any; a deployment
      and a class file unless it has a root; and valid attributes. */
  predicate ValidEntity(d: EntityDescriptor) {
    && !IsBlank(d.name)
    && (d.root.Some? ==> !IsBlank(d.root.value.name))
    && (d.root.None? ==> !IsBlank(d.deployment) && !IsBlank(d.classFile))
    && forall i :: 0 <= i < |d.Attributes()| ==> ValidAttribute(d.Attributes()[i])
  }

  /** A schema with at least one entity, all of them valid. */
  predicate ValidSchema(s: SchemaDescriptor) {
    |s.Entities()| > 0 && forall i :: 0 <= i < |s.Entities()| ==> ValidEntity(s.Entities()[i])
  }

  /** The error of the attribute loop: the first attribute, in declared order, whose
      name (checked first) or type is blank. */
  function AttributeError(ads: seq<AttributeDescriptor>): Option<Error> {
    if ads == [] then None
    else if IsBlank(ads[0].name) then Some(AttributeNeedsName)
    else if IsBlank(ads[0].typeName) then Some(AttributeNeedsType)
    else AttributeError(ads[1..])
  }

  /** The error `validateEntityDescriptor` throws, checks taken in the generator's order. */
  function EntityError(d: EntityDescriptor): Option<Error> {
    if IsBlank(d.name) then Some(EntityNeedsName)
    else if d.root.Some? && IsBlank(d.root.value.name) then Some(RootNeedsName)
    else if IsBlank(d.deployment) && d.root.None? then Some(EntityNeedsDeployment)
    else if IsBlank(d.classFile) && d.root.None? then Some(EntityNeedsClassFile)
    else AttributeError(d.Attributes())
  }

  /** The error of the first invalid entity descriptor of a list. */
  function FirstEntityError(ds: seq<EntityDescriptor>): Option<Error> {
    if ds == [] then None
    else if EntityError(ds[0]).Some? then EntityError(ds[0])
    else FirstEntityError(ds[1..])
  }

  /** The error `validateSchemaDescriptor` throws. */
  function SchemaError(s: SchemaDescriptor): Option<Error> {
    if |s.Entities()| == 0 then Some(SchemaNeedsEntities) else FirstEntityError(s.Entities())
  }

  /** The attribute loop reports the first offending attribute: all before it are valid,
      and the error says which of its two fields is blank. It reports nothing exactly
      when every attribute is valid. */
  lemma {:induction false} AttributeErrorIsFirstViolation(ads: seq<AttributeDescriptor>)
    ensures AttributeError(ads).None? <==> forall i :: 0 <= i < |ads| ==> ValidAttribute(ads[i])
    ensures AttributeError(ads).Some? ==>
      exists i :: 0 <= i < |ads| && !ValidAttribute(ads[i])
        && (forall j :: 0 <= j < i ==> ValidAttribute(ads[j]))
        && AttributeError(ads) == Some(if IsBlank(ads[i].name) then AttributeNeedsName else AttributeNeedsType)
  {
    if ads != [] && ValidAttribute(ads[0]) {
      AttributeErrorIsFirstViolation(ads[1..]);
      if AttributeError(ads).Some? {
        var i :| 0 <= i < |ads[1..]| && !ValidAttribute(ads[1..][i])
          && (forall j :: 0 <= j < i ==> ValidAttribute(ads[1..][j]))
          && AttributeError(ads[1..]) == Some(if IsBlank(ads[1..][i].name) then AttributeNeedsName else AttributeNeedsType);
        assert forall j :: 0 <= j < i + 1 ==> ValidAttribute(ads[j]) by {
          forall j | 0 <= j < i + 1 ensures ValidAttribute(ads[j]) {
            if j > 0 {
              assert ads[j] == ads[1..][j - 1];
            }
          }
        }
        assert ads[i + 1] == ads[1..][i];
      } else {
        forall i | 0 <= i < |ads| ensures ValidAttribute(ads[i]) {
          if i > 0 {
            assert ads[i] == ads[1..][i - 1];
          }
        }
      }
    }
  }

  /** An entity descriptor is rejected exactly when it breaks one of the rules. */
  lemma EntityErrorIffInvalid(d: EntityDescriptor)
    ensures EntityError(d).None? <==> ValidEntity(d)
  {
    AttributeErrorIsFirstViolation(d.Attributes());
  }

  /** A list of entity descriptors is rejected exactly when one of them is invalid. */
  lemma {:induction false} FirstEntityErrorIffInvalid(ds: seq<EntityDescriptor>)
    ensures FirstEntityError(ds).None? <==> forall i :: 0 <= i < |ds| ==> ValidEntity(ds[i])
  {
    if ds != [] {
      EntityErrorIffInvalid(ds[0]);
      FirstEntityErrorIffInvalid(ds[1..]);
      if FirstEntityError(ds).None? {
        forall i | 0 <= i < |ds| ensures ValidEntity(ds[i]) {
          if i > 0 {
            assert ds[i] == ds[1..][i - 1];
          }
        }
      } else if EntityError(ds[0]).None? {
        var i :| 0 <= i < |ds[1..]| && !ValidEntity(ds[1..][i]);
        assert ds[i + 1] == ds[1..][i];
      }
    }
  }

  /** A schema is rejected exactly when it has no entities or one of them is invalid. */
  lemma SchemaErrorIffInvalid(s: SchemaDescriptor)
    ensures SchemaError(s).None? <==> ValidSchema(s)
    ensures |s.Entities()| == 0 ==> SchemaError(s) == Some(SchemaNeedsEntities)
  {
    FirstEntityErrorIffInvalid(s.Entities());
  }

  /** `validateEntityDescriptor`: the four field checks, then the loop over the attributes. */
  method ValidateEntityDescriptor(d: EntityDescriptor) returns (error: Option<Error>)
    ensures error == EntityError(d)
  {
    var root := d.root;
    if IsBlank(d.name) {
      return Some(EntityNeedsName);
    }
    if root.Some? && IsBlank(root.value.name) {
      return Some(RootNeedsName);
    }
    if IsBlank(d.deployment) && root.None? {
      return Some(EntityNeedsDeployment);
    }
    if IsBlank(d.classFile) && root.None? {
      return Some(EntityNeedsClassFile);
    }
    var attributes := d.Attributes();
    for i := 0 to |attributes|
      invariant AttributeError(attributes) == AttributeError(attributes[i..])
    {
      assert attributes[i..][1..] == attributes[i + 1..];
      if IsBlank(attributes[i].name) {
        return Some(AttributeNeedsName);
      }
      if IsBlank(attributes[i].typeName) {
        return Some(AttributeNeedsType);
      }
    }
    return None;
  }

  /** `validateSchemaDescriptor`: at least one entity, then each entity in parsed order. */
  method ValidateSchemaDescriptor(s: SchemaDescriptor) returns (error: Option<Error>)
    ensures error == SchemaError(s)
  {
    var entities := s.Entities();
    if |entities| == 0 {
      return Some(SchemaNeedsEntities);
    }
    for i := 0 to |entities|
      invariant FirstEntityError(entities) == FirstEntityError(entities[i..])
    {
      assert entities[i..][1..] == entities[i + 1..];
      error := ValidateEntityDescriptor(entities[i]);
      if error.Some? {
        return;
      }
    }
    return None;
  }

  /** The exception of the first invalid schema, schemas taken in the order they were given. */
  function SchemasError(schemas: seq<SchemaDescriptor>): Option<Error> {
    if schemas == [] then None
    else if SchemaError(schemas[0]).Some? then SchemaError(schemas[0])
    else SchemasError(schemas[1..])
  }

  /** A list of schemas passes exactly when every schema in it is valid. */
  lemma {:induction false} SchemasErrorIffInvalid(schemas: seq<SchemaDescriptor>)
    ensures SchemasError(schemas).None? <==> forall i :: 0 <= i < |schemas| ==> ValidSchema(schemas[i])
  {
    if schemas != [] {
      SchemaErrorIffInvalid(schemas[0]);
      SchemasErrorIffInvalid(schemas[1..]);
      if SchemasError(schemas).None? {
        forall i | 0 <= i < |schemas| ensures ValidSchema(schemas[i]) {
          if i > 0 {
            assert schemas[i] == schemas[1..][i - 1];
          }
        }
      } else if SchemaError(schemas[0]).None? {
        var i :| 0 <= i < |schemas[1..]| && !ValidSchema(schemas[1..][i]);
        assert schemas[i + 1] == schemas[1..][i];
      }
    }
  }
}
