/**
 * Why a resolution run aborts. Every case ends the whole run: no partially
 * resolved entity reaches the caller.
 */
module Errors {
  import opened Wrappers

  datatype Error =
    /** `IllegalArgumentException`: no schema streams were given. */
    | SchemasRequired
    /** A schema descriptor without entities. */
    | SchemaNeedsEntities
    /** An entity descriptor with a blank name. */
    | EntityNeedsName
    /** A root whose name is blank. */
    | RootNeedsName
    /** A rootless entity descriptor with a blank deployment. */
    | EntityNeedsDeployment
    /** A rootless entity descriptor with a blank class file. */
    | EntityNeedsClassFile
    /** An attribute descriptor with a blank name. */
    | AttributeNeedsName
    /** An attribute descriptor with a blank type. */
    | AttributeNeedsType
    /** Two rootless descriptors share a name. */
    | DuplicateEntity(name: string)
    /** A root names no entity of any schema. */
    | UnknownRoot(entity: string, root: Option<string>)
    /** `NullPointerException`: an inheriting descriptor is processed before its root. */
    | MissingRootEntity(missingRoot: string)
    /** The type of an attribute names no loadable class. */
    | ClassNotFound(attribute: string)
    /** An attribute redefined without being marked as reintroduced. */
    | DuplicateAttribute(attribute: string)
    /** A relation without a source or without a target. */
    | RelationNeedsBothSides
    /** A relation side with a blank entity name. */
    | RelationSideNeedsEntity
    /** A relation side with a blank attribute name. */
    | RelationSideNeedsAttributeName
    /** A relation side without a `side`. */
    | RelationSideNeedsSide
    /** The source side names an unknown entity. */
    | UnknownSourceEntity
    /** The target side names an unknown entity. */
    | UnknownTargetEntity
    /** A relation attribute that its entity already has. */
    | RelationAttributeExists(attribute: string)
}
