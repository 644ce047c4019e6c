# JSON-to-Entity: the entity resolution engine, in Dafny

JSON-to-Entity reads JSON schema documents and turns them into source files for
entity classes. Each schema lists entity fragments and the relations between them.
An entity may be defined in one schema and then extended or inherited from in
another. The resolution engine (`EntityGenerator`) does the following:

- validates every descriptor;
- groups the fragments of all schemas by entity name;
- rejects a name defined twice without a root;
- orders the groups so that the ones holding a definition come first;
- rejects a root that names no entity;
- merges every fragment into a map of `GeneratedEntity` objects, updating them in place;
- synthesises an attribute on each side of every ONE-to-MANY relation.

`SourceFileGenerator` works out the package name and the import map of each
entity. `GenerateEntitiesExecutor` does the following:

- collects the schema resources;
- stops when there are none;
- writes one file per entity below the output directory.

The project is organised as follows.

- `descriptors.dfy` (`Descriptors`): the parsed descriptors, with their defaulting getters.
- `generated_entity.dfy` (`Entities`): `GeneratedEntity` and `Attribute`.
  - Equality and hashing are by name.
  - An attribute collection is a map keyed by attribute name.
- `java_strings.dfy` (`JavaStrings`): the Java string operations the code calls.
  - `StringUtils.isBlank`, `indexOf`, `lastIndexOf`, `split`, `String.join`, `replace` and `compareTo`.
- `validation.dfy` (`Validation`): the validators.
  - Each is an error function that names the first violation.
  - Each has a method that walks the descriptors as the generator does.
- `grouping.dfy` (`Grouping`): grouping, the duplicate check, the processing order and the root check.
- `resolution.dfy` (`Resolution`): `processEntityDescriptor` as a function on a `Store`.
  - A `Store` is an arena of entity objects plus the map from names to arena slots.
  - Extending a root binds a second name to the root's own slot, as the Java code shares the object.
- `relations.dfy` (`Relations`): relation validation and synthesis.
- `generator.dfy` (`Generator`): `Generate`, the whole run as a function.
  - The class `EntityMap` is the generator's mutable map. Its methods change it step by step and are proved against the functions above.
  - `GenerateEntities` drives those methods and is proved equal to `Generate`.
- `source_file.dfy` (`SourceFile`): short import names, the import map and the package name.
- `executor.dfy` (`Executor`): the executor's `main`, proved against its specification functions.

Inputs the code takes from its environment are parameters:
- `classpath` is the set of loadable class names (`Class.forName`).
- `hashOrder` is the iteration order of the grouping `HashMap`.
- `resources` maps a regular expression to the resources it matches.
- `compiles` tells which strings `Pattern.compile` accepts as a regular expression.
- `generate` stands for parsing plus `generateEntities`.

## Model

All source paths are below `src/main/java/pl/pateman/entitygenerator/`.

| member | source | states |
|---|---|---|
| Descriptors.AttributeDescriptor.IsReintroduced | src/main/java/pl/pateman/entitygenerator/EntityAttributeDescriptor.java:24-26 | an absent `reintroduce` reads as false, a present one as its value |
| Descriptors.AttributeDescriptor.Flags | src/main/java/pl/pateman/entitygenerator/EntityAttributeDescriptor.java:28-30 | absent flags read as the empty collection |
| Descriptors.RootDescriptor.ExtendsRoot | src/main/java/pl/pateman/entitygenerator/EntityRootDescriptor.java:16-18 | an absent `extend` means extension (true) |
| Descriptors.EntityDescriptor.Attributes | src/main/java/pl/pateman/entitygenerator/EntityDescriptor.java:29-31 | absent attributes read as the empty collection, present ones in declared order |
| Descriptors.SchemaDescriptor.Entities | src/main/java/pl/pateman/entitygenerator/EntitySchemaDescriptor.java:14-16 | absent entities read as the empty collection |
| Descriptors.SchemaDescriptor.Relations | src/main/java/pl/pateman/entitygenerator/EntityGenerator.java:338-341 | absent relations read as the empty collection |
| Entities.Attribute.Flags | src/main/java/pl/pateman/entitygenerator/GeneratedEntity.java:165-167 | unset flags read as the empty collection |
| Entities.GeneratedEntity.Attributes | src/main/java/pl/pateman/entitygenerator/GeneratedEntity.java:81-83 | unset attributes read as the empty collection |
| Entities.NameKeyedIsAttributeSet | src/main/java/pl/pateman/entitygenerator/GeneratedEntity.java:173-188 | in a name-keyed attribute map, no two attributes are equal under name equality, and it holds one attribute per name |
| Entities.ToInt32 | src/main/java/pl/pateman/entitygenerator/GeneratedEntity.java:101-105 | the result is a signed 32-bit value congruent to the input modulo 2^32 |
| Entities.HashAgreesWithEquals | src/main/java/pl/pateman/entitygenerator/GeneratedEntity.java:89-105 | entities that are equal by name hash alike, and so do attributes |
| JavaStrings.IndexOf | src/main/java/pl/pateman/entitygenerator/SourceFileGenerator.java:42 | gives -1 exactly when the character is absent; otherwise gives its first position |
| JavaStrings.LastIndexOf | src/main/java/pl/pateman/entitygenerator/SourceFileGenerator.java:45 | gives -1 exactly when the character is absent; otherwise gives its last position |
| JavaStrings.Split | src/main/java/pl/pateman/entitygenerator/SourceFileGenerator.java:49 | no piece contains the separator; a string without it is its only piece |
| JavaStrings.Replace | src/main/java/pl/pateman/entitygenerator/gradle/GenerateEntitiesExecutor.java:55-56 | same length; every occurrence of the character is replaced and nothing else changes |
| JavaStrings.LessTransitive | src/main/java/pl/pateman/entitygenerator/SourceFileGenerator.java:63 | the string order used by `sorted()` is transitive |
| JavaStrings.LessTotal | src/main/java/pl/pateman/entitygenerator/SourceFileGenerator.java:63 | of two different strings exactly one comes first |
| JavaStrings.LessIrreflexive | src/main/java/pl/pateman/entitygenerator/SourceFileGenerator.java:63 | no string comes before itself |
| Validation.ValidateEntityDescriptor | src/main/java/pl/pateman/entitygenerator/EntityGenerator.java:69-100 | the checks in source order. The first violation (name, root name, deployment, class file, then per attribute its name and type) is the exception raised |
| Validation.AttributeErrorIsFirstViolation | src/main/java/pl/pateman/entitygenerator/EntityGenerator.java:88-99 | the attribute loop fails exactly when some attribute lacks a name or type, and it reports the first such attribute and which field is blank |
| Validation.EntityErrorIffInvalid | src/main/java/pl/pateman/entitygenerator/EntityGenerator.java:69-100 | an entity descriptor is rejected exactly when it breaks one of the rules |
| Validation.FirstEntityErrorIffInvalid | src/main/java/pl/pateman/entitygenerator/EntityGenerator.java:115 | a list of descriptors is rejected exactly when one of them is invalid |
| Validation.ValidateSchemaDescriptor | src/main/java/pl/pateman/entitygenerator/EntityGenerator.java:110-116 | no entities is an error; otherwise the first invalid entity's error is raised |
| Validation.SchemaErrorIffInvalid | src/main/java/pl/pateman/entitygenerator/EntityGenerator.java:110-116 | a schema is rejected exactly when it has no entity or an invalid one |
| Validation.SchemasErrorIffInvalid | src/main/java/pl/pateman/entitygenerator/EntityGenerator.java:388-391 | the parsed schemas pass exactly when every one is valid |
| Grouping.SomeDefinition | src/main/java/pl/pateman/entitygenerator/EntityGenerator.java:170-175 | a name's group holds a rootless descriptor exactly when some descriptor defines the name |
| Grouping.TwoDefinitions | src/main/java/pl/pateman/entitygenerator/EntityGenerator.java:170-179 | a name's group holds two rootless descriptors exactly when two descriptors define the name |
| Grouping.RootlessOfGroupCount | src/main/java/pl/pateman/entitygenerator/EntityGenerator.java:168-183 | both of the above facts together |
| Grouping.DuplicateErrorIffSomeGroup | src/main/java/pl/pateman/entitygenerator/EntityGenerator.java:178-182 | the duplicate check fires exactly when some group has more than one rootless descriptor |
| Grouping.DuplicateErrorName | src/main/java/pl/pateman/entitygenerator/EntityGenerator.java:178-182 | the reported name has more than one rootless descriptor |
| Grouping.DuplicateIffTwoDefinitions | src/main/java/pl/pateman/entitygenerator/EntityGenerator.java:168-183 | the duplicate check fires exactly when two rootless descriptors across all schemas share a name; descriptors with a root never count |
| Grouping.RootFirstPermutes | src/main/java/pl/pateman/entitygenerator/EntityGenerator.java:400-409 | the sorted order is a permutation of the map order |
| Grouping.PartsOfOrder | src/main/java/pl/pateman/entitygenerator/EntityGenerator.java:400-409 | the defining part holds exactly the groups with a rootless descriptor; the other part holds the rest; neither repeats a name |
| Grouping.RootFirstEnumerates | src/main/java/pl/pateman/entitygenerator/EntityGenerator.java:400-409 | the processing order lists every group exactly once |
| Grouping.RootFirstSeparates | src/main/java/pl/pateman/entitygenerator/EntityGenerator.java:399-409 | no group holding a rootless descriptor comes after one without |
| Grouping.RootFirstOrder | src/main/java/pl/pateman/entitygenerator/EntityGenerator.java:399-409 | both of the above: every group once, definitions first |
| Grouping.ProcessingQueueIsPermutation | src/main/java/pl/pateman/entitygenerator/EntityGenerator.java:393-419 | the descriptors taken group by group in processing order are exactly the parsed descriptors: each is processed once |
| Grouping.QueueHoldsDescriptors | src/main/java/pl/pateman/entitygenerator/EntityGenerator.java:393-419 | the processing queue holds exactly the parsed descriptors, and the group keys are their names |
| Grouping.UnknownRootIffUnnamedRoot | src/main/java/pl/pateman/entitygenerator/EntityGenerator.java:151-158 | the root check passes exactly when every root names a group |
| Grouping.RootsKnownInEitherOrder | src/main/java/pl/pateman/entitygenerator/EntityGenerator.java:151-158 | whether every root is known does not depend on the order of the descriptors |
| Grouping.RootCheckOverAllDescriptors | src/main/java/pl/pateman/entitygenerator/EntityGenerator.java:151-158 | over the processing queue, the root check passes exactly when every root of every schema names an entity of some schema |
| Resolution.Store.Get | src/main/java/pl/pateman/entitygenerator/EntityGenerator.java:205 | `outcome.get` is absent exactly for an unbound name, otherwise it is the bound object |
| Resolution.CollectAttributes | src/main/java/pl/pateman/entitygenerator/EntityGenerator.java:228-251 | the new attributes are keyed by exactly the declared names and carry no relation |
| Resolution.CollectAttributesStep | src/main/java/pl/pateman/entitygenerator/EntityGenerator.java:228-251 | one more attribute descriptor: an earlier failure stands; an offender fails; otherwise the attribute is added unless its name is taken |
| Resolution.CollectAttributesFailsIff | src/main/java/pl/pateman/entitygenerator/EntityGenerator.java:233-244 | the stream fails exactly when some descriptor's class is missing or it redefines a working attribute without `reintroduce` |
| Resolution.CollectAttributesFailsAtFirst | src/main/java/pl/pateman/entitygenerator/EntityGenerator.java:233-244 | a failure carries the exception of the first offender in declared order, class checked first |
| Resolution.CollectAttributesFailsAtFirstOffender | src/main/java/pl/pateman/entitygenerator/EntityGenerator.java:233-244 | both of the above |
| Resolution.CollectAttributesPrefixFailure | src/main/java/pl/pateman/entitygenerator/EntityGenerator.java:228-251 | once a prefix fails, the whole stream fails with the same exception |
| Resolution.CollectAttributesKeepsFirst | src/main/java/pl/pateman/entitygenerator/EntityGenerator.java:250-251 | of several descriptors with one name, the kept attribute is the first declared one |
| Resolution.TargetSlot | src/main/java/pl/pateman/entitygenerator/EntityGenerator.java:199-214 | a fresh object is created exactly when no known root is extended and the name is unbound |
| Resolution.FirstWriter | src/main/java/pl/pateman/entitygenerator/EntityGenerator.java:217-225 | a non-blank field is kept; a blank one takes the offered value |
| Resolution.ProcessEntity | src/main/java/pl/pateman/entitygenerator/EntityGenerator.java:197-263 | a successful step keeps the store well formed and adds exactly the descriptor's name to the bound names |
| Resolution.ProcessEntityFrame | src/main/java/pl/pateman/entitygenerator/EntityGenerator.java:261-262 | a successful step writes only the target object and binds the name to it; every other object and name is unchanged |
| Resolution.ProcessEntityFailsIff | src/main/java/pl/pateman/entitygenerator/EntityGenerator.java:204-244 | inheriting from an unresolved root fails (`null` dereference). Otherwise the step fails exactly when an attribute offends against the working set |
| Resolution.InheritanceLinksRoot | src/main/java/pl/pateman/entitygenerator/EntityGenerator.java:209-211 | an inheriting entity gets the root as its root and every root attribute name; the root object is untouched |
| Resolution.ExtensionBindsRoot | src/main/java/pl/pateman/entitygenerator/EntityGenerator.java:212-214 | extending a resolved root creates no object and binds the name to the root's object |
| Resolution.ExtensionOfUnresolvedRoot | src/main/java/pl/pateman/entitygenerator/EntityGenerator.java:199-214 | extending an unresolved root falls back to the object bound to the name, or to a fresh one |
| Resolution.ExtensionKeepsRootAttributesOnlyUnderItsName | src/main/java/pl/pateman/entitygenerator/EntityGenerator.java:199-214 | extension under the root's name keeps the root's attributes. Under a new name the root object ends up with the descriptor's attributes only |
| Resolution.IdentityFirstWriterWins | src/main/java/pl/pateman/entitygenerator/EntityGenerator.java:217-225 | name, deployment and class file are written only while blank |
| Resolution.MergedAttributes | src/main/java/pl/pateman/entitygenerator/EntityGenerator.java:253-261 | the entity's attributes are the working ones plus the declared ones, and a declared attribute replaces a working one. A reintroduced attribute is then the only one of its name, with the new type. Working attributes that are not redeclared stay as they were |
| Resolution.ProcessAll | src/main/java/pl/pateman/entitygenerator/EntityGenerator.java:417-419 | merging a queue keeps the store well formed and binds exactly the queue's names |
| Relations.SideErrorIffInvalid | src/main/java/pl/pateman/entitygenerator/EntityGenerator.java:265-275 | a side is rejected exactly when its entity, attribute name or side is missing |
| Relations.RelationErrorIffInvalid | src/main/java/pl/pateman/entitygenerator/EntityGenerator.java:286-307 | a relation is rejected exactly when a side is missing or invalid, names an unknown entity, or names an attribute its entity already has |
| Relations.CreateRelationAttribute | src/main/java/pl/pateman/entitygenerator/EntityGenerator.java:309-334 | the attribute is named as asked, not reintroduced, and points at the target with the join data. LIST gives `List`, SET gives `Set`, no collection type gives no type |
| Relations.ApplyRelation | src/main/java/pl/pateman/entitygenerator/EntityGenerator.java:343-367 | a processed relation keeps the store well formed and the bound names unchanged |
| Relations.ApplyRelations | src/main/java/pl/pateman/entitygenerator/EntityGenerator.java:336-368 | the same for all of a schema's relations |
| Relations.OneToManyAddsOneAttributeEach | src/main/java/pl/pateman/entitygenerator/EntityGenerator.java:352-366 | between two entities, a ONE-to-MANY relation adds exactly one attribute to each. The source's is typed by its collection type and points at the target; the target's is untyped and points at the source. No other entity changes |
| Relations.OtherSidesAddNothing | src/main/java/pl/pateman/entitygenerator/EntityGenerator.java:349-366 | any other combination of sides changes no entity's attributes or fields |
| Relations.SelfRelationLosesSourceAttribute | src/main/java/pl/pateman/entitygenerator/EntityGenerator.java:349-366 | a ONE-to-MANY relation of an entity with itself keeps only the target attribute |
| Generator.ApplySchemaRelations | src/main/java/pl/pateman/entitygenerator/EntityGenerator.java:422 | the relations of every schema keep the store well formed and the bound names unchanged |
| Generator.ValidSchemasHaveValidEntities | src/main/java/pl/pateman/entitygenerator/EntityGenerator.java:388-396 | every descriptor of valid schemas is valid and named |
| Generator.QueueOfValidSchemas | src/main/java/pl/pateman/entitygenerator/EntityGenerator.java:393-419 | for valid schemas, the processing queue holds exactly their descriptors, all valid, with the same names |
| Generator.QueueDefined | src/main/java/pl/pateman/entitygenerator/EntityGenerator.java:393-419 | every stage after validation is defined on valid schemas |
| Generator.ResolveSchemas | src/main/java/pl/pateman/entitygenerator/EntityGenerator.java:393-424 | a successful resolution gives a well-formed store |
| Generator.Generate | src/main/java/pl/pateman/entitygenerator/EntityGenerator.java:382-425 | a successful run gives a well-formed store |
| Generator.GenerateRejectsInvalidSchemas | src/main/java/pl/pateman/entitygenerator/EntityGenerator.java:382-391 | no schemas is refused. An invalid schema, including one without entities, fails the run with the first invalid schema's exception |
| Generator.GenerateRejectsDuplicateEntities | src/main/java/pl/pateman/entitygenerator/EntityGenerator.java:393-397 | two rootless definitions of one name, in one schema or two, fail the run with a duplicate-entity exception naming such a name |
| Generator.ValidSchemasGiveGroups | src/main/java/pl/pateman/entitygenerator/EntityGenerator.java:410-412 | the early return for an empty map cannot be reached after validation |
| Generator.ResolveSchemasStages | src/main/java/pl/pateman/entitygenerator/EntityGenerator.java:393-424 | a successful resolution passed the duplicate and root checks and merged the whole queue, then applied the relations |
| Generator.ResolveSchemasSucceedsOnlyOnConsistentSchemas | src/main/java/pl/pateman/entitygenerator/EntityGenerator.java:393-424 | success over valid schemas implies no duplicate definition, every root known, and every entity name bound |
| Generator.GenerateSucceedsOnlyOnConsistentSchemas | src/main/java/pl/pateman/entitygenerator/EntityGenerator.java:382-425 | a successful run implies the schemas were non-empty, valid and consistent, and every entity name is bound in the result |
| Generator.CollectAttributeDescriptors | src/main/java/pl/pateman/entitygenerator/EntityGenerator.java:228-251 | the attribute loop computes `CollectAttributes` |
| Generator.ReplaceAttributes | src/main/java/pl/pateman/entitygenerator/EntityGenerator.java:253-259 | after the remove-and-add loop the new attributes have replaced the old ones of their names, and the others stay |
| Generator.EntityMap.constructor | src/main/java/pl/pateman/entitygenerator/EntityGenerator.java:417 | a new map is empty |
| Generator.EntityMap.ProcessEntityDescriptor | src/main/java/pl/pateman/entitygenerator/EntityGenerator.java:197-263 | the in-place update fails exactly when `ProcessEntity` does, with its exception; otherwise the new state is `ProcessEntity`'s |
| Generator.EntityMap.ProcessRelationDescriptors | src/main/java/pl/pateman/entitygenerator/EntityGenerator.java:336-368 | the relation loop fails exactly when `ApplyRelations` does, with its exception; otherwise the new state is its result |
| Generator.EntityMap.ProcessDescriptors | src/main/java/pl/pateman/entitygenerator/EntityGenerator.java:419 | one group's loop has the effect of `ProcessAll` on the group |
| Generator.EntityMap.ProcessGroups | src/main/java/pl/pateman/entitygenerator/EntityGenerator.java:418-419 | the nested loop has the effect of `ProcessAll` on the whole queue |
| Generator.EntityMap.ProcessSchemaRelations | src/main/java/pl/pateman/entitygenerator/EntityGenerator.java:422 | the schema loop has the effect of `ApplySchemaRelations` |
| Generator.ProcessAllAppend | src/main/java/pl/pateman/entitygenerator/EntityGenerator.java:418-419 | merging a concatenation merges the first part, then the second from there |
| Generator.ValidateSchemas | src/main/java/pl/pateman/entitygenerator/EntityGenerator.java:388-391 | the validation loop reports the first invalid schema's exception |
| Generator.ResolveSchemaDescriptors | src/main/java/pl/pateman/entitygenerator/EntityGenerator.java:393-424 | the imperative run after validation computes `ResolveSchemas` |
| Generator.GenerateEntities | src/main/java/pl/pateman/entitygenerator/EntityGenerator.java:382-425 | the imperative run computes `Generate` |
| SourceFile.AfterLastDot | src/main/java/pl/pateman/entitygenerator/SourceFileGenerator.java:54 | the result is the longest dot-free suffix: it has no dot and is preceded by a dot whenever it is shorter than the input |
| SourceFile.AllAfterLastDot | src/main/java/pl/pateman/entitygenerator/SourceFileGenerator.java:48-51 | each type argument is cut after its last dot |
| SourceFile.GenericShortName | src/main/java/pl/pateman/entitygenerator/SourceFileGenerator.java:44-52 | a generic short name has no dot and has its angle brackets |
| SourceFile.JoinWithoutDots | src/main/java/pl/pateman/entitygenerator/SourceFileGenerator.java:51 | joining dot-free pieces with ", " gives no dot |
| SourceFile.ShortenedImportName | src/main/java/pl/pateman/entitygenerator/SourceFileGenerator.java:41-56 | the only failure is the out-of-bounds `substring` |
| SourceFile.ShortNameOfPlainName | src/main/java/pl/pateman/entitygenerator/SourceFileGenerator.java:53-55 | a non-generic name never fails, and it gives the part after its last dot |
| SourceFile.ShortNameFailsIff | src/main/java/pl/pateman/entitygenerator/SourceFileGenerator.java:42-46 | shortening fails exactly when the name has a `<` and its first `>` is missing or comes before its first `<` |
| SourceFile.ShortNameHasNoDots | src/main/java/pl/pateman/entitygenerator/SourceFileGenerator.java:41-56 | a short name has no dot, and it is generic exactly when the full name is |
| SourceFile.ShortNameIgnoresTail | src/main/java/pl/pateman/entitygenerator/SourceFileGenerator.java:46 | text after the first `>` does not affect the short name |
| SourceFile.Insert | src/main/java/pl/pateman/entitygenerator/SourceFileGenerator.java:63-64 | inserting into a strictly sorted list keeps it strictly sorted, with the old elements plus the new one |
| SourceFile.StrictlySortedUnique | src/main/java/pl/pateman/entitygenerator/SourceFileGenerator.java:59-64 | two strictly sorted lists with the same elements are equal |
| SourceFile.SortedTypes | src/main/java/pl/pateman/entitygenerator/SourceFileGenerator.java:59-64 | the sorted, deduplicated type list is strictly ascending and holds exactly the attribute types |
| SourceFile.ImportMapUnique | src/main/java/pl/pateman/entitygenerator/SourceFileGenerator.java:58-73 | an entity has only one import map |
| SourceFile.ShortNameMap | src/main/java/pl/pateman/entitygenerator/SourceFileGenerator.java:70-71 | succeeds exactly when every type shortens; maps exactly the types, each to its short name |
| SourceFile.ShortNames | src/main/java/pl/pateman/entitygenerator/SourceFileGenerator.java:70-71 | the `put` loop computes `ShortNameMap` |
| SourceFile.PrepareImports | src/main/java/pl/pateman/entitygenerator/SourceFileGenerator.java:58-73 | no attributes gives the empty map; an untyped attribute throws a null-pointer exception; otherwise it succeeds exactly when every type shortens. The result is the import map: ascending types, each with its short name |
| SourceFile.PackageName | src/main/java/pl/pateman/entitygenerator/SourceFileGenerator.java:85-86 | an unset class file is a null-pointer exception; one without a dot is out of bounds; otherwise the package is the text before the last dot |
| SourceFile.PackageNameSplitsClassFile | src/main/java/pl/pateman/entitygenerator/SourceFileGenerator.java:85-86 | the package, a dot and the simple name give back the class file |
| SourceFile.SourceFileError | src/main/java/pl/pateman/entitygenerator/SourceFileGenerator.java:83-87 | source generation succeeds exactly when the package name and the imports do |
| SourceFile.GenerateSourceFile | src/main/java/pl/pateman/entitygenerator/SourceFileGenerator.java:79-87 | fails exactly when `SourceFileError` says so, with that error; otherwise the template gets the package name and the import map |
| Executor.FindEntitySchemas | src/main/java/pl/pateman/entitygenerator/ClasspathEntitiesSchemaScanner.java:47-52 | a blank pattern is refused. A pattern that does not compile throws the syntax exception. Otherwise the result is the matching resources |
| Executor.DefaultPatternIsScanned | src/main/java/pl/pateman/entitygenerator/ClasspathEntitiesSchemaScanner.java:35-37 | the default pattern is never refused as blank, and once it compiles the result is its resources |
| Executor.PatternSchemasScanned | src/main/java/pl/pateman/entitygenerator/gradle/GenerateEntitiesExecutor.java:28-33 | a schema comes from the extra arguments exactly when a non-blank argument after the first matches it |
| Executor.SchemasScanned | src/main/java/pl/pateman/entitygenerator/gradle/GenerateEntitiesExecutor.java:27-33 | a schema is collected exactly when the default pattern or such an argument matches it |
| Executor.CollectSchemas | src/main/java/pl/pateman/entitygenerator/gradle/GenerateEntitiesExecutor.java:27-33 | succeeds exactly when the default pattern and every non-blank argument after the first compile, and then computes `Schemas`. Otherwise it fails with the first pattern that does not compile, the default one first |
| Executor.OutputPath | src/main/java/pl/pateman/entitygenerator/gradle/GenerateEntitiesExecutor.java:54-60 | the path exists exactly when the package name does, and it fails alike |
| Executor.DirectoryRoundTrip | src/main/java/pl/pateman/entitygenerator/gradle/GenerateEntitiesExecutor.java:55-58 | reading the directory's backslashes back as dots gives the qualified name |
| Executor.PathOfParts | src/main/java/pl/pateman/entitygenerator/gradle/GenerateEntitiesExecutor.java:54-60 | a path is the root and a backslash, the directory and file name, then ".java" |
| Executor.OutputPathNamesClassFile | src/main/java/pl/pateman/entitygenerator/gradle/GenerateEntitiesExecutor.java:54-60 | for a class file with a dot and no backslash, the path starts with the root and a backslash and ends with ".java". Between them, with backslashes read as dots, is the class file |
| Executor.FirstSourceError | src/main/java/pl/pateman/entitygenerator/gradle/GenerateEntitiesExecutor.java:51-52 | absent exactly when every entity's source can be generated; otherwise it is the first failing entity's error |
| Executor.FirstSourceErrorAt | src/main/java/pl/pateman/entitygenerator/gradle/GenerateEntitiesExecutor.java:51-52 | the first error is that of the first entity that fails |
| Executor.WriteEntities | src/main/java/pl/pateman/entitygenerator/gradle/GenerateEntitiesExecutor.java:51-67 | fails exactly at the first entity whose source fails, with that entity's error. The failure carries the files already written for every entity before it. Otherwise it writes each entity's source to its path, in order |
| Executor.Execute | src/main/java/pl/pateman/entitygenerator/gradle/GenerateEntitiesExecutor.java:24-68 | a pattern that does not compile ends the run first, with the first such pattern. No schemas means nothing is written. Schemas without an output directory are an index error. A failed resolution ends the run with its error. A failed source generation ends it with its error and the files already written for the entities before it. Otherwise every entity is written |

## Left out

- Parsing is left out: Gson reading a schema stream into descriptors, the `IOException` paths, and closing the streams. Schemas enter the model as parsed descriptor values.
- The descriptor files carry no `classFile` (entity) and no `relations` (schema). The model has both, because `EntityGenerator` reads them, and `getRelations()` is taken to default to empty like `getEntities()`.
- `Class.forName` is the `classpath` parameter: a type loads exactly when its name is in the set. Types stay class names, and the `Class` objects are not modelled.
- `SourceFileGenerator.prepareImports` passes the result of `Attribute::getType` to `getShortenedImportName`, which takes a string. The model treats attribute types as class names throughout.
- `HashMap` iteration order is the `hashOrder` parameter, which may be any enumeration of the group names.
- The sort comparator at `EntityGenerator.java:403-408` reads only its first argument, so it breaks the `Comparator` contract and its result depends on the sorting algorithm. The model uses the evident intent: a stable partition that puts the groups holding a rootless descriptor first.
- Grouping.GroupByName: the descriptors keep their encounter order within a group. The map order between groups is `hashOrder`.
- Resolution.CollectAttributes: the attribute set is a map keyed by name. The insertion order of the `LinkedHashSet`, and the sort by name that feeds it, are not modelled; only which attributes it holds is.
- Relations.ApplyRelation: the copied lists are `ArrayList`s, so adding a relation attribute whose name already exists would give two attributes of one name. Validation rules this out before the copy, so the model's name-keyed map loses nothing reachable.
- `generateEntities` returns `generatedEntityMap.values()`. The model returns the whole `Store`, i.e. the objects and the name map. An extended entity appears under two names but is one object.
- Generator.EntityMap.ProcessEntityDescriptor: the Java code updates the shared `GeneratedEntity` object before the attribute stream can throw. After an exception the run is over, so the model states nothing about the map on the error path beyond the exception.
- Executor.Execute: `generate` stands for opening the resource streams, parsing, `generateEntities` and `values()` in one step.
  - `retrieveInputStreamsToResources` yields one stream per schema. Its missing-resource exception is left out.
  - The early return is taken on an empty schema set, which is when the stream collection is empty.
- Writing files (`mkdirs`, `FileWriter`), the Freemarker template processing and the messages printed to standard output are I/O and are left out. A written file is the path plus the parameters its template is given.
- Regular-expression matching of classpath resources (`Reflections.getResources`) is the `resources` parameter, and which strings `Pattern.compile` accepts is the `compiles` parameter.
- Java's `String.compareTo` compares UTF-16 code units. The model compares Dafny characters, which coincide for the basic multilingual plane.
- Entities.EntityHashCode: the string hash is stated on characters, and only its agreement with equality is proved.
- Thread safety of the scanner is not modelled.
