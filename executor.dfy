/**
 * `GenerateEntitiesExecutor.main` and the part of `ClasspathEntitiesSchemaScanner`
 * it relies on: which schema resources are scanned, when the run stops early, and
 * which file every generated entity is written to. The classpath lookup of resources
 * by pattern and the resolution of the found schemas are parameters.
 */
module Executor {
  import opened Wrappers
  import opened JavaStrings
  import opened Errors
  import opened Entities
  import opened SourceFile

  /** The resource-name pattern that is always scanned. */
  const DefaultSchemasPattern := ".*-entities\\.json"

  /** Why `findEntitySchemas` throws. */
  datatype ScanError =
    /** `IllegalArgumentException`: the pattern is blank. */
    | PatternRequired
    /** `PatternSyntaxException` from `Pattern.compile`: the pattern is not a regular expression. */
    | InvalidPattern(pattern: string)

  /** `findEntitySchemas(pattern)`: a blank pattern is refused, one that does not compile
      throws, otherwise the result is the classpath resources the pattern matches.
      `compiles` tells which strings `Pattern.compile` accepts. */
  function FindEntitySchemas(pattern: string, compiles: string -> bool, resources: string -> set<string>)
    : (r: Result<set<string>, ScanError>)
    ensures r == Failure(PatternRequired) <==> IsBlank(Some(pattern))
    ensures r == Failure(InvalidPattern(pattern)) <==> !IsBlank(Some(pattern)) && !compiles(pattern)
    ensures r.Success? <==> !IsBlank(Some(pattern)) && compiles(pattern)
    ensures r.Success? ==> r.value == resources(pattern)
  {
    if IsBlank(Some(pattern)) then Failure(PatternRequired)
    else if !compiles(pattern) then Failure(InvalidPattern(pattern))
    else Success(resources(pattern))
  }

  /** The default pattern is not blank, so scanning for it fails only if it does not compile. */
  lemma DefaultPatternIsScanned(compiles: string -> bool, resources: string -> set<string>)
    ensures FindEntitySchemas(DefaultSchemasPattern, compiles, resources) != Failure(PatternRequired)
    ensures compiles(DefaultSchemasPattern) ==>
      FindEntitySchemas(DefaultSchemasPattern, compiles, resources) == Success(resources(DefaultSchemasPattern))
  {
    assert !IsWhitespace(DefaultSchemasPattern[0]);
  }

  /** An argument after the first that `findEntitySchemas` throws on: it is not blank (blank
      ones are filtered out) and does not compile. */
  predicate BadPattern(argument: string, compiles: string -> bool) {
    !IsBlank(Some(argument)) && !compiles(argument)
  }

  /** The schemas found for one command-line argument: none for a blank one. */
  function ArgumentSchemas(argument: string, resources: string -> set<string>): set<string> {
    if IsBlank(Some(argument)) then {} else resources(argument)
  }

  /** The schemas found for the arguments after the first, in order. */
  function PatternSchemas(args: seq<string>, resources: string -> set<string>): set<string> {
    if |args| <= 1 then {}
    else PatternSchemas(args[..|args| - 1], resources) + ArgumentSchemas(args[|args| - 1], resources)
  }

  /** All schemas a run scans: the default pattern's and those of the extra arguments. */
  function Schemas(args: seq<string>, resources: string -> set<string>): set<string> {
    resources(DefaultSchemasPattern) + PatternSchemas(args, resources)
  }

  /** A schema is scanned exactly when the default pattern or a non-blank argument after
      the first (the output directory) matches it. */
  lemma {:induction false} SchemasScanned(args: seq<string>, resources: string -> set<string>, schema: string)
    ensures schema in Schemas(args, resources) <==>
      (schema in resources(DefaultSchemasPattern)
       || exists i :: 1 <= i < |args| && !IsBlank(Some(args[i])) && schema in resources(args[i]))
  {
    PatternSchemasScanned(args, resources, schema);
  }

  lemma {:induction false} PatternSchemasScanned(args: seq<string>, resources: string -> set<string>, schema: string)
    ensures schema in PatternSchemas(args, resources) <==>
      exists i :: 1 <= i < |args| && !IsBlank(Some(args[i])) && schema in resources(args[i])
  {
    if |args| > 1 {
      var front := args[..|args| - 1];
      PatternSchemasScanned(front, resources, schema);
      if exists i :: 1 <= i < |args| && !IsBlank(Some(args[i])) && schema in resources(args[i]) {
        var i :| 1 <= i < |args| && !IsBlank(Some(args[i])) && schema in resources(args[i]);
        if i < |args| - 1 {
          assert front[i] == args[i];
        }
      }
      if exists i :: 1 <= i < |front| && !IsBlank(Some(front[i])) && schema in resources(front[i]) {
        var i :| 1 <= i < |front| && !IsBlank(Some(front[i])) && schema in resources(front[i]);
        assert args[i] == front[i];
      }
    }
  }

  /** Every pattern of a run compiles: the default one and each non-blank argument after the first. */
  predicate Scans(args: seq<string>, compiles: string -> bool) {
    compiles(DefaultSchemasPattern) && forall i :: 1 <= i < |args| ==> !BadPattern(args[i], compiles)
  }

  /** The schema set the run collects: the default pattern's resources, then those of every
      non-blank argument after the first. The first pattern that does not compile, the
      default one first, ends the scan with its `PatternSyntaxException`. */
  method CollectSchemas(args: seq<string>, compiles: string -> bool, resources: string -> set<string>)
    returns (r: Result<set<string>, ScanError>)
    ensures r.Success? <==> Scans(args, compiles)
    ensures !compiles(DefaultSchemasPattern) ==> r == Failure(InvalidPattern(DefaultSchemasPattern))
    ensures compiles(DefaultSchemasPattern) && r.Failure? ==>
      exists i :: 1 <= i < |args| && BadPattern(args[i], compiles) && r.error == InvalidPattern(args[i])
        && forall j :: 1 <= j < i ==> !BadPattern(args[j], compiles)
    ensures r.Success? ==> r.value == Schemas(args, resources)
  {
    DefaultPatternIsScanned(compiles, resources);
    var found := FindEntitySchemas(DefaultSchemasPattern, compiles, resources);
    if found.Failure? {
      return Failure(found.error);
    }
    var schemas := found.value;
    if |args| <= 1 {
      return Success(schemas);
    }
    for i := 1 to |args|
      invariant schemas == Schemas(args[..i], resources)
      invariant forall j :: 1 <= j < i ==> !BadPattern(args[j], compiles)
    {
      assert args[..i + 1][..i] == args[..i];
      if !IsBlank(Some(args[i])) {
        found := FindEntitySchemas(args[i], compiles, resources);
        if found.Failure? {
          return Failure(found.error);
        }
        schemas := schemas + found.value;
      }
    }
    assert args[..|args|] == args;
    return Success(schemas);
  }

  // ----- Output files

  /** The file a class is written to: the root directory, the package with its dots
      turned into backslashes, and the simple name with ".java". */
  function PathOf(rootDir: string, packageName: string, simpleName: string): string {
    rootDir + "\\" + (Replace(packageName, '.', '\\') + "\\" + simpleName) + ".java"
  }

  /** The file an entity's source is written to. The class file is split at its last dot
      as for the package name, and fails alike. */
  function OutputPath(rootDir: string, classFile: Option<string>): (r: Result<string, SourceError>)
    ensures r.Success? <==> PackageName(classFile).Success?
    ensures r.Failure? ==> r.error == PackageName(classFile).error
  {
    var packageName :- PackageName(classFile);
    Success(PathOf(rootDir, packageName, AfterLastDot(classFile.value)))
  }

  /** Replacing one character by another and back restores a string without the second. */
  lemma ReplaceBack(s: string, a: char, b: char)
    requires b !in s
    ensures Replace(Replace(s, a, b), b, a) == s
  {
  }

  /** Replacing a character that does not occur changes nothing. */
  lemma ReplaceAbsent(s: string, a: char, b: char)
    requires a !in s
    ensures Replace(s, a, b) == s
  {
  }

  /** Replacing distributes over concatenation. */
  lemma ReplaceConcat(s: string, t: string, a: char, b: char)
    ensures Replace(s + t, a, b) == Replace(s, a, b) + Replace(t, a, b)
  {
  }

  /** Turning the dots of a package into backslashes, appending a backslash and a simple
      name, and reading the backslashes back as dots gives the qualified name. */
  lemma DirectoryRoundTrip(packageName: string, simpleName: string)
    requires '\\' !in packageName && '\\' !in simpleName
    ensures Replace(Replace(packageName, '.', '\\') + "\\" + simpleName, '\\', '.') == packageName + "." + simpleName
  {
    var directory := Replace(packageName, '.', '\\');
    calc {
      Replace(directory + "\\" + simpleName, '\\', '.');
      { ReplaceConcat(directory + "\\", simpleName, '\\', '.'); }
      Replace(directory + "\\", '\\', '.') + Replace(simpleName, '\\', '.');
      { ReplaceConcat(directory, "\\", '\\', '.'); }
      Replace(directory, '\\', '.') + Replace("\\", '\\', '.') + Replace(simpleName, '\\', '.');
      { ReplaceBack(packageName, '.', '\\');
        ReplaceAbsent(simpleName, '\\', '.');
        assert Replace("\\", '\\', '.') == "."; }
      packageName + "." + simpleName;
    }
  }

  /** The three parts of a concatenation can be cut out again. */
  lemma CutThree(prefix: string, middle: string, suffix: string)
    ensures var s := prefix + middle + suffix;
      && s[..|prefix|] == prefix
      && s[|prefix|..|s| - |suffix|] == middle
      && s[|s| - |suffix|..] == suffix
  {
  }

  /** A path is made of the root directory and a backslash, then the package and simple
      name with backslashes for dots, then ".java". */
  lemma PathOfParts(rootDir: string, packageName: string, simpleName: string)
    requires '\\' !in packageName && '\\' !in simpleName
    ensures var path := PathOf(rootDir, packageName, simpleName);
      && |path| == |rootDir| + 1 + |packageName| + 1 + |simpleName| + 5
      && path[..|rootDir| + 1] == rootDir + "\\"
      && path[|path| - 5..] == ".java"
      && Replace(path[|rootDir| + 1..|path| - 5], '\\', '.') == packageName + "." + simpleName
  {
    DirectoryRoundTrip(packageName, simpleName);
    CutThree(rootDir + "\\", Replace(packageName, '.', '\\') + "\\" + simpleName, ".java");
  }

  /** Without backslashes in the class file, a path names its class file: it starts with the
      root directory and a backslash, ends with ".java", and between them, with backslashes
      read as dots, is the class file. */
  lemma OutputPathNamesClassFile(rootDir: string, classFile: string)
    requires '.' in classFile && '\\' !in classFile
    ensures OutputPath(rootDir, Some(classFile)).Success?
    ensures var path := OutputPath(rootDir, Some(classFile)).value;
      && |path| == |rootDir| + 1 + |classFile| + 5
      && path[..|rootDir| + 1] == rootDir + "\\"
      && path[|path| - 5..] == ".java"
      && Replace(path[|rootDir| + 1..|path| - 5], '\\', '.') == classFile
  {
    var packageName := PackageName(Some(classFile)).value;
    var simpleName := AfterLastDot(classFile);
    PackageNameSplitsClassFile(classFile);
    NoBackslashInParts(packageName, simpleName, classFile);
    PathOfParts(rootDir, packageName, simpleName);
  }

  lemma NoBackslashInParts(packageName: string, simpleName: string, classFile: string)
    requires packageName + "." + simpleName == classFile && '\\' !in classFile
    ensures '\\' !in packageName && '\\' !in simpleName
  {
    assert classFile == packageName + ("." + simpleName);
  }

  // ----- The run

  /** One written source file: where, and what its template was given. */
  datatype OutputFile = OutputFile(path: string, source: SourceParameters)

  /** Why a run ends with an exception. */
  datatype RunError =
    /** Scanning for schemas threw. */
    | ScanFailed(scan: ScanError)
    /** `ArrayIndexOutOfBoundsException`: schemas were found but no output directory given. */
    | MissingRootDirectory
    /** Resolution of the found schemas failed. */
    | GenerationFailed(cause: Error)
    /** Generating the source of an entity failed, after the files of the entities before
        it were written. */
    | SourceFailed(reason: SourceError, written: seq<OutputFile>)

  /** How a run that raises nothing ends. */
  datatype Outcome =
    /** "No schemas found. Aborting...": nothing is written. */
    | NoSchemas
    /** One file per generated entity, in order. */
    | Written(files: seq<OutputFile>)

  /** The error of the first entity whose source cannot be generated. */
  function FirstSourceError(entities: seq<GeneratedEntity>): (r: Option<SourceError>)
    ensures r.None? <==> forall i :: 0 <= i < |entities| ==> SourceFileError(entities[i]).None?
    ensures r.Some? ==> exists i :: (0 <= i < |entities| && SourceFileError(entities[i]) == r
      && forall j :: 0 <= j < i ==> SourceFileError(entities[j]).None?)
  {
    if entities == [] then None
    else if SourceFileError(entities[0]).Some? then SourceFileError(entities[0])
    else
      var r := FirstSourceError(entities[1..]);
      if r.Some? then
        var i :| (0 <= i < |entities[1..]| && SourceFileError(entities[1..][i]) == r
          && forall j :: 0 <= j < i ==> SourceFileError(entities[1..][j]).None?);
        assert SourceFileError(entities[i + 1]) == r;
        r
      else r
  }

  /** The error of the first failing entity is the one of the entity at `i` when every
      entity before it succeeds. */
  lemma {:induction false} FirstSourceErrorAt(entities: seq<GeneratedEntity>, i: nat)
    requires i < |entities| && SourceFileError(entities[i]).Some?
    requires forall j :: 0 <= j < i ==> SourceFileError(entities[j]).None?
    ensures FirstSourceError(entities) == SourceFileError(entities[i])
  {
    if i > 0 {
      FirstSourceErrorAt(entities[1..], i - 1);
    }
  }

  /** `file` is the output of `entity`: its path and its template parameters. */
  ghost predicate Writes(file: OutputFile, rootDir: string, entity: GeneratedEntity) {
    && OutputPath(rootDir, entity.classFile) == Success(file.path)
    && PackageName(entity.classFile) == Success(file.source.packageName)
    && IsImportMapOf(file.source.imports, entity.Attributes())
  }

  /** `files` holds the output of every entity, in order. */
  ghost predicate WritesAll(files: seq<OutputFile>, rootDir: string, entities: seq<GeneratedEntity>) {
    |files| == |entities| && forall i :: 0 <= i < |files| ==> Writes(files[i], rootDir, entities[i])
  }

  /** How writing stops: the error of the failing entity and the files written before it. */
  datatype WriteFailure = WriteFailure(reason: SourceError, written: seq<OutputFile>)

  /** `written` are the files written when generating the source of the next entity fails:
      those of every entity before the first failing one, which is the entity at `|written|`. */
  ghost predicate StoppedAt(failure: WriteFailure, rootDir: string, entities: seq<GeneratedEntity>) {
    var k := |failure.written|;
    && k < |entities|
    && SourceFileError(entities[k]) == Some(failure.reason)
    && (forall j :: 0 <= j < k ==> SourceFileError(entities[j]).None?)
    && WritesAll(failure.written, rootDir, entities[..k])
  }

  /** Writes the source of every entity under `rootDir`, one file after another; the first
      entity whose source fails ends the run with the files written so far. */
  method WriteEntities(rootDir: string, entities: seq<GeneratedEntity>) returns (r: Result<seq<OutputFile>, WriteFailure>)
    ensures r.Failure? <==> FirstSourceError(entities).Some?
    ensures r.Failure? ==> r.error.reason == FirstSourceError(entities).value && StoppedAt(r.error, rootDir, entities)
    ensures r.Success? ==> WritesAll(r.value, rootDir, entities)
  {
    var files: seq<OutputFile> := [];
    for i := 0 to |entities|
      invariant forall j :: 0 <= j < i ==> SourceFileError(entities[j]).None?
      invariant |files| == i && forall j :: 0 <= j < i ==> Writes(files[j], rootDir, entities[j])
    {
      var source := GenerateSourceFile(entities[i]);
      if source.Failure? {
        FirstSourceErrorAt(entities, i);
        return Failure(WriteFailure(source.error, files));
      }
      var path := OutputPath(rootDir, entities[i].classFile);
      files := files + [OutputFile(path.value, source.value)];
    }
    return Success(files);
  }

  /** `main`: scan the schemas, stop when there are none, take the output directory from
      the first argument, resolve the schemas and write one source file per entity. */
  method Execute(args: seq<string>, compiles: string -> bool, resources: string -> set<string>,
                 generate: set<string> -> Result<seq<GeneratedEntity>, Error>)
    returns (r: Result<Outcome, RunError>)
    ensures !compiles(DefaultSchemasPattern) ==> r == Failure(ScanFailed(InvalidPattern(DefaultSchemasPattern)))
    ensures compiles(DefaultSchemasPattern) && (exists i :: 1 <= i < |args| && BadPattern(args[i], compiles)) ==>
      exists i :: 1 <= i < |args| && BadPattern(args[i], compiles) && r == Failure(ScanFailed(InvalidPattern(args[i])))
        && forall j :: 1 <= j < i ==> !BadPattern(args[j], compiles)
    ensures Scans(args, compiles) && Schemas(args, resources) == {} ==> r == Success(NoSchemas)
    ensures Scans(args, compiles) && Schemas(args, resources) != {} && |args| == 0 ==> r == Failure(MissingRootDirectory)
    ensures (Scans(args, compiles) && Schemas(args, resources) != {} && |args| > 0
             && generate(Schemas(args, resources)).Failure?) ==>
      r == Failure(GenerationFailed(generate(Schemas(args, resources)).error))
    ensures (Scans(args, compiles) && Schemas(args, resources) != {} && |args| > 0
             && generate(Schemas(args, resources)).Success?) ==>
      var entities := generate(Schemas(args, resources)).value;
      && (r.Failure? <==> FirstSourceError(entities).Some?)
      && (r.Failure? ==> r.error.SourceFailed? && r.error.reason == FirstSourceError(entities).value
                         && StoppedAt(WriteFailure(r.error.reason, r.error.written), args[0], entities))
      && (r.Success? ==> r.value.Written? && WritesAll(r.value.files, args[0], entities))
  {
    var scanned := CollectSchemas(args, compiles, resources);
    if scanned.Failure? {
      return Failure(ScanFailed(scanned.error));
    }
    var schemas := scanned.value;
    if schemas == {} {
      return Success(NoSchemas);
    }
    if |args| == 0 {
      return Failure(MissingRootDirectory);
    }
    var rootDir := args[0];
    var generated := generate(schemas);
    if generated.Failure? {
      return Failure(GenerationFailed(generated.error));
    }
    var files := WriteEntities(rootDir, generated.value);
    if files.Failure? {
      return Failure(SourceFailed(files.error.reason, files.error.written));
    }
    return Success(Written(files.value));
  }
}
