/**
 * The pure parts of `SourceFileGenerator`: the short name an import is written
 * under in generated code (`getShortenedImportName`), the import map handed to
 * the template (`prepareImports`) and the package of an entity's class file.
 * Attribute types are class names as strings; a failing Java string operation
 * is an error value.
 */
module SourceFile {
  import opened Wrappers
  import opened JavaStrings
  import opened Entities

  /** The runtime exceptions source generation can raise. */
  datatype SourceError =
    /** `StringIndexOutOfBoundsException` from `substring`. */
    | StringIndexOutOfBounds
    /** `NullPointerException`: an unset class file or attribute type. */
    | NullPointer

  /** `s.substring(s.lastIndexOf('.') + 1)`: the part of `s` after its last dot. */
  function AfterLastDot(s: string): (r: string)
    ensures '.' !in r
    ensures |r| <= |s| && r == s[|s| - |r|..]
    ensures |r| < |s| ==> s[|s| - |r| - 1] == '.'
    ensures '.' !in s ==> r == s
  {
    s[LastIndexOf(s, '.') + 1..]
  }

  /** Every piece cut after its last dot. */
  function AllAfterLastDot(ps: seq<string>): (r: seq<string>)
    ensures |r| == |ps| && forall i :: 0 <= i < |ps| ==> r[i] == AfterLastDot(ps[i])
  {
    if ps == [] then [] else [AfterLastDot(ps[0])] + AllAfterLastDot(ps[1..])
  }

  /** The short form of a generic name made of the outer type `before` its first `<` and
      the type arguments `inside` the angle brackets: the outer type's simple name, then
      the simple names of the comma-split type arguments, joined by ", ", in brackets. */
  function GenericShortName(before: string, inside: string): (r: string)
    ensures '.' !in r
    ensures '<' in r && '>' in r
  {
    var outer := AfterLastDot(before);
    var arguments := AllAfterLastDot(Split(inside, ','));
    JoinWithoutDots(arguments, ", ");
    var joined := Join(arguments, ", ");
    BracketedWithoutDots(outer, joined);
    outer + "<" + joined + ">"
  }

  /** A name and arguments without dots stay without dots in angle brackets. */
  lemma BracketedWithoutDots(outer: string, joined: string)
    requires '.' !in outer && '.' !in joined
    ensures var r := outer + "<" + joined + ">";
      '.' !in r && '<' in r && '>' in r
  {
    var r := outer + "<" + joined + ">";
    assert r[|outer|] == '<' && r[|r| - 1] == '>';
    forall i | 0 <= i < |r| ensures r[i] != '.' {
      if i < |outer| {
        assert r[i] == outer[i];
      } else if |outer| < i < |r| - 1 {
        assert r[i] == joined[i - |outer| - 1];
      }
    }
  }

  /** `getShortenedImportName`: a plain class name becomes its simple name, a generic one
      its `GenericShortName` up to the first `>`. When the name has a `<` and its first `>`
      is missing or comes before its first `<`, `substring` throws. */
  function ShortenedImportName(fullName: string): (r: Result<string, SourceError>)
    ensures r.Failure? ==> r.error == StringIndexOutOfBounds
  {
    var open := IndexOf(fullName, '<');
    if open == -1 then Success(AfterLastDot(fullName))
    else
      var close := IndexOf(fullName, '>');
      if close < open + 1 then Failure(StringIndexOutOfBounds)
      else Success(GenericShortName(fullName[..open], fullName[open + 1..close]))
  }

  /** Joining pieces without dots with a separator without dots gives no dot. */
  lemma {:induction false} JoinWithoutDots(ps: seq<string>, sep: string)
    requires '.' !in sep && forall i :: 0 <= i < |ps| ==> '.' !in ps[i]
    ensures '.' !in Join(ps, sep)
  {
    if |ps| > 1 {
      JoinWithoutDots(ps[1..], sep);
    }
  }

  /** The short name of a plain class name is its simple name, and a plain name never fails. */
  lemma ShortNameOfPlainName(fullName: string)
    requires '<' !in fullName
    ensures ShortenedImportName(fullName).Success?
    ensures var short := ShortenedImportName(fullName).value;
      '.' !in short && short == fullName[|fullName| - |short|..]
      && (|short| < |fullName| ==> fullName[|fullName| - |short| - 1] == '.')
  {
  }

  /** Shortening fails exactly when the name has a `<` and its first `>` is missing or comes
      before its first `<`. */
  lemma ShortNameFailsIff(fullName: string)
    ensures ShortenedImportName(fullName).Failure? <==>
      '<' in fullName && ('>' !in fullName || IndexOf(fullName, '>') < IndexOf(fullName, '<'))
  {
    var open, close := IndexOf(fullName, '<'), IndexOf(fullName, '>');
    if open != -1 && close != -1 {
      assert fullName[open] != fullName[close];
    }
  }

  /** A short name never holds a dot, and it is generic exactly when the full name is. */
  lemma ShortNameHasNoDots(fullName: string)
    requires ShortenedImportName(fullName).Success?
    ensures '.' !in ShortenedImportName(fullName).value
    ensures '<' in ShortenedImportName(fullName).value <==> '<' in fullName
  {
  }

  /** The first occurrence of a character is unaffected by what follows it. */
  lemma {:induction false} IndexOfPrefix(s: string, t: string, c: char)
    requires c in s
    ensures IndexOf(s + t, c) == IndexOf(s, c)
  {
    if s[0] != c {
      assert (s + t)[1..] == s[1..] + t;
      IndexOfPrefix(s[1..], t, c);
    }
  }

  /** Only the text up to the first `>` counts: whatever follows it is dropped. */
  lemma ShortNameIgnoresTail(fullName: string, tail: string)
    requires '<' in fullName && '>' in fullName
    ensures ShortenedImportName(fullName + tail) == ShortenedImportName(fullName)
  {
    IndexOfPrefix(fullName, tail, '<');
    IndexOfPrefix(fullName, tail, '>');
    var open, close := IndexOf(fullName, '<'), IndexOf(fullName, '>');
    if close >= open + 1 {
      assert (fullName + tail)[..open] == fullName[..open];
      assert (fullName + tail)[open + 1..close] == fullName[open + 1..close];
    }
  }

  // ----- The import map

  /** Every string of the list comes before every later one: sorted, without repeats. */
  predicate StrictlySorted(s: seq<string>) {
    forall i, j :: 0 <= i < j < |s| ==> Less(s[i], s[j])
  }

  /** Adds `x` to a strictly sorted list unless it is there (`sorted()` then a `LinkedHashSet`). */
  function Insert(s: seq<string>, x: string): (r: seq<string>)
    requires StrictlySorted(s)
    ensures StrictlySorted(r)
    ensures forall y :: y in r <==> y in s || y == x
  {
    if s == [] then [x]
    else if x == s[0] then s
    else if Less(x, s[0]) then
      assert forall j :: 0 < j < |s| ==> Less(x, s[j]) by {
        forall j | 0 < j < |s| ensures Less(x, s[j]) {
          LessTransitive(x, s[0], s[j]);
        }
      }
      [x] + s
    else
      LessTotal(x, s[0]);
      var rest := Insert(s[1..], x);
      assert forall y :: y in rest ==> Less(s[0], y) by {
        forall y | y in rest ensures Less(s[0], y) {
          if y != x {
            var j :| 0 <= j < |s[1..]| && s[1..][j] == y;
            assert s[j + 1] == y;
          }
        }
      }
      [s[0]] + rest
  }

  /** A strictly sorted list is fixed by its elements: the import keys are the only
      ascending enumeration of the types without repeats. */
  lemma {:induction false} StrictlySortedUnique(a: seq<string>, b: seq<string>)
    requires StrictlySorted(a) && StrictlySorted(b)
    requires forall x :: x in a <==> x in b
    ensures a == b
  {
    assert a != [] ==> a[0] in b;
    assert b != [] ==> b[0] in a;
    if a != [] && b != [] {
      assert a[0] == b[0] by {
        assert a[0] in a && b[0] in b;
        var i :| 0 <= i < |a| && a[i] == b[0];
        var j :| 0 <= j < |b| && b[j] == a[0];
        if i > 0 && j > 0 {
          LessTransitive(a[0], a[i], a[0]);
          LessIrreflexive(a[0]);
        }
      }
      forall x ensures x in a[1..] <==> x in b[1..] {
        if x in a[1..] {
          var j :| 0 <= j < |a[1..]| && a[1..][j] == x;
          assert Less(a[0], a[j + 1]);
          LessIrreflexive(x);
          assert x in b && x != b[0];
          var k :| 0 <= k < |b| && b[k] == x;
          assert b[1..][k - 1] == x;
        }
        if x in b[1..] {
          var j :| 0 <= j < |b[1..]| && b[1..][j] == x;
          assert Less(b[0], b[j + 1]);
          LessIrreflexive(x);
          assert x in a && x != a[0];
          var k :| 0 <= k < |a| && a[k] == x;
          assert a[1..][k - 1] == x;
        }
      }
      StrictlySortedUnique(a[1..], b[1..]);
      assert a == [a[0]] + a[1..] && b == [b[0]] + b[1..];
    }
  }

  /** The import map: its keys in insertion order, and each key's short name. */
  datatype ImportMap = ImportMap(keys: seq<string>, names: map<string, string>)

  /** The types of the attributes whose type is set. */
  function TypeNames(attributes: AttributeSet): set<string> {
    TypesOf(attributes, attributes.Keys)
  }

  /** The types of the attributes named in `ks` whose type is set. */
  function TypesOf(attributes: AttributeSet, ks: set<string>): set<string> {
    set k | k in ks && k in attributes && attributes[k].typeName.Some? :: attributes[k].typeName.value
  }

  /** Some attribute has no type. */
  predicate HasUntyped(attributes: AttributeSet) {
    exists k :: k in attributes && attributes[k].typeName.None?
  }

  /** `m` is the import map of the given attributes: their distinct types in ascending
      order, each mapped to its short name. */
  ghost predicate IsImportMapOf(m: ImportMap, attributes: AttributeSet) {
    && StrictlySorted(m.keys)
    && (forall t :: t in m.keys <==> t in TypeNames(attributes))
    && m.names.Keys == TypeNames(attributes)
    && forall t :: t in m.names ==> ShortenedImportName(t) == Success(m.names[t])
  }

  /** The import map of a set of attributes is unique. */
  lemma ImportMapUnique(m1: ImportMap, m2: ImportMap, attributes: AttributeSet)
    requires IsImportMapOf(m1, attributes) && IsImportMapOf(m2, attributes)
    ensures m1 == m2
  {
    StrictlySortedUnique(m1.keys, m2.keys);
    assert forall t :: t in m1.names ==> ShortenedImportName(t) == Success(m1.names[t]) == Success(m2.names[t]);
  }

  /** Every type has a short name. */
  predicate AllShortenable(types: set<string>) {
    forall t :: t in types ==> ShortenedImportName(t).Success?
  }

  /** The attribute types in ascending order without repeats: the `sorted()` stream
      collected into a `LinkedHashSet`. */
  method SortedTypes(attributes: AttributeSet) returns (keys: seq<string>)
    requires !HasUntyped(attributes)
    ensures StrictlySorted(keys)
    ensures forall t :: t in keys <==> t in TypeNames(attributes)
  {
    keys := [];
    var pending := attributes.Keys;
    ghost var done: set<string> := {};
    while pending != {}
      invariant pending + done == attributes.Keys && pending !! done
      invariant StrictlySorted(keys)
      invariant forall t :: t in keys <==> t in TypesOf(attributes, done)
      decreases |pending|
    {
      var k :| k in pending;
      var t := attributes[k].typeName.value;
      assert TypesOf(attributes, done + {k}) == TypesOf(attributes, done) + {t} by {
        forall u | u in TypesOf(attributes, done + {k}) ensures u in TypesOf(attributes, done) + {t} {
          var k' :| k' in done + {k} && k' in attributes && attributes[k'].typeName == Some(u);
          if k' != k {
            assert u in TypesOf(attributes, done);
          }
        }
      }
      keys := Insert(keys, t);
      pending := pending - {k};
      done := done + {k};
    }
  }

  /** The short name of every key, or the failure of the first key without one. */
  function ShortNameMap(keys: seq<string>): (r: Result<map<string, string>, SourceError>)
    ensures r.Success? <==> forall j :: 0 <= j < |keys| ==> ShortenedImportName(keys[j]).Success?
    ensures r.Failure? ==> r.error == StringIndexOutOfBounds
    ensures r.Success? ==> forall t :: t in r.value <==> t in keys
    ensures r.Success? ==> forall t :: t in r.value ==> ShortenedImportName(t) == Success(r.value[t])
  {
    if keys == [] then Success(map[])
    else
      var last := keys[|keys| - 1];
      var front := ShortNameMap(keys[..|keys| - 1]);
      assert keys == keys[..|keys| - 1] + [last];
      if front.Failure? then front
      else
        var short := ShortenedImportName(last);
        if short.Failure? then Failure(short.error)
        else Success(front.value[last := short.value])
  }

  /** `importsMap.put(type, getShortenedImportName(type))` for every key in order; the first
      name that cannot be shortened aborts. */
  method ShortNames(keys: seq<string>) returns (r: Result<map<string, string>, SourceError>)
    ensures r == ShortNameMap(keys)
  {
    var names: map<string, string> := map[];
    for i := 0 to |keys|
      invariant ShortNameMap(keys[..i]) == Success(names)
    {
      assert keys[..i + 1][..i] == keys[..i];
      var short := ShortenedImportName(keys[i]);
      if short.Failure? {
        return Failure(short.error);
      }
      names := names[keys[i] := short.value];
    }
    assert keys[..|keys|] == keys;
    return Success(names);
  }

  /** `prepareImports`: the distinct attribute types in ascending order, each mapped to its
      short name; no attributes give the empty map. An untyped attribute makes the sort
      or the shortening dereference `null`. */
  method PrepareImports(entity: GeneratedEntity) returns (r: Result<ImportMap, SourceError>)
    ensures entity.Attributes() == map[] ==> r == Success(ImportMap([], map[]))
    ensures HasUntyped(entity.Attributes()) ==> r == Failure(NullPointer)
    ensures !HasUntyped(entity.Attributes()) ==>
      (r.Success? <==> AllShortenable(TypeNames(entity.Attributes())))
    ensures r.Failure? ==> r.error == (if HasUntyped(entity.Attributes()) then NullPointer else StringIndexOutOfBounds)
    ensures r.Success? ==> IsImportMapOf(r.value, entity.Attributes())
  {
    var attributes := entity.Attributes();
    if exists k :: k in attributes && attributes[k].typeName.None? {
      return Failure(NullPointer);
    }
    var keys := SortedTypes(attributes);
    assert keys != [] ==> keys[0] in TypeNames(attributes);
    if |keys| == 0 {
      return Success(ImportMap([], map[]));
    }
    var names := ShortNames(keys);
    if names.Failure? {
      return Failure(names.error);
    }
    return Success(ImportMap(keys, names.value));
  }

  /** The package of a class file: the text before its last dot. A class file without a dot
      makes `substring` throw; an unset one is dereferenced. */
  function PackageName(classFile: Option<string>): (r: Result<string, SourceError>)
    ensures classFile.None? ==> r == Failure(NullPointer)
    ensures classFile.Some? ==> (r.Success? <==> '.' in classFile.value)
    ensures classFile.Some? && '.' !in classFile.value ==> r == Failure(StringIndexOutOfBounds)
  {
    match classFile
    case None => Failure(NullPointer)
    case Some(cf) =>
      var lastDot := LastIndexOf(cf, '.');
      if lastDot == -1 then Failure(StringIndexOutOfBounds) else Success(cf[..lastDot])
  }

  /** The package, a dot and the simple name make up the class file again. */
  lemma PackageNameSplitsClassFile(classFile: string)
    requires '.' in classFile
    ensures PackageName(Some(classFile)).value + "." + AfterLastDot(classFile) == classFile
  {
    var lastDot := LastIndexOf(classFile, '.');
    assert classFile == classFile[..lastDot] + "." + classFile[lastDot + 1..];
  }

  /** What the template of a source file is given besides the entity itself. */
  datatype SourceParameters = SourceParameters(packageName: string, imports: ImportMap)

  /** Why `generateSourceFile` throws for an entity, if it does: its class file first,
      then its attribute types. */
  function SourceFileError(entity: GeneratedEntity): (r: Option<SourceError>)
    ensures r.None? <==> (PackageName(entity.classFile).Success?
      && !HasUntyped(entity.Attributes()) && AllShortenable(TypeNames(entity.Attributes())))
  {
    var packageName := PackageName(entity.classFile);
    if packageName.Failure? then Some(packageName.error)
    else if HasUntyped(entity.Attributes()) then Some(NullPointer)
    else if !AllShortenable(TypeNames(entity.Attributes())) then Some(StringIndexOutOfBounds)
    else None
  }

  /** `generateSourceFile` up to the template: the package name, then the imports. */
  method GenerateSourceFile(entity: GeneratedEntity) returns (r: Result<SourceParameters, SourceError>)
    ensures r.Failure? <==> SourceFileError(entity).Some?
    ensures r.Failure? ==> r.error == SourceFileError(entity).value
    ensures r.Success? ==> PackageName(entity.classFile) == Success(r.value.packageName)
    ensures r.Success? ==> IsImportMapOf(r.value.imports, entity.Attributes())
  {
    var packageName := PackageName(entity.classFile);
    if packageName.Failure? {
      return Failure(packageName.error);
    }
    var imports := PrepareImports(entity);
    if imports.Failure? {
      return Failure(imports.error);
    }
    return Success(SourceParameters(packageName.value, imports.value));
  }
}
