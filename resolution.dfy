/**
 * `processEntityDescriptor`: merging one entity descriptor into the entities
 * resolved so far.
 *
 * The generator keeps a map from entity name to `GeneratedEntity` object and
 * updates those objects in place; extending a root binds a second name to the
 * root's own object. Here the objects live in an arena (`Store.arena`) and the
 * name map holds arena slots (`Store.index`), so that two names bound to one
 * object are two keys with the same slot. `ProcessEntity` is the effect of one
 * call on that state; the class in module Generator performs it step by step.
 */
module Resolution {
  import opened Wrappers
  import opened JavaStrings
  import opened Descriptors
  import opened Errors
  import opened Entities
  import opened Validation
  import Grouping

  /** Every reference an entity holds stays inside an arena of `bound` slots, and its
      attributes are keyed by their names. */
  predicate EntityWithin(e: GeneratedEntity, bound: nat) {
    && (e.root.Some? ==> e.root.value < bound)
    && NameKeyed(e.Attributes())
    && forall k :: k in e.Attributes() && e.Attributes()[k].relationInfo.Some? ==>
         e.Attributes()[k].relationInfo.value.target < bound
  }

  /** The resolved entities: the objects, and the map from entity name to object. */
  datatype Store = Store(arena: seq<GeneratedEntity>, index: map<string, EntityRef>) {

    /** Names and references all point at existing objects. */
    predicate Valid() {
      && (forall n :: n in index ==> index[n] < |arena|)
      && (forall i :: 0 <= i < |arena| ==> EntityWithin(arena[i], |arena|))
    }

    /** `outcome.get(n)`: the entity bound to `n`, if any. */
    function Get(n: string): (r: Option<GeneratedEntity>)
      requires Valid()
      ensures n !in index <==> r.None?
      ensures n in index ==> r == Some(arena[index[n]])
    {
      if n in index then Some(arena[index[n]]) else None
    }
  }

  /** The empty `HashMap` resolution starts from. */
  const EmptyStore := Store([], map[])

  /** The names of a list of attribute descriptors. */
  function AttributeNames(ads: seq<AttributeDescriptor>): set<string> {
    set ad | ad in ads && ad.name.Some? :: ad.name.value
  }

  /** The attribute an attribute descriptor resolves to once its class is found: its name,
      its type, its `reintroduce` flag and its flags, and no relation. */
  function ResolveAttribute(ad: AttributeDescriptor): Attribute
    requires ValidAttribute(ad)
  {
    Attribute(ad.name.value, ad.typeName, ad.IsReintroduced(), Some(ad.Flags()), None)
  }

  /** An attribute descriptor that aborts the run: its class cannot be loaded, or it
      redefines an attribute of the working set without being marked as reintroduced. */
  predicate Offends(ad: AttributeDescriptor, working: AttributeSet, classpath: set<string>)
    requires ValidAttribute(ad)
  {
    ad.typeName.value !in classpath || (ad.name.value in working && !ad.IsReintroduced())
  }

  /** The exception an offending attribute descriptor raises; the class is checked first. */
  function Offence(ad: AttributeDescriptor, classpath: set<string>): Error
    requires ValidAttribute(ad)
  {
    if ad.typeName.value !in classpath then ClassNotFound(ad.name.value) else DuplicateAttribute(ad.name.value)
  }

  /** The attribute stream of `processEntityDescriptor` (lines 228-251): every descriptor is
      resolved in declared order, checked against the working set, and of several with one
      name the first declared is kept. */
  function CollectAttributes(ads: seq<AttributeDescriptor>, working: AttributeSet, classpath: set<string>)
    : (r: Result<AttributeSet, Error>)
    requires forall i :: 0 <= i < |ads| ==> ValidAttribute(ads[i])
    ensures r.Success? ==> NameKeyed(r.value) && r.value.Keys == AttributeNames(ads)
    ensures r.Success? ==> forall k :: k in r.value ==> r.value[k].relationInfo.None?
    decreases |ads|
  {
    if ads == [] then Success(map[])
    else
      var init := ads[..|ads| - 1];
      var ad := ads[|ads| - 1];
      assert ads == init + [ad];
      var generated :- CollectAttributes(init, working, classpath);
      if Offends(ad, working, classpath) then Failure(Offence(ad, classpath))
      else if ad.name.value in generated then Success(generated)
      else Success(generated[ad.name.value := ResolveAttribute(ad)])
  }

  /** `ads[i]` is the first descriptor named `n`. */
  predicate FirstNamed(ads: seq<AttributeDescriptor>, i: int, n: string) {
    0 <= i < |ads| && ads[i].name == Some(n) && forall j :: 0 <= j < i ==> ads[j].name != Some(n)
  }

  /** The attribute stream fails exactly when some descriptor offends, and then with the
      exception of the first offender in declared order. */
  lemma CollectAttributesFailsAtFirstOffender(
    ads: seq<AttributeDescriptor>, working: AttributeSet, classpath: set<string>)
    requires forall i :: 0 <= i < |ads| ==> ValidAttribute(ads[i])
    ensures CollectAttributes(ads, working, classpath).Failure? <==>
      exists i :: 0 <= i < |ads| && Offends(ads[i], working, classpath)
    ensures CollectAttributes(ads, working, classpath).Failure? ==>
      exists i :: 0 <= i < |ads| && Offends(ads[i], working, classpath)
        && (forall j :: 0 <= j < i ==> !Offends(ads[j], working, classpath))
        && CollectAttributes(ads, working, classpath).error == Offence(ads[i], classpath)
  {
    CollectAttributesFailsIff(ads, working, classpath);
    CollectAttributesFailsAtFirst(ads, working, classpath);
  }

  /** One more descriptor: a failure of the stream so far stands; otherwise the new
      descriptor either offends or is added under its name unless that name is taken. */
  lemma CollectAttributesStep(ads: seq<AttributeDescriptor>, working: AttributeSet, classpath: set<string>)
    requires ads != [] && forall i :: 0 <= i < |ads| ==> ValidAttribute(ads[i])
    ensures var init, ad := ads[..|ads| - 1], ads[|ads| - 1];
      && (forall i :: 0 <= i < |init| ==> init[i] == ads[i] && ValidAttribute(init[i]))
      && (CollectAttributes(init, working, classpath).Failure? ==>
           CollectAttributes(ads, working, classpath) == CollectAttributes(init, working, classpath))
      && (CollectAttributes(init, working, classpath).Success? && Offends(ad, working, classpath) ==>
           CollectAttributes(ads, working, classpath) == Failure(Offence(ad, classpath)))
      && (CollectAttributes(init, working, classpath).Success? && !Offends(ad, working, classpath) ==>
           var before := CollectAttributes(init, working, classpath).value;
           CollectAttributes(ads, working, classpath) ==
             Success(if ad.name.value in before then before else before[ad.name.value := ResolveAttribute(ad)]))
  {
  }

  lemma {:induction false} CollectAttributesFailsIff(
    ads: seq<AttributeDescriptor>, working: AttributeSet, classpath: set<string>)
    requires forall i :: 0 <= i < |ads| ==> ValidAttribute(ads[i])
    ensures CollectAttributes(ads, working, classpath).Failure? <==>
      exists i :: 0 <= i < |ads| && Offends(ads[i], working, classpath)
    decreases |ads|
  {
    if ads != [] {
      var init := ads[..|ads| - 1];
      CollectAttributesStep(ads, working, classpath);
      CollectAttributesFailsIff(init, working, classpath);
      if exists i :: 0 <= i < |ads| && Offends(ads[i], working, classpath) {
        var i :| 0 <= i < |ads| && Offends(ads[i], working, classpath);
        if i < |init| {
          assert Offends(init[i], working, classpath);
        }
      }
    }
  }

  lemma {:induction false} CollectAttributesFailsAtFirst(
    ads: seq<AttributeDescriptor>, working: AttributeSet, classpath: set<string>)
    requires forall i :: 0 <= i < |ads| ==> ValidAttribute(ads[i])
    ensures CollectAttributes(ads, working, classpath).Failure? ==>
      exists i :: 0 <= i < |ads| && Offends(ads[i], working, classpath)
        && (forall j :: 0 <= j < i ==> !Offends(ads[j], working, classpath))
        && CollectAttributes(ads, working, classpath).error == Offence(ads[i], classpath)
    decreases |ads|
  {
    if ads != [] {
      var init := ads[..|ads| - 1];
      var last := |ads| - 1;
      CollectAttributesStep(ads, working, classpath);
      CollectAttributesFailsAtFirst(init, working, classpath);
      if CollectAttributes(init, working, classpath).Failure? {
        var i :| 0 <= i < |init| && Offends(init[i], working, classpath)
          && (forall j :: 0 <= j < i ==> !Offends(init[j], working, classpath))
          && CollectAttributes(init, working, classpath).error == Offence(init[i], classpath);
      } else if Offends(ads[last], working, classpath) {
        CollectAttributesFailsIff(init, working, classpath);
      }
    }
  }

  /** Once a prefix of the descriptors fails, the whole stream fails with the same exception. */
  lemma {:induction false} CollectAttributesPrefixFailure(
    ads: seq<AttributeDescriptor>, k: nat, working: AttributeSet, classpath: set<string>)
    requires forall i :: 0 <= i < |ads| ==> ValidAttribute(ads[i])
    requires k <= |ads| && CollectAttributes(ads[..k], working, classpath).Failure?
    ensures CollectAttributes(ads, working, classpath) == CollectAttributes(ads[..k], working, classpath)
    decreases |ads|
  {
    if k < |ads| {
      var init := ads[..|ads| - 1];
      assert init[..k] == ads[..k];
      CollectAttributesPrefixFailure(init, k, working, classpath);
    } else {
      assert ads[..k] == ads;
    }
  }

  /** Of several descriptors with one name, the attribute kept is the first declared one. */
  lemma {:induction false} CollectAttributesKeepsFirst(
    ads: seq<AttributeDescriptor>, working: AttributeSet, classpath: set<string>)
    requires forall i :: 0 <= i < |ads| ==> ValidAttribute(ads[i])
    requires CollectAttributes(ads, working, classpath).Success?
    ensures var generated := CollectAttributes(ads, working, classpath).value;
      forall i, n :: FirstNamed(ads, i, n) ==> n in generated && generated[n] == ResolveAttribute(ads[i])
    decreases |ads|
  {
    if ads != [] {
      var init := ads[..|ads| - 1];
      var last := |ads| - 1;
      CollectAttributesStep(ads, working, classpath);
      var generated := CollectAttributes(ads, working, classpath).value;
      var before := CollectAttributes(init, working, classpath).value;
      CollectAttributesKeepsFirst(init, working, classpath);
      forall i, n | FirstNamed(ads, i, n) ensures n in generated && generated[n] == ResolveAttribute(ads[i]) {
        if i < last {
          assert FirstNamed(init, i, n);
        } else {
          assert n !in before;
        }
      }
    }
  }

  // ----- One descriptor

  /** The name of the root a descriptor with a root refers to. */
  function RootName(d: EntityDescriptor): string
    requires ValidEntity(d) && d.root.Some?
  {
    d.root.value.name.value
  }

  /** Inheritance mode: the descriptor has a root and `extend` is false. */
  predicate Inherits(d: EntityDescriptor) {
    d.root.Some? && !d.root.value.ExtendsRoot()
  }

  /** Extension mode onto a root that is already resolved: the descriptor's name is rebound
      to the root entity itself. */
  predicate ExtendsKnownRoot(s: Store, d: EntityDescriptor)
    requires ValidEntity(d)
  {
    d.root.Some? && d.root.value.ExtendsRoot() && RootName(d) in s.index
  }

  /** The attributes the descriptor's name is bound to so far (`getOrDefault` at line 199). */
  function Base(s: Store, d: EntityDescriptor): AttributeSet
    requires s.Valid() && ValidEntity(d)
  {
    if d.name.value in s.index then s.arena[s.index[d.name.value]].Attributes() else map[]
  }

  /** The working attribute set (lines 200, 211): the attributes bound to the descriptor's
      name, plus, when inheriting, those of the root that the name does not already have. */
  function Working(s: Store, d: EntityDescriptor): AttributeSet
    requires s.Valid() && ValidEntity(d)
    requires Inherits(d) ==> RootName(d) in s.index
  {
    if Inherits(d) then s.arena[s.index[RootName(d)]].Attributes() + Base(s, d) else Base(s, d)
  }

  /** The slot of the entity the descriptor updates: the root's when extending a known root,
      otherwise the one bound to its name, otherwise a fresh one. */
  function TargetSlot(s: Store, d: EntityDescriptor): (slot: nat)
    requires s.Valid() && ValidEntity(d)
    ensures slot <= |s.arena|
    ensures slot == |s.arena| <==> !ExtendsKnownRoot(s, d) && d.name.value !in s.index
  {
    if ExtendsKnownRoot(s, d) then s.index[RootName(d)]
    else if d.name.value in s.index then s.index[d.name.value]
    else |s.arena|
  }

  /** The first writer wins: a field keeps its value unless it is still blank. */
  function FirstWriter(current: Option<string>, offered: Option<string>): (r: Option<string>)
    ensures !IsBlank(current) ==> r == current
    ensures IsBlank(current) ==> r == offered
  {
    if IsBlank(current) then offered else current
  }

  /** The entity in the target slot before the update (`new GeneratedEntity()` for a fresh slot). */
  function Current(s: Store, d: EntityDescriptor): GeneratedEntity
    requires s.Valid() && ValidEntity(d)
  {
    if TargetSlot(s, d) < |s.arena| then s.arena[TargetSlot(s, d)] else NewEntity
  }

  /** The entity after the update: identity fields filled while blank, the root set when
      inheriting, and the working attributes with the new definitions replacing old ones. */
  function Merged(s: Store, d: EntityDescriptor, generated: AttributeSet): GeneratedEntity
    requires s.Valid() && ValidEntity(d)
    requires Inherits(d) ==> RootName(d) in s.index
  {
    var e := Current(s, d);
    GeneratedEntity(
      FirstWriter(e.name, d.name),
      FirstWriter(e.deployment, d.deployment),
      FirstWriter(e.classFile, d.classFile),
      if Inherits(d) then Some(s.index[RootName(d)]) else e.root,
      Some(Working(s, d) + generated))
  }

  /** The arena with `e` stored in `slot`, a fresh slot being appended. */
  function Put(arena: seq<GeneratedEntity>, slot: nat, e: GeneratedEntity): (r: seq<GeneratedEntity>)
    requires slot <= |arena|
    ensures |r| == if slot < |arena| then |arena| else |arena| + 1
    ensures r[slot] == e && forall j :: 0 <= j < |arena| && j != slot ==> r[j] == arena[j]
  {
    if slot < |arena| then arena[slot := e] else arena + [e]
  }

  /** `processEntityDescriptor`: the state after one descriptor, or the exception it raises.
      An inheriting descriptor whose root is not resolved yet dereferences `null`. */
  function ProcessEntity(s: Store, d: EntityDescriptor, classpath: set<string>): (r: Result<Store, Error>)
    requires s.Valid() && ValidEntity(d)
    ensures r.Success? ==> r.value.Valid()
    ensures r.Success? ==> r.value.index.Keys == s.index.Keys + {d.name.value}
  {
    if Inherits(d) && RootName(d) !in s.index then Failure(MissingRootEntity(RootName(d)))
    else
      var generated :- CollectAttributes(d.Attributes(), Working(s, d), classpath);
      var slot := TargetSlot(s, d);
      var updated := Merged(s, d, generated);
      var arena := Put(s.arena, slot, updated);
      assert EntityWithin(updated, |arena|);
      assert forall i :: 0 <= i < |arena| ==> EntityWithin(arena[i], |arena|) by {
        forall i | 0 <= i < |arena| ensures EntityWithin(arena[i], |arena|) {
          if i != slot {
            assert EntityWithin(s.arena[i], |s.arena|);
          }
        }
      }
      Success(Store(arena, s.index[d.name.value := slot]))
  }

  /** The entity bound to the descriptor's name once it is processed. */
  function Bound(s: Store, d: EntityDescriptor, classpath: set<string>): GeneratedEntity
    requires s.Valid() && ValidEntity(d) && ProcessEntity(s, d, classpath).Success?
  {
    var t := ProcessEntity(s, d, classpath).value;
    t.arena[t.index[d.name.value]]
  }

  /** A successful step writes one object, in the target slot, and binds the descriptor's
      name to it; every other object and every other name stays as it was. */
  lemma ProcessEntityFrame(s: Store, d: EntityDescriptor, classpath: set<string>)
    requires s.Valid() && ValidEntity(d) && ProcessEntity(s, d, classpath).Success?
    ensures var t := ProcessEntity(s, d, classpath).value;
      && t.index == s.index[d.name.value := TargetSlot(s, d)]
      && |t.arena| == (if TargetSlot(s, d) < |s.arena| then |s.arena| else |s.arena| + 1)
      && (forall j :: 0 <= j < |s.arena| && j != TargetSlot(s, d) ==> t.arena[j] == s.arena[j])
      && t.arena[TargetSlot(s, d)] == Merged(s, d, CollectAttributes(d.Attributes(), Working(s, d), classpath).value)
  {
  }

  /** The step fails exactly when an inheriting descriptor's root is not resolved yet or an
      attribute offends against the working set: a redefinition not marked as reintroduced
      is a duplicate. */
  lemma ProcessEntityFailsIff(s: Store, d: EntityDescriptor, classpath: set<string>)
    requires s.Valid() && ValidEntity(d)
    ensures Inherits(d) && RootName(d) !in s.index ==>
      ProcessEntity(s, d, classpath) == Failure(MissingRootEntity(RootName(d)))
    ensures !(Inherits(d) && RootName(d) !in s.index) ==>
      (ProcessEntity(s, d, classpath).Failure? <==>
        exists i :: 0 <= i < |d.Attributes()| && Offends(d.Attributes()[i], Working(s, d), classpath))
  {
    if !(Inherits(d) && RootName(d) !in s.index) {
      CollectAttributesFailsAtFirstOffender(d.Attributes(), Working(s, d), classpath);
    }
  }

  /** Inheritance mode: the descriptor's entity has the root entity as its root and every
      attribute name of the root; the root entity itself is untouched unless the descriptor
      is bound to the root's own object. */
  lemma InheritanceLinksRoot(s: Store, d: EntityDescriptor, classpath: set<string>)
    requires s.Valid() && ValidEntity(d) && Inherits(d) && ProcessEntity(s, d, classpath).Success?
    ensures RootName(d) in s.index
    ensures var t := ProcessEntity(s, d, classpath).value;
      var rootSlot := s.index[RootName(d)];
      var child := t.arena[t.index[d.name.value]];
      && child.root == Some(rootSlot)
      && s.arena[rootSlot].Attributes().Keys <= child.Attributes().Keys
      && (t.index[d.name.value] != rootSlot ==> t.arena[rootSlot] == s.arena[rootSlot])
  {
    ProcessEntityFrame(s, d, classpath);
  }

  /** Extension mode onto a resolved root: no object is created, and the descriptor's name
      is bound to the root's object, which the root's name still denotes. */
  lemma ExtensionBindsRoot(s: Store, d: EntityDescriptor, classpath: set<string>)
    requires s.Valid() && ValidEntity(d) && ExtendsKnownRoot(s, d) && ProcessEntity(s, d, classpath).Success?
    ensures var t := ProcessEntity(s, d, classpath).value;
      && |t.arena| == |s.arena|
      && t.index[d.name.value] == s.index[RootName(d)]
      && t.index[RootName(d)] == t.index[d.name.value]
      && t.Get(d.name.value) == t.Get(RootName(d))
  {
    ProcessEntityFrame(s, d, classpath);
  }

  /** Extension mode onto a root that is not resolved yet falls back to the entity bound to
      the descriptor's own name, or to a fresh one. */
  lemma ExtensionOfUnresolvedRoot(s: Store, d: EntityDescriptor, classpath: set<string>)
    requires s.Valid() && ValidEntity(d) && d.root.Some? && d.root.value.ExtendsRoot()
    requires RootName(d) !in s.index && ProcessEntity(s, d, classpath).Success?
    ensures var t := ProcessEntity(s, d, classpath).value;
      && (d.name.value in s.index ==> t.index[d.name.value] == s.index[d.name.value])
      && (d.name.value !in s.index ==> t.index[d.name.value] == |s.arena| && |t.arena| == |s.arena| + 1)
  {
    ProcessEntityFrame(s, d, classpath);
  }

  /** Extending a root keeps the root's attributes only when the extending descriptor has
      the root's name: under a new name the working set starts empty, and the root object
      is left with the descriptor's attributes alone. */
  lemma ExtensionKeepsRootAttributesOnlyUnderItsName(s: Store, d: EntityDescriptor, classpath: set<string>)
    requires s.Valid() && ValidEntity(d) && ExtendsKnownRoot(s, d) && ProcessEntity(s, d, classpath).Success?
    ensures var t := ProcessEntity(s, d, classpath).value;
      var rootSlot := s.index[RootName(d)];
      && (d.name.value == RootName(d) ==> s.arena[rootSlot].Attributes().Keys <= t.arena[rootSlot].Attributes().Keys)
      && (d.name.value != RootName(d) && d.name.value !in s.index ==>
            t.arena[rootSlot].Attributes().Keys == AttributeNames(d.Attributes()))
  {
    ProcessEntityFrame(s, d, classpath);
  }

  /** Name, deployment and class file are written only while blank: the first descriptor to
      supply one wins, and later descriptors of the same object leave it as it is. */
  lemma IdentityFirstWriterWins(s: Store, d: EntityDescriptor, classpath: set<string>)
    requires s.Valid() && ValidEntity(d) && ProcessEntity(s, d, classpath).Success?
    ensures var before := Current(s, d);
      var after := Bound(s, d, classpath);
      && (!IsBlank(before.name) ==> after.name == before.name)
      && (IsBlank(before.name) ==> after.name == d.name)
      && (!IsBlank(before.deployment) ==> after.deployment == before.deployment)
      && (IsBlank(before.deployment) ==> after.deployment == d.deployment)
      && (!IsBlank(before.classFile) ==> after.classFile == before.classFile)
      && (IsBlank(before.classFile) ==> after.classFile == d.classFile)
  {
    ProcessEntityFrame(s, d, classpath);
  }

  /** After a successful step the entity holds exactly the working attributes and the
      declared ones; a declared attribute replaces a working one of the same name, so a
      reintroduced attribute is the only one of its name, with the new type and marked as
      reintroduced. Working attributes that are not redeclared are kept as they were. */
  lemma MergedAttributes(s: Store, d: EntityDescriptor, classpath: set<string>)
    requires s.Valid() && ValidEntity(d) && ProcessEntity(s, d, classpath).Success?
    ensures var attrs := Bound(s, d, classpath).Attributes();
      && attrs.Keys == Working(s, d).Keys + AttributeNames(d.Attributes())
      && (forall k :: k in Working(s, d) && k !in AttributeNames(d.Attributes()) ==> attrs[k] == Working(s, d)[k])
      && (forall i, n :: FirstNamed(d.Attributes(), i, n) ==>
            && attrs[n] == ResolveAttribute(d.Attributes()[i])
            && attrs[n].typeName == d.Attributes()[i].typeName
            && attrs[n].reintroduced == d.Attributes()[i].IsReintroduced()
            && (n in Working(s, d) ==> attrs[n].reintroduced)
            && forall a :: a in attrs.Values && AttributeEquals(a, attrs[n]) ==> a == attrs[n])
  {
    ProcessEntityFrame(s, d, classpath);
    var generated := CollectAttributes(d.Attributes(), Working(s, d), classpath).value;
    CollectAttributesKeepsFirst(d.Attributes(), Working(s, d), classpath);
    CollectAttributesFailsAtFirstOffender(d.Attributes(), Working(s, d), classpath);
    var attrs := Bound(s, d, classpath).Attributes();
    assert attrs == Working(s, d) + generated;
    assert NameKeyed(attrs);
    NameKeyedIsAttributeSet(attrs);
  }

  /** The processing loop of `generateEntities` (lines 417-419): the descriptors merged one
      after the other into one state; the first exception aborts the run. */
  function ProcessAll(s: Store, queue: seq<EntityDescriptor>, classpath: set<string>): (r: Result<Store, Error>)
    requires s.Valid() && forall i :: 0 <= i < |queue| ==> ValidEntity(queue[i])
    ensures r.Success? ==> r.value.Valid() && r.value.index.Keys == s.index.Keys + Grouping.Names(queue)
    decreases |queue|
  {
    if queue == [] then Success(s)
    else
      var next :- ProcessEntity(s, queue[0], classpath);
      assert Grouping.Names(queue) == {queue[0].name.value} + Grouping.Names(queue[1..]) by {
        assert forall d :: d in queue <==> d == queue[0] || d in queue[1..];
      }
      ProcessAll(next, queue[1..], classpath)
  }
}
