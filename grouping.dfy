/**
 * What `generateEntities` does between validation and merging: it groups the
 * entity descriptors of all schemas by name, rejects a name defined twice without
 * a root, orders the groups so that the ones holding a rootless definition come
 * first, and rejects a root that names no group.
 *
 * The grouping map is a `HashMap`, whose iteration order is not specified; the
 * order it happens to have is a parameter here (`order`, an enumeration of the
 * group names). The sort that follows uses a comparator that looks only at its
 * first argument; what it is meant to do is modelled: a stable partition that puts
 * the groups with a rootless descriptor before the others.
 */
module Grouping {
  import opened Wrappers
  import opened Descriptors
  import opened Errors

  /** The entity descriptors of every schema: schema order, then parsed order. */
  function AllEntities(schemas: seq<SchemaDescriptor>): seq<EntityDescriptor> {
    if schemas == [] then [] else schemas[0].Entities() + AllEntities(schemas[1..])
  }

  /** Every descriptor has a name (validation has run). */
  predicate AllNamed(ds: seq<EntityDescriptor>) {
    forall i :: 0 <= i < |ds| ==> ds[i].name.Some?
  }

  /** The names the descriptors carry. */
  function Names(ds: seq<EntityDescriptor>): set<string> {
    set d | d in ds && d.name.Some? :: d.name.value
  }

  /** No name occurs twice. */
  predicate Distinct(s: seq<string>) {
    forall i, j :: 0 <= i < j < |s| ==> s[i] != s[j]
  }

  /** `order` lists every key of `keys` exactly once. */
  predicate IsEnumeration(order: seq<string>, keys: set<string>) {
    Distinct(order) && (forall x :: x in order ==> x in keys) && (forall x :: x in keys ==> x in order)
  }

  /** The descriptors named `n`, in their original order. */
  function WithName(ds: seq<EntityDescriptor>, n: string): (r: seq<EntityDescriptor>)
    ensures forall d :: d in r ==> d.name == Some(n) && d in ds
  {
    if ds == [] then []
    else (if ds[0].name == Some(n) then [ds[0]] else []) + WithName(ds[1..], n)
  }

  /** The descriptors whose name lies in `ns`, in their original order. */
  function WithNameIn(ds: seq<EntityDescriptor>, ns: set<string>): seq<EntityDescriptor> {
    if ds == [] then []
    else (if ds[0].name.Some? && ds[0].name.value in ns then [ds[0]] else []) + WithNameIn(ds[1..], ns)
  }

  /** `groupingBy(EntityDescriptor::getName)`: each name to its descriptors in encounter order. */
  function GroupByName(ds: seq<EntityDescriptor>): (groups: map<string, seq<EntityDescriptor>>)
    requires AllNamed(ds)
  {
    map n | n in Names(ds) :: WithName(ds, n)
  }

  /** The descriptors of a list that have no root. */
  function Rootless(ds: seq<EntityDescriptor>): (r: seq<EntityDescriptor>)
    ensures forall d :: d in r ==> d.root.None? && d in ds
  {
    if ds == [] then [] else (if ds[0].root.None? then [ds[0]] else []) + Rootless(ds[1..])
  }

  /** `validateDuplicateEntities`: the first name (in map order) with more than one rootless descriptor. */
  function DuplicateEntityError(order: seq<string>, groups: map<string, seq<EntityDescriptor>>): Option<Error>
    requires forall i :: 0 <= i < |order| ==> order[i] in groups
  {
    if order == [] then None
    else if |Rootless(groups[order[0]])| > 1 then Some(DuplicateEntity(order[0]))
    else DuplicateEntityError(order[1..], groups)
  }

  /** The groups that hold a rootless descriptor, in map order. */
  function DefiningGroups(order: seq<string>, groups: map<string, seq<EntityDescriptor>>): (r: seq<string>)
    requires forall i :: 0 <= i < |order| ==> order[i] in groups
    ensures forall x :: x in r ==> x in order && Rootless(groups[x]) != []
  {
    if order == [] then []
    else (if Rootless(groups[order[0]]) != [] then [order[0]] else []) + DefiningGroups(order[1..], groups)
  }

  /** The groups made only of root-bearing descriptors, in map order. */
  function ExtendingGroups(order: seq<string>, groups: map<string, seq<EntityDescriptor>>): (r: seq<string>)
    requires forall i :: 0 <= i < |order| ==> order[i] in groups
    ensures forall x :: x in r ==> x in order && Rootless(groups[x]) == []
  {
    if order == [] then []
    else (if Rootless(groups[order[0]]) == [] then [order[0]] else []) + ExtendingGroups(order[1..], groups)
  }

  /** The processing order of the groups: defining groups first, each part in map order. */
  function RootFirst(order: seq<string>, groups: map<string, seq<EntityDescriptor>>): seq<string>
    requires forall i :: 0 <= i < |order| ==> order[i] in groups
  {
    DefiningGroups(order, groups) + ExtendingGroups(order, groups)
  }

  /** The descriptors of the listed groups, group after group. */
  function Flatten(order: seq<string>, groups: map<string, seq<EntityDescriptor>>): seq<EntityDescriptor>
    requires forall i :: 0 <= i < |order| ==> order[i] in groups
  {
    if order == [] then [] else groups[order[0]] + Flatten(order[1..], groups)
  }

  /** A root that names one of the keys. */
  predicate RootKnown(d: EntityDescriptor, keys: set<string>)
    requires d.root.Some?
  {
    d.root.value.name.Some? && d.root.value.name.value in keys
  }

  /** `validateRoots`: the first descriptor, in processing order, whose root names no group. */
  function UnknownRootError(queue: seq<EntityDescriptor>, keys: set<string>): Option<Error>
    requires AllNamed(queue)
  {
    if queue == [] then None
    else if queue[0].root.Some? && !RootKnown(queue[0], keys) then
      Some(UnknownRoot(queue[0].name.value, queue[0].root.value.name))
    else UnknownRootError(queue[1..], keys)
  }

  // ----- Duplicate definitions

  /** A rootless descriptor that defines the entity `n`. */
  predicate Defines(d: EntityDescriptor, n: string) {
    d.name == Some(n) && d.root.None?
  }

  lemma {:induction false} RootlessOfGroupCount(ds: seq<EntityDescriptor>, n: string)
    ensures |Rootless(WithName(ds, n))| > 0 <==> exists i :: 0 <= i < |ds| && Defines(ds[i], n)
    ensures |Rootless(WithName(ds, n))| > 1 <==>
      exists i, j :: 0 <= i < j < |ds| && Defines(ds[i], n) && Defines(ds[j], n)
  {
    SomeDefinition(ds, n);
    TwoDefinitions(ds, n);
  }

  /** The rootless descriptors named `n`: the first descriptor's contribution, then the rest's. */
  lemma RootlessOfGroupStep(ds: seq<EntityDescriptor>, n: string)
    requires ds != []
    ensures |Rootless(WithName(ds, n))| == (if Defines(ds[0], n) then 1 else 0) + |Rootless(WithName(ds[1..], n))|
  {
    var head := if ds[0].name == Some(n) then [ds[0]] else [];
    assert WithName(ds, n) == head + WithName(ds[1..], n);
    RootlessAppend(head, WithName(ds[1..], n));
  }

  lemma {:induction false} SomeDefinition(ds: seq<EntityDescriptor>, n: string)
    ensures |Rootless(WithName(ds, n))| > 0 <==> exists i :: 0 <= i < |ds| && Defines(ds[i], n)
  {
    if ds != [] {
      RootlessOfGroupStep(ds, n);
      SomeDefinition(ds[1..], n);
      if exists i :: 0 <= i < |ds[1..]| && Defines(ds[1..][i], n) {
        var i :| 0 <= i < |ds[1..]| && Defines(ds[1..][i], n);
        assert Defines(ds[i + 1], n);
      }
      if exists i :: 0 <= i < |ds| && Defines(ds[i], n) {
        var i :| 0 <= i < |ds| && Defines(ds[i], n);
        if i > 0 {
          assert Defines(ds[1..][i - 1], n);
        }
      }
    }
  }

  lemma {:induction false} TwoDefinitions(ds: seq<EntityDescriptor>, n: string)
    ensures |Rootless(WithName(ds, n))| > 1 <==>
      exists i, j :: 0 <= i < j < |ds| && Defines(ds[i], n) && Defines(ds[j], n)
  {
    if ds != [] {
      RootlessOfGroupStep(ds, n);
      SomeDefinition(ds[1..], n);
      TwoDefinitions(ds[1..], n);
      if |Rootless(WithName(ds, n))| > 1 {
        if Defines(ds[0], n) {
          var j :| 0 <= j < |ds[1..]| && Defines(ds[1..][j], n);
          assert Defines(ds[j + 1], n);
        } else {
          var i, j :| 0 <= i < j < |ds[1..]| && Defines(ds[1..][i], n) && Defines(ds[1..][j], n);
          assert Defines(ds[i + 1], n) && Defines(ds[j + 1], n);
        }
      }
      if exists i, j :: 0 <= i < j < |ds| && Defines(ds[i], n) && Defines(ds[j], n) {
        var i, j :| 0 <= i < j < |ds| && Defines(ds[i], n) && Defines(ds[j], n);
        assert Defines(ds[1..][j - 1], n);
        if i > 0 {
          assert Defines(ds[1..][i - 1], n);
        }
      }
    }
  }

  lemma {:induction false} RootlessAppend(a: seq<EntityDescriptor>, b: seq<EntityDescriptor>)
    ensures Rootless(a + b) == Rootless(a) + Rootless(b)
  {
    if a == [] {
      assert a + b == b;
    } else {
      assert (a + b)[0] == a[0];
      assert (a + b)[1..] == a[1..] + b;
      RootlessAppend(a[1..], b);
      var head := if a[0].root.None? then [a[0]] else [];
      calc {
        Rootless(a + b);
        head + Rootless(a[1..] + b);
        head + (Rootless(a[1..]) + Rootless(b));
        (head + Rootless(a[1..])) + Rootless(b);
      }
    }
  }

  /** The duplicate check fires exactly when some name has two rootless descriptors across
      all schemas; descriptors with a root never make it fire. */
  lemma {:induction false} DuplicateIffTwoDefinitions(ds: seq<EntityDescriptor>, order: seq<string>)
    requires AllNamed(ds) && IsEnumeration(order, Names(ds))
    ensures DuplicateEntityError(order, GroupByName(ds)).Some? <==>
      exists n, i, j :: 0 <= i < j < |ds| && Defines(ds[i], n) && Defines(ds[j], n)
  {
    var groups := GroupByName(ds);
    DuplicateErrorIffSomeGroup(order, groups);
    if exists n, i, j :: 0 <= i < j < |ds| && Defines(ds[i], n) && Defines(ds[j], n) {
      var n, i, j :| 0 <= i < j < |ds| && Defines(ds[i], n) && Defines(ds[j], n);
      assert n in Names(ds) by {
        assert ds[i] in ds;
      }
      RootlessOfGroupCount(ds, n);
      assert n in order;
    }
    if DuplicateEntityError(order, groups).Some? {
      var n :| n in order && |Rootless(groups[n])| > 1;
      RootlessOfGroupCount(ds, n);
    }
  }

  lemma {:induction false} DuplicateErrorIffSomeGroup(order: seq<string>, groups: map<string, seq<EntityDescriptor>>)
    requires forall i :: 0 <= i < |order| ==> order[i] in groups
    ensures DuplicateEntityError(order, groups).Some? <==> exists n :: n in order && |Rootless(groups[n])| > 1
  {
    if order != [] {
      DuplicateErrorIffSomeGroup(order[1..], groups);
      if exists n :: n in order && |Rootless(groups[n])| > 1 {
        var n :| n in order && |Rootless(groups[n])| > 1;
        if n != order[0] {
          assert n in order[1..];
        }
      }
    }
  }

  /** The name a failing duplicate check reports: the first in map order with two
      rootless descriptors. */
  lemma {:induction false} DuplicateErrorName(order: seq<string>, groups: map<string, seq<EntityDescriptor>>)
    returns (n: string)
    requires forall i :: 0 <= i < |order| ==> order[i] in groups
    requires DuplicateEntityError(order, groups).Some?
    ensures n in order && |Rootless(groups[n])| > 1 && DuplicateEntityError(order, groups) == Some(DuplicateEntity(n))
  {
    if |Rootless(groups[order[0]])| > 1 {
      n := order[0];
    } else {
      n := DuplicateErrorName(order[1..], groups);
    }
  }

  // ----- Processing order

  lemma {:induction false} RootFirstPermutes(order: seq<string>, groups: map<string, seq<EntityDescriptor>>)
    requires forall i :: 0 <= i < |order| ==> order[i] in groups
    ensures multiset(RootFirst(order, groups)) == multiset(order)
  {
    if order != [] {
      RootFirstPermutes(order[1..], groups);
      assert order == [order[0]] + order[1..];
    }
  }

  lemma {:induction false} PartsOfOrder(order: seq<string>, groups: map<string, seq<EntityDescriptor>>)
    requires forall i :: 0 <= i < |order| ==> order[i] in groups
    requires Distinct(order)
    ensures Distinct(DefiningGroups(order, groups)) && Distinct(ExtendingGroups(order, groups))
    ensures forall x :: x in DefiningGroups(order, groups) <==> x in order && Rootless(groups[x]) != []
    ensures forall x :: x in ExtendingGroups(order, groups) <==> x in order && Rootless(groups[x]) == []
  {
    if order != [] {
      assert Distinct(order[1..]);
      PartsOfOrder(order[1..], groups);
      assert order[0] !in order[1..];
      assert forall x :: x in order <==> x == order[0] || x in order[1..];
    }
  }

  lemma ConcatDistinct(a: seq<string>, b: seq<string>)
    requires Distinct(a) && Distinct(b) && forall x :: x in a ==> x !in b
    ensures Distinct(a + b)
  {
    forall i, j | 0 <= i < j < |a + b| ensures (a + b)[i] != (a + b)[j] {
      if j < |a| {
        assert (a + b)[i] == a[i] && (a + b)[j] == a[j];
      } else if i >= |a| {
        assert (a + b)[i] == b[i - |a|] && (a + b)[j] == b[j - |a|];
      } else {
        assert (a + b)[i] == a[i] && (a + b)[j] == b[j - |a|];
        assert a[i] in a;
      }
    }
  }

  /** The processing order lists every group exactly once. */
  lemma RootFirstEnumerates(order: seq<string>, groups: map<string, seq<EntityDescriptor>>)
    requires IsEnumeration(order, groups.Keys)
    ensures IsEnumeration(RootFirst(order, groups), groups.Keys)
  {
    var defining, extending := DefiningGroups(order, groups), ExtendingGroups(order, groups);
    PartsOfOrder(order, groups);
    ConcatDistinct(defining, extending);
    assert forall x :: x in defining + extending <==> x in defining || x in extending;
  }

  /** In the processing order no group holding a rootless descriptor follows one without. */
  lemma RootFirstSeparates(order: seq<string>, groups: map<string, seq<EntityDescriptor>>)
    requires IsEnumeration(order, groups.Keys)
    ensures var r := RootFirst(order, groups);
      forall i, j :: 0 <= i < j < |r| && Rootless(groups[r[i]]) == [] ==> Rootless(groups[r[j]]) == []
  {
    var defining, extending := DefiningGroups(order, groups), ExtendingGroups(order, groups);
    var r := defining + extending;
    forall i, j | 0 <= i < j < |r|
      ensures Rootless(groups[r[i]]) == [] ==> Rootless(groups[r[j]]) == []
    {
      if j < |defining| {
        assert r[i] == defining[i] && defining[i] in defining;
      } else {
        assert r[j] == extending[j - |defining|] && r[j] in extending;
      }
    }
  }

  /** The processing order lists every group once, puts every group holding a rootless
      descriptor before every group without one, and keeps map order within each part. */
  lemma RootFirstOrder(order: seq<string>, groups: map<string, seq<EntityDescriptor>>)
    requires IsEnumeration(order, groups.Keys)
    ensures IsEnumeration(RootFirst(order, groups), groups.Keys)
    ensures var r := RootFirst(order, groups);
      forall i, j :: 0 <= i < j < |r| && Rootless(groups[r[i]]) == [] ==> Rootless(groups[r[j]]) == []
  {
    RootFirstEnumerates(order, groups);
    RootFirstSeparates(order, groups);
  }

  // ----- Every descriptor is processed exactly once

  lemma {:induction false} WithNameInSplit(ds: seq<EntityDescriptor>, ns: set<string>, n: string)
    requires n in ns
    ensures multiset(WithNameIn(ds, ns)) == multiset(WithName(ds, n)) + multiset(WithNameIn(ds, ns - {n}))
  {
    if ds != [] {
      WithNameInSplit(ds[1..], ns, n);
    }
  }

  lemma {:induction false} WithNameInAll(ds: seq<EntityDescriptor>, ns: set<string>)
    requires AllNamed(ds) && forall d :: d in ds ==> d.name.value in ns
    ensures WithNameIn(ds, ns) == ds
  {
    if ds != [] {
      WithNameInAll(ds[1..], ns);
      assert ds == [ds[0]] + ds[1..];
    }
  }

  lemma {:induction false} FlattenGroups(ds: seq<EntityDescriptor>, order: seq<string>, ns: set<string>)
    requires AllNamed(ds) && Distinct(order) && ns <= Names(ds)
    requires (forall x :: x in order ==> x in ns) && (forall x :: x in ns ==> x in order)
    ensures multiset(Flatten(order, GroupByName(ds))) == multiset(WithNameIn(ds, ns))
  {
    if order == [] {
      assert ns == {};
      WithNameInEmpty(ds);
    } else {
      var groups := GroupByName(ds);
      assert Distinct(order[1..]);
      assert order[0] !in order[1..];
      FlattenGroups(ds, order[1..], ns - {order[0]});
      WithNameInSplit(ds, ns, order[0]);
      assert groups[order[0]] == WithName(ds, order[0]);
      assert Flatten(order, groups) == WithName(ds, order[0]) + Flatten(order[1..], groups);
    }
  }

  lemma {:induction false} WithNameInEmpty(ds: seq<EntityDescriptor>)
    ensures WithNameIn(ds, {}) == []
  {
    if ds != [] {
      WithNameInEmpty(ds[1..]);
    }
  }

  /** The descriptors of all schemas, taken group by group in processing order, are the
      original descriptors rearranged: each is processed exactly once. */
  lemma ProcessingQueueIsPermutation(ds: seq<EntityDescriptor>, order: seq<string>)
    requires AllNamed(ds) && IsEnumeration(order, Names(ds))
    ensures var groups := GroupByName(ds);
      multiset(Flatten(RootFirst(order, groups), groups)) == multiset(ds)
  {
    var groups := GroupByName(ds);
    RootFirstOrder(order, groups);
    var r := RootFirst(order, groups);
    FlattenGroups(ds, r, Names(ds));
    WithNameInAll(ds, Names(ds));
  }

  // ----- Unknown roots

  /** The root check passes exactly when every root in the queue names one of the keys. */
  lemma {:induction false} UnknownRootIffUnnamedRoot(queue: seq<EntityDescriptor>, keys: set<string>)
    requires AllNamed(queue)
    ensures UnknownRootError(queue, keys).None? <==>
      forall d :: d in queue && d.root.Some? ==> RootKnown(d, keys)
  {
    if queue != [] {
      UnknownRootIffUnnamedRoot(queue[1..], keys);
      assert forall d :: d in queue <==> d == queue[0] || d in queue[1..];
    }
  }

  /** In processing order, the root check passes exactly when every root of every schema
      names an entity some schema has. */
  lemma RootCheckOverAllDescriptors(ds: seq<EntityDescriptor>, order: seq<string>)
    requires AllNamed(ds) && IsEnumeration(order, Names(ds))
    ensures var groups := GroupByName(ds);
      var queue := Flatten(RootFirst(order, groups), groups);
      AllNamed(queue) &&
      (UnknownRootError(queue, groups.Keys).None? <==>
        forall i :: 0 <= i < |ds| && ds[i].root.Some? ==> RootKnown(ds[i], Names(ds)))
  {
    var groups := GroupByName(ds);
    var queue := Flatten(RootFirst(order, groups), groups);
    QueueHoldsDescriptors(ds, order);
    UnknownRootIffUnnamedRoot(queue, groups.Keys);
    RootsKnownInEitherOrder(queue, ds, groups.Keys);
  }

  /** The processing queue holds exactly the descriptors, all named. */
  lemma QueueHoldsDescriptors(ds: seq<EntityDescriptor>, order: seq<string>)
    requires AllNamed(ds) && IsEnumeration(order, Names(ds))
    ensures var groups := GroupByName(ds);
      var queue := Flatten(RootFirst(order, groups), groups);
      (forall d :: d in queue <==> d in ds) && AllNamed(queue) && groups.Keys == Names(ds)
  {
    var groups := GroupByName(ds);
    var queue := Flatten(RootFirst(order, groups), groups);
    ProcessingQueueIsPermutation(ds, order);
    forall d ensures d in queue <==> d in ds {
      assert d in queue <==> d in multiset(queue);
      assert d in ds <==> d in multiset(ds);
    }
    forall i | 0 <= i < |queue| ensures queue[i].name.Some? {
      assert queue[i] in ds;
    }
  }

  /** Whether every root is known does not depend on the order of the descriptors. */
  lemma RootsKnownInEitherOrder(queue: seq<EntityDescriptor>, ds: seq<EntityDescriptor>, keys: set<string>)
    requires forall d :: d in queue <==> d in ds
    ensures (forall d :: d in queue && d.root.Some? ==> RootKnown(d, keys)) <==>
      (forall i :: 0 <= i < |ds| && ds[i].root.Some? ==> RootKnown(ds[i], keys))
  {
    if forall i :: 0 <= i < |ds| && ds[i].root.Some? ==> RootKnown(ds[i], keys) {
      forall d | d in queue && d.root.Some? ensures RootKnown(d, keys) {
        var i :| 0 <= i < |ds| && ds[i] == d;
      }
    }
  }
}
