/** The component registry: instances by type, one nameless implementation per abstract base. */
module Components {
  import opened Common

  /**
   A class with what its `[Component]` attribute and its base chain say.  The chain
   is finite because a type is built from its base.
   */
  datatype Type = Type(
    fullName: string, isAbstract: bool, isGeneric: bool,
    componentName: string, tag: string, lifecyclePriority: Option<int>, baseType: Option<Type>)

  /** The one instance the registry creates of a concrete type. */
  datatype Instance = Instance(type_: Type)

  predicate InstanceOf(x: Instance, t: Type) {
    x.type_ == t || InChain(x.type_.baseType, t)
  }

  predicate InChain(from: Option<Type>, t: Type) {
    from.Some? && (from.value == t || InChain(from.value.baseType, t))
  }

  function Depth(from: Option<Type>): nat {
    if from.None? then 0 else 1 + Depth(from.value.baseType)
  }

  /** The abstract, non-generic types from here up. */
  function AbstractBases(from: Option<Type>): set<Type> {
    if from.None? then {}
    else (if from.value.isAbstract && !from.value.isGeneric then {from.value} else {}) + AbstractBases(from.value.baseType)
  }

  /** The class `n` steps further up the chain. */
  function Up(from: Option<Type>, n: nat): Option<Type> {
    if n == 0 || from.None? then from else Up(from.value.baseType, n - 1)
  }

  lemma {:induction false} UpIsInChain(from: Option<Type>, n: nat, t: Type)
    requires Up(from, n) == Some(t)
    ensures InChain(from, t)
    decreases n
  {
    if n > 0 {
      UpIsInChain(from.value.baseType, n - 1, t);
    }
  }

  lemma {:induction false} InChainIsUp(from: Option<Type>, t: Type) returns (n: nat)
    requires InChain(from, t)
    ensures Up(from, n) == Some(t)
    decreases from
  {
    if from.value == t {
      n := 0;
    } else {
      n := InChainIsUp(from.value.baseType, t);
      n := n + 1;
    }
  }

  lemma {:induction false} AbstractBasesExactly(from: Option<Type>, t: Type)
    ensures t in AbstractBases(from) <==> InChain(from, t) && t.isAbstract && !t.isGeneric
    decreases from
  {
    if from.Some? {
      AbstractBasesExactly(from.value.baseType, t);
    }
  }

  /** A nameless type whose direct base is abstract claims every abstract non-generic class above it; no other type claims any. */
  ghost predicate Claims(u: Type, k: Type) {
    && u.componentName == "" && u.baseType.Some? && u.baseType.value.isAbstract
    && k.isAbstract && !k.isGeneric && exists n: nat :: Up(u.baseType, n) == Some(k)
  }

  lemma BaseKeysExactly(u: Type, k: Type)
    ensures k in BaseKeys(u) <==> Claims(u, k)
  {
    AbstractBasesExactly(u.baseType, k);
    if InChain(u.baseType, k) {
      var n := InChainIsUp(u.baseType, k);
    }
    if Claims(u, k) {
      var n: nat :| Up(u.baseType, n) == Some(k);
      UpIsInChain(u.baseType, n, k);
    }
  }

  /** The base types a concrete type is registered under besides itself. */
  function BaseKeys(t: Type): set<Type> {
    if t.componentName == "" && t.baseType.Some? && t.baseType.value.isAbstract then AbstractBases(t.baseType) else {}
  }

  lemma {:induction false} BasesAreInChain(from: Option<Type>, t: Type)
    requires t in AbstractBases(from)
    ensures InChain(from, t) && Depth(Some(t)) <= Depth(from) && t.isAbstract
    decreases from
  {
    if t in AbstractBases(from.value.baseType) {
      BasesAreInChain(from.value.baseType, t);
    }
  }

  // ---------------------------------------------------------------- lifecycle order

  function Priority(x: Instance): int {
    if x.type_.lifecyclePriority.Some? then x.type_.lifecyclePriority.value else 0
  }

  predicate SortedBy<T>(xs: seq<T>, priority: T -> int) {
    forall i, j :: 0 <= i < j < |xs| ==> priority(xs[i]) <= priority(xs[j])
  }

  function Insert<T>(xs: seq<T>, x: T, priority: T -> int): seq<T> {
    if xs == [] || priority(x) < priority(xs[0]) then [x] + xs else [xs[0]] + Insert(xs[1..], x, priority)
  }

  function Sort<T>(xs: seq<T>, priority: T -> int): seq<T> {
    if xs == [] then [] else Insert(Sort(xs[1..], priority), xs[0], priority)
  }

  lemma {:induction false} InsertKeepsElements<T>(xs: seq<T>, x: T, priority: T -> int)
    ensures multiset(Insert(xs, x, priority)) == multiset(xs) + multiset{x}
  {
    if xs != [] && priority(x) >= priority(xs[0]) {
      InsertKeepsElements(xs[1..], x, priority);
      assert xs == [xs[0]] + xs[1..];
    }
  }

  lemma {:induction false} InsertSorts<T>(xs: seq<T>, x: T, priority: T -> int)
    requires SortedBy(xs, priority)
    ensures SortedBy(Insert(xs, x, priority), priority)
    ensures xs != [] ==> Insert(xs, x, priority)[0] == x || Insert(xs, x, priority)[0] == xs[0]
  {
    if xs != [] && priority(x) >= priority(xs[0]) {
      InsertSorts(xs[1..], x, priority);
      var rest := Insert(xs[1..], x, priority);
      assert forall j :: 0 <= j < |rest| ==> priority(rest[0]) <= priority(rest[j]);
    }
  }

  lemma {:induction false} SortSorts<T>(xs: seq<T>, priority: T -> int)
    ensures SortedBy(Sort(xs, priority), priority) && multiset(Sort(xs, priority)) == multiset(xs)
  {
    if xs != [] {
      SortSorts(xs[1..], priority);
      InsertSorts(Sort(xs[1..], priority), xs[0], priority);
      InsertKeepsElements(Sort(xs[1..], priority), xs[0], priority);
      assert xs == [xs[0]] + xs[1..];
    }
  }

  // ---------------------------------------------------------------- what registration should produce

  function LifecycleOf(t: Type): seq<Instance> {
    if !t.isAbstract && t.lifecyclePriority.Some? then [Instance(t)] else []
  }

  function Lifecycles(types: seq<Type>): seq<Instance> {
    FlatMap(LifecycleOf, types)
  }

  /** Each listed concrete type with a lifecycle is there as often as it is listed, and nothing else is. */
  lemma {:induction false} LifecyclesExactly(types: seq<Type>, t: Type)
    ensures multiset(Lifecycles(types))[Instance(t)] ==
            if !t.isAbstract && t.lifecyclePriority.Some? then multiset(types)[t] else 0
  {
    if types != [] {
      LifecyclesExactly(types[1..], t);
      assert types == [types[0]] + types[1..];
    }
  }

  /** The lifecycle list: as often as listed, lower priorities first. */
  ghost predicate InPriorityOrder(types: seq<Type>, lifecycle: seq<Instance>) {
    && (forall t :: multiset(lifecycle)[Instance(t)] ==
          if !t.isAbstract && t.lifecyclePriority.Some? then multiset(types)[t] else 0)
    && forall i, j :: 0 <= i < j < |lifecycle| ==>
         && lifecycle[i].type_.lifecyclePriority.Some? && lifecycle[j].type_.lifecyclePriority.Some?
         && lifecycle[i].type_.lifecyclePriority.value <= lifecycle[j].type_.lifecyclePriority.value
  }

  lemma OrderedLifecycles(types: seq<Type>, xs: seq<Instance>)
    requires multiset(xs) == multiset(Lifecycles(types)) && SortedBy(xs, Priority)
    ensures InPriorityOrder(types, xs)
  {
    forall t ensures multiset(xs)[Instance(t)] ==
                     if !t.isAbstract && t.lifecyclePriority.Some? then multiset(types)[t] else 0 {
      LifecyclesExactly(types, t);
    }
    HavePriority(types, xs);
    assert forall i, j :: 0 <= i < j < |xs| ==> Priority(xs[i]) <= Priority(xs[j]);
  }

  lemma HavePriority(types: seq<Type>, xs: seq<Instance>)
    requires forall t :: multiset(xs)[Instance(t)] ==
                         if !t.isAbstract && t.lifecyclePriority.Some? then multiset(types)[t] else 0
    ensures forall i :: 0 <= i < |xs| ==> xs[i].type_.lifecyclePriority.Some?
  {
    forall i | 0 <= i < |xs| ensures xs[i].type_.lifecyclePriority.Some? {
      assert multiset(xs)[xs[i]] > 0;
      assert xs[i] == Instance(xs[i].type_);
    }
  }

  /** The instances of the listed concrete types with this tag, in the order of the list. */
  function TaggedWith(types: seq<Type>, tag: string): seq<Instance> {
    if types == [] then []
    else
      var t := types[|types| - 1];
      TaggedWith(types[..|types| - 1], tag) + if !t.isAbstract && t.tag == tag then [Instance(t)] else []
  }

  /** Each listed type stands in the list of its tag, behind those listed before it and before those listed after it. */
  lemma {:induction false} TaggedInOrder(before: seq<Type>, t: Type, after: seq<Type>, tag: string)
    ensures TaggedWith([], tag) == []
    ensures TaggedWith(before + [t] + after, tag) ==
            TaggedWith(before, tag) + (if !t.isAbstract && t.tag == tag then [Instance(t)] else []) + TaggedWith(after, tag)
    decreases |after|
  {
    var all := before + [t] + after;
    if after == [] {
      assert all[..|all| - 1] == before;
    } else {
      assert all[..|all| - 1] == before + [t] + after[..|after| - 1];
      TaggedInOrder(before, t, after[..|after| - 1], tag);
    }
  }

  /** Each list is complete and in order, and there is a list for every tag in use. */
  ghost predicate TagsListed(types: seq<Type>, tagged: map<string, seq<Instance>>) {
    && "" !in tagged
    && forall tag :: tag != "" ==>
         if tag in tagged then tagged[tag] == TaggedWith(types, tag) != [] else TaggedWith(types, tag) == []
  }

  lemma TagsNext(types: seq<Type>, t: Type, before: map<string, seq<Instance>>, after: map<string, seq<Instance>>)
    requires TagsListed(types, before)
    requires after == if t.isAbstract || t.tag == "" then before
                      else before[t.tag := (if t.tag in before then before[t.tag] else []) + [Instance(t)]]
    ensures TagsListed(types + [t], after)
  {
    assert (types + [t])[..|types|] == types;
    forall tag | tag != ""
      ensures if tag in after then after[tag] == TaggedWith(types + [t], tag) != [] else TaggedWith(types + [t], tag) == []
    {
      assert TaggedWith(types + [t], tag) == TaggedWith(types, tag) + if !t.isAbstract && t.tag == tag then [Instance(t)] else [];
    }
  }

  /** No two listed concrete types, and no type listed twice, claim the same abstract base. */
  ghost predicate NoConflict(types: seq<Type>) {
    forall i, j :: 0 <= i < j < |types| && !types[i].isAbstract && !types[j].isAbstract ==>
      BaseKeys(types[i]) !! BaseKeys(types[j])
  }

  /** Each key holds an instance of a listed type that is the key or claims it; nothing is missing. */
  ghost predicate Registers(types: seq<Type>, components: map<Type, Instance>) {
    && (forall k :: k in components ==>
          components[k].type_ in types && !components[k].type_.isAbstract
          && (k == components[k].type_ || k in BaseKeys(components[k].type_)))
    && (forall t :: t in types && !t.isAbstract ==> t in components && components[t] == Instance(t))
    && (forall t, k :: t in types && !t.isAbstract && k in BaseKeys(t) ==> k in components && components[k] == Instance(t))
  }

  /** Registered instances are instances of the types they are registered under. */
  lemma RegisteredIsInstance(types: seq<Type>, components: map<Type, Instance>, k: Type)
    requires Registers(types, components) && k in components
    ensures InstanceOf(components[k], k)
  {
    var t := components[k].type_;
    if k != t {
      BasesAreInChain(t.baseType, k);
    }
  }

  lemma RegisteredExactly(types: seq<Type>, components: map<Type, Instance>, k: Type, u: Type)
    requires Registers(types, components) && k.isAbstract
    ensures k in components && components[k] == Instance(u) <==> u in types && !u.isAbstract && k in BaseKeys(u)
  {
  }

  /** At most one listed type claims each abstract base. */
  lemma OneImplementationPerBase(types: seq<Type>, components: map<Type, Instance>, a: Type, b: Type, k: Type)
    requires Registers(types, components)
    requires a in types && b in types && !a.isAbstract && !b.isAbstract && k in BaseKeys(a) && k in BaseKeys(b)
    ensures a == b
  {
    assert components[k] == Instance(a) && components[k] == Instance(b);
  }

  lemma RegistersNext(types: seq<Type>, t: Type, before: map<Type, Instance>, after: map<Type, Instance>)
    requires Registers(types, before) && !t.isAbstract
    requires BaseKeys(t) !! before.Keys
    requires after == before[t := Instance(t)] + map k | k in BaseKeys(t) :: Instance(t)
    ensures Registers(types + [t], after)
  {
    BaseKeysAreAbstract();
    forall u | u in types + [t] && !u.isAbstract
      ensures u in after && after[u] == Instance(u)
      ensures forall k :: k in BaseKeys(u) ==> k in after && after[k] == Instance(u)
    {
      KeysStay(types, t, before, after, u);
    }
    forall k | k in after
      ensures after[k].type_ in types + [t] && !after[k].type_.isAbstract
      ensures k == after[k].type_ || k in BaseKeys(after[k].type_)
    {
    }
  }

  /** What a listed type had registered is still there, and the new one has registered its keys. */
  lemma KeysStay(types: seq<Type>, t: Type, before: map<Type, Instance>, after: map<Type, Instance>, u: Type)
    requires Registers(types, before) && !t.isAbstract && !u.isAbstract && u in types + [t]
    requires BaseKeys(t) !! before.Keys && forall k :: k in BaseKeys(u) ==> k.isAbstract
    requires after == before[t := Instance(t)] + map k | k in BaseKeys(t) :: Instance(t)
    requires forall k :: k in BaseKeys(t) ==> k.isAbstract
    ensures u in after && after[u] == Instance(u)
    ensures forall k :: k in BaseKeys(u) ==> k in after && after[k] == Instance(u)
  {
    if u != t {
      assert u in types;
      assert forall k :: k in BaseKeys(u) ==> k in before && before[k] == Instance(u);
    }
  }

  lemma NoConflictNext(types: seq<Type>, t: Type, before: map<Type, Instance>)
    requires Registers(types, before) && NoConflict(types) && BaseKeys(t) !! before.Keys
    ensures NoConflict(types + [t])
  {
    forall i | 0 <= i < |types| && !types[i].isAbstract ensures BaseKeys(types[i]) !! BaseKeys(t) {
      assert types[i] in types;
      assert BaseKeys(types[i]) <= before.Keys;
    }
  }

  /** What the registration loop has built after the types seen so far. */
  ghost predicate SoFar(types: seq<Type>, components: map<Type, Instance>, lifecycle: seq<Instance>, named: map<Type, map<string, Instance>>) {
    && Registers(types, components) && NoConflict(types)
    && lifecycle == Lifecycles(types)
    && (forall t :: t in named <==> t in types && t.isAbstract)
    && forall t :: t in named ==> named[t] == map[]
  }

  lemma RegistersAbstract(types: seq<Type>, t: Type, components: map<Type, Instance>)
    requires Registers(types, components) && NoConflict(types) && t.isAbstract
    ensures Registers(types + [t], components) && NoConflict(types + [t])
  {
    assert forall u :: u in types + [t] <==> u in types || u == t;
  }

  lemma AbstractNext(types: seq<Type>, t: Type, components: map<Type, Instance>, lifecycle: seq<Instance>, named: map<Type, map<string, Instance>>)
    requires SoFar(types, components, lifecycle, named) && t.isAbstract
    ensures SoFar(types + [t], components, lifecycle, named[t := map[]])
  {
    RegistersAbstract(types, t, components);
    FlatMapConcat(LifecycleOf, types, [t]);
    assert FlatMap(LifecycleOf, [t]) == LifecycleOf(t);
    assert forall u :: u in types + [t] <==> u in types || u == t;
  }

  lemma ConcreteNext(types: seq<Type>, t: Type, before: map<Type, Instance>, after: map<Type, Instance>, lifecycle: seq<Instance>, named: map<Type, map<string, Instance>>)
    requires SoFar(types, before, lifecycle, named) && !t.isAbstract && BaseKeys(t) !! before.Keys
    requires after == before[t := Instance(t)] + map k | k in BaseKeys(t) :: Instance(t)
    ensures SoFar(types + [t], after, lifecycle + LifecycleOf(t), named)
  {
    FlatMapConcat(LifecycleOf, types, [t]);
    assert FlatMap(LifecycleOf, [t]) == LifecycleOf(t);
    RegistersNext(types, t, before, after);
    NoConflictNext(types, t, before);
  }

  lemma BaseKeysAreAbstract()
    ensures forall t: Type, k: Type :: k in BaseKeys(t) ==> k.isAbstract
  {
    forall t: Type, k: Type | k in BaseKeys(t) ensures k.isAbstract {
      BasesAreInChain(t.baseType, k);
    }
  }

  /** An `[Autowired]` field, or property that may lack a setter. */
  datatype Autowired = Autowired(type_: Type, name: string, canWrite: bool)

  class Registry {
    var components: map<Type, Instance>
    var namedComponents: map<Type, map<string, Instance>>
    var tagged: map<string, seq<Instance>>
    var lifecycle: seq<Instance>
    var isRegistered: bool
    /** What injection has set: the value of the i-th autowired member of a component. */
    var injected: map<(Instance, nat), Instance>

    constructor ()
      ensures injected == map[]
      ensures components == map[] && namedComponents == map[] && tagged == map[] && lifecycle == [] && !isRegistered
    {
      components, namedComponents, tagged, lifecycle, isRegistered := map[], map[], map[], [], false;
      injected := map[];
    }

    /**
     Registers the attributed types in whatever order the sort left them; `ok` is false
     when an exception is thrown.  That happens exactly when two of them claim one base.
     */
    method RegisterComponents(types: seq<Type>) returns (ok: bool)
      requires isRegistered ||
               (components == map[] && namedComponents == map[] && tagged == map[] && lifecycle == [])
      modifies this
      ensures old(isRegistered) ==> ok && unchanged(this)
      ensures !old(isRegistered) ==> (ok <==> NoConflict(types)) && isRegistered == ok
      ensures !old(isRegistered) && ok ==>
                && Registers(types, components) && TagsListed(types, tagged) && InPriorityOrder(types, lifecycle)
                && (forall t :: t in namedComponents <==> t in types && t.isAbstract)
                && (forall t :: t in namedComponents ==> namedComponents[t] == map[])
    {
      if isRegistered {
        return true;
      }
      ok := RegisterAll(types);
      if ok {
        SortSorts(lifecycle, Priority);
        lifecycle := Sort(lifecycle, Priority);
        OrderedLifecycles(types, lifecycle);
        isRegistered := true;
      }
    }

    /** The loop over the sorted types. */
    method RegisterAll(types: seq<Type>) returns (ok: bool)
      requires components == map[] && namedComponents == map[] && tagged == map[] && lifecycle == []
      modifies this`components, this`tagged, this`lifecycle, this`namedComponents
      ensures ok <==> NoConflict(types)
      ensures ok ==> SoFar(types, components, lifecycle, namedComponents) && TagsListed(types, tagged)
    {
      var i := 0;
      while i < |types|
        invariant 0 <= i <= |types|
        invariant SoFar(types[..i], components, lifecycle, namedComponents) && TagsListed(types[..i], tagged)
      {
        ok := RegisterNext(types, i);
        if !ok {
          return false;
        }
        i := i + 1;
      }
      assert types[..|types|] == types;
      return true;
    }

    method RegisterNext(types: seq<Type>, i: nat) returns (ok: bool)
      requires i < |types| && SoFar(types[..i], components, lifecycle, namedComponents) && TagsListed(types[..i], tagged)
      modifies this`components, this`tagged, this`lifecycle, this`namedComponents
      ensures ok ==> SoFar(types[..i + 1], components, lifecycle, namedComponents) && TagsListed(types[..i + 1], tagged)
      ensures !ok ==> !NoConflict(types)
    {
      var t := types[i];
      assert types[..i + 1] == types[..i] + [t];
      if t.isAbstract {
        AbstractNext(types[..i], t, components, lifecycle, namedComponents);
        TagsNext(types[..i], t, tagged, tagged);
        namedComponents := namedComponents[t := map[]];
        return true;
      }
      ghost var before, started, tags := components, lifecycle, tagged;
      ok := RegisterOne(t);
      if ok {
        ConcreteNext(types[..i], t, before, components, started, namedComponents);
        TagsNext(types[..i], t, tags, tagged);
      } else {
        ConflictFound(types, i, before);
      }
    }

    /** The body of the loop for one concrete type. */
    method RegisterOne(t: Type) returns (ok: bool)
      requires !t.isAbstract && forall a :: a in namedComponents ==> a.isAbstract
      modifies this`components, this`tagged, this`lifecycle
      ensures ok <==> BaseKeys(t) !! old(components).Keys
      ensures ok ==> components == old(components)[t := Instance(t)] + map k | k in BaseKeys(t) :: Instance(t)
      ensures ok ==> lifecycle == old(lifecycle) + LifecycleOf(t)
      ensures ok ==> tagged == if t.tag == "" then old(tagged)
                               else old(tagged)[t.tag := (if t.tag in old(tagged) then old(tagged)[t.tag] else []) + [Instance(t)]]
    {
      BaseKeysAreAbstract();
      var instance := Instance(t);
      components := components[t := instance];
      if t.baseType.Some? && t.baseType.value.isAbstract {
        ok := WalkBases(t, instance);
        if !ok {
          return false;
        }
      }
      if t.tag != "" {
        if t.tag !in tagged {
          tagged := tagged[t.tag := []];
        }
        tagged := tagged[t.tag := tagged[t.tag] + [instance]];
      }
      if t.lifecyclePriority.Some? {
        lifecycle := lifecycle + [instance];
      }
      return true;
    }

    /**
     The walk up the base chain.  A named component is looked for under its own
     (concrete) type in a table whose keys are abstract, so naming it stores nothing.
     */
    method WalkBases(t: Type, instance: Instance) returns (ok: bool)
      requires !t.isAbstract && t.baseType.Some? && t.baseType.value.isAbstract
      requires forall a :: a in namedComponents ==> a.isAbstract
      modifies this`components
      ensures ok <==> BaseKeys(t) !! old(components).Keys
      ensures ok ==> components == old(components) + map k | k in BaseKeys(t) :: instance
    {
      var baseType := t.baseType;
      ghost var seen: set<Type> := {};
      while baseType.Some?
        invariant t.componentName == "" ==> seen + AbstractBases(baseType) == BaseKeys(t)
        invariant components.Keys == old(components).Keys + seen
        invariant forall k :: k in components ==> components[k] == if k in seen then instance else old(components)[k]
        invariant t.componentName != "" ==> seen == {}
        invariant seen !! old(components).Keys
        invariant forall k :: k in seen ==> Depth(Some(k)) > Depth(baseType)
        decreases baseType
      {
        var b := baseType.value;
        if b.isAbstract && !b.isGeneric {
          if t.componentName != "" {
            if t in namedComponents {
              assert false;
            }
          } else {
            if b in components {
              return false;
            }
            components := components[b := instance];
            seen := seen + {b};
          }
        }
        DeeperBases(b);
        baseType := b.baseType;
      }
      return true;
    }

    /** `ResolveDependency`: by type, or by name under an abstract type. */
    function Resolve(t: Type, name: string): Outcome<Instance>
      reads this
    {
      if !t.isAbstract || name == "" then
        if t in components then Ok(components[t]) else Failed
      else if t in namedComponents && name in namedComponents[t] then Ok(namedComponents[t][name])
      else Failed
    }

    /** After registration, whatever a lookup returns is an instance of the requested type; a lookup by name never succeeds. */
    lemma ResolvedIsInstance(types: seq<Type>, t: Type, name: string)
      requires Registers(types, components)
      requires forall a :: a in namedComponents ==> namedComponents[a] == map[]
      ensures Resolve(t, name).Ok? ==> InstanceOf(Resolve(t, name).value, t)
      ensures t.isAbstract && name != "" ==> Resolve(t, name) == Failed
      ensures !t.isAbstract ==> Resolve(t, name) == if t in types then Ok(Instance(t)) else Failed
      ensures t.isAbstract ==> forall u ::
                Resolve(t, "") == Ok(Instance(u)) <==> u in types && !u.isAbstract && Claims(u, t)
    {
      BaseKeysAreAbstract();
      if t in components {
        RegisteredIsInstance(types, components, t);
      }
      if t.isAbstract {
        forall u ensures Resolve(t, "") == Ok(Instance(u)) <==> u in types && !u.isAbstract && Claims(u, t) {
          RegisteredExactly(types, components, t, u);
          BaseKeysExactly(u, t);
        }
      }
    }

    /** Field `i` of component `k` is set by injection, and to what. */
    predicate Wanted(wires: Type -> seq<Autowired>, k: Type, i: nat)
      reads this
    {
      k in components && i < |wires(components[k].type_)| && wires(components[k].type_)[i].canWrite
    }

    function Found(wires: Type -> seq<Autowired>, k: Type, i: nat): Outcome<Instance>
      requires Wanted(wires, k, i)
      reads this
    {
      Resolve(wires(components[k].type_)[i].type_, wires(components[k].type_)[i].name)
    }

    /**
     Sets every autowired field and writable property of every component, in any order
     of the components; `ok` is false when a dependency is missing.
     */
    method PerformDependencyInjection(wires: Type -> seq<Autowired>) returns (ok: bool)
      modifies this`injected
      ensures ok <==> forall k, i: nat :: Wanted(wires, k, i) ==> Found(wires, k, i).Ok?
      ensures ok ==> forall k, i: nat ::
                k in components && i < |wires(components[k].type_)| && wires(components[k].type_)[i].canWrite ==>
                  && (components[k], i) in injected
                  && Resolve(wires(components[k].type_)[i].type_, wires(components[k].type_)[i].name)
                     == Ok(injected[(components[k], i)])
    {
      var todo := components.Keys;
      while todo != {}
        invariant todo <= components.Keys
        invariant forall k, i: nat :: Wanted(wires, k, i) && k !in todo ==>
                    (components[k], i) in injected && Found(wires, k, i) == Ok(injected[(components[k], i)])
      {
        var k :| k in todo;
        todo := todo - {k};
        ok := InjectInto(components[k], wires(components[k].type_));
        if !ok {
          var i :| 0 <= i < |wires(components[k].type_)| && wires(components[k].type_)[i].canWrite &&
                   Resolve(wires(components[k].type_)[i].type_, wires(components[k].type_)[i].name).Failed?;
          assert Wanted(wires, k, i);
          return false;
        }
      }
      return true;
    }

    /** The fields and properties of one component. */
    method InjectInto(x: Instance, wires: seq<Autowired>) returns (ok: bool)
      modifies this`injected
      ensures ok <==> forall i :: 0 <= i < |wires| && wires[i].canWrite ==> Resolve(wires[i].type_, wires[i].name).Ok?
      ensures ok ==> forall i :: 0 <= i < |wires| && wires[i].canWrite ==>
                (x, i) in injected && Resolve(wires[i].type_, wires[i].name) == Ok(injected[(x, i)])
      ensures forall p :: p in old(injected) && p.0 != x ==> p in injected && injected[p] == old(injected)[p]
    {
      for i := 0 to |wires|
        invariant forall j :: 0 <= j < i && wires[j].canWrite ==>
                    (x, j) in injected && Resolve(wires[j].type_, wires[j].name) == Ok(injected[(x, j)])
        invariant forall p :: p in old(injected) && p.0 != x ==> p in injected && injected[p] == old(injected)[p]
      {
        if wires[i].canWrite {
          var dependency := Resolve(wires[i].type_, wires[i].name);
          if dependency.Failed? {
            return false;
          }
          injected := injected[(x, i) := dependency.value];
        }
      }
      return true;
    }

    /**
     After registration and injection every injected field holds an instance of the
     field's type; and injection succeeded only if nothing asks for an abstract type by name.
     */
    lemma InjectionIsTypeCorrect(types: seq<Type>, wires: Type -> seq<Autowired>, k: Type, i: nat)
      requires Registers(types, components)
      requires forall a :: a in namedComponents ==> namedComponents[a] == map[]
      requires Wanted(wires, k, i) && (components[k], i) in injected && Found(wires, k, i) == Ok(injected[(components[k], i)])
      ensures var wire := wires(components[k].type_)[i];
              InstanceOf(injected[(components[k], i)], wire.type_) && (wire.type_.isAbstract ==> wire.name == "")
    {
      var wire := wires(components[k].type_)[i];
      ResolvedIsInstance(types, wire.type_, wire.name);
    }
  }

  lemma DeeperBases(b: Type)
    ensures Depth(b.baseType) < Depth(Some(b))
  {
  }

  lemma ConflictFound(types: seq<Type>, i: nat, before: map<Type, Instance>)
    requires i < |types| && !types[i].isAbstract && Registers(types[..i], before)
    requires !(BaseKeys(types[i]) !! before.Keys)
    ensures !NoConflict(types)
  {
    BaseKeysAreAbstract();
    var k :| k in BaseKeys(types[i]) && k in before;
    var t := before[k].type_;
    assert k in BaseKeys(t);
    var j :| 0 <= j < i && types[j] == t;
  }
}
