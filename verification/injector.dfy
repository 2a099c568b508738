/**
 * `InjectorRegistry`: a map from type keys to providers (a fixed instance, a
 * supplier, or a class to construct), with one "already registered" rule for
 * the three ways to register, lookup failure, `@Inject` constructor choice at
 * registration time and setter injection in property order.
 */
module Injector {
  import opened Wrappers
  import Text

  /** A class, identified by name. */
  type TypeKey = string

  /** A public constructor: its parameter types and whether it carries `@Inject`. */
  datatype Ctor = Ctor(params: seq<TypeKey>, inject: bool)

  /**
   * A bean property: name, type, and its setter if there is one, with whether
   * that setter carries `@Inject`.
   */
  datatype PropInfo = PropInfo(name: string, propType: TypeKey, setter: Option<bool>)

  /** What reflection tells about a class: its name, public constructors and bean properties. */
  datatype ClassInfo = ClassInfo(name: TypeKey, ctors: seq<Ctor>, props: seq<PropInfo>)

  /**
   * An object handed out by the registry: a registered instance, the result of
   * a supplier, or an instance built from a class, numbered by creation so
   * that distinct constructions are distinguishable.
   */
  datatype Obj =
    | Given(id: nat)
    | Supplied(supplier: nat)
    | Built(serial: nat, cls: TypeKey, args: seq<Obj>, injected: seq<Injected>)

  /** The value a setter received. */
  datatype Injected = Injected(property: string, value: Obj)

  /** How a registered type is provided. */
  datatype Provider =
    | InstanceOf(obj: Obj)
    | SupplierOf(supplier: nat)
    | ClassOf(typeInfo: ClassInfo, impl: TypeKey, ctor: Ctor)

  type Registry = map<TypeKey, Provider>

  datatype Error =
    | NullArgument                     // Objects.requireNonNull
    | AlreadyRegistered(key: TypeKey)
    | NotRegistered(key: TypeKey)
    | TooManyInjectConstructors
    | NoDefaultConstructor(cls: TypeKey)
    | TooDeep                          // a dependency chain deeper than the fuel: a stack overflow in the source

  /** The registry after a `register*` call and the exception it threw, if any. */
  datatype Registered = Registered(registry: Registry, error: Option<Error>)

  /** `putIfAbsent` followed by the "already registered" check shared by every `register*` method. */
  function PutIfAbsent(reg: Registry, key: TypeKey, p: Provider): (r: Registered)
    ensures key in reg ==> r == Registered(reg, Some(AlreadyRegistered(key)))
    ensures key !in reg ==> r == Registered(reg[key := p], None)
  {
    if key in reg then Registered(reg, Some(AlreadyRegistered(key))) else Registered(reg[key := p], None)
  }

  /** Registration never changes or removes an existing entry. */
  predicate Extends(reg2: Registry, reg: Registry) {
    forall k :: k in reg ==> k in reg2 && reg2[k] == reg[k]
  }

  function RegisterInstance(reg: Registry, t: Option<ClassInfo>, instance: Option<Obj>): (r: Registered)
    ensures t.None? || instance.None? ==> r == Registered(reg, Some(NullArgument))
    ensures t.Some? && instance.Some? && t.value.name in reg ==> r == Registered(reg, Some(AlreadyRegistered(t.value.name)))
    ensures r.error.None? <==> t.Some? && instance.Some? && t.value.name !in reg
    ensures r.error.None? ==> r.registry == reg[t.value.name := InstanceOf(instance.value)]
    ensures Extends(r.registry, reg)
  {
    if t.None? || instance.None? then Registered(reg, Some(NullArgument))
    else PutIfAbsent(reg, t.value.name, InstanceOf(instance.value))
  }

  function RegisterProvider(reg: Registry, t: Option<ClassInfo>, supplier: Option<nat>): (r: Registered)
    ensures t.None? || supplier.None? ==> r == Registered(reg, Some(NullArgument))
    ensures t.Some? && supplier.Some? && t.value.name in reg ==> r == Registered(reg, Some(AlreadyRegistered(t.value.name)))
    ensures r.error.None? <==> t.Some? && supplier.Some? && t.value.name !in reg
    ensures r.error.None? ==> r.registry == reg[t.value.name := SupplierOf(supplier.value)]
    ensures Extends(r.registry, reg)
  {
    if t.None? || supplier.None? then Registered(reg, Some(NullArgument))
    else PutIfAbsent(reg, t.value.name, SupplierOf(supplier.value))
  }

  /** The number of constructors that carry `@Inject`. */
  function InjectCount(ctors: seq<Ctor>): nat {
    if |ctors| == 0 then 0 else (if ctors[0].inject then 1 else 0) + InjectCount(ctors[1..])
  }

  /** The first `@Inject` constructor; it exists when the count is positive. */
  function FirstInject(ctors: seq<Ctor>): (c: Ctor)
    requires InjectCount(ctors) > 0
    ensures c in ctors && c.inject
  {
    if ctors[0].inject then ctors[0] else FirstInject(ctors[1..])
  }

  /** With exactly one `@Inject` constructor, every `@Inject` constructor is that one. */
  lemma {:induction false} SingleInject(ctors: seq<Ctor>)
    requires InjectCount(ctors) == 1
    ensures forall k :: 0 <= k < |ctors| && ctors[k].inject ==> ctors[k] == FirstInject(ctors)
  {
    if ctors[0].inject {
      NoInject(ctors[1..]);
      forall k | 1 <= k < |ctors| ensures !ctors[k].inject {
        assert ctors[k] == ctors[1..][k - 1];
      }
    } else {
      SingleInject(ctors[1..]);
      forall k | 1 <= k < |ctors| && ctors[k].inject ensures ctors[k] == FirstInject(ctors) {
        assert ctors[k] == ctors[1..][k - 1];
      }
    }
  }

  lemma {:induction false} NoInject(ctors: seq<Ctor>)
    requires InjectCount(ctors) == 0
    ensures forall k :: 0 <= k < |ctors| ==> !ctors[k].inject
  {
    if |ctors| > 0 {
      NoInject(ctors[1..]);
      forall k | 1 <= k < |ctors| ensures !ctors[k].inject {
        assert ctors[k] == ctors[1..][k - 1];
      }
    }
  }

  /**
   * `getInjectedConstructorIfPresent`: more than one `@Inject` constructor is
   * an error, exactly one is returned, none gives an empty result.
   */
  function InjectedConstructor(cls: ClassInfo): (r: Result<Option<Ctor>, Error>)
    ensures r.Failure? <==> InjectCount(cls.ctors) > 1
    ensures r.Failure? ==> r.error == TooManyInjectConstructors
    ensures r == Success(None) <==> forall k :: 0 <= k < |cls.ctors| ==> !cls.ctors[k].inject
    ensures r.Success? && r.value.Some? ==>
              r.value.value in cls.ctors && r.value.value.inject &&
              forall k :: 0 <= k < |cls.ctors| && cls.ctors[k].inject ==> cls.ctors[k] == r.value.value
  {
    var n := InjectCount(cls.ctors);
    if n > 1 then
      var c := FirstInject(cls.ctors);
      assert c in cls.ctors;
      Failure(TooManyInjectConstructors)
    else if n == 1 then
      SingleInject(cls.ctors);
      Success(Some(FirstInject(cls.ctors)))
    else
      NoInject(cls.ctors);
      Success(None)
  }

  /** The public constructor without parameters (the class's default constructor), if any. */
  function DefaultConstructor(cls: ClassInfo): (r: Result<Ctor, Error>)
    ensures r.Success? <==> exists k :: 0 <= k < |cls.ctors| && |cls.ctors[k].params| == 0
    ensures r.Success? ==> r.value in cls.ctors && |r.value.params| == 0
    ensures r.Failure? ==> r.error == NoDefaultConstructor(cls.name)
    decreases |cls.ctors|
  {
    if |cls.ctors| == 0 then Failure(NoDefaultConstructor(cls.name))
    else if |cls.ctors[0].params| == 0 then Success(cls.ctors[0])
    else
      var rest := DefaultConstructor(cls.(ctors := cls.ctors[1..]));
      assert forall k :: 1 <= k < |cls.ctors| ==> cls.ctors[k] == cls.ctors[1..][k - 1];
      match rest
      case Success(c) => Success(c)
      case Failure(_) => Failure(NoDefaultConstructor(cls.name))
  }

  /**
   * The constructor `registerProviderClass` settles on: the single `@Inject`
   * constructor, or the default constructor when there is none.
   */
  function ChooseConstructor(cls: ClassInfo): (r: Result<Ctor, Error>)
    ensures InjectCount(cls.ctors) > 1 ==> r == Failure(TooManyInjectConstructors)
    ensures InjectCount(cls.ctors) == 1 ==>
              r.Success? && r.value in cls.ctors && r.value.inject &&
              forall k :: 0 <= k < |cls.ctors| && cls.ctors[k].inject ==> cls.ctors[k] == r.value
    ensures InjectCount(cls.ctors) == 0 ==> r == DefaultConstructor(cls)
  {
    match InjectedConstructor(cls)
    case Failure(e) => Failure(e)
    case Success(chosen) =>
      if chosen.Some? then Success(chosen.value) else DefaultConstructor(cls)
  }

  /**
   * `registerProviderClass(type, cls)`: the constructor is chosen now, before
   * the registry is consulted, so a class with several `@Inject` constructors
   * is refused even when the type is already registered.
   */
  function RegisterProviderClass(reg: Registry, t: Option<ClassInfo>, cls: Option<ClassInfo>): (r: Registered)
    ensures t.None? || cls.None? ==> r == Registered(reg, Some(NullArgument))
    ensures t.Some? && cls.Some? && ChooseConstructor(cls.value).Failure? ==>
              r == Registered(reg, Some(ChooseConstructor(cls.value).error))
    ensures t.Some? && cls.Some? && ChooseConstructor(cls.value).Success? && t.value.name in reg ==>
              r == Registered(reg, Some(AlreadyRegistered(t.value.name)))
    ensures r.error.None? <==>
              t.Some? && cls.Some? && ChooseConstructor(cls.value).Success? && t.value.name !in reg
    ensures r.error.None? ==>
              r.registry == reg[t.value.name := ClassOf(t.value, cls.value.name, ChooseConstructor(cls.value).value)]
    ensures Extends(r.registry, reg)
  {
    if t.None? || cls.None? then Registered(reg, Some(NullArgument))
    else
      match ChooseConstructor(cls.value)
      case Failure(e) => Registered(reg, Some(e))
      case Success(c) => PutIfAbsent(reg, t.value.name, ClassOf(t.value, cls.value.name, c))
  }

  /** A setter is injectable when it exists and carries `@Inject`; the `class` property never is. */
  predicate Injectable(p: PropInfo) {
    p.name != Text.ClassProperty && p.setter == Some(true)
  }

  /** `xs` can be obtained from `ys` by deleting elements, keeping the order of the rest. */
  predicate SubsequenceOf<T(==)>(xs: seq<T>, ys: seq<T>)
    decreases |ys|
  {
    if |xs| == 0 then true
    else if |ys| == 0 then false
    else if xs[0] == ys[0] then SubsequenceOf(xs[1..], ys[1..])
    else SubsequenceOf(xs, ys[1..])
  }

  /** `findInjectableProperties`: the properties with an `@Inject` setter, `class` excluded, in descriptor order. */
  function FindInjectableProperties(props: seq<PropInfo>): (r: seq<PropInfo>)
    ensures forall p :: p in r <==> p in props && Injectable(p)
    ensures SubsequenceOf(r, props)
  {
    if |props| == 0 then []
    else if Injectable(props[0]) then [props[0]] + FindInjectableProperties(props[1..])
    else
      var r := FindInjectableProperties(props[1..]);
      SkipHead(r, props);
      r
  }

  /** A subsequence of the tail is a subsequence of the whole list. */
  lemma {:induction false} SkipHead<T>(xs: seq<T>, ys: seq<T>)
    requires |ys| > 0
    requires SubsequenceOf(xs, ys[1..])
    ensures SubsequenceOf(xs, ys)
    decreases |ys|, |xs|
  {
    if |xs| > 0 && xs[0] == ys[0] {
      if |ys| > 1 {
        assert xs[0] == ys[1] || xs[0] != ys[1];
        if xs[0] == ys[1] {
          assert SubsequenceOf(xs[1..], ys[2..]);
          SkipHead(xs[1..], ys[1..]);
        } else {
          SubsequenceShorter(xs, ys[1..]);
        }
      }
    }
  }

  /** Dropping the first element keeps a subsequence a subsequence. */
  lemma {:induction false} SubsequenceShorter<T>(xs: seq<T>, ys: seq<T>)
    requires |xs| > 0
    requires SubsequenceOf(xs, ys)
    ensures SubsequenceOf(xs[1..], ys)
    decreases |ys|, |xs|
  {
    if xs[0] == ys[0] {
      if |xs[1..]| > 0 { SkipHead(xs[1..], ys); }
    } else {
      SubsequenceShorter(xs, ys[1..]);
      if |xs[1..]| > 0 { SkipHead(xs[1..], ys); }
    }
  }

  /**
   * When a lookup of `t` succeeds, stated independently of the lookup: `t` is
   * registered, and if a class provides it, every constructor parameter type
   * and every injectable property type resolves one level deeper. The `fuel`
   * bounds the nesting depth of constructions.
   */
  predicate Resolvable(reg: Registry, t: TypeKey, fuel: nat)
    decreases fuel
  {
    t in reg &&
    (reg[t].ClassOf? ==>
      fuel > 0 &&
      (forall x :: x in reg[t].ctor.params ==> Resolvable(reg, x, fuel - 1)) &&
      (forall p :: p in FindInjectableProperties(reg[t].typeInfo.props) ==> Resolvable(reg, p.propType, fuel - 1)))
  }

  /**
   * `lookupInstance(type)`: the registered instance itself, the supplier's
   * result, or a newly built instance of the provider class. `next` is the
   * first unused creation number; the second component of a result is the
   * next one afterwards.
   */
  function Lookup(reg: Registry, t: Option<TypeKey>, next: nat, fuel: nat): (r: Result<(Obj, nat), Error>)
    ensures t.None? ==> r == Failure(NullArgument)
    ensures t.Some? && t.value !in reg ==> r == Failure(NotRegistered(t.value))
    ensures t.Some? && t.value in reg && reg[t.value].InstanceOf? ==> r == Success((reg[t.value].obj, next))
    ensures t.Some? && t.value in reg && reg[t.value].SupplierOf? ==> r == Success((Supplied(reg[t.value].supplier), next))
    ensures r.Success? ==> r.value.1 >= next
    ensures t.Some? ==> (r.Success? <==> Resolvable(reg, t.value, fuel))
    ensures r.Failure? ==> r.error == NullArgument || r.error == TooDeep || (r.error.NotRegistered? && r.error.key !in reg)
    ensures t.Some? && t.value in reg && reg[t.value].ClassOf? && r.Success? ==>
              r.value.0.Built? && next <= r.value.0.serial < r.value.1 && r.value.0.cls == reg[t.value].impl
    ensures r.Success? ==> Provides(reg, t.value, r.value.0)
    decreases fuel, 2, 0
  {
    if t.None? then Failure(NullArgument)
    else if t.value !in reg then Failure(NotRegistered(t.value))
    else match reg[t.value]
      case InstanceOf(o) => Success((o, next))
      case SupplierOf(s) => Success((Supplied(s), next))
      case ClassOf(typeInfo, impl, ctor) => Construct(reg, typeInfo, impl, ctor, next, fuel)
  }

  /**
   * `o` is a value the provider registered for `t` yields: the instance
   * itself, the supplier's result, or an object built from the provider class.
   */
  predicate Provides(reg: Registry, t: TypeKey, o: Obj) {
    t in reg &&
    match reg[t]
    case InstanceOf(x) => o == x
    case SupplierOf(s) => o == Supplied(s)
    case ClassOf(_, impl, _) => o.Built? && o.cls == impl
  }

  /**
   * `constructInstance`: resolves each constructor parameter through
   * `lookupInstance`, creates the instance, then sets every injectable
   * property of the registered type, again through `lookupInstance`.
   */
  function Construct(reg: Registry, typeInfo: ClassInfo, impl: TypeKey, ctor: Ctor, next: nat, fuel: nat)
    : (r: Result<(Obj, nat), Error>)
    ensures r.Success? ==> r.value.0.Built? && r.value.0.cls == impl && next <= r.value.0.serial < r.value.1
    ensures r.Success? ==> |r.value.0.args| == |ctor.params|
    ensures r.Success? ==>
              var injectable := FindInjectableProperties(typeInfo.props);
              |r.value.0.injected| == |injectable| &&
              forall k :: 0 <= k < |injectable| ==> r.value.0.injected[k].property == injectable[k].name
    ensures r.Success? ==> forall k :: 0 <= k < |ctor.params| ==> ctor.params[k] in reg
    ensures r.Success? ==>
              forall k :: 0 <= k < |ctor.params| && reg[ctor.params[k]].InstanceOf? ==>
                r.value.0.args[k] == reg[ctor.params[k]].obj
    ensures r.Success? ==>
              var injectable := FindInjectableProperties(typeInfo.props);
              forall k :: 0 <= k < |injectable| ==>
                injectable[k].propType in reg &&
                (reg[injectable[k].propType].InstanceOf? ==> r.value.0.injected[k].value == reg[injectable[k].propType].obj)
    ensures r.Success? ==> forall k :: 0 <= k < |ctor.params| ==> Provides(reg, ctor.params[k], r.value.0.args[k])
    ensures r.Success? ==>
              var injectable := FindInjectableProperties(typeInfo.props);
              forall k :: 0 <= k < |injectable| ==> Provides(reg, injectable[k].propType, r.value.0.injected[k].value)
    ensures fuel == 0 ==> r == Failure(TooDeep)
    ensures r.Success? <==>
              fuel > 0 &&
              (forall x :: x in ctor.params ==> Resolvable(reg, x, fuel - 1)) &&
              (forall p :: p in FindInjectableProperties(typeInfo.props) ==> Resolvable(reg, p.propType, fuel - 1))
    ensures r.Failure? ==> r.error == TooDeep || (r.error.NotRegistered? && r.error.key !in reg)
    decreases fuel, 1, 0
  {
    if fuel == 0 then Failure(TooDeep)
    else
      var (args, afterArgs) :- LookupAll(reg, ctor.params, next, fuel - 1);
      var serial := afterArgs;
      var (injected, afterSetters) :- InjectAll(reg, FindInjectableProperties(typeInfo.props), serial + 1, fuel - 1);
      Success((Built(serial, impl, args, injected), afterSetters))
  }

  /** Looks up each type in order, threading the creation counter. */
  function LookupAll(reg: Registry, types: seq<TypeKey>, next: nat, fuel: nat): (r: Result<(seq<Obj>, nat), Error>)
    ensures r.Success? ==> |r.value.0| == |types| && r.value.1 >= next
    ensures r.Success? ==> forall k :: 0 <= k < |types| ==> types[k] in reg
    ensures r.Success? ==>
              forall k :: 0 <= k < |types| && reg[types[k]].InstanceOf? ==> r.value.0[k] == reg[types[k]].obj
    ensures r.Success? ==> AllProvided(reg, types, r.value.0)
    ensures r.Success? <==> forall x :: x in types ==> Resolvable(reg, x, fuel)
    ensures r.Failure? ==> r.error == TooDeep || (r.error.NotRegistered? && r.error.key !in reg)
    decreases fuel, 3, |types|
  {
    if |types| == 0 then Success(([], next))
    else
      assert types[0] in types;
      assert forall x :: x in types[1..] ==> x in types;
      var (o, n1) :- Lookup(reg, Some(types[0]), next, fuel);
      var (rest, n2) :- LookupAll(reg, types[1..], n1, fuel);
      AllProvidedCons(reg, types, o, rest);
      Success(([o] + rest, n2))
  }

  /** Looks up the value of each injectable property in order, threading the creation counter. */
  function InjectAll(reg: Registry, props: seq<PropInfo>, next: nat, fuel: nat): (r: Result<(seq<Injected>, nat), Error>)
    ensures r.Success? ==> |r.value.0| == |props| && r.value.1 >= next
    ensures r.Success? ==> forall k :: 0 <= k < |props| ==> r.value.0[k].property == props[k].name
    ensures r.Success? ==> forall k :: 0 <= k < |props| ==> props[k].propType in reg
    ensures r.Success? ==>
              forall k :: 0 <= k < |props| && reg[props[k].propType].InstanceOf? ==>
                r.value.0[k].value == reg[props[k].propType].obj
    ensures r.Success? ==> AllInjected(reg, props, r.value.0)
    ensures r.Success? <==> forall p :: p in props ==> Resolvable(reg, p.propType, fuel)
    ensures r.Failure? ==> r.error == TooDeep || (r.error.NotRegistered? && r.error.key !in reg)
    decreases fuel, 3, |props|
  {
    if |props| == 0 then Success(([], next))
    else
      var (o, n1) :- Lookup(reg, Some(props[0].propType), next, fuel);
      var (rest, n2) :- InjectAll(reg, props[1..], n1, fuel);
      AllInjectedCons(reg, props, o, rest);
      Success(([Injected(props[0].name, o)] + rest, n2))
  }

  /** Every object is what the provider of the type at the same position yields. */
  predicate AllProvided(reg: Registry, types: seq<TypeKey>, objs: seq<Obj>) {
    |objs| == |types| && forall k :: 0 <= k < |types| ==> Provides(reg, types[k], objs[k])
  }

  /** Every injected value names its property and is what the provider of the property's type yields. */
  predicate AllInjected(reg: Registry, props: seq<PropInfo>, injected: seq<Injected>) {
    |injected| == |props| &&
    forall k :: 0 <= k < |props| ==>
      injected[k].property == props[k].name && Provides(reg, props[k].propType, injected[k].value)
  }

  /** A provided head and provided tail make a provided list. */
  lemma AllProvidedCons(reg: Registry, types: seq<TypeKey>, o: Obj, rest: seq<Obj>)
    requires |types| > 0 && Provides(reg, types[0], o) && AllProvided(reg, types[1..], rest)
    ensures AllProvided(reg, types, [o] + rest)
  {
    assert forall k :: 1 <= k < |types| ==> types[k] == types[1..][k - 1] && ([o] + rest)[k] == rest[k - 1];
  }

  /** An injected head property and injected tail make an injected list. */
  lemma AllInjectedCons(reg: Registry, props: seq<PropInfo>, o: Obj, rest: seq<Injected>)
    requires |props| > 0 && Provides(reg, props[0].propType, o) && AllInjected(reg, props[1..], rest)
    ensures AllInjected(reg, props, [Injected(props[0].name, o)] + rest)
  {
    var all := [Injected(props[0].name, o)] + rest;
    assert forall k :: 1 <= k < |props| ==> props[k] == props[1..][k - 1] && all[k] == rest[k - 1];
  }

  /**
   * Dependencies are resolved in order, so the error names the first
   * unregistered one when every dependency before it resolves.
   */
  lemma {:induction false} FirstMissingReported(reg: Registry, types: seq<TypeKey>, k: nat, next: nat, fuel: nat)
    requires k < |types| && types[k] !in reg
    requires forall j :: 0 <= j < k ==> Resolvable(reg, types[j], fuel)
    ensures LookupAll(reg, types, next, fuel) == Failure(NotRegistered(types[k]))
    decreases k
  {
    if k > 0 {
      var head := Lookup(reg, Some(types[0]), next, fuel);
      assert forall j :: 0 <= j < k - 1 ==> types[1..][j] == types[j + 1];
      FirstMissingReported(reg, types[1..], k - 1, head.value.1, fuel);
    }
  }

  /** A constructor parameter that is not registered fails the construction, once the earlier ones resolve. */
  lemma ConstructReportsMissingParameter(reg: Registry, typeInfo: ClassInfo, impl: TypeKey, ctor: Ctor,
                                         k: nat, next: nat, fuel: nat)
    requires fuel > 0
    requires k < |ctor.params| && ctor.params[k] !in reg
    requires forall j :: 0 <= j < k ==> Resolvable(reg, ctor.params[j], fuel - 1)
    ensures Construct(reg, typeInfo, impl, ctor, next, fuel) == Failure(NotRegistered(ctor.params[k]))
  {
    FirstMissingReported(reg, ctor.params, k, next, fuel - 1);
  }

  /** More fuel never turns a successful lookup into a failure: the fuel only cuts off deep nesting. */
  lemma {:induction false} ResolvableMonotone(reg: Registry, t: TypeKey, fuel: nat)
    requires Resolvable(reg, t, fuel)
    ensures Resolvable(reg, t, fuel + 1)
    decreases fuel
  {
    if reg[t].ClassOf? {
      forall x | x in reg[t].ctor.params ensures Resolvable(reg, x, fuel) {
        ResolvableMonotone(reg, x, fuel - 1);
      }
      forall p | p in FindInjectableProperties(reg[t].typeInfo.props) ensures Resolvable(reg, p.propType, fuel) {
        ResolvableMonotone(reg, p.propType, fuel - 1);
      }
    }
  }

  /** A later registration step, as a value. */
  datatype Op =
    | RegInstance(t: Option<ClassInfo>, instance: Option<Obj>)
    | RegProvider(t: Option<ClassInfo>, supplier: Option<nat>)
    | RegClass(t: Option<ClassInfo>, cls: Option<ClassInfo>)

  function Step(reg: Registry, op: Op): (r: Registry)
    ensures Extends(r, reg)
  {
    match op
    case RegInstance(t, i) => RegisterInstance(reg, t, i).registry
    case RegProvider(t, s) => RegisterProvider(reg, t, s).registry
    case RegClass(t, c) => RegisterProviderClass(reg, t, c).registry
  }

  /** The registry after the given registration steps, whether or not they throw. */
  function ApplyAll(reg: Registry, ops: seq<Op>): Registry
    decreases |ops|
  {
    if |ops| == 0 then reg else ApplyAll(Step(reg, ops[0]), ops[1..])
  }

  lemma {:induction false} ApplyAllExtends(reg: Registry, ops: seq<Op>)
    ensures Extends(ApplyAll(reg, ops), reg)
    decreases |ops|
  {
    if |ops| > 0 {
      ApplyAllExtends(Step(reg, ops[0]), ops[1..]);
    }
  }

  /**
   * Once `registerInstance(t, x)` succeeded, every later `lookupInstance(t)`
   * returns `x`, whatever registrations follow.
   */
  lemma InstanceLookupStable(reg: Registry, t: ClassInfo, x: Obj, ops: seq<Op>, next: nat, fuel: nat)
    requires RegisterInstance(reg, Some(t), Some(x)).error.None?
    ensures Lookup(ApplyAll(RegisterInstance(reg, Some(t), Some(x)).registry, ops), Some(t.name), next, fuel) == Success((x, next))
  {
    ApplyAllExtends(RegisterInstance(reg, Some(t), Some(x)).registry, ops);
  }

  /** Two lookups in a row of a class-provided type give two distinct new instances. */
  lemma ProviderClassBuildsFresh(reg: Registry, t: TypeKey, next: nat, fuel: nat)
    requires t in reg && reg[t].ClassOf?
    requires Lookup(reg, Some(t), next, fuel).Success?
    requires Lookup(reg, Some(t), Lookup(reg, Some(t), next, fuel).value.1, fuel).Success?
    ensures var first := Lookup(reg, Some(t), next, fuel).value;
            var second := Lookup(reg, Some(t), first.1, fuel).value;
            first.0.Built? && second.0.Built? && first.0.serial != second.0.serial
  {
  }
}
