/**
 * `InterceptorRegistry`: a per-annotation list of interceptors that only
 * grows, the collection of a method's interceptors in annotation order, and
 * the chain of invocations the proxy runs on each call. A call is observed
 * through the trace of events it produces.
 */
module Interceptors {
  import opened Wrappers

  /** An annotation type, identified by name. */
  type AnnotationKey = string

  /**
   * An interceptor: one registered with `addInterceptor`, known only by a
   * tag and taken to proceed exactly once; or the wrapper `addAroundAdvice`
   * builds around an advice.
   */
  datatype Interceptor = Labelled(tag: nat) | Around(advice: nat)

  type Registry = map<AnnotationKey, seq<Interceptor>>

  datatype Error = NullArgument

  /** The list registered for an annotation; an absent key has none. */
  function Registered(reg: Registry, key: AnnotationKey): seq<Interceptor> {
    if key in reg then reg[key] else []
  }

  /** `addInterceptor`: appends to the annotation's list, creating it on first use. */
  function AddInterceptor(reg: Registry, key: Option<AnnotationKey>, i: Option<Interceptor>): (r: Result<Registry, Error>)
    ensures r.Failure? <==> key.None? || i.None?
    ensures r.Success? ==> Registered(r.value, key.value) == Registered(reg, key.value) + [i.value]
    ensures r.Success? ==> r.value.Keys == reg.Keys + {key.value}
    ensures r.Success? ==> forall k :: k in reg && k != key.value ==> r.value[k] == reg[k]
  {
    if key.None? || i.None? then Failure(NullArgument)
    else Success(reg[key.value := Registered(reg, key.value) + [i.value]])
  }

  /** `addAroundAdvice`: registers the interceptor that wraps the advice. */
  function AddAroundAdvice(reg: Registry, key: Option<AnnotationKey>, advice: Option<nat>): (r: Result<Registry, Error>)
    ensures r.Failure? <==> key.None? || advice.None?
    ensures r.Success? ==> Registered(r.value, key.value) == Registered(reg, key.value) + [Around(advice.value)]
    ensures r.Success? ==> r.value.Keys == reg.Keys + {key.value}
    ensures r.Success? ==> forall k :: k in reg && k != key.value ==> r.value[k] == reg[k]
  {
    if advice.None? then Failure(NullArgument) else AddInterceptor(reg, key, Some(Around(advice.value)))
  }

  /**
   * `findInterceptors`: the lists registered for the method's annotations,
   * concatenated in annotation order; unregistered annotations add nothing.
   * An interceptor is collected exactly when one of the method's annotations
   * registered it.
   */
  function FindInterceptors(reg: Registry, annotations: seq<AnnotationKey>): (r: seq<Interceptor>)
    ensures forall i :: i in r <==> exists a :: a in annotations && a in reg && i in reg[a]
    ensures |annotations| == 0 ==> r == []
  {
    if |annotations| == 0 then []
    else
      assert forall a :: a in annotations <==> a == annotations[0] || a in annotations[1..];
      Registered(reg, annotations[0]) + FindInterceptors(reg, annotations[1..])
  }

  /** Collecting over a concatenation of annotation lists concatenates the results. */
  lemma {:induction false} FindInterceptorsAppend(reg: Registry, a: seq<AnnotationKey>, b: seq<AnnotationKey>)
    ensures FindInterceptors(reg, a + b) == FindInterceptors(reg, a) + FindInterceptors(reg, b)
  {
    if |a| > 0 {
      assert (a + b)[1..] == a[1..] + b;
      FindInterceptorsAppend(reg, a[1..], b);
    } else {
      assert a + b == b;
    }
  }

  /**
   * An interceptor added after a proxy was created still applies: the
   * proxy collects the interceptors again on each call, so the new one is
   * the last one contributed by its annotation.
   */
  lemma LateInterceptorApplies(reg: Registry, key: AnnotationKey, i: Interceptor, before: seq<AnnotationKey>, after: seq<AnnotationKey>)
    requires key !in before
    ensures var reg2 := AddInterceptor(reg, Some(key), Some(i)).value;
            FindInterceptors(reg2, before + [key] + after) ==
              FindInterceptors(reg, before) + Registered(reg, key) + [i] + FindInterceptors(reg2, after)
  {
    var y := Registered(reg, key);
    var reg2 := reg[key := y + [i]];
    assert AddInterceptor(reg, Some(key), Some(i)).value == reg2;
    var x := FindInterceptors(reg, before);
    var z := FindInterceptors(reg2, after);
    FindInterceptorsAppend(reg2, before + [key], after);
    FindInterceptorsAppend(reg2, before, [key]);
    UnchangedAway(reg, key, y + [i], before);
    FindSingle(reg2, key);
    assert Registered(reg2, key) == y + [i];
    assert FindInterceptors(reg2, before + [key] + after) == x + (y + [i]) + z;
  }

  /** Annotations other than the one added to collect the same interceptors as before. */
  lemma {:induction false} UnchangedAway(reg: Registry, key: AnnotationKey, v: seq<Interceptor>, annotations: seq<AnnotationKey>)
    requires key !in annotations
    ensures FindInterceptors(reg[key := v], annotations) == FindInterceptors(reg, annotations)
  {
    if |annotations| > 0 {
      UnchangedAway(reg, key, v, annotations[1..]);
      assert Registered(reg[key := v], annotations[0]) == Registered(reg, annotations[0]);
    }
  }

  /** A single annotation contributes its registered list. */
  lemma FindSingle(reg: Registry, key: AnnotationKey)
    ensures FindInterceptors(reg, [key]) == Registered(reg, key)
  {
    assert [key][1..] == [];
  }

  /** A chain of invocations: the target call, or an interceptor around the rest of the chain. */
  datatype Invocation = Target | Chain(interceptor: Interceptor, next: Invocation)

  /** The interceptors of a chain, from the outermost in. */
  function Layers(inv: Invocation): seq<Interceptor> {
    match inv
    case Target => []
    case Chain(i, next) => [i] + Layers(next)
  }

  /** The chain in which the first listed interceptor is outermost; its layers are the list. */
  function Nest(list: seq<Interceptor>): (r: Invocation)
    ensures |list| == 0 <==> r == Target
    ensures |list| > 0 ==> r.Chain? && r.interceptor == list[0]
    ensures Layers(r) == list
  {
    if |list| == 0 then Target else Chain(list[0], Nest(list[1..]))
  }

  /**
   * `getInvocation`: starts from the direct target call and wraps it with the
   * interceptors taken from last to first.
   */
  method GetInvocation(list: seq<Interceptor>) returns (inv: Invocation)
    ensures inv == Nest(list)
    ensures |list| == 0 ==> inv == Target
  {
    inv := Target;
    var k := |list|;
    while k > 0
      invariant 0 <= k <= |list|
      invariant inv == Nest(list[k..])
    {
      k := k - 1;
      assert list[k..][1..] == list[k + 1..];
      inv := Chain(list[k], inv);
    }
  }

  /** What the target method returns, `null` included. */
  datatype Ret = NullRet | ValueRet(v: int)

  /** How a call ends. */
  datatype Outcome = Returns(ret: Ret) | Throws(exception: nat)

  /** The events an intercepted call produces. */
  datatype Event =
    | Enter(tag: nat)
    | Leave(tag: nat)
    | Before(advice: nat)
    | After(advice: nat, seen: Ret)
    | Call

  datatype Run = Run(trace: seq<Event>, outcome: Outcome)

  /**
   * `proceed` on a chain whose target ends with `target`. The advice wrapper
   * runs `after` in a `finally`, so it runs on both paths and sees `null`
   * when the call threw.
   */
  function Proceed(inv: Invocation, target: Outcome): (r: Run)
    ensures r.outcome == target
    ensures Call in r.trace
    ensures r.trace == Openings(Layers(inv)) + [Call] + Closings(Layers(inv), target)
  {
    match inv
    case Target => Run([Call], target)
    case Chain(i, next) =>
      var inner := Proceed(next, target);
      var layers := Layers(next);
      LayerEvents(i, layers, target);
      Regroup([Opening(i)], Openings(layers), Closings(layers, target), Closing(i, target));
      match i
      case Labelled(l) =>
        Run([Enter(l)] + inner.trace + (if inner.outcome.Returns? then [Leave(l)] else []), inner.outcome)
      case Around(a) =>
        Run([Before(a)] + inner.trace + [After(a, if inner.outcome.Returns? then inner.outcome.ret else NullRet)], inner.outcome)
  }

  /** An outer interceptor adds its opening in front and its closing at the back. */
  lemma LayerEvents(i: Interceptor, layers: seq<Interceptor>, target: Outcome)
    ensures Openings([i] + layers) == [Opening(i)] + Openings(layers)
    ensures Closings([i] + layers, target) == Closings(layers, target) + Closing(i, target)
  {
    assert ([i] + layers)[1..] == layers;
  }

  lemma Regroup(a: seq<Event>, opens: seq<Event>, closes: seq<Event>, b: seq<Event>)
    ensures a + (opens + [Call] + closes) + b == (a + opens) + [Call] + (closes + b)
  {
  }

  /** The event an interceptor produces on entry. */
  function Opening(i: Interceptor): Event {
    match i
    case Labelled(l) => Enter(l)
    case Around(a) => Before(a)
  }

  /** The events an interceptor produces on exit, given how the inner call ended. */
  function Closing(i: Interceptor, target: Outcome): seq<Event> {
    match i
    case Labelled(l) => if target.Returns? then [Leave(l)] else []
    case Around(a) => [After(a, if target.Returns? then target.ret else NullRet)]
  }

  /** Entry events in list order. */
  function Openings(list: seq<Interceptor>): (r: seq<Event>)
    ensures |r| == |list|
    ensures forall k :: 0 <= k < |list| ==> r[k] == Opening(list[k])
  {
    if |list| == 0 then [] else [Opening(list[0])] + Openings(list[1..])
  }

  /** Exit events, from the last interceptor to the first. */
  function Closings(list: seq<Interceptor>, target: Outcome): seq<Event> {
    if |list| == 0 then [] else Closings(list[1..], target) + Closing(list[0], target)
  }

  /**
   * The chain of a list: every interceptor enters in list order, the target
   * is called once, and they exit in reverse order; the outcome is the
   * target's.
   */
  lemma ProceedNest(list: seq<Interceptor>, target: Outcome)
    ensures Proceed(Nest(list), target) == Run(Openings(list) + [Call] + Closings(list, target), target)
  {
  }

  /** An advice's `after` runs even when the call throws, and then sees `null`. */
  lemma AfterRunsOnThrow(advice: nat, list: seq<Interceptor>, exception: nat)
    ensures After(advice, NullRet) in Proceed(Nest([Around(advice)] + list), Throws(exception)).trace
  {
    ProceedNest([Around(advice)] + list, Throws(exception));
    assert ([Around(advice)] + list)[1..] == list;
  }

  datatype Proxy = Proxy(interfaceType: string, delegate: nat)

  /** `createProxy`: both arguments are required. */
  function CreateProxy(interfaceType: Option<string>, delegate: Option<nat>): (r: Result<Proxy, Error>)
    ensures r.Success? <==> interfaceType.Some? && delegate.Some?
    ensures r.Success? ==> r.value == Proxy(interfaceType.value, delegate.value)
  {
    if interfaceType.None? || delegate.None? then Failure(NullArgument)
    else Success(Proxy(interfaceType.value, delegate.value))
  }

  /**
   * One call through the proxy: the interceptors are collected from the
   * registry as it is now, chained, and run around the delegate's call.
   */
  method ProxyCall(reg: Registry, annotations: seq<AnnotationKey>, target: Outcome) returns (r: Run)
    ensures var list := FindInterceptors(reg, annotations);
            r == Run(Openings(list) + [Call] + Closings(list, target), target)
  {
    var list := FindInterceptors(reg, annotations);
    var inv := GetInvocation(list);
    r := Proceed(inv, target);
    ProceedNest(list, target);
  }
}
