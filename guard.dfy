/**
 * The per-instance injection guard both injectable-service traits implement: the
 * properties injected so far, the "injection completed" flag, the stored container
 * parameters, and the completion hook.
 */
module Guard {
  import opened Wrappers
  import opened Params

  /**
   * Why an `injectService` call fails. The first two are the InvalidArgumentExceptions
   * of the guard. The other two are raised by the write after the guard has passed:
   * NoSuchProperty is the ReflectionException InjectableTrait meets when its class
   * declares no property of that name; PrivateProperty is the Error ServiceTrait meets
   * when the name is a private property of the subclass, out of AService's reach.
   */
  datatype Failure =
    | AlreadyInjected(property: string)
    | AfterCompletion(property: string)
    | NoSuchProperty(property: string)
    | PrivateProperty(property: string)

  const MessagePrefix: string := "Error when injecting propertyName:"
  const AlreadyInjectedSuffix: string := ". Injection was done already."
  const AfterCompletionSuffix: string := ". Cannot inject when injection process was completed before."

  /** The exception message of a guard failure. */
  function Message(f: Failure): string
    requires f.AlreadyInjected? || f.AfterCompletion?
  {
    MessagePrefix + f.property + if f.AlreadyInjected? then AlreadyInjectedSuffix else AfterCompletionSuffix
  }

  /**
   * Both guard errors are InvalidArgumentExceptions, told apart only by their
   * messages; the messages never coincide, and each names its property.
   */
  lemma MessagesTellFailuresApart(p: string, q: string)
    ensures Message(AlreadyInjected(p)) != Message(AfterCompletion(q))
    ensures Message(AlreadyInjected(p)) == Message(AlreadyInjected(q)) ==> p == q
    ensures Message(AfterCompletion(p)) == Message(AfterCompletion(q)) ==> p == q
  {
    var a, b := Message(AlreadyInjected(p)), Message(AfterCompletion(q));
    assert a[|a| - 2] == 'y';
    assert b[|b| - 2] == 'e';
    var n := |MessagePrefix|;
    if Message(AlreadyInjected(p)) == Message(AlreadyInjected(q)) {
      var c := Message(AlreadyInjected(q));
      assert |p| == |q|;
      assert a[n..n + |p|] == p && c[n..n + |q|] == q;
    }
    if Message(AfterCompletion(p)) == Message(AfterCompletion(q)) {
      var c := Message(AfterCompletion(p));
      assert |p| == |q|;
      assert c[n..n + |p|] == p && b[n..n + |q|] == q;
    }
  }

  /**
   * What the `$parameters` field holds: the container's parameters array, or the
   * service object an injection under the field's own name wrote there.
   */
  datatype Stored = Parameters(items: map<string, Param>) | ServiceObject(service: string)

  /**
   * The guard's view of an instance: the names recorded in `$alreadyInjected`, the
   * `$injectionCompleted` flag, the `$parameters` field, the values written to the
   * class's own properties, and, for each run of the completion hook, the flag it saw.
   */
  datatype GuardState = GuardState(
    injected: set<string>,
    completed: bool,
    parameters: Stored,
    properties: map<string, string>,
    hookRuns: seq<bool>)

  /** A freshly constructed instance. */
  const Fresh: GuardState := GuardState({}, false, Parameters(map[]), map[], [])

  /** Every recorded name has had its property written, and only those. */
  predicate Consistent(s: GuardState)
  {
    s.injected == s.properties.Keys
  }

  /**
   * The guard of `injectService`: a name not yet injected, before completion, passes;
   * otherwise the duplicate is reported first, and completion only for a new name.
   */
  function Check(s: GuardState, name: string): (r: Option<Failure>)
    ensures r == None <==> name !in s.injected && !s.completed
    ensures r == Some(AlreadyInjected(name)) <==> name in s.injected
    ensures r == Some(AfterCompletion(name)) <==> name !in s.injected && s.completed
  {
    if name !in s.injected && !s.completed then None
    else if name in s.injected then Some(AlreadyInjected(name))
    else Some(AfterCompletion(name))
  }

  /**
   * How the property is written once the guard has passed. ServiceTrait assigns
   * `$this->{$name}` from AService's scope, which reaches every name (creating a
   * dynamic property if need be) except the subclass's private properties.
   * InjectableTrait goes through reflection, which finds only declared properties.
   */
  datatype Writer = ScopeWrite(subclassPrivate: set<string>) | ReflectionWrite(declared: set<string>)

  /** The write reaches a property of that name. */
  predicate Writable(w: Writer, name: string)
  {
    match w
    case ScopeWrite(hidden) => name !in hidden
    case ReflectionWrite(declared) => name in declared
  }

  /** The exception a write that cannot reach the property raises. */
  function WriteError(w: Writer, name: string): Failure
  {
    match w
    case ScopeWrite(_) => PrivateProperty(name)
    case ReflectionWrite(_) => NoSuchProperty(name)
  }

  /**
   * `injectService($name, $service)` on a property distinct from the guard's own
   * fields: when the guard passes and the write reaches the property, it is written
   * and the name recorded; any failure changes nothing.
   */
  function Inject(s: GuardState, w: Writer, name: string, service: string): (Option<Failure>, GuardState)
  {
    match Check(s, name)
    case Some(f) => (Some(f), s)
    case None =>
      if !Writable(w, name) then (Some(WriteError(w, name)), s)
      else (None, s.(injected := s.injected + {name}, properties := s.properties[name := service]))
  }

  /** A guard field that an injected name can reach when written from the trait's own scope. */
  datatype Field = CompletedField | ParametersField

  /**
   * `injectService($name, $service)` as written: the write is `$this->{$name}` (or
   * reflection's `setValue`) in the scope that declares the guard's private fields,
   * so a name that `fieldOf` maps to one of them writes that field instead of a
   * property of the class. The service object is truthy, so reaching the flag sets
   * it; reaching `$parameters` replaces the parameters with the service. Every other
   * name behaves as in `Inject`.
   */
  function InjectAsWritten(s: GuardState, w: Writer, fieldOf: string -> Option<Field>, name: string, service: string): (Option<Failure>, GuardState)
  {
    match Check(s, name)
    case Some(f) => (Some(f), s)
    case None =>
      match fieldOf(name)
      case Some(CompletedField) => (None, s.(injected := s.injected + {name}, completed := true))
      case Some(ParametersField) => (None, s.(injected := s.injected + {name}, parameters := ServiceObject(service)))
      case None => Inject(s, w, name, service)
  }

  /** `injectionCompleted()`: set the flag, then run the hook when there is one. */
  function Complete(s: GuardState, hasHook: bool): GuardState
  {
    var flagged := s.(completed := true);
    if hasHook then flagged.(hookRuns := flagged.hookRuns + [flagged.completed]) else flagged
  }

  /** `injectParameters($container)`: replace the stored parameters, in any state. */
  function StoreParameters(s: GuardState, parameters: map<string, Param>): GuardState
  {
    s.(parameters := Parameters(parameters))
  }

  /**
   * `getParameter($key, $default)`: `Arrays::get` over the stored parameters; when the
   * field holds a service object instead, `Arrays::get(array $arr, ...)` refuses it
   * with a TypeError, here None.
   */
  function Parameter(s: GuardState, key: string, default: Param): (r: Option<Param>)
    ensures r.Some? <==> s.parameters.Parameters?
    ensures s.parameters.Parameters? ==> r == Some(Walk(Arr(s.parameters.items), Explode(PathSeparator, key)).GetOr(default))
    ensures s.parameters.Parameters? && PathSeparator !in key ==>
              r == Some(if key in s.parameters.items then s.parameters.items[key] else default)
  {
    match s.parameters
    case ServiceObject(_) => None
    case Parameters(items) =>
      ExplodeSingle(PathSeparator, key);
      GetOneKey(Arr(items), key, default);
      GetIsWalk(Arr(items), Explode(PathSeparator, key), default);
      Some(Get(Arr(items), Explode(PathSeparator, key), default))
  }

  /**
   * Every outcome of an injection, each exactly when its condition holds. A failure
   * changes nothing; a success records exactly the new name and writes exactly its
   * property, leaving the flag, the parameters and the hook runs as they were.
   */
  lemma InjectOutcome(s: GuardState, w: Writer, name: string, service: string)
    ensures var (failure, t) := Inject(s, w, name, service);
            && (failure == None <==> name !in s.injected && !s.completed && Writable(w, name))
            && (failure == Some(AlreadyInjected(name)) <==> name in s.injected)
            && (failure == Some(AfterCompletion(name)) <==> name !in s.injected && s.completed)
            && (failure == Some(NoSuchProperty(name)) <==>
                  name !in s.injected && !s.completed && w.ReflectionWrite? && name !in w.declared)
            && (failure == Some(PrivateProperty(name)) <==>
                  name !in s.injected && !s.completed && w.ScopeWrite? && name in w.subclassPrivate)
            && (failure.Some? ==> t == s)
            && (failure.None? ==> t.injected == s.injected + {name} && t.properties == s.properties[name := service]
                                  && t.completed == s.completed && t.parameters == s.parameters && t.hookRuns == s.hookRuns)
  {
  }

  /** Away from the guard's field names, the write as written is the intended one. */
  lemma AsWrittenAwayFromFields(s: GuardState, w: Writer, fieldOf: string -> Option<Field>, name: string, service: string)
    requires fieldOf(name).None?
    ensures InjectAsWritten(s, w, fieldOf, name, service) == Inject(s, w, name, service)
  {
  }

  /**
   * A name that reaches a guard field passes the guard and is recorded, but no
   * property of the class is written; the flag is set, or the parameters replaced
   * by the service.
   */
  lemma AsWrittenOnField(s: GuardState, w: Writer, fieldOf: string -> Option<Field>, name: string, service: string)
    requires fieldOf(name).Some?
    ensures var (failure, t) := InjectAsWritten(s, w, fieldOf, name, service);
            && (failure == None <==> name !in s.injected && !s.completed)
            && (failure.Some? ==> t == s)
            && (failure.None? ==> t.injected == s.injected + {name} && t.properties == s.properties
                                  && (fieldOf(name) == Some(CompletedField) ==> t.completed && t.parameters == s.parameters)
                                  && (fieldOf(name) == Some(ParametersField) ==>
                                        t.parameters == ServiceObject(service) && t.completed == s.completed))
  {
  }

  /** One call the container (or a hook) makes on the instance. */
  datatype Call = InjectCall(name: string, service: string) | ParametersCall(parameters: map<string, Param>) | CompletedCall

  /** A call's effect; a failing injection aborts nothing here and leaves the state as it was. */
  function Apply(s: GuardState, w: Writer, hasHook: bool, c: Call): GuardState
  {
    match c
    case InjectCall(name, service) => Inject(s, w, name, service).1
    case ParametersCall(p) => StoreParameters(s, p)
    case CompletedCall => Complete(s, hasHook)
  }

  /** The state after a sequence of calls, in order. */
  function Run(s: GuardState, w: Writer, hasHook: bool, calls: seq<Call>): GuardState
    decreases |calls|
  {
    if calls == [] then s else Run(Apply(s, w, hasHook, calls[0]), w, hasHook, calls[1..])
  }

  /**
   * Whatever the calls: the recorded names only grow, an injected property keeps the
   * value first written to it, the completed flag is never reset, the hook runs only
   * ever see the flag set, and the state stays consistent.
   */
  lemma {:induction false} RunMonotone(s: GuardState, w: Writer, hasHook: bool, calls: seq<Call>)
    requires Consistent(s)
    requires forall i :: 0 <= i < |s.hookRuns| ==> s.hookRuns[i]
    ensures var t := Run(s, w, hasHook, calls);
            && Consistent(t)
            && s.injected <= t.injected
            && (forall n :: n in s.injected ==> t.properties[n] == s.properties[n])
            && (s.completed ==> t.completed)
            && s.hookRuns <= t.hookRuns
            && (forall i :: 0 <= i < |t.hookRuns| ==> t.hookRuns[i])
    decreases |calls|
  {
    if calls != [] {
      var next := Apply(s, w, hasHook, calls[0]);
      assert Consistent(next);
      assert forall i :: 0 <= i < |next.hookRuns| ==> next.hookRuns[i];
      RunMonotone(next, w, hasHook, calls[1..]);
    }
  }

  /** One call on the instance, with the injection as written. */
  function ApplyAsWritten(s: GuardState, w: Writer, fieldOf: string -> Option<Field>, hasHook: bool, c: Call): GuardState
  {
    match c
    case InjectCall(name, service) => InjectAsWritten(s, w, fieldOf, name, service).1
    case ParametersCall(p) => StoreParameters(s, p)
    case CompletedCall => Complete(s, hasHook)
  }

  /** The state after a sequence of calls with the injection as written. */
  function RunAsWritten(s: GuardState, w: Writer, fieldOf: string -> Option<Field>, hasHook: bool, calls: seq<Call>): GuardState
    decreases |calls|
  {
    if calls == [] then s else RunAsWritten(ApplyAsWritten(s, w, fieldOf, hasHook, calls[0]), w, fieldOf, hasHook, calls[1..])
  }

  /**
   * The same invariant for the code as written, where a name may reach one of the
   * guard's own fields: the recorded names only grow, a written property keeps its
   * value, the flag is never reset, the hook runs only ever see the flag set, and
   * every written property is recorded (a recorded name may have written a field
   * instead).
   */
  lemma {:induction false} RunAsWrittenMonotone(s: GuardState, w: Writer, fieldOf: string -> Option<Field>, hasHook: bool, calls: seq<Call>)
    requires s.properties.Keys <= s.injected
    requires forall i :: 0 <= i < |s.hookRuns| ==> s.hookRuns[i]
    ensures var t := RunAsWritten(s, w, fieldOf, hasHook, calls);
            && t.properties.Keys <= t.injected
            && s.injected <= t.injected
            && (forall n :: n in s.properties ==> n in t.properties && t.properties[n] == s.properties[n])
            && (s.completed ==> t.completed)
            && s.hookRuns <= t.hookRuns
            && (forall i :: 0 <= i < |t.hookRuns| ==> t.hookRuns[i])
    decreases |calls|
  {
    if calls != [] {
      var next := ApplyAsWritten(s, w, fieldOf, hasHook, calls[0]);
      assert forall i :: 0 <= i < |next.hookRuns| ==> next.hookRuns[i];
      RunAsWrittenMonotone(next, w, fieldOf, hasHook, calls[1..]);
    }
  }

  /** Once completed, no call whatever injects anything more. */
  lemma {:induction false} CompletedIsFinal(s: GuardState, w: Writer, hasHook: bool, calls: seq<Call>)
    requires s.completed
    ensures Run(s, w, hasHook, calls).injected == s.injected
    ensures Run(s, w, hasHook, calls).properties == s.properties
    ensures Run(s, w, hasHook, calls).completed
    decreases |calls|
  {
    if calls != [] {
      CompletedIsFinal(Apply(s, w, hasHook, calls[0]), w, hasHook, calls[1..]);
    }
  }

  /** Injecting the same property twice: the second call fails as a duplicate and changes nothing. */
  lemma SecondInjectionFails(s: GuardState, w: Writer, name: string, first: string, second: string)
    requires Inject(s, w, name, first).0 == None
    ensures var t := Inject(s, w, name, first).1;
            Inject(t, w, name, second) == (Some(AlreadyInjected(name)), t)
  {
  }

  /** `injectionCompleted()` is not idempotent: a second call runs the hook again. */
  lemma CompleteTwiceRerunsHook(s: GuardState)
    ensures Complete(Complete(s, true), true).hookRuns == s.hookRuns + [true, true]
    ensures Complete(Complete(s, false), false) == s.(completed := true)
  {
  }
}
