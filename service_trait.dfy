/**
 * ServiceTrait, used by the abstract AService: the guard over the fields
 * `$alreadyInjected`, `$injectionCompleted` and `$parameters`, writing injected
 * services to `$this->{$propertyName}`.
 */
module ServiceTrait {
  import opened Wrappers
  import opened Params
  import opened Guard

  /** The trait's private fields that an injected name can reach from AService's scope. */
  const CompletedFieldName: string := "injectionCompleted"
  const ParametersFieldName: string := "parameters"

  /** Which guard field `$this->{$name}`, written inside AService, reaches instead of a subclass property. */
  function ServiceFields(name: string): Option<Field>
  {
    if name == CompletedFieldName then Some(CompletedField)
    else if name == ParametersFieldName then Some(ParametersField)
    else None
  }

  /** An instance of an AService subclass. */
  class Service {
    /** The private properties the subclass declares, which AService's scope cannot write. */
    const privateProperties: set<string>

    var alreadyInjected: set<string>
    var injectionCompleted: bool
    var parameters: Stored
    /** The values injectService wrote, by property name. */
    var properties: map<string, string>
    /** For each run of startup(), the completed flag it saw. */
    var startupRuns: seq<bool>

    /** The instance as the guard sees it. */
    function State(): GuardState
      reads this
    {
      GuardState(alreadyInjected, injectionCompleted, parameters, properties, startupRuns)
    }

    constructor (privateProperties: set<string>)
      ensures State() == Fresh && this.privateProperties == privateProperties
    {
      this.privateProperties := privateProperties;
      alreadyInjected, injectionCompleted, parameters := {}, false, Parameters(map[]);
      properties, startupRuns := map[], [];
    }

    /**
     * injectService: once the guard passes, `$this->{$propertyName} = $service` runs in
     * AService's scope. It reaches the trait's own flag or parameters field under
     * their names, fails with an Error on a private property of the subclass, and
     * otherwise writes the property; then the name is recorded.
     */
    method InjectService(propertyName: string, service: string) returns (failure: Option<Failure>)
      modifies this
      ensures (failure, State()) == InjectAsWritten(old(State()), ScopeWrite(privateProperties), ServiceFields, propertyName, service)
    {
      if propertyName !in alreadyInjected && !injectionCompleted {
        if propertyName == CompletedFieldName {
          injectionCompleted := true;
        } else if propertyName == ParametersFieldName {
          parameters := ServiceObject(service);
        } else if propertyName in privateProperties {
          return Some(PrivateProperty(propertyName));
        } else {
          properties := properties[propertyName := service];
        }
        alreadyInjected := alreadyInjected + {propertyName};
        failure := None;
      } else if propertyName in alreadyInjected {
        failure := Some(AlreadyInjected(propertyName));
      } else {
        // here the name is new, so the flag is what refused it
        failure := Some(AfterCompletion(propertyName));
      }
    }

    /** injectionCompleted: set the flag, then call startup(). */
    method InjectionCompleted()
      modifies this
      ensures State() == Complete(old(State()), true)
    {
      injectionCompleted := true;
      Startup();
    }

    /** The default startup() does nothing; the model records that it ran and what it saw. */
    method Startup()
      modifies this
      ensures startupRuns == old(startupRuns) + [injectionCompleted]
      ensures alreadyInjected == old(alreadyInjected) && injectionCompleted == old(injectionCompleted)
      ensures parameters == old(parameters) && properties == old(properties)
    {
      startupRuns := startupRuns + [injectionCompleted];
    }

    /** injectParameters: store the container's parameters, overwriting what was there. */
    method InjectParameters(containerParameters: map<string, Param>)
      modifies this
      ensures State() == StoreParameters(old(State()), containerParameters)
    {
      parameters := Parameters(containerParameters);
    }

    /**
     * getParameter: what the dot path leads to among the stored parameters, or the
     * default; a key without a dot is a plain array access. None is the TypeError
     * `Arrays::get` raises when the field holds a service object.
     */
    function GetParameter(key: string, default: Param): (r: Option<Param>)
      reads this
      ensures r.Some? <==> parameters.Parameters?
      ensures parameters.Parameters? ==> r == Some(Walk(Arr(parameters.items), Explode(PathSeparator, key)).GetOr(default))
      ensures parameters.Parameters? && PathSeparator !in key ==>
                r == Some(if key in parameters.items then parameters.items[key] else default)
    {
      Parameter(State(), key, default)
    }
  }

  /**
   * As written, a subclass property named like the completion flag is never written:
   * injecting it sets the flag, so the next generated injection is refused.
   */
  lemma FlagNameCompletesInjection(flag: string, log: string)
    ensures var w := ScopeWrite({});
            var (f, t) := InjectAsWritten(Fresh, w, ServiceFields, CompletedFieldName, flag);
            && f == None && t.completed && CompletedFieldName !in t.properties
            && InjectAsWritten(t, w, ServiceFields, "logger", log) == (Some(AfterCompletion("logger")), t)
  {
  }

  /**
   * As written, a subclass property named `parameters` is never written: the service
   * lands in the parameters field, where getParameter fails on it, and the generated
   * injectParameters call then overwrites it.
   */
  lemma ParametersNameIsLost(config: string, p: map<string, Param>, key: string)
    ensures var (f, t) := InjectAsWritten(Fresh, ScopeWrite({}), ServiceFields, ParametersFieldName, config);
            && f == None && ParametersFieldName !in t.properties && Parameter(t, key, Null) == None
            && StoreParameters(t, p).parameters == Parameters(p) && ParametersFieldName !in StoreParameters(t, p).properties
  {
  }

  /**
   * With the property kept apart from the guard's fields, the same two injections
   * both write their properties and leave the flag and the parameters alone.
   */
  lemma FieldNamesKeptApart(flag: string, log: string)
    ensures var w := ScopeWrite({});
            var (f, t) := Inject(Fresh, w, CompletedFieldName, flag);
            var (g, u) := Inject(t, w, "logger", log);
            && f == None && g == None && !u.completed && u.parameters == Fresh.parameters
            && u.properties == map[CompletedFieldName := flag, "logger" := log]
  {
    InjectOutcome(Fresh, ScopeWrite({}), CompletedFieldName, flag);
  }

  /**
   * With the property kept apart from the parameters field, a property named
   * `parameters` keeps its service after injectParameters, and getParameter reads
   * the container's parameters.
   */
  lemma ParametersNameKeptApart(config: string, p: map<string, Param>, key: string)
    ensures var (f, t) := Inject(Fresh, ScopeWrite({}), ParametersFieldName, config);
            var u := StoreParameters(t, p);
            && f == None && u.properties == map[ParametersFieldName := config]
            && Parameter(u, key, Null) == Some(Walk(Arr(p), Explode(PathSeparator, key)).GetOr(Null))
  {
    InjectOutcome(Fresh, ScopeWrite({}), ParametersFieldName, config);
  }
}
