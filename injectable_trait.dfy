/**
 * InjectableTrait: the same guard for classes that cannot extend AService, over the
 * fields `$InjectableTrait_alreadyInjected`, `$InjectableTrait_injectionCompleted`
 * and `$InjectableTrait_parameters`, writing injected services through reflection.
 */
module InjectableTrait {
  import opened Wrappers
  import opened Params
  import opened Guard

  /** The trait's private fields, which reflection finds on the class like any property. */
  const CompletedFieldName: string := "InjectableTrait_injectionCompleted"
  const ParametersFieldName: string := "InjectableTrait_parameters"

  /** Which guard field `getProperty($name)->setValue(...)` reaches instead of a property of the class's own. */
  function TraitFields(name: string): Option<Field>
  {
    if name == CompletedFieldName then Some(CompletedField)
    else if name == ParametersFieldName then Some(ParametersField)
    else None
  }

  /** An instance of a class that uses InjectableTrait. */
  class Injectable {
    /** The properties reflection finds on the class (`getProperty` fails for any other name). */
    const declared: set<string>
    /** Whether the class has an `onInjectionCompleted` method. */
    const hasHook: bool

    var alreadyInjected: set<string>
    var injectionCompleted: bool
    var parameters: Stored
    /** The values InjectableTrait_injectService wrote, by property name. */
    var properties: map<string, string>
    /** For each run of onInjectionCompleted(), the completed flag it saw. */
    var hookRuns: seq<bool>

    /** The instance as the guard sees it. */
    function State(): GuardState
      reads this
    {
      GuardState(alreadyInjected, injectionCompleted, parameters, properties, hookRuns)
    }

    constructor (declared: set<string>, hasHook: bool)
      ensures State() == Fresh
      ensures this.declared == declared && this.hasHook == hasHook
    {
      this.declared, this.hasHook := declared, hasHook;
      alreadyInjected, injectionCompleted, parameters := {}, false, Parameters(map[]);
      properties, hookRuns := map[], [];
    }

    /**
     * InjectableTrait_injectService: after the guard passes, reflection looks the
     * property up (failing before anything is written when there is none) and
     * writes it, which under the trait's own field names writes the flag or the
     * parameters; then the name is recorded. Every failure leaves the instance unchanged.
     */
    method InjectService(propertyName: string, service: string) returns (failure: Option<Failure>)
      modifies this
      ensures (failure, State()) == InjectAsWritten(old(State()), ReflectionWrite(declared), TraitFields, propertyName, service)
    {
      if propertyName !in alreadyInjected && !injectionCompleted {
        if propertyName == CompletedFieldName {
          injectionCompleted := true;
        } else if propertyName == ParametersFieldName {
          parameters := ServiceObject(service);
        } else if propertyName !in declared {
          return Some(NoSuchProperty(propertyName));
        } else {
          properties := properties[propertyName := service];
        }
        alreadyInjected := alreadyInjected + {propertyName};
        failure := None;
      } else if propertyName in alreadyInjected {
        failure := Some(AlreadyInjected(propertyName));
      } else {
        // here the name is new, so the flag is what refused it
        failure := Some(AfterCompletion(propertyName));
      }
    }

    /** InjectableTrait_injectionCompleted: set the flag, then call the hook if the class has one. */
    method InjectionCompleted()
      modifies this
      ensures State() == Complete(old(State()), hasHook)
    {
      injectionCompleted := true;
      if hasHook {
        OnInjectionCompleted();
      }
    }

    /** The class's hook; the model records that it ran and what flag it saw. */
    method OnInjectionCompleted()
      modifies this
      ensures hookRuns == old(hookRuns) + [injectionCompleted]
      ensures alreadyInjected == old(alreadyInjected) && injectionCompleted == old(injectionCompleted)
      ensures parameters == old(parameters) && properties == old(properties)
    {
      hookRuns := hookRuns + [injectionCompleted];
    }

    /** InjectableTrait_injectParameters: store the container's parameters, overwriting what was there. */
    method InjectParameters(containerParameters: map<string, Param>)
      modifies this
      ensures State() == StoreParameters(old(State()), containerParameters)
    {
      parameters := Parameters(containerParameters);
    }

    /**
     * InjectableTrait_getParameter: what the dot path leads to among the stored
     * parameters, or the default; None is the TypeError of `Arrays::get` when the
     * field holds a service object.
     */
    function GetParameter(key: string, default: Param): (r: Option<Param>)
      reads this
      ensures r.Some? <==> parameters.Parameters?
      ensures parameters.Parameters? ==> r == Some(Walk(Arr(parameters.items), Explode(PathSeparator, key)).GetOr(default))
    {
      Parameter(State(), key, default)
    }
  }
}
