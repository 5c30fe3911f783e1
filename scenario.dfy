/**
 * A worked example end to end: a Widget service with one by-name
 * property, one by-type property and one plain property, from its planner arrays
 * through the rewritten setup to the guard state once the container has run it.
 */
module Scenario {
  import opened Wrappers
  import opened PhpArray
  import opened Planner
  import opened Setup
  import opened Params
  import opened Guard

  const WidgetClass: string := "App\\Widget"

  /** `/** @inject log */ protected $logger;` */
  const Logger: Property := Property("logger", WidgetClass, map[InjectServiceAnnotation := Text("log")])
  /** `/** @inject @var Storage */ protected $store;` */
  const Store: Property := Property("store", WidgetClass, map[InjectServiceAnnotation := True, TypeAnnotation := Text("Storage")])
  /** `/** @var string */ protected $title;` */
  const Title: Property := Property("title", WidgetClass, map[TypeAnnotation := Text("string")])

  const WidgetProperties: seq<Property> := [Logger, Store, Title]

  /** The by-name array holds `logger => log` only; the by-type array holds `store` and its expanded class only. */
  lemma WidgetPlans(expand: Expander)
    ensures Plan(WidgetProperties, ByNameTarget) == [("logger", "log")]
    ensures Plan(WidgetProperties, TypeTargets(expand)) == [("store", expand(Text("Storage"), WidgetClass))]
  {
    var two, one := WidgetProperties[..2], WidgetProperties[..1];
    assert two[..1] == one && one[..0] == [];
    assert ByNameTarget(Logger) == Some("log");
    assert ByNameTarget(Store).None? && ByNameTarget(Title).None?;
    assert ByTypeTarget(expand, Logger).None? && ByTypeTarget(expand, Title).None?;
    assert Keys([]) == [];
    assert Plan(one, ByNameTarget) == Put([], "logger", "log") == [("logger", "log")];
    assert Plan(two, ByNameTarget) == Plan(one, ByNameTarget);
    assert Plan(one, TypeTargets(expand)) == [];
    assert Plan(two, TypeTargets(expand)) == Put([], "store", expand(Text("Storage"), WidgetClass));
  }

  /**
   * The rewritten setup of the Widget definition, which had one setup call of its
   * own: the two injections, injectParameters, injectionCompleted, then that call.
   */
  lemma WidgetSetup(expand: Expander)
    ensures var t := expand(Text("Storage"), WidgetClass);
            Composed(Interface, Plan(WidgetProperties, ByNameTarget), Plan(WidgetProperties, TypeTargets(expand)),
                     [Statement("setMode", ["fast"])])
            == [Statement("injectService", ["logger", "@log"]),
                Statement("injectService", ["store", "@" + t]),
                Statement("injectParameters", ["@container"]),
                Statement("injectionCompleted", []),
                Statement("setMode", ["fast"])]
  {
    WidgetPlans(expand);
    var t := expand(Text("Storage"), WidgetClass);
    var a, b := ServiceCalls(InjectServiceMethod, [("logger", "log")]), ServiceCalls(InjectServiceMethod, [("store", t)]);
    assert "@" + "log" == "@log";
    assert |a| == 1 && a[0] == Statement("injectService", ["logger", "@log"]);
    assert |b| == 1 && b[0] == Statement("injectService", ["store", "@" + t]);
  }

  /** The calls the container makes on a new Widget, following that setup. */
  function WidgetCalls(storage: string, parameters: map<string, Param>): seq<Call>
  {
    [InjectCall("logger", "log"), InjectCall("store", storage), ParametersCall(parameters), CompletedCall]
  }

  /**
   * After them both properties are injected, the parameters stored, the flag set and
   * startup() has run once, seeing the flag set; a later injection of either property
   * is refused as a duplicate.
   */
  lemma WidgetLifecycle(storage: string, parameters: map<string, Param>)
    ensures var s := Run(Fresh, ScopeWrite({}), true, WidgetCalls(storage, parameters));
            && s.injected == {"logger", "store"}
            && s.properties == map["logger" := "log", "store" := storage]
            && s.parameters == Parameters(parameters)
            && s.completed
            && s.hookRuns == [true]
            && Inject(s, ScopeWrite({}), "logger", "other").0 == Some(AlreadyInjected("logger"))
  {
    var calls := WidgetCalls(storage, parameters);
    var w := ScopeWrite({});
    var s1 := Apply(Fresh, w, true, calls[0]);
    var s2 := Apply(s1, w, true, calls[1]);
    var s3 := Apply(s2, w, true, calls[2]);
    var s4 := Apply(s3, w, true, calls[3]);
    assert Run(s4, w, true, calls[4..]) == s4;
    assert Run(s3, w, true, calls[3..]) == s4;
    assert Run(s2, w, true, calls[2..]) == s4;
    assert Run(s1, w, true, calls[1..]) == s4;
    assert s4.injected == {"logger", "store"};
  }
}
