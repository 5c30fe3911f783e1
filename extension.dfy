/**
 * InjectionCompilerExtension: registers the `*Service` classes found by the class
 * index, and before compilation rewrites every injectable service's setup so the
 * generated injection calls run first.
 */
module Extension {
  import opened Wrappers
  import opened PhpArray
  import opened Planner
  import opened Setup

  /** TAG_INJECT. */
  const TagInject: string := "inject"
  /** The suffix loadDefinitions looks for, and the prefix of the names it registers. */
  const ServiceSuffix: string := "Service"
  const AutoPrefix: string := "_auto."

  /** What reflection tells about a class that exists. */
  datatype ClassInfo = ClassInfo(
    implementsInjectable: bool,   // implementsInterface(IInjectableService), inherited ones included
    usesInjectableTrait: bool,    // InjectableTrait is among class_uses(), the class's own traits
    properties: seq<Property>,    // getProperties(), in declaration order
    methods: seq<string>)         // get_class_methods()

  /** A class of the class index, with what loadDefinitions asks reflection about it. */
  datatype IndexedClass = IndexedClass(name: string, isAbstract: bool, isServiceMarker: bool)

  /** A Nette ServiceDefinition; only its setup list is rewritten here. */
  class ServiceDefinition {
    const name: string
    const className: Option<string>
    /** The entity of the factory statement, when there is one. */
    const factory: Option<string>
    /** The tags whose value is truthy. */
    const tags: set<string>
    var setup: seq<Statement>

    constructor (name: string, className: Option<string>, factory: Option<string>, tags: set<string>, setup: seq<Statement>)
      ensures this.name == name && this.className == className && this.factory == factory
      ensures this.tags == tags && this.setup == setup
    {
      this.name, this.className, this.factory, this.tags := name, className, factory, tags;
      this.setup := setup;
    }

    /** addSetup: append one statement. */
    method AddSetup(statement: Statement)
      modifies this
      ensures setup == old(setup) + [statement]
    {
      setup := setup + [statement];
    }
  }

  /** The definitions' names, in order. */
  function DefinitionNames(definitions: seq<ServiceDefinition>): seq<string>
  {
    seq(|definitions|, i requires 0 <= i < |definitions| => definitions[i].name)
  }

  /** Each definition's name and class, in order. */
  function Described(definitions: seq<ServiceDefinition>): seq<(string, Option<string>)>
  {
    seq(|definitions|, i requires 0 <= i < |definitions| => (definitions[i].name, definitions[i].className))
  }

  /** Definitions with distinct names are distinct objects. */
  lemma DistinctObjects(definitions: seq<ServiceDefinition>)
    requires Distinct(DefinitionNames(definitions))
    ensures forall a, b :: 0 <= a < |definitions| && 0 <= b < |definitions| && a != b ==> definitions[a] != definitions[b]
  {
    forall a, b | 0 <= a < |definitions| && 0 <= b < |definitions| && a != b
      ensures definitions[a] != definitions[b]
    {
      assert DefinitionNames(definitions)[a] == definitions[a].name && DefinitionNames(definitions)[b] == definitions[b].name;
    }
  }

  /** The ContainerBuilder's definitions, each under its own name. */
  class ContainerBuilder {
    var definitions: seq<ServiceDefinition>

    ghost predicate Valid()
      reads this
    {
      Distinct(DefinitionNames(definitions))
    }

    constructor (definitions: seq<ServiceDefinition>)
      requires Distinct(DefinitionNames(definitions))
      ensures Valid() && this.definitions == definitions
    {
      this.definitions := definitions;
    }

    /**
     * `addDefinition($name)->setClass($className)`: a new, empty definition under a
     * new name; a name already taken is refused ("Service '$name' has already been
     * added.") and nothing changes.
     */
    method AddDefinition(name: string, className: string) returns (added: bool)
      requires Valid()
      modifies this
      ensures Valid()
      ensures added == (name !in DefinitionNames(old(definitions)))
      ensures !added ==> definitions == old(definitions)
      ensures added ==> |definitions| == |old(definitions)| + 1 && definitions[..|old(definitions)|] == old(definitions)
      ensures added ==> var d := definitions[|old(definitions)|];
                        fresh(d) && d.name == name && d.className == Some(className) && d.factory == None
                        && d.tags == {} && d.setup == []
    {
      if name in DefinitionNames(definitions) {
        return false;
      }
      var d := new ServiceDefinition(name, Some(className), None, {}, []);
      assert DefinitionNames(definitions + [d]) == DefinitionNames(definitions) + [name];
      DistinctCons(name, DefinitionNames(definitions));
      assert Distinct(DefinitionNames(definitions) + [name]) by {
        var s := DefinitionNames(definitions) + [name];
        forall i, j | 0 <= i < j < |s| ensures s[i] != s[j] {
          if j == |s| - 1 { assert s[i] in DefinitionNames(definitions); }
        }
      }
      definitions := definitions + [d];
      added := true;
    }
  }

  /** Strings::endsWith($s, $suffix). */
  predicate EndsWith(s: string, suffix: string)
  {
    |s| >= |suffix| && s[|s| - |suffix|..] == suffix
  }

  /** `str_replace("\\", "_", $s)`. */
  function BackslashesToUnderscores(s: string): string
  {
    seq(|s|, i requires 0 <= i < |s| => if s[i] == '\\' then '_' else s[i])
  }

  /** The name loadDefinitions registers a class under: "_auto." and the class name with each `\` turned into `_`. */
  function AutoServiceName(className: string): (r: string)
    ensures |r| == |AutoPrefix| + |className|
    ensures r[..|AutoPrefix|] == AutoPrefix
    ensures '\\' !in r
    ensures forall i :: 0 <= i < |className| && className[i] != '\\' ==> r[|AutoPrefix| + i] == className[i]
  {
    AutoPrefix + BackslashesToUnderscores(className)
  }

  /** Two characters that AutoServiceName cannot tell apart. */
  predicate SameUnderNaming(a: char, b: char)
  {
    a == b || (a in "\\_" && b in "\\_")
  }

  /** Two classes get the same service name exactly when they differ only in `\` versus `_`. */
  lemma AutoServiceNameClash(a: string, b: string)
    ensures AutoServiceName(a) == AutoServiceName(b) <==>
            |a| == |b| && forall i :: 0 <= i < |a| ==> SameUnderNaming(a[i], b[i])
  {
    var p := |AutoPrefix|;
    if AutoServiceName(a) == AutoServiceName(b) {
      forall i | 0 <= i < |a| ensures SameUnderNaming(a[i], b[i]) {
        assert AutoServiceName(a)[p + i] == BackslashesToUnderscores(a)[i];
        assert AutoServiceName(b)[p + i] == BackslashesToUnderscores(b)[i];
      }
    }
    if |a| == |b| && forall i :: 0 <= i < |a| ==> SameUnderNaming(a[i], b[i]) {
      assert BackslashesToUnderscores(a) == BackslashesToUnderscores(b);
    }
  }

  /** Hence distinct classes can clash, and the second registration is then refused. */
  lemma AutoServiceNamesCanClash()
    ensures AutoServiceName("App\\Mail_Service") == AutoServiceName("App_Mail\\Service")
  {
    AutoServiceNameClash("App\\Mail_Service", "App_Mail\\Service");
  }

  /** loadDefinitions registers a class: its name ends in "Service", it is not abstract, it is a service marker. */
  predicate IsRegistered(c: IndexedClass)
  {
    EndsWith(c.name, ServiceSuffix) && !c.isAbstract && c.isServiceMarker
  }

  /** The (service name, class) pairs loadDefinitions adds for the classes, in index order. */
  function Registrations(classes: seq<IndexedClass>): seq<(string, Option<string>)>
  {
    if classes == [] then []
    else
      var before := Registrations(classes[..|classes| - 1]);
      var c := classes[|classes| - 1];
      if IsRegistered(c) then before + [(AutoServiceName(c.name), Some(c.name))] else before
  }

  /** A pair is registered exactly when some indexed class qualifies and the pair is its auto name and the class. */
  lemma {:induction false} RegistrationsMembers(classes: seq<IndexedClass>, n: string, c: string)
    ensures (n, Some(c)) in Registrations(classes) <==>
            exists i :: 0 <= i < |classes| && IsRegistered(classes[i]) && classes[i].name == c && n == AutoServiceName(c)
    decreases |classes|
  {
    if classes != [] {
      var k := |classes| - 1;
      var init := classes[..k];
      RegistrationsMembers(init, n, c);
      if exists i :: 0 <= i < k && IsRegistered(init[i]) && init[i].name == c && n == AutoServiceName(c) {
        var i :| 0 <= i < k && IsRegistered(init[i]) && init[i].name == c && n == AutoServiceName(c);
        assert classes[i] == init[i];
      }
      if exists i :: 0 <= i < |classes| && IsRegistered(classes[i]) && classes[i].name == c && n == AutoServiceName(c) {
        var i :| 0 <= i < |classes| && IsRegistered(classes[i]) && classes[i].name == c && n == AutoServiceName(c);
        if i < k { assert init[i] == classes[i]; }
      }
    }
  }

  /**
   * loadDefinitions: one definition per registered class of the index, in order. The
   * run stops at the first service name that is already taken and reports it.
   */
  method LoadDefinitions(builder: ContainerBuilder, indexed: seq<IndexedClass>) returns (clash: Option<string>)
    requires builder.Valid()
    modifies builder
    ensures builder.Valid()
    ensures forall k :: |old(builder.definitions)| <= k < |builder.definitions| ==>
              fresh(builder.definitions[k]) && builder.definitions[k].setup == [] && builder.definitions[k].factory == None
              && builder.definitions[k].tags == {}
    ensures |old(builder.definitions)| <= |builder.definitions|
    ensures builder.definitions[..|old(builder.definitions)|] == old(builder.definitions)
    ensures clash.None? ==> Described(builder.definitions) == Described(old(builder.definitions)) + Registrations(indexed)
    ensures clash.Some? ==>
              exists i :: (0 <= i < |indexed| && IsRegistered(indexed[i])
                && Described(builder.definitions) == Described(old(builder.definitions)) + Registrations(indexed[..i])
                && clash.value == AutoServiceName(indexed[i].name) && clash.value in DefinitionNames(builder.definitions))
  {
    ghost var initial := builder.definitions;
    for i := 0 to |indexed|
      invariant builder.Valid()
      invariant |initial| <= |builder.definitions| && builder.definitions[..|initial|] == initial
      invariant forall k :: |initial| <= k < |builder.definitions| ==>
                  fresh(builder.definitions[k]) && builder.definitions[k].setup == [] && builder.definitions[k].factory == None
                  && builder.definitions[k].tags == {}
      invariant Described(builder.definitions) == Described(initial) + Registrations(indexed[..i])
    {
      var key := indexed[i];
      assert indexed[..i + 1][..i] == indexed[..i];
      ghost var before := builder.definitions;
      if EndsWith(key.name, ServiceSuffix) {
        var serviceName := AutoServiceName(key.name);
        if !key.isAbstract && key.isServiceMarker {
          var added := builder.AddDefinition(serviceName, key.name);
          if !added {
            return Some(serviceName);
          }
          assert Described(builder.definitions) == Described(before) + [(serviceName, Some(key.name))];
        }
      }
    }
    assert indexed[..|indexed|] == indexed;
    clash := None;
  }

  /** One of injectToDefinition's foreach loops: `addSetup($injectService, [$property, '@' . $target])` per entry. */
  method AddServiceCalls(definition: ServiceDefinition, injectService: string, injectionProperties: Entries)
    modifies definition
    ensures definition.setup == old(definition.setup) + ServiceCalls(injectService, injectionProperties)
  {
    ghost var start := definition.setup;
    for i := 0 to |injectionProperties|
      invariant definition.setup == start + ServiceCalls(injectService, injectionProperties[..i])
    {
      definition.AddSetup(Statement(injectService, [injectionProperties[i].0, "@" + injectionProperties[i].1]));
      ServiceCallsSnoc(injectService, injectionProperties, i);
    }
    assert injectionProperties[..|injectionProperties|] == injectionProperties;
  }

  /**
   * injectToDefinition: clear the setup, add the by-name injections, the by-type
   * injections, injectParameters('@container') and injectionCompleted(), then add
   * back every saved setup statement.
   */
  method InjectToDefinition(definition: ServiceDefinition, properties: seq<Property>, c: Capability, expand: Expander)
    modifies definition
    ensures definition.setup == Composed(c, Plan(properties, ByNameTarget), Plan(properties, TypeTargets(expand)), old(definition.setup))
  {
    var injectService := Operation(c, InjectServiceMethod);
    var injectParameters := Operation(c, InjectParametersMethod);
    var injectionCompleted := Operation(c, InjectionCompletedMethod);
    var injectionProperties := GetInjectionByNameProperties(properties);
    var setupSave := definition.setup;
    ghost var byNameCalls := ServiceCalls(injectService, injectionProperties);
    definition.setup := [];
    AddServiceCalls(definition, injectService, injectionProperties);
    injectionProperties := GetInjectionByTypeProperties(properties, expand);
    ghost var byTypeCalls := ServiceCalls(injectService, injectionProperties);
    var tail := [Statement(injectParameters, ["@container"]), Statement(injectionCompleted, [])];
    assert Composed(c, Plan(properties, ByNameTarget), Plan(properties, TypeTargets(expand)), setupSave)
           == byNameCalls + byTypeCalls + tail + setupSave;
    AddServiceCalls(definition, injectService, injectionProperties);
    assert definition.setup == byNameCalls + byTypeCalls;
    definition.AddSetup(tail[0]);
    definition.AddSetup(tail[1]);
    assert definition.setup == byNameCalls + byTypeCalls + tail;
    AddSetups(definition, setupSave);
  }

  /** injectToDefinition's last foreach: `addSetup($setup)` for every saved statement, in order. */
  method AddSetups(definition: ServiceDefinition, statements: seq<Statement>)
    modifies definition
    ensures definition.setup == old(definition.setup) + statements
  {
    ghost var start := definition.setup;
    for i := 0 to |statements|
      invariant definition.setup == start + statements[..i]
    {
      definition.AddSetup(statements[i]);
      assert statements[..i + 1] == statements[..i] + [statements[i]];
    }
    assert statements[..|statements|] == statements;
  }

  /** The setup injectForServiceDefinition leaves: the interface takes precedence over the trait; neither leaves it as it was. */
  function InjectedSetup(info: ClassInfo, expand: Expander, setup: seq<Statement>): seq<Statement>
  {
    if info.implementsInjectable then
      Composed(Interface, Plan(info.properties, ByNameTarget), Plan(info.properties, TypeTargets(expand)), setup)
    else if info.usesInjectableTrait then
      Composed(Trait, Plan(info.properties, ByNameTarget), Plan(info.properties, TypeTargets(expand)), setup)
    else setup
  }

  /** injectForServiceDefinition. */
  method InjectForServiceDefinition(definition: ServiceDefinition, info: ClassInfo, expand: Expander)
    modifies definition
    ensures definition.setup == InjectedSetup(info, expand, old(definition.setup))
  {
    if info.implementsInjectable {
      InjectToDefinition(definition, info.properties, Interface, expand);
    } else if info.usesInjectableTrait {
      InjectToDefinition(definition, info.properties, Trait, expand);
    }
  }

  /**
   * updateDefinition: for each inject method in turn, every setup calling it is
   * removed, the last of them (or a bare call) is put at the front.
   */
  method UpdateDefinition(definition: ServiceDefinition, classMethods: seq<string>)
    modifies definition
    ensures definition.setup == UpdateSetups(old(definition.setup), GetInjectMethods(classMethods))
    ensures Distinct(classMethods) ==>
              definition.setup == InjectBlock(old(definition.setup), GetInjectMethods(classMethods))
                                  + WithoutAll(old(definition.setup), GetInjectMethods(classMethods))
  {
    var injects := GetInjectMethods(classMethods);
    var original := definition.setup;
    var setups := original;
    for i := 0 to |injects|
      invariant setups == UpdateSetups(original, injects[..i])
    {
      var inject := Statement(injects[i], []);
      var snapshot := setups;
      var kept: seq<Statement> := [];
      for j := 0 to |snapshot|
        invariant inject == LastWith(snapshot[..j], injects[i]).GetOr(Statement(injects[i], []))
        invariant kept == Without(snapshot[..j], injects[i])
      {
        assert snapshot[..j + 1][..j] == snapshot[..j];
        if snapshot[j].entity == inject.entity {
          inject := snapshot[j];
        } else {
          kept := kept + [snapshot[j]];
        }
      }
      assert snapshot[..|snapshot|] == snapshot;
      assert injects[..i + 1][..i] == injects[..i];
      setups := [inject] + kept;
    }
    assert injects[..|injects|] == injects;
    definition.setup := setups;
    if Distinct(classMethods) {
      GetInjectMethodsDistinct(classMethods);
      UpdateSetupsShape(original, injects);
    }
  }

  /** The class beforeCompile works with: getClass(), or else the factory's entity. */
  function ClassOf(d: ServiceDefinition): Option<string>
  {
    if d.className.Some? then d.className else d.factory
  }

  /** PHP truthiness of getClass(). */
  predicate IsTruthy(className: Option<string>)
  {
    className.Some? && className.value != "" && className.value != "0"
  }

  /** get_class_methods(): the class's methods, or none (null) when the class does not exist. */
  function MethodsOf(classes: map<string, ClassInfo>, className: string): seq<string>
  {
    if className in classes then classes[className].methods else []
  }

  /** beforeCompile's first pass on one definition: injection for classes that exist. */
  function AfterInjectionPass(d: ServiceDefinition, setup: seq<Statement>, classes: map<string, ClassInfo>, expand: Expander): seq<Statement>
  {
    match ClassOf(d)
    case Some(cn) => if cn in classes then InjectedSetup(classes[cn], expand, setup) else setup
    case None => setup
  }

  /** beforeCompile's second pass on one definition: the tag pass for "inject"-tagged classes. */
  function AfterTagPass(d: ServiceDefinition, setup: seq<Statement>, classes: map<string, ClassInfo>): seq<Statement>
  {
    if TagInject in d.tags && IsTruthy(d.className) then UpdateSetups(setup, GetInjectMethods(MethodsOf(classes, d.className.value)))
    else setup
  }

  /**
   * beforeCompile: the injection pass over every definition, then the tag pass.
   * A definition with neither a class nor a factory stops the run (PHP calls a
   * method on null there); its index is reported, the definitions before it have
   * had the first pass, it and those after are as they were.
   */
  method BeforeCompile(builder: ContainerBuilder, classes: map<string, ClassInfo>, expand: Expander) returns (missing: Option<nat>)
    requires builder.Valid()
    modifies set d | d in builder.definitions
    ensures var defs := builder.definitions;
            missing.None? ==>
              forall k :: 0 <= k < |defs| ==>
                (ClassOf(defs[k]).Some? &&
                 defs[k].setup == AfterTagPass(defs[k], AfterInjectionPass(defs[k], old(defs[k].setup), classes, expand), classes))
    ensures var defs := builder.definitions;
            missing.Some? ==> var j := missing.value;
              && j < |defs| && ClassOf(defs[j]).None?
              && (forall k :: 0 <= k < j ==>
                    (ClassOf(defs[k]).Some? && defs[k].setup == AfterInjectionPass(defs[k], old(defs[k].setup), classes, expand)))
              && (forall k :: j <= k < |defs| ==> defs[k].setup == old(defs[k].setup))
  {
    var defs := builder.definitions;
    DistinctObjects(defs);
    for i := 0 to |defs|
      invariant forall k :: 0 <= k < i ==>
                  (ClassOf(defs[k]).Some? && defs[k].setup == AfterInjectionPass(defs[k], old(defs[k].setup), classes, expand))
      invariant forall k :: i <= k < |defs| ==> defs[k].setup == old(defs[k].setup)
    {
      var definition := defs[i];
      var className: string;
      if definition.className.Some? {
        className := definition.className.value;
      } else if definition.factory.Some? {
        className := definition.factory.value;
      } else {
        return Some(i);
      }
      if className in classes {
        InjectForServiceDefinition(definition, classes[className], expand);
      }
    }
    for i := 0 to |defs|
      invariant forall k :: 0 <= k < i ==>
                  defs[k].setup == AfterTagPass(defs[k], AfterInjectionPass(defs[k], old(defs[k].setup), classes, expand), classes)
      invariant forall k :: i <= k < |defs| ==> defs[k].setup == AfterInjectionPass(defs[k], old(defs[k].setup), classes, expand)
      invariant forall k :: 0 <= k < |defs| ==> ClassOf(defs[k]).Some?
    {
      var def := defs[i];
      if TagInject in def.tags && IsTruthy(def.className) {
        UpdateDefinition(def, MethodsOf(classes, def.className.value));
      }
    }
    missing := None;
  }
}
