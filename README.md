# nette-inject, modelled in Dafny

DTForce nette-inject is an extension for the Nette DI container that injects
services into annotated properties of other services.

- At configuration time, `InjectionCompilerExtension` registers every indexed
  `*Service` class that is concrete and a service marker, under the name
  `_auto.<class with \ turned into _>`.
- Before compilation it rewrites the setup list of every service definition whose
  class implements `IInjectableService` or uses `InjectableTrait`. The new list has:
  - one `injectService(property, '@target')` call per by-name (`@inject name`)
    property;
  - one such call per by-type (`@inject` plus `@var Type`) property;
  - `injectParameters('@container')`;
  - `injectionCompleted()`;
  - then the original setup, in its original order.
- For definitions tagged `inject`, it moves one call per `inject*` method of the
  class to the front of the setup.
- At run time, the service side (`ServiceTrait`, used by `AService`, and
  `InjectableTrait`) guards the injection:
  - each property may be injected once, and only before completion;
  - `injectionCompleted()` sets the completion flag, then calls the completion hook;
  - the container parameters are kept, and `getParameter` looks them up along
    dot paths.

The Dafny project has one module per concern:

| module | file | what it holds |
|---|---|---|
| Wrappers | wrappers.dfy | `Option` |
| PhpArray | php_array.dfy | insertion-ordered PHP arrays as entry lists, with assignment `Put` |
| Params | params.dfy | parameter values, `explode`/`implode`, Nette `Arrays::get` |
| Planner | planner.dfy | annotations, the by-name and by-type planners (loop methods proved against `Plan`) |
| Guard | guard.dfy | the injection guard as a pure state machine, shared by both traits |
| ServiceTrait | service_trait.dfy | class `Service` (AService / ServiceTrait), its methods proved against `Guard` |
| InjectableTrait | injectable_trait.dfy | class `Injectable` (InjectableTrait), its methods proved against `Guard` |
| Reflection | reflection.dfy | the per-class reflection cache |
| Setup | setup.dfy | setup statements, the method mappings, the composed setup, the tag-pass rewrite |
| Extension | extension.dfy | `ServiceDefinition`, `ContainerBuilder`, and the compiler-extension methods |
| Scenario | scenario.dfy | one service followed end to end |

## Model

| member | source | states |
|---|---|---|
| PhpArray.Put | src/Service/InjectableTrait.php:113 | assigning to a key makes it map to the new value; a new key is appended at the end; the key set gains exactly that key; distinct keys stay distinct |
| PhpArray.PutExistingKey | src/Service/InjectableTrait.php:139 | assigning to a key already present keeps the key list and its order |
| PhpArray.PutOtherKeys | src/Service/InjectableTrait.php:139 | assigning to one key leaves every other key's value unchanged |
| Params.Explode | src/Service/AService.php:178 | `explode('.', $key)` gives at least one piece, and no piece contains the separator |
| Params.ImplodeExplode | src/Service/AService.php:178 | joining the exploded pieces with the separator restores the key |
| Params.ExplodeImplode | src/Service/AService.php:178 | exploding separator-free segments joined by the separator gives back the segments |
| Params.ExplodeSingle | src/Service/AService.php:178 | a key without a dot is a path of one segment |
| Params.Get | src/Service/AService.php:178 | Nette `Arrays::get`: follows the keys one by one and gives the default as soon as one is missing or meets a scalar; what that means is stated by GetIsWalk, GetOneKey, WalkAppend and GetDefaultAfterDeadEnd |
| Params.GetOneKey | src/Service/AService.php:178 | `Arrays::get` with a one-key path is an array access with the default |
| Params.GetIsWalk | src/Service/AService.php:176-179 | `Arrays::get` gives the value the path leads to, and the default exactly when it leads nowhere |
| Params.WalkAppend | src/Service/AService.php:178 | following path `p + q` means following `p`, then `q` from where `p` ends |
| Params.GetDefaultAfterDeadEnd | src/Service/AService.php:178 | once the path meets a scalar or a missing key, the default is returned whatever follows |
| Params.LookupFound | src/Service/AService.php:167-179 | in `{a: {b: {c: 5}}}`, `a.b.c` gives 5 |
| Params.LookupMissingKey | src/Service/AService.php:167-179 | in the same parameters, `a.x` gives the default |
| Params.LookupPastScalar | src/Service/AService.php:167-179 | in the same parameters, `a.b.c.d` gives the default |
| Planner.Plan | src/Service/InjectableTrait.php:107-117 | the array a planner loop builds: one assignment per property with a target, in declaration order; its meaning is stated by PlanIsSelection, PlanKeysDistinct and PlansDisjoint |
| Planner.GetInjectionByNameProperties | src/Service/InjectableTrait.php:105-118 | the loop's array is `Plan` with the by-name target: a non-empty string `@inject` maps the property to that service name (the same code is src/Service/AService.php:101-114) |
| Planner.GetInjectionByTypeProperties | src/Service/InjectableTrait.php:129-144 | the loop's array is `Plan` with the by-type target: `@inject` true or empty, plus a `@var`, maps the property to the expanded class (the same code is src/Service/AService.php:125-140) |
| Planner.PlanKeysDistinct | src/Service/InjectableTrait.php:113 | a planner array never holds a property name twice |
| Planner.SelectionKeysAreNames | src/Service/InjectableTrait.php:108-113 | every selected key is the name of a property of the class |
| Planner.PlanIsSelection | src/Service/InjectableTrait.php:105-118 | with distinct property names, the planner array is exactly the selected properties in declaration order, each with its target |
| Planner.SelectionMembers | src/Service/InjectableTrait.php:109-115 | a pair is selected if and only if some property of that name has that target |
| Planner.SelectionLength | src/Service/InjectableTrait.php:109-115 | the selection has one entry per property that has a target |
| Planner.ByNameExcludesByType | src/Service/InjectableTrait.php:109-141 | no property is both by-name and by-type |
| Planner.PlansDisjoint | src/Service/InjectableTrait.php:105-144 | with distinct property names, the by-name and by-type arrays share no key, so no property is injected twice |
| Guard.Check | src/Service/AService.php:75-91 | the guard passes if and only if the name is new and injection is not completed; a repeated name is reported as a duplicate; a new name after completion as late |
| Guard.Inject | src/Service/AService.php:75-91 | the injection guard with every property kept apart from the guard's own fields (the shape the source evidently intends); its outcomes are stated by InjectOutcome |
| Guard.InjectAsWritten | src/Service/AService.php:73-92 | the injection as written: a name that reaches one of the guard's own fields writes that field instead of a property; related to Inject by AsWrittenAwayFromFields and AsWrittenOnField |
| Guard.AsWrittenAwayFromFields | src/Service/AService.php:78 | for a name that is none of the guard's fields, the injection as written is the guard's injection |
| Guard.AsWrittenOnField | src/Service/AService.php:78-79 | a name that reaches the flag or the parameters field passes the guard and is recorded, but writes no property; it sets the flag, or replaces the parameters by the service |
| Guard.Complete | src/Service/AService.php:146-150 | `injectionCompleted()`: the flag is set before the hook runs; its effect over call sequences is stated by RunMonotone, CompletedIsFinal and CompleteTwiceRerunsHook |
| Guard.MessagesTellFailuresApart | src/Service/AService.php:82-89 | the two exception messages never coincide, and each identifies its property |
| Guard.Parameter | src/Service/AService.php:176-179 | a result exactly when the field holds an array (otherwise `Arrays::get` raises a TypeError); then what the dot path leads to, or the default; a key without a dot reads the stored parameter, or the default when absent |
| Guard.InjectOutcome | src/Service/InjectableTrait.php:74-96 | for the guard kept apart from its fields: all five outcomes (success, duplicate, late, unknown property under reflection, private subclass property under AService's scope), each if and only if its condition holds; a failure changes nothing; a success records exactly the new name and writes exactly its property |
| Guard.RunMonotone | src/Service/AService.php:73-164 | for the guard kept apart from its fields (which is the source's behaviour while no injected name is a guard field, by AsWrittenAwayFromFields), over any sequence of calls: recorded names only grow; an injected property keeps its first value; the flag is never reset; every hook run sees the flag set; recorded names always equal written properties |
| Guard.RunAsWrittenMonotone | src/Service/AService.php:73-164 | for the injection as written, over any sequence of calls: recorded names only grow; a written property keeps its value; the flag is never reset; every hook run sees the flag set; every written property is recorded |
| Guard.CompletedIsFinal | src/Service/AService.php:75-77 | after completion, no sequence of calls injects anything |
| Guard.SecondInjectionFails | src/Service/AService.php:75-84 | injecting the same property a second time fails as a duplicate and changes nothing |
| Guard.CompleteTwiceRerunsHook | src/Service/AService.php:146-150 | a second `injectionCompleted()` runs the hook again; without a hook, two calls only set the flag |
| ServiceTrait.Service.constructor | src/Service/AService.php:25-35 | a new instance has nothing injected, the flag unset and no parameters, and knows which properties its subclass declares private |
| ServiceTrait.Service.InjectService | src/Service/AService.php:73-92 | outcome and new state are those of the injection as written, writing in AService's scope: `injectionCompleted` and `parameters` reach the trait's own fields; a private subclass property raises an Error after the guard passes and changes nothing; any other name is written, as a dynamic property if undeclared |
| ServiceTrait.Service.InjectionCompleted | src/Service/AService.php:146-150 | sets the flag, then runs `startup()`, which sees it set |
| ServiceTrait.Service.Startup | src/Service/AService.php:156-158 | the default hook changes nothing but the record of its run |
| ServiceTrait.Service.InjectParameters | src/Service/AService.php:161-164 | replaces the stored parameters and nothing else |
| ServiceTrait.Service.GetParameter | src/Service/AService.php:176-179 | a result exactly when the parameters field holds an array; then what the dot path leads to among the stored parameters, else the default; a dotless key is a plain access |
| ServiceTrait.FlagNameCompletesInjection | src/Service/AService.php:78 | as written, injecting a property named `injectionCompleted` sets the completion flag and writes no property, so the next generated injection is refused as late |
| ServiceTrait.ParametersNameIsLost | src/Service/AService.php:78 | as written, injecting a property named `parameters` writes no property and puts the service in the parameters field, where getParameter fails; injectParameters then overwrites it |
| ServiceTrait.FieldNamesKeptApart | src/Service/AService.php:75-79 | with the guard kept apart from its fields, a property named `injectionCompleted` and a later one are both written and the flag stays unset |
| ServiceTrait.ParametersNameKeptApart | src/Service/AService.php:75-79 | with the guard kept apart from its fields, a property named `parameters` keeps its service after injectParameters, and getParameter reads the container's parameters |
| InjectableTrait.Injectable.constructor | src/Service/InjectableTrait.php:26-36 | a new instance has nothing injected, the flag unset and no parameters |
| InjectableTrait.Injectable.InjectService | src/Service/InjectableTrait.php:74-96 | outcome and new state are those of the injection as written, writing through reflection: `InjectableTrait_injectionCompleted` and `InjectableTrait_parameters` reach the trait's own fields; another name the reflection does not report fails after the guard checks and changes nothing; any other reported property is written |
| InjectableTrait.Injectable.InjectionCompleted | src/Service/InjectableTrait.php:150-158 | sets the flag, then runs `onInjectionCompleted` only when the class has one |
| InjectableTrait.Injectable.OnInjectionCompleted | src/Service/InjectableTrait.php:153-157 | the hook run is recorded with the flag it sees; nothing else changes |
| InjectableTrait.Injectable.InjectParameters | src/Service/InjectableTrait.php:161-164 | replaces the stored parameters and nothing else |
| InjectableTrait.Injectable.GetParameter | src/Service/InjectableTrait.php:176-179 | a result exactly when the parameters field holds an array; then what the dot path leads to among the stored parameters, else the default |
| Reflection.ReflectionCache.constructor | src/Service/InjectableTrait.php:41 | the cache starts empty |
| Reflection.ReflectionCache.GetReflection | src/Service/InjectableTrait.php:56-63 | the first call for a class files a fresh ClassType for it; later calls return that same object; entries are never replaced or removed (the same code is src/Service/AService.php:55-62) |
| Setup.Operation | src/InjectionCompilerExtension.php:47-61 | the interface mapping names each method itself; the trait mapping prefixes it with `InjectableTrait_` |
| Setup.MappingKeys | src/InjectionCompilerExtension.php:47-61 | both mappings are defined on exactly the five interface methods |
| Setup.OperationsDiffer | src/InjectionCompilerExtension.php:41-45 | the three generated calls name three different methods, in either mapping |
| Setup.Composed | src/InjectionCompilerExtension.php:250-276 | the setup injectToDefinition leaves; its layout is stated by ComposedLayout |
| Setup.ComposedLayout | src/InjectionCompilerExtension.php:250-276 | layout of the rewritten setup: N by-name calls, M by-type calls, one `injectParameters('@container')`, one `injectionCompleted()`, then the original statements unchanged and in order |
| Setup.IsInjectMethod | src/InjectionCompilerExtension.php:147 | `substr($name, 0, 6) === 'inject'`: the name is at least six characters long and starts with `inject` |
| Setup.GetInjectMethods | src/InjectionCompilerExtension.php:144-149 | a name is kept if and only if it is a method of the class starting with `inject` |
| Setup.GetInjectMethodsAppend | src/InjectionCompilerExtension.php:146 | the filter keeps the methods' order |
| Setup.GetInjectMethodsDistinct | src/InjectionCompilerExtension.php:146 | distinct method names give distinct inject methods |
| Setup.InjectMethodNames | src/InjectionCompilerExtension.php:41-45 | `injectService`, `injectParameters` and `injectionCompleted` count as inject methods, the two planner getters do not, and no `InjectableTrait_` name does |
| Setup.Without | src/InjectionCompilerExtension.php:127-131 | after the unsets, exactly the statements calling another method remain |
| Setup.LastWith | src/InjectionCompilerExtension.php:127-131 | the statement the inner loop ends on is the last one calling the method, or none when no statement calls it |
| Setup.Resolve | src/InjectionCompilerExtension.php:121-133 | the statement moved to the front calls the inject method |
| Setup.WithoutAll | src/InjectionCompilerExtension.php:126-134 | exactly the statements calling none of the inject methods |
| Setup.UpdateSetups | src/InjectionCompilerExtension.php:116-136 | the tag-pass rewrite, one outer round per inject method; its shape is stated by UpdateSetupsShape |
| Setup.UpdateSetupsShape | src/InjectionCompilerExtension.php:116-136 | with distinct method names, the tag pass yields: one statement per inject method, in reverse method order, each the last setup call to it (or a bare call); then every other statement in its original order |
| Setup.TagPassOnInjectableService | src/InjectionCompilerExtension.php:116-136 | on an `inject`-tagged AService subclass whose inject methods come in AService's declaration order (`injectService`, `injectionCompleted`, `injectParameters`, src/Service/AService.php:73-164), the rewrite of the generated setup with two by-name injections keeps only the second injection, and moves it last, after `injectionCompleted()` |
| Extension.ServiceDefinition.AddSetup | src/InjectionCompilerExtension.php:257-260 | `addSetup` appends one statement |
| Extension.ContainerBuilder.AddDefinition | src/InjectionCompilerExtension.php:169 | a new name adds a fresh empty definition of that class at the end; a name already taken is refused and nothing changes; names stay distinct |
| Extension.EndsWith | src/InjectionCompilerExtension.php:165 | `Strings::endsWith`: the string is at least as long as the suffix and ends with it |
| Extension.BackslashesToUnderscores | src/InjectionCompilerExtension.php:167 | `str_replace("\\", "_", $key)`; its properties are stated by AutoServiceName and AutoServiceNameClash |
| Extension.AutoServiceName | src/InjectionCompilerExtension.php:167 | `_auto.` followed by the class name, same length, no backslash, every other character kept |
| Extension.AutoServiceNameClash | src/InjectionCompilerExtension.php:167 | two classes get the same service name if and only if they differ only in `\` versus `_` |
| Extension.AutoServiceNamesCanClash | src/InjectionCompilerExtension.php:167-169 | `App\Mail_Service` and `App_Mail\Service` get the same name |
| Extension.Registrations | src/InjectionCompilerExtension.php:164-172 | the definitions the loop asks for, in index order; stated by RegistrationsMembers |
| Extension.RegistrationsMembers | src/InjectionCompilerExtension.php:164-172 | a name and class are asked for if and only if some indexed class of that name is registered (concrete, a service marker, name ending in `Service`) and the name is its `_auto.` name |
| Extension.LoadDefinitions | src/InjectionCompilerExtension.php:160-173 | appends, in index order, one definition per concrete service-marker class whose name ends in `Service`; stops at the first name already taken and reports it; earlier definitions are untouched |
| Extension.AddServiceCalls | src/InjectionCompilerExtension.php:256-261 | appends one `injectService` call per planner entry, in order |
| Extension.AddSetups | src/InjectionCompilerExtension.php:273-275 | appends the saved statements, in order |
| Extension.InjectToDefinition | src/InjectionCompilerExtension.php:250-276 | the new setup is the composed setup of the class's by-name and by-type plans over the old setup |
| Extension.InjectForServiceDefinition | src/InjectionCompilerExtension.php:234-242 | the interface mapping if the class implements IInjectableService, else the trait mapping if it uses InjectableTrait, else the setup is unchanged |
| Extension.UpdateDefinition | src/InjectionCompilerExtension.php:116-136 | the nested loops compute the tag-pass rewrite, and hence (with distinct method names) the shape of UpdateSetupsShape |
| Extension.BeforeCompile | src/InjectionCompilerExtension.php:90-113 | every definition gets the injection pass (for classes that exist), then the tag pass (for `inject`-tagged definitions with a truthy class); a definition with neither class nor factory stops the run, with the earlier ones already done |
| Scenario.WidgetPlans | src/Service/InjectableTrait.php:105-144 | for properties `@inject log`, `@inject @var Storage` and `@var string`: by-name is `logger => log` only, by-type is `store =>` the expanded class only |
| Scenario.WidgetSetup | src/InjectionCompilerExtension.php:250-276 | that class's rewritten setup is the two injections, then `injectParameters('@container')`, then `injectionCompleted()`, then its own call |
| Scenario.WidgetLifecycle | src/Service/AService.php:73-164 | running those calls injects both properties, stores the parameters, sets the flag and runs `startup()` once with the flag set; injecting again is refused as a duplicate |

## Left out

- `bootstrapTweak` only creates and registers the RobotLoader and drops Nette's
  own inject extension.
- `loadConfiguration` only fetches the static loader and hands its class index to
  `loadDefinitions`, which is modelled as `LoadDefinitions`. The index is an input
  of `LoadDefinitions`.
- Reflection is replaced by what it reports, given as inputs:
  - `ClassInfo`: interface implemented, trait used, properties in declaration
    order, `get_class_methods`;
  - `IndexedClass`: abstract or not, service marker or not.
- `class_exists` is membership in the `classes` map.
- `callStaticReflectionNoParams`: the extension's by-name/by-type getters call these
  static planners through reflection. They are modelled by calling the planner
  directly, which assumes a class does not override them.
- `AnnotationsParser::expandClassName` is the `Expander` parameter. Nette's
  namespace and `use` resolution is not modelled.
- Annotation values other than `true` or a string (numbers, arrays) are not
  modelled.
- PHP turns numeric-string array keys (such as a property named `"1"`) into
  integers. The model keeps them as strings.
- `getPropertiesCache` (protected properties by reflection) is not modelled: no
  other core code calls it.
- The reflection cache is modelled on its own. `InjectService` does not go through
  it.
- `Container::getParameters()` is the `containerParameters` map input.
- The hook bodies (`startup`, `onInjectionCompleted`) are the user's code. The
  model records only that each ran and the flag it saw.
- `ContainerBuilder::addDefinition` is Nette's code. Its model follows Nette: a
  duplicate name is refused, here as an error outcome instead of an exception.
- `get_class_methods` on a class that does not exist returns null in PHP, with a
  warning. The model gives no methods. Its visibility filtering (the calling
  scope) is not modelled: the class's method list is an input.
- Setup statement entities are method names as strings. Other entity kinds
  (callables, references) and argument values other than strings are not modelled.
- Extension.BeforeCompile: the `getTag('inject')` truthiness is the `tags` set of
  truthy tags. A class name `"0"` is treated as falsy, following PHP.
- Extension.BeforeCompile: a definition with neither a class nor a factory makes
  PHP call a method on null. This is modelled as an early return with that
  definition's index.
- Setup.UpdateSetupsShape: requires distinct method names, which
  `get_class_methods` always gives. The general case is stated by
  `UpdateDefinition`'s first `ensures` over `UpdateSetups`.
- Planner.PlanIsSelection: requires distinct property names, which PHP classes
  always have.
- ServiceTrait.Service.InjectService: a property named `alreadyInjected` is not
  modelled. In PHP the service object replaces the trait's record of injected
  names, and the next line fails with "Cannot use object as array"; what follows
  depends on the PHP version. The model treats the name as an ordinary property.
- InjectableTrait.Injectable.InjectService: a property named
  `InjectableTrait_alreadyInjected` is not modelled, for the same reason as
  `alreadyInjected` in ServiceTrait. The model treats the name as an ordinary
  property.
- ServiceTrait.Service.GetParameter and InjectableTrait.Injectable.GetParameter:
  PHP's default argument is not modelled. `getParameter($key)` is
  `GetParameter(key, Null)`.
- `Arrays::get` is taken to declare its first parameter as `array`, so a service
  object in the parameters field raises a TypeError. The model gives `None` there.
  The exception itself is not modelled.
- The PHP Errors and TypeErrors are failure values (`PrivateProperty`, `None`).
  Unwinding the caller is not modelled.

## Findings

| source | as written | input that shows it | evidently intended | confidence | as-written member | corrected member |
|---|---|---|---|---|---|---|
| src/Service/AService.php:78 | `$this->{$propertyName} = $service` runs in AService's scope, so the name `injectionCompleted` reaches the trait's private completion flag | `class W extends AService { /** @inject a */ protected $injectionCompleted; /** @inject log */ protected $logger; }`: injecting `injectionCompleted` sets the flag, and the injection of `logger` is then refused as late | the subclass property is written and the guard's flag stays unset until `injectionCompleted()` | not executed | ServiceTrait.FlagNameCompletesInjection | ServiceTrait.FieldNamesKeptApart |
| src/Service/AService.php:78 | the same write with the name `parameters` reaches the trait's private parameters field | `class W extends AService { /** @inject config */ protected $parameters; }`: the service lands in the parameters field, getParameter fails on it, and injectParameters then overwrites it, so the property is never set | the subclass property holds the service, and getParameter reads the container's parameters | not executed | ServiceTrait.ParametersNameIsLost | ServiceTrait.ParametersNameKeptApart |

