/**
 * Setup statements of a service definition, and the two rewrites the compiler
 * extension applies to them: prepending the generated injection calls, and the
 * "inject"-tag pass that moves a class's inject* methods to the front.
 */
module Setup {
  import opened Wrappers
  import opened PhpArray

  /** A Nette DI Statement: the method to call and its arguments, as written. */
  datatype Statement = Statement(entity: string, arguments: seq<string>)

  /** The method names of IInjectableService, the keys of both method mappings. */
  const InjectServiceMethod: string := "injectService"
  const InjectParametersMethod: string := "injectParameters"
  const GetInjectionPropsMethod: string := "getInjectionByNameProperties"
  const GetInjectionPropsTypeMethod: string := "getInjectionByTypeProperties"
  const InjectionCompletedMethod: string := "injectionCompleted"

  const MethodKeys: seq<string> :=
    [InjectServiceMethod, InjectParametersMethod, GetInjectionPropsMethod, GetInjectionPropsTypeMethod, InjectionCompletedMethod]

  /** The prefix of InjectableTrait's method names. */
  const TraitPrefix: string := "InjectableTrait_"

  /** METHOD_MAPPING_INTERFACE: every key names itself. */
  const MethodMappingInterface: map<string, string> := map[
    InjectServiceMethod := InjectServiceMethod,
    InjectParametersMethod := InjectParametersMethod,
    GetInjectionPropsMethod := GetInjectionPropsMethod,
    GetInjectionPropsTypeMethod := GetInjectionPropsTypeMethod,
    InjectionCompletedMethod := InjectionCompletedMethod]

  /** METHOD_MAPPING_TRAIT: every key prefixed with "InjectableTrait_". */
  const MethodMappingTrait: map<string, string> := map[
    InjectServiceMethod := TraitPrefix + InjectServiceMethod,
    InjectParametersMethod := TraitPrefix + InjectParametersMethod,
    GetInjectionPropsMethod := TraitPrefix + GetInjectionPropsMethod,
    GetInjectionPropsTypeMethod := TraitPrefix + GetInjectionPropsTypeMethod,
    InjectionCompletedMethod := TraitPrefix + InjectionCompletedMethod]

  /** How a class offers injection: implementing IInjectableService, or using InjectableTrait. */
  datatype Capability = Interface | Trait

  /** The method mapping injectForServiceDefinition hands to injectToDefinition. */
  function Mapping(c: Capability): map<string, string>
  {
    match c
    case Interface => MethodMappingInterface
    case Trait => MethodMappingTrait
  }

  /** The method a capability calls for one of the interface's method names. */
  function Operation(c: Capability, key: string): (r: string)
    requires key in MethodKeys
    ensures c == Interface ==> r == key
    ensures c == Trait ==> r == TraitPrefix + key
  {
    Mapping(c)[key]
  }

  /** Both mappings are defined on exactly the five interface method names. */
  lemma MappingKeys(c: Capability)
    ensures forall k :: k in Mapping(c) <==> k in MethodKeys
  {
  }

  /** One `addSetup($injectService, [$property, '@' . $target])` per entry, in order. */
  function ServiceCalls(injectService: string, plan: Entries): seq<Statement>
  {
    seq(|plan|, i requires 0 <= i < |plan| => Statement(injectService, [plan[i].0, "@" + plan[i].1]))
  }

  /** Extending a plan by one entry extends its calls by one. */
  lemma ServiceCallsSnoc(injectService: string, plan: Entries, i: nat)
    requires i < |plan|
    ensures ServiceCalls(injectService, plan[..i + 1])
            == ServiceCalls(injectService, plan[..i]) + [Statement(injectService, [plan[i].0, "@" + plan[i].1])]
  {
  }

  /**
   * What injectToDefinition leaves as the setup: the by-name injections, the by-type
   * injections, injectParameters('@container'), injectionCompleted(), then every
   * original setup statement as it was.
   */
  function Composed(c: Capability, byName: Entries, byType: Entries, original: seq<Statement>): seq<Statement>
  {
    ServiceCalls(Operation(c, InjectServiceMethod), byName)
    + ServiceCalls(Operation(c, InjectServiceMethod), byType)
    + [Statement(Operation(c, InjectParametersMethod), ["@container"]),
       Statement(Operation(c, InjectionCompletedMethod), [])]
    + original
  }

  /**
   * The layout of a composed setup, position by position: N + M injections, then
   * exactly one injectParameters and one injectionCompleted, then the originals
   * unchanged and in order.
   */
  lemma ComposedLayout(c: Capability, byName: Entries, byType: Entries, original: seq<Statement>)
    ensures var r := Composed(c, byName, byType, original);
            var n, m := |byName|, |byType|;
            && |r| == n + m + 2 + |original|
            && (forall i :: 0 <= i < n ==> r[i] == Statement(Operation(c, InjectServiceMethod), [byName[i].0, "@" + byName[i].1]))
            && (forall i :: 0 <= i < m ==> r[n + i] == Statement(Operation(c, InjectServiceMethod), [byType[i].0, "@" + byType[i].1]))
            && r[n + m] == Statement(Operation(c, InjectParametersMethod), ["@container"])
            && r[n + m + 1] == Statement(Operation(c, InjectionCompletedMethod), [])
            && r[n + m + 2..] == original
  {
    var r := Composed(c, byName, byType, original);
    var n, m := |byName|, |byType|;
    var a := ServiceCalls(Operation(c, InjectServiceMethod), byName);
    var b := ServiceCalls(Operation(c, InjectServiceMethod), byType);
    var tail := [Statement(Operation(c, InjectParametersMethod), ["@container"]),
                 Statement(Operation(c, InjectionCompletedMethod), [])];
    var head := a + b + tail;
    assert r == head + original;
    assert |head| == n + m + 2;
    forall i | 0 <= i < n ensures r[i] == a[i] {
      assert r[i] == head[i] == (a + b)[i];
    }
    forall i | 0 <= i < m ensures r[n + i] == b[i] {
      assert r[n + i] == head[n + i] == (a + b)[n + i];
    }
    assert r[n + m] == head[n + m] == tail[0];
    assert r[n + m + 1] == head[n + m + 1] == tail[1];
    assert r[n + m + 2..] == original;
  }

  /** The injection-call operation is never injectParameters or injectionCompleted, in either mapping. */
  lemma OperationsDiffer(c: Capability)
    ensures Operation(c, InjectServiceMethod) != Operation(c, InjectParametersMethod)
    ensures Operation(c, InjectServiceMethod) != Operation(c, InjectionCompletedMethod)
    ensures Operation(c, InjectParametersMethod) != Operation(c, InjectionCompletedMethod)
  {
    assert InjectServiceMethod[6] != InjectParametersMethod[6];
    assert InjectServiceMethod[6] != InjectionCompletedMethod[6];
    assert InjectParametersMethod[6] != InjectionCompletedMethod[6];
    if c == Trait {
      var p := |TraitPrefix|;
      assert Operation(c, InjectServiceMethod)[p + 6] == InjectServiceMethod[6];
      assert Operation(c, InjectParametersMethod)[p + 6] == InjectParametersMethod[6];
      assert Operation(c, InjectionCompletedMethod)[p + 6] == InjectionCompletedMethod[6];
    }
  }

  /** `substr($name, 0, 6) === 'inject'`. */
  predicate IsInjectMethod(name: string)
  {
    |name| >= 6 && name[..6] == "inject"
  }

  /** getInjectMethods: the class's method names that start with "inject", in order. */
  function GetInjectMethods(methods: seq<string>): (r: seq<string>)
    ensures forall x :: x in r <==> x in methods && IsInjectMethod(x)
    ensures |r| <= |methods|
  {
    if methods == [] then []
    else
      var init := GetInjectMethods(methods[..|methods| - 1]);
      var last := methods[|methods| - 1];
      assert methods == methods[..|methods| - 1] + [last];
      if IsInjectMethod(last) then init + [last] else init
  }

  /** getInjectMethods keeps order: it filters each part of a list separately. */
  lemma {:induction false} GetInjectMethodsAppend(a: seq<string>, b: seq<string>)
    ensures GetInjectMethods(a + b) == GetInjectMethods(a) + GetInjectMethods(b)
    decreases |b|
  {
    if b == [] {
      assert a + b == a;
    } else {
      var n := |b| - 1;
      assert (a + b)[..|a + b| - 1] == a + b[..n];
      GetInjectMethodsAppend(a, b[..n]);
    }
  }

  /** Distinct method names give distinct inject methods. */
  lemma {:induction false} GetInjectMethodsDistinct(methods: seq<string>)
    requires Distinct(methods)
    ensures Distinct(GetInjectMethods(methods))
    decreases |methods|
  {
    if methods != [] {
      var n := |methods| - 1;
      var init := methods[..n];
      assert Distinct(init);
      GetInjectMethodsDistinct(init);
      var r := GetInjectMethods(init);
      if IsInjectMethod(methods[n]) {
        assert methods[n] !in init;
        assert methods[n] !in r;
        forall i, j | 0 <= i < j < |r + [methods[n]]| ensures (r + [methods[n]])[i] != (r + [methods[n]])[j] {
          if j == |r| { assert (r + [methods[n]])[i] in r; }
        }
      }
    }
  }

  /**
   * All five IInjectableService methods start with "inject" except the two planner
   * getters, and none of InjectableTrait's prefixed names does.
   */
  lemma InjectMethodNames()
    ensures IsInjectMethod(InjectServiceMethod) && IsInjectMethod(InjectParametersMethod) && IsInjectMethod(InjectionCompletedMethod)
    ensures !IsInjectMethod(GetInjectionPropsMethod) && !IsInjectMethod(GetInjectionPropsTypeMethod)
    ensures forall k :: k in MethodKeys ==> !IsInjectMethod(TraitPrefix + k)
  {
    assert GetInjectionPropsMethod[..6][0] == 'g';
    assert GetInjectionPropsTypeMethod[..6][0] == 'g';
    forall k | k in MethodKeys ensures !IsInjectMethod(TraitPrefix + k) {
      assert (TraitPrefix + k)[0] == 'I';
    }
  }

  /** The setups whose entity is not `e`, in their original order (the `unset` calls). */
  function Without(setups: seq<Statement>, e: string): (r: seq<Statement>)
    ensures forall x :: x in r <==> x in setups && x.entity != e
    ensures |r| <= |setups|
  {
    if setups == [] then []
    else
      var init := Without(setups[..|setups| - 1], e);
      var last := setups[|setups| - 1];
      assert setups == setups[..|setups| - 1] + [last];
      if last.entity == e then init else init + [last]
  }

  /** The last setup whose entity is `e`: the one the inner loop leaves in `$inject`. */
  function LastWith(setups: seq<Statement>, e: string): (r: Option<Statement>)
    ensures r.None? <==> forall i :: 0 <= i < |setups| ==> setups[i].entity != e
    ensures r.Some? ==> r.value.entity == e &&
                        exists i :: 0 <= i < |setups| && setups[i] == r.value &&
                                    forall j :: i < j < |setups| ==> setups[j].entity != e
  {
    if setups == [] then None
    else
      var n := |setups| - 1;
      if setups[n].entity == e then Some(setups[n])
      else
        var init := setups[..n];
        var r := LastWith(init, e);
        assert forall i :: 0 <= i < n ==> init[i] == setups[i];
        r
  }

  /** The statement the tag pass puts first for method `m`: the author's last `m` setup, or `m()`. */
  function Resolve(setups: seq<Statement>, m: string): (r: Statement)
    ensures r.entity == m
  {
    LastWith(setups, m).GetOr(Statement(m, []))
  }

  /** One round of updateDefinition's outer loop for method `m`. */
  function Absorb(setups: seq<Statement>, m: string): seq<Statement>
  {
    [Resolve(setups, m)] + Without(setups, m)
  }

  /** What updateDefinition leaves as the setup after handling `methods` in order. */
  function UpdateSetups(setups: seq<Statement>, methods: seq<string>): seq<Statement>
  {
    if methods == [] then setups
    else Absorb(UpdateSetups(setups, methods[..|methods| - 1]), methods[|methods| - 1])
  }

  /** The setups whose entity is none of `methods`, in their original order. */
  function WithoutAll(setups: seq<Statement>, methods: seq<string>): (r: seq<Statement>)
    ensures forall x :: x in r <==> x in setups && x.entity !in methods
  {
    if setups == [] then []
    else
      var init := WithoutAll(setups[..|setups| - 1], methods);
      var last := setups[|setups| - 1];
      assert setups == setups[..|setups| - 1] + [last];
      if last.entity in methods then init else init + [last]
  }

  /** The resolved statements for `methods`, last method first: the order array_unshift leaves them in. */
  function InjectBlock(setups: seq<Statement>, methods: seq<string>): seq<Statement>
  {
    seq(|methods|, i requires 0 <= i < |methods| => Resolve(setups, methods[|methods| - 1 - i]))
  }

  lemma {:induction false} WithoutAppend(a: seq<Statement>, b: seq<Statement>, e: string)
    ensures Without(a + b, e) == Without(a, e) + Without(b, e)
    decreases |b|
  {
    if b == [] {
      assert a + b == a;
    } else {
      var n := |b| - 1;
      assert (a + b)[..|a + b| - 1] == a + b[..n];
      WithoutAppend(a, b[..n], e);
    }
  }

  lemma {:induction false} WithoutNothing(s: seq<Statement>, e: string)
    requires forall i :: 0 <= i < |s| ==> s[i].entity != e
    ensures Without(s, e) == s
    decreases |s|
  {
    if s != [] {
      var n := |s| - 1;
      WithoutNothing(s[..n], e);
      assert s[..n] + [s[n]] == s;
    }
  }

  lemma {:induction false} WithoutAllSnoc(s: seq<Statement>, methods: seq<string>, m: string)
    ensures Without(WithoutAll(s, methods), m) == WithoutAll(s, methods + [m])
    decreases |s|
  {
    if s != [] {
      var n := |s| - 1;
      WithoutAllSnoc(s[..n], methods, m);
      var init := WithoutAll(s[..n], methods);
      if s[n].entity !in methods {
        assert Without(init + [s[n]], m)[..|Without(init + [s[n]], m)|] == Without(init + [s[n]], m);
        assert (init + [s[n]])[..|init + [s[n]]| - 1] == init;
      }
    }
  }

  lemma {:induction false} LastWithAppend(a: seq<Statement>, b: seq<Statement>, e: string)
    ensures LastWith(a + b, e) == if LastWith(b, e).Some? then LastWith(b, e) else LastWith(a, e)
    decreases |b|
  {
    if b == [] {
      assert a + b == a;
    } else {
      var n := |b| - 1;
      assert (a + b)[..|a + b| - 1] == a + b[..n];
      LastWithAppend(a, b[..n], e);
    }
  }

  lemma {:induction false} LastWithSkipsOthers(s: seq<Statement>, methods: seq<string>, m: string)
    requires m !in methods
    ensures LastWith(WithoutAll(s, methods), m) == LastWith(s, m)
    decreases |s|
  {
    if s != [] {
      var n := |s| - 1;
      LastWithSkipsOthers(s[..n], methods, m);
      var init := WithoutAll(s[..n], methods);
      if s[n].entity !in methods {
        assert (init + [s[n]])[..|init + [s[n]]| - 1] == init;
      }
    }
  }

  lemma InjectBlockSnoc(setups: seq<Statement>, init: seq<string>, m: string)
    ensures InjectBlock(setups, init + [m]) == [Resolve(setups, m)] + InjectBlock(setups, init)
  {
    var a, b := InjectBlock(setups, init + [m]), [Resolve(setups, m)] + InjectBlock(setups, init);
    assert |a| == |b|;
    forall i | 0 <= i < |a| ensures a[i] == b[i] {
      if i > 0 {
        assert (init + [m])[|init| - i] == init[|init| - 1 - (i - 1)];
      }
    }
  }

  /** Every statement of an inject block calls one of the methods. */
  lemma InjectBlockEntities(setups: seq<Statement>, methods: seq<string>, m: string)
    requires m !in methods
    ensures forall i :: 0 <= i < |InjectBlock(setups, methods)| ==> InjectBlock(setups, methods)[i].entity != m
  {
    var block := InjectBlock(setups, methods);
    forall i | 0 <= i < |block| ensures block[i].entity != m {
      assert block[i] == Resolve(setups, methods[|methods| - 1 - i]);
    }
  }

  /**
   * With distinct method names (get_class_methods lists each once), the tag pass
   * leaves one statement per inject method, in reverse method order, each the
   * author's last setup for that method (arguments as written) or a bare call,
   * followed by every other setup in its original order.
   */
  lemma {:induction false} UpdateSetupsShape(setups: seq<Statement>, methods: seq<string>)
    requires Distinct(methods)
    ensures UpdateSetups(setups, methods) == InjectBlock(setups, methods) + WithoutAll(setups, methods)
    decreases |methods|
  {
    if methods == [] {
      WithoutAllNone(setups);
    } else {
      var n := |methods| - 1;
      var init, m := methods[..n], methods[n];
      assert methods == init + [m];
      assert Distinct(init) by {
        forall i, j | 0 <= i < j < |init| ensures init[i] != init[j] {
          assert init[i] == methods[i] && init[j] == methods[j];
        }
      }
      assert m !in init by {
        forall i | 0 <= i < n ensures init[i] != m {
          assert init[i] == methods[i];
        }
      }
      UpdateSetupsShape(setups, init);
      assert UpdateSetups(setups, methods) == Absorb(UpdateSetups(setups, init), m);
      AbsorbStep(setups, init, m);
      InjectBlockSnoc(setups, init, m);
    }
  }

  /** One outer round on a setup already in shape for `init` puts it in shape for `init + [m]`. */
  lemma AbsorbStep(setups: seq<Statement>, init: seq<string>, m: string)
    requires m !in init
    ensures Absorb(InjectBlock(setups, init) + WithoutAll(setups, init), m)
            == [Resolve(setups, m)] + InjectBlock(setups, init) + WithoutAll(setups, init + [m])
  {
    var block, rest := InjectBlock(setups, init), WithoutAll(setups, init);
    InjectBlockEntities(setups, init, m);
    assert Without(block + rest, m) == block + WithoutAll(setups, init + [m]) by {
      WithoutAppend(block, rest, m);
      WithoutNothing(block, m);
      WithoutAllSnoc(setups, init, m);
    }
    assert LastWith(block + rest, m) == LastWith(setups, m) by {
      LastWithAppend(block, rest, m);
      assert LastWith(block, m).None?;
      LastWithSkipsOthers(setups, init, m);
    }
  }

  lemma {:induction false} WithoutAllNone(s: seq<Statement>)
    ensures WithoutAll(s, []) == s
    decreases |s|
  {
    if s != [] {
      WithoutAllNone(s[..|s| - 1]);
      assert s[..|s| - 1] + [s[|s| - 1]] == s;
    }
  }

  /** The generated setup for two by-name injections and nothing else. */
  lemma ComposedTwo(a: (string, string), b: (string, string))
    ensures Composed(Interface, [a, b], [], [])
            == [Statement(InjectServiceMethod, [a.0, "@" + a.1]), Statement(InjectServiceMethod, [b.0, "@" + b.1]),
                Statement(InjectParametersMethod, ["@container"]), Statement(InjectionCompletedMethod, [])]
  {
    var calls := ServiceCalls(InjectServiceMethod, [a, b]);
    assert |calls| == 2 && calls[0] == Statement(InjectServiceMethod, [a.0, "@" + a.1]);
    assert ServiceCalls(InjectServiceMethod, []) == [];
  }

  /** `LastWith` on a setup of four statements, the last three of which call three different methods. */
  lemma LastWithFour(s0: Statement, s1: Statement, s2: Statement, s3: Statement)
    requires s1.entity != s2.entity && s1.entity != s3.entity && s2.entity != s3.entity
    ensures LastWith([s0, s1, s2, s3], s1.entity) == Some(s1)
    ensures LastWith([s0, s1, s2, s3], s2.entity) == Some(s2)
    ensures LastWith([s0, s1, s2, s3], s3.entity) == Some(s3)
  {
    var t, u, v := [s0, s1, s2, s3], [s0, s1, s2], [s0, s1];
    assert t[..3] == u && u[..2] == v;
    assert LastWith(t, s1.entity) == LastWith(u, s1.entity) == LastWith(v, s1.entity);
    assert LastWith(t, s2.entity) == LastWith(u, s2.entity);
  }

  /**
   * The tag pass over four statements, the first two calling one method and the
   * last three calling three different methods, when the class lists those methods
   * in the order first, last, third: each method's last call is kept, last listed
   * method first.
   */
  lemma UpdateFour(s0: Statement, s1: Statement, s2: Statement, s3: Statement)
    requires s0.entity == s1.entity
    requires s1.entity != s2.entity && s1.entity != s3.entity && s2.entity != s3.entity
    ensures UpdateSetups([s0, s1, s2, s3], [s1.entity, s3.entity, s2.entity]) == [s2, s3, s1]
  {
    var setups, methods := [s0, s1, s2, s3], [s1.entity, s3.entity, s2.entity];
    LastWithFour(s0, s1, s2, s3);
    assert Distinct(methods);
    UpdateSetupsShape(setups, methods);
    assert Resolve(setups, s1.entity) == s1 && Resolve(setups, s2.entity) == s2 && Resolve(setups, s3.entity) == s3;
    var block := InjectBlock(setups, methods);
    assert |block| == 3 && block[0] == s2 && block[1] == s3 && block[2] == s1;
    assert block == [s2, s3, s1];
    assert methods[0] == s0.entity == s1.entity && methods[1] == s3.entity && methods[2] == s2.entity;
    WithoutAllCovered(setups, methods);
  }

  /** Nothing is left of a setup whose every statement calls one of `methods`. */
  lemma WithoutAllCovered(setups: seq<Statement>, methods: seq<string>)
    requires forall x :: x in setups ==> x.entity in methods
    ensures WithoutAll(setups, methods) == []
  {
  }

  /**
   * The tag pass on an `inject`-tagged AService subclass, whose inject methods are
   * listed in AService's declaration order (injectService, injectionCompleted,
   * injectParameters): of the generated setup with two by-name injections, only the
   * second injection is left, and it now comes last, after injectionCompleted().
   */
  lemma TagPassOnInjectableService(a: (string, string), b: (string, string))
    ensures UpdateSetups(Composed(Interface, [a, b], [], []), [InjectServiceMethod, InjectionCompletedMethod, InjectParametersMethod])
            == [Statement(InjectParametersMethod, ["@container"]),
                Statement(InjectionCompletedMethod, []),
                Statement(InjectServiceMethod, [b.0, "@" + b.1])]
  {
    ComposedTwo(a, b);
    OperationsDiffer(Interface);
    UpdateFour(Statement(InjectServiceMethod, [a.0, "@" + a.1]), Statement(InjectServiceMethod, [b.0, "@" + b.1]),
               Statement(InjectParametersMethod, ["@container"]), Statement(InjectionCompletedMethod, []));
  }
}
