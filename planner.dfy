/**
 * The injection planner: from a class's properties, in declaration order, the
 * by-name map (property => service name) and the by-type map (property => class).
 * The code is the same in ServiceTrait and InjectableTrait.
 */
module Planner {
  import opened Wrappers
  import opened PhpArray

  /** AService::INJECT_SERVICE_ANNOTATION and AService::TYPE_ANNOTATION. */
  const InjectServiceAnnotation: string := "inject"
  const TypeAnnotation: string := "var"

  /** What the annotation parser reports for one annotation: true for a bare `@inject`, else its text. */
  datatype Annotation = True | Text(text: string)

  /** One property as reflection reports it: its name, its declaring class and its parsed annotations. */
  datatype Property = Property(name: string, declaringClass: string, annotations: map<string, Annotation>)

  /**
   * `AnnotationsParser::expandClassName($type, $declaringClass)`: turns the `@var`
   * annotation into a fully-qualified class name; a parameter of the model.
   */
  type Expander = (Annotation, string) -> string

  /** The `@inject` value is a non-empty string. */
  predicate IsByName(p: Property)
  {
    && InjectServiceAnnotation in p.annotations
    && p.annotations[InjectServiceAnnotation].Text?
    && |p.annotations[InjectServiceAnnotation].text| > 0
  }

  /** The `@inject` value is true or the empty string, and the property has a `@var`. */
  predicate IsByType(p: Property)
  {
    && InjectServiceAnnotation in p.annotations
    && (p.annotations[InjectServiceAnnotation] == True || p.annotations[InjectServiceAnnotation] == Text(""))
    && TypeAnnotation in p.annotations
  }

  /** The service name a by-name property is injected with. */
  function ByNameTarget(p: Property): Option<string>
  {
    if IsByName(p) then Some(p.annotations[InjectServiceAnnotation].text) else None
  }

  /** The expanded class a by-type property is injected with. */
  function ByTypeTarget(expand: Expander, p: Property): Option<string>
  {
    if IsByType(p) then Some(expand(p.annotations[TypeAnnotation], p.declaringClass)) else None
  }

  /** ByTypeTarget for one expander, as a function of the property alone. */
  function TypeTargets(expand: Expander): Property -> Option<string>
  {
    p => ByTypeTarget(expand, p)
  }

  /**
   * The array the planner loop builds: for each property, in order, that has a
   * target, the assignment `$injectionProperties[$property->name] = target`.
   */
  function Plan(properties: seq<Property>, target: Property -> Option<string>): Entries
  {
    if properties == [] then []
    else
      var before := Plan(properties[..|properties| - 1], target);
      var p := properties[|properties| - 1];
      match target(p)
      case None => before
      case Some(t) => Put(before, p.name, t)
  }

  /** The selected properties paired with their targets, in declaration order. */
  function Selection(properties: seq<Property>, target: Property -> Option<string>): Entries
  {
    if properties == [] then []
    else
      var before := Selection(properties[..|properties| - 1], target);
      var p := properties[|properties| - 1];
      match target(p)
      case None => before
      case Some(t) => before + [(p.name, t)]
  }

  /** The property names, in declaration order. */
  function PropertyNames(properties: seq<Property>): seq<string>
  {
    seq(|properties|, i requires 0 <= i < |properties| => properties[i].name)
  }

  /** The planner never yields a key twice. */
  lemma {:induction false} PlanKeysDistinct(properties: seq<Property>, target: Property -> Option<string>)
    ensures Distinct(Keys(Plan(properties, target)))
    decreases |properties|
  {
    if properties != [] {
      PlanKeysDistinct(properties[..|properties| - 1], target);
    }
  }

  /** Every selected key is the name of some property. */
  lemma {:induction false} SelectionKeysAreNames(properties: seq<Property>, target: Property -> Option<string>)
    ensures forall k :: k in Keys(Selection(properties, target)) ==> k in PropertyNames(properties)
    decreases |properties|
  {
    if properties != [] {
      var init := properties[..|properties| - 1];
      SelectionKeysAreNames(init, target);
      forall k | k in PropertyNames(init) ensures k in PropertyNames(properties) {
        var i :| 0 <= i < |init| && PropertyNames(init)[i] == k;
        assert PropertyNames(properties)[i] == k;
      }
      var before := Selection(init, target);
      var p := properties[|properties| - 1];
      assert PropertyNames(properties)[|properties| - 1] == p.name;
      if target(p).Some? {
        var t := target(p).value;
        forall k | k in Keys(before + [(p.name, t)]) ensures k in PropertyNames(properties) {
          var i :| 0 <= i < |before + [(p.name, t)]| && Keys(before + [(p.name, t)])[i] == k;
          if i < |before| { assert Keys(before)[i] == k; }
        }
      }
    }
  }

  /**
   * With distinct property names (PHP classes have them), the planner's array is
   * exactly the selection: one entry per selected property, in declaration order.
   */
  lemma {:induction false} PlanIsSelection(properties: seq<Property>, target: Property -> Option<string>)
    requires Distinct(PropertyNames(properties))
    ensures Plan(properties, target) == Selection(properties, target)
    decreases |properties|
  {
    if properties != [] {
      var n := |properties| - 1;
      var init := properties[..n];
      assert PropertyNames(init) == PropertyNames(properties)[..n];
      assert Distinct(PropertyNames(init));
      PlanIsSelection(init, target);
      var p := properties[n];
      if target(p).Some? {
        SelectionKeysAreNames(init, target);
        assert p.name !in PropertyNames(init) by {
          forall i | 0 <= i < n ensures PropertyNames(init)[i] != p.name {
            assert PropertyNames(properties)[i] == PropertyNames(init)[i];
            assert PropertyNames(properties)[n] == p.name;
          }
        }
      }
    }
  }

  /** A pair is selected exactly when some property of that name has that target. */
  lemma {:induction false} SelectionMembers(properties: seq<Property>, target: Property -> Option<string>, k: string, v: string)
    ensures (k, v) in Selection(properties, target) <==>
            exists i :: 0 <= i < |properties| && properties[i].name == k && target(properties[i]) == Some(v)
    decreases |properties|
  {
    if properties != [] {
      var n := |properties| - 1;
      var init := properties[..n];
      SelectionMembers(init, target, k, v);
      if exists i :: 0 <= i < n && init[i].name == k && target(init[i]) == Some(v) {
        var i :| 0 <= i < n && init[i].name == k && target(init[i]) == Some(v);
        assert properties[i] == init[i];
      }
      if (exists i :: 0 <= i < |properties| && properties[i].name == k && target(properties[i]) == Some(v)) {
        var i :| 0 <= i < |properties| && properties[i].name == k && target(properties[i]) == Some(v);
        if i < n { assert init[i] == properties[i]; }
      }
    }
  }

  /** How many of the properties have a target. */
  function CountTargets(properties: seq<Property>, target: Property -> Option<string>): nat
  {
    if properties == [] then 0
    else CountTargets(properties[..|properties| - 1], target) + (if target(properties[|properties| - 1]).Some? then 1 else 0)
  }

  /** The selection has one entry per property with a target. */
  lemma {:induction false} SelectionLength(properties: seq<Property>, target: Property -> Option<string>)
    ensures |Selection(properties, target)| == CountTargets(properties, target)
    decreases |properties|
  {
    if properties != [] {
      SelectionLength(properties[..|properties| - 1], target);
    }
  }

  /** No property is both injected by name and injected by type. */
  lemma ByNameExcludesByType(p: Property, expand: Expander)
    ensures ByNameTarget(p).Some? ==> ByTypeTarget(expand, p).None?
    ensures ByTypeTarget(expand, p).Some? ==> ByNameTarget(p).None?
  {
  }

  /**
   * With distinct property names, the by-name and the by-type arrays share no key,
   * so no property is injected twice.
   */
  lemma PlansDisjoint(properties: seq<Property>, expand: Expander, k: string)
    requires Distinct(PropertyNames(properties))
    ensures !(k in Keys(Plan(properties, ByNameTarget)) && k in Keys(Plan(properties, TypeTargets(expand))))
  {
    var byType := TypeTargets(expand);
    PlanIsSelection(properties, ByNameTarget);
    PlanIsSelection(properties, byType);
    var a := Selection(properties, ByNameTarget);
    var b := Selection(properties, byType);
    if k in Keys(a) && k in Keys(b) {
      var i :| 0 <= i < |a| && Keys(a)[i] == k;
      var j :| 0 <= j < |b| && Keys(b)[j] == k;
      SelectionMembers(properties, ByNameTarget, k, a[i].1);
      SelectionMembers(properties, byType, k, b[j].1);
      assert a[i] in a && b[j] in b;
      var x :| 0 <= x < |properties| && properties[x].name == k && ByNameTarget(properties[x]) == Some(a[i].1);
      var y :| 0 <= y < |properties| && properties[y].name == k && byType(properties[y]) == Some(b[j].1);
      assert PropertyNames(properties)[x] == PropertyNames(properties)[y];
      assert x == y;
      ByNameExcludesByType(properties[x], expand);
      assert false;
    }
  }

  /** InjectableTrait_getInjectionByNameProperties / ServiceTrait::getInjectionByNameProperties. */
  method GetInjectionByNameProperties(properties: seq<Property>) returns (injectionProperties: Entries)
    ensures injectionProperties == Plan(properties, ByNameTarget)
  {
    injectionProperties := [];
    for i := 0 to |properties|
      invariant injectionProperties == Plan(properties[..i], ByNameTarget)
    {
      var property := properties[i];
      assert properties[..i + 1][..i] == properties[..i];
      if InjectServiceAnnotation in property.annotations {
        var serviceName := property.annotations[InjectServiceAnnotation];
        if serviceName.Text? && |serviceName.text| > 0 {
          injectionProperties := Put(injectionProperties, property.name, serviceName.text);
        }
      }
    }
    assert properties[..|properties|] == properties;
  }

  /** InjectableTrait_getInjectionByTypeProperties / ServiceTrait::getInjectionByTypeProperties. */
  method GetInjectionByTypeProperties(properties: seq<Property>, expand: Expander) returns (injectionProperties: Entries)
    ensures injectionProperties == Plan(properties, TypeTargets(expand))
  {
    ghost var target := TypeTargets(expand);
    injectionProperties := [];
    for i := 0 to |properties|
      invariant injectionProperties == Plan(properties[..i], target)
    {
      var property := properties[i];
      assert properties[..i + 1][..i] == properties[..i];
      if InjectServiceAnnotation in property.annotations {
        var serviceName := property.annotations[InjectServiceAnnotation];
        if (serviceName == True || serviceName == Text("")) && TypeAnnotation in property.annotations {
          var t := expand(property.annotations[TypeAnnotation], property.declaringClass);
          injectionProperties := Put(injectionProperties, property.name, t);
        }
      }
    }
    assert properties[..|properties|] == properties;
  }
}
