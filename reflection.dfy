/**
 * The per-class reflection cache of both traits (`$ServiceTrait__reflections`,
 * `$InjectableTrait_reflections`): one ClassType per called class, built on first use.
 */
module Reflection {

  /** A reflection object for one class. */
  class ClassType {
    const name: string

    constructor (name: string)
      ensures this.name == name
    {
      this.name := name;
    }
  }

  class ReflectionCache {
    /** The static array: class name => its ClassType. */
    var reflections: map<string, ClassType>

    /** Every cached object reflects the class it is filed under. */
    ghost predicate Valid()
      reads this
    {
      forall c :: c in reflections ==> reflections[c].name == c
    }

    constructor ()
      ensures Valid() && reflections == map[]
    {
      reflections := map[];
    }

    /**
     * getReflection: the first call for a class builds and files a new ClassType;
     * later calls return that same object. Entries are only ever added.
     */
    method GetReflection(calledClass: string) returns (r: ClassType)
      requires Valid()
      modifies this
      ensures Valid()
      ensures r.name == calledClass
      ensures calledClass in old(reflections) ==> r == old(reflections)[calledClass] && reflections == old(reflections)
      ensures calledClass !in old(reflections) ==> fresh(r) && reflections == old(reflections)[calledClass := r]
      ensures old(reflections).Keys <= reflections.Keys
      ensures forall c :: c in old(reflections) ==> reflections[c] == old(reflections)[c]
    {
      if calledClass !in reflections {
        var built := new ClassType(calledClass);
        reflections := reflections[calledClass := built];
      }
      r := reflections[calledClass];
    }
  }
}
