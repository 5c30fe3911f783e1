/**
 * Container parameters and the dot-path lookup that `getParameter` offers over them:
 * `Arrays::get($parameters, explode('.', $key), $default)`.
 */
module Params {
  import opened Wrappers

  /** A PHP value among the container parameters; nested arrays have string keys. */
  datatype Param = Null | Bool(b: bool) | Int(i: int) | Str(s: string) | Arr(items: map<string, Param>)

  /** The separator `getParameter` splits its key on. */
  const PathSeparator: char := '.'

  /**
   * `explode($sep, $s)` for a one-character separator: the pieces between the
   * separators, in order; there is always at least one piece and none holds `sep`.
   */
  function Explode(sep: char, s: string): (r: seq<string>)
    ensures |r| >= 1
    ensures forall i :: 0 <= i < |r| ==> sep !in r[i]
    decreases |s|
  {
    if s == [] then [""]
    else
      var rest := Explode(sep, s[1..]);
      if s[0] == sep then [""] + rest
      else [[s[0]] + rest[0]] + rest[1..]
  }

  /** `implode($sep, $parts)`: the parts joined by the separator. */
  function Implode(sep: char, parts: seq<string>): string
    requires |parts| >= 1
  {
    if |parts| == 1 then parts[0] else parts[0] + [sep] + Implode(sep, parts[1..])
  }

  /** Exploding a string that starts with a separator-free piece `a`. */
  lemma {:induction false} ExplodeFreePrefix(sep: char, a: string, t: string)
    requires sep !in a
    ensures Explode(sep, a + t) == [a + Explode(sep, t)[0]] + Explode(sep, t)[1..]
    decreases |a|
  {
    if a == [] {
      var e := Explode(sep, t);
      assert a + t == t && a + e[0] == e[0];
      assert [e[0]] + e[1..] == e;
    } else {
      assert (a + t)[1..] == a[1..] + t;
      ExplodeFreePrefix(sep, a[1..], t);
      assert [a[0]] + (a[1..] + Explode(sep, t)[0]) == a + Explode(sep, t)[0];
    }
  }

  /** A key without a separator is a path of one segment. */
  lemma ExplodeSingle(sep: char, s: string)
    ensures sep !in s ==> Explode(sep, s) == [s]
  {
    if sep !in s {
      ExplodeFreePrefix(sep, s, "");
      assert s + "" == s;
    }
  }

  /** Joining the pieces again gives back the exploded string. */
  lemma {:induction false} ImplodeExplode(sep: char, s: string)
    ensures Implode(sep, Explode(sep, s)) == s
    decreases |s|
  {
    if s != [] {
      ImplodeExplode(sep, s[1..]);
      var rest := Explode(sep, s[1..]);
      if s[0] == sep {
        assert Explode(sep, s)[1..] == rest;
      } else {
        var r := Explode(sep, s);
        assert r[1..] == rest[1..];
        if |rest| > 1 {
          assert rest[1..][..] == rest[1..];
        }
      }
    }
  }

  /** Exploding separator-free parts joined by the separator gives back the parts. */
  lemma {:induction false} ExplodeImplode(sep: char, parts: seq<string>)
    requires |parts| >= 1
    requires forall i :: 0 <= i < |parts| ==> sep !in parts[i]
    ensures Explode(sep, Implode(sep, parts)) == parts
  {
    if |parts| == 1 {
      ExplodeSingle(sep, parts[0]);
    } else {
      var tail := Implode(sep, parts[1..]);
      ExplodeImplode(sep, parts[1..]);
      ExplodeFreePrefix(sep, parts[0], [sep] + tail);
      assert parts[0] + [sep] + tail == parts[0] + ([sep] + tail);
      assert ([sep] + tail)[1..] == tail;
      assert parts[0] + "" == parts[0];
    }
  }

  /**
   * Nette's `Arrays::get($value, $keys, $default)`: follow `keys` one level at a time;
   * as soon as a key is missing or the current value is not an array, the default.
   */
  function Get(value: Param, keys: seq<string>, default: Param): Param
    decreases |keys|
  {
    if keys == [] then value
    else if value.Arr? && keys[0] in value.items then Get(value.items[keys[0]], keys[1..], default)
    else default
  }

  /** A one-key lookup is a plain array access with a default. */
  lemma GetOneKey(value: Param, k: string, default: Param)
    ensures Get(value, [k], default) == if value.Arr? && k in value.items then value.items[k] else default
  {
    assert [k][1..] == [];
  }

  /** The value the path `keys` leads to inside `value`, or None when it leads nowhere. */
  function Walk(value: Param, keys: seq<string>): Option<Param>
    decreases |keys|
  {
    if keys == [] then Some(value)
    else match value
      case Arr(items) => if keys[0] in items then Walk(items[keys[0]], keys[1..]) else None
      case _ => None
  }

  /** `Arrays::get` returns what the path leads to, and the default exactly when it leads nowhere. */
  lemma {:induction false} GetIsWalk(value: Param, keys: seq<string>, default: Param)
    ensures Get(value, keys, default) == Walk(value, keys).GetOr(default)
    decreases |keys|
  {
    if keys != [] && value.Arr? && keys[0] in value.items {
      GetIsWalk(value.items[keys[0]], keys[1..], default);
    }
  }

  /** Following `p + q` is following `p`, then `q` from where `p` ended. */
  lemma {:induction false} WalkAppend(value: Param, p: seq<string>, q: seq<string>)
    ensures Walk(value, p + q) == match Walk(value, p) case None => None case Some(w) => Walk(w, q)
    decreases |p|
  {
    if p == [] {
      assert p + q == q;
    } else {
      assert (p + q)[0] == p[0] && (p + q)[1..] == p[1..] + q;
      if value.Arr? && p[0] in value.items {
        WalkAppend(value.items[p[0]], p[1..], q);
      }
    }
  }

  /**
   * Once a prefix `p` of the path reaches a value that is not an array, or an array
   * without the next key `k`, the lookup yields the default whatever follows.
   */
  lemma GetDefaultAfterDeadEnd(value: Param, p: seq<string>, k: string, q: seq<string>, default: Param)
    requires Walk(value, p).Some?
    requires !Walk(value, p).value.Arr? || k !in Walk(value, p).value.items
    ensures Get(value, p + [k] + q, default) == default
  {
    GetIsWalk(value, p + [k] + q, default);
    WalkAppend(value, p, [k] + q);
    assert p + [k] + q == p + ([k] + q);
  }

  /** The worked examples: the parameters `{a: {b: {c: 5}}}` looked up along dot paths with default -1. */
  const ExampleParameters := Arr(map["a" := Arr(map["b" := Arr(map["c" := Int(5)])])])

  /** A path that reaches a leaf yields the leaf. */
  lemma LookupFound()
    ensures Get(ExampleParameters, Explode(PathSeparator, "a.b.c"), Int(-1)) == Int(5)
  {
    ExplodeImplode(PathSeparator, ["a", "b", "c"]);
    assert Implode(PathSeparator, ["a", "b", "c"]) == "a.b.c";
  }

  /** A path through a missing key yields the default. */
  lemma LookupMissingKey()
    ensures Get(ExampleParameters, Explode(PathSeparator, "a.x"), Int(-1)) == Int(-1)
  {
    ExplodeImplode(PathSeparator, ["a", "x"]);
    assert Implode(PathSeparator, ["a", "x"]) == "a.x";
  }

  /** A path that goes on past a scalar yields the default. */
  lemma LookupPastScalar()
    ensures Get(ExampleParameters, Explode(PathSeparator, "a.b.c.d"), Int(-1)) == Int(-1)
  {
    ExplodeImplode(PathSeparator, ["a", "b", "c", "d"]);
    assert Implode(PathSeparator, ["a", "b", "c", "d"]) == "a.b.c.d";
  }
}
