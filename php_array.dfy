/**
 * PHP arrays with string keys and string values, as the injection planners build
 * them: insertion-ordered, every key at most once.
 */
module PhpArray {
  import opened Wrappers

  /** No element of `s` occurs twice. */
  predicate Distinct<T(==)>(s: seq<T>)
  {
    forall i, j :: 0 <= i < j < |s| ==> s[i] != s[j]
  }

  /** A sequence with a head is distinct exactly when its head is new and its tail distinct. */
  lemma DistinctCons<T>(a: T, s: seq<T>)
    ensures Distinct([a] + s) <==> a !in s && Distinct(s)
  {
    var t := [a] + s;
    if a !in s && Distinct(s) {
      forall i, j | 0 <= i < j < |t| ensures t[i] != t[j] {
        if i > 0 { assert t[i] == s[i - 1] && t[j] == s[j - 1]; }
        else { assert t[j] == s[j - 1]; }
      }
    }
    if Distinct(t) {
      forall i, j | 0 <= i < j < |s| ensures s[i] != s[j] {
        assert s[i] == t[i + 1] && s[j] == t[j + 1];
      }
    }
    if a in s {
      var j :| 0 <= j < |s| && s[j] == a;
      assert t[0] == t[j + 1];
    }
  }

  /** An ordered PHP array: its (key, value) entries in insertion order. */
  type Entries = seq<(string, string)>

  /** The keys of `m`, in order. */
  function Keys(m: Entries): seq<string>
  {
    seq(|m|, i requires 0 <= i < |m| => m[i].0)
  }

  /** `$m[$k]`, or null when `$k` is not a key. */
  function Lookup(m: Entries, k: string): Option<string>
  {
    if m == [] then None
    else if m[0].0 == k then Some(m[0].1)
    else Lookup(m[1..], k)
  }

  /**
   * The assignment `$m[$k] = $v`: an existing key keeps its position and takes the
   * new value, a new key is appended at the end.
   */
  function Put(m: Entries, k: string, v: string): (r: Entries)
    ensures Lookup(r, k) == Some(v)
    ensures k !in Keys(m) ==> r == m + [(k, v)]
    ensures forall x :: x in Keys(r) <==> x in Keys(m) || x == k
    ensures Distinct(Keys(m)) ==> Distinct(Keys(r))
  {
    if m == [] then
      assert Keys([(k, v)]) == [k];
      [(k, v)]
    else if m[0].0 == k then
      assert Keys(m)[0] == k;
      assert Keys([(k, v)] + m[1..]) == Keys(m);
      [(k, v)] + m[1..]
    else
      var rest := Put(m[1..], k, v);
      assert Keys(m) == [m[0].0] + Keys(m[1..]);
      assert Keys([m[0]] + rest) == [m[0].0] + Keys(rest);
      DistinctCons(m[0].0, Keys(m[1..]));
      DistinctCons(m[0].0, Keys(rest));
      assert Distinct(Keys(m)) ==> m[0].0 !in Keys(rest) by {
        if Distinct(Keys(m)) {
          assert m[0].0 !in Keys(m[1..]) by {
            forall i | 0 <= i < |m[1..]| ensures Keys(m[1..])[i] != m[0].0 {
              assert Keys(m)[i + 1] == Keys(m[1..])[i];
              assert Keys(m)[0] == m[0].0;
            }
          }
        }
      }
      [m[0]] + rest
  }

  /** Assigning to a key already present keeps the keys and their order. */
  lemma {:induction false} PutExistingKey(m: Entries, k: string, v: string)
    requires k in Keys(m)
    ensures Keys(Put(m, k, v)) == Keys(m)
    decreases |m|
  {
    if m[0].0 != k {
      assert Keys(m)[0] != k;
      assert k in Keys(m[1..]) by {
        var i :| 0 <= i < |Keys(m)| && Keys(m)[i] == k;
        assert Keys(m[1..])[i - 1] == k;
      }
      PutExistingKey(m[1..], k, v);
      assert Keys(m) == [m[0].0] + Keys(m[1..]);
      assert Keys([m[0]] + Put(m[1..], k, v)) == [m[0].0] + Keys(Put(m[1..], k, v));
    } else {
      assert Keys([(k, v)] + m[1..]) == Keys(m);
    }
  }

  /** Assigning to one key leaves every other key's value as it was. */
  lemma {:induction false} PutOtherKeys(m: Entries, k: string, v: string, x: string)
    requires x != k
    ensures Lookup(Put(m, k, v), x) == Lookup(m, x)
    decreases |m|
  {
    if m != [] && m[0].0 != k {
      PutOtherKeys(m[1..], k, v, x);
      assert ([m[0]] + Put(m[1..], k, v))[1..] == Put(m[1..], k, v);
    } else if m != [] {
      assert ([(k, v)] + m[1..])[1..] == m[1..];
    }
  }
}
