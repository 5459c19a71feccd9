/** Sums over the values of a finite map. */
module MapSum {
  import opened Prelude

  function ValueAt<K(==)>(m: map<K, int>, k: K): int { if k in m then m[k] else 0 }

  /** The values along a list of keys; keys outside the map count as zero. */
  ghost function SumAlong<K>(m: map<K, int>, keys: seq<K>): int {
    if keys == [] then 0 else SumAlong(m, keys[..|keys| - 1]) + ValueAt(m, keys[|keys| - 1])
  }

  ghost predicate Lists<K>(keys: seq<K>, s: set<K>) { Distinct(keys) && Elements(keys) == s }

  lemma {:induction false} ListExists<K>(s: set<K>) returns (keys: seq<K>)
    ensures Lists(keys, s)
    decreases |s|
  {
    if |s| == 0 {
      keys := [];
    } else {
      var k :| k in s;
      var rest := ListExists(s - {k});
      keys := rest + [k];
      assert Elements(keys) == Elements(rest) + {k};
      assert k !in rest;
    }
  }

  /** The sum of all values of a map. */
  ghost function Sum<K(!new)>(m: map<K, int>): int {
    assert exists keys :: Lists(keys, m.Keys) by { var keys := ListExists(m.Keys); }
    var keys :| Lists(keys, m.Keys);
    SumAlong(m, keys)
  }

  lemma {:induction false} AlongConcat<K>(m: map<K, int>, a: seq<K>, b: seq<K>)
    ensures SumAlong(m, a + b) == SumAlong(m, a) + SumAlong(m, b)
  {
    if b == [] {
      assert a + b == a;
    } else {
      AlongConcat(m, a, b[..|b| - 1]);
      assert (a + b)[..|a + b| - 1] == a + b[..|b| - 1];
    }
  }

  lemma AlongRemove<K>(m: map<K, int>, keys: seq<K>, i: nat)
    requires i < |keys|
    ensures SumAlong(m, keys) == SumAlong(m, keys[..i] + keys[i + 1..]) + ValueAt(m, keys[i])
  {
    assert keys == (keys[..i] + [keys[i]]) + keys[i + 1..];
    AlongConcat(m, keys[..i] + [keys[i]], keys[i + 1..]);
    assert (keys[..i] + [keys[i]])[..i] == keys[..i];
    AlongConcat(m, keys[..i], keys[i + 1..]);
  }

  lemma ListsRemove<K>(keys: seq<K>, s: set<K>, i: nat)
    requires Lists(keys, s) && i < |keys|
    ensures Lists(keys[..i] + keys[i + 1..], s - {keys[i]})
  {
    var rest := keys[..i] + keys[i + 1..];
    forall x ensures x in rest <==> x in s && x != keys[i] {
      if x in s && x != keys[i] {
        assert x in Elements(keys);
        var j :| 0 <= j < |keys| && keys[j] == x;
        assert rest[if j < i then j else j - 1] == x;
      }
    }
  }

  /** Takes `k` out of a list of keys. */
  lemma TakeOut<K>(m: map<K, int>, keys: seq<K>, s: set<K>, k: K) returns (rest: seq<K>)
    requires Lists(keys, s) && k in s
    ensures Lists(rest, s - {k}) && |rest| == |keys| - 1
    ensures SumAlong(m, keys) == SumAlong(m, rest) + ValueAt(m, k)
  {
    assert k in Elements(keys);
    var i :| 0 <= i < |keys| && keys[i] == k;
    rest := keys[..i] + keys[i + 1..];
    AlongRemove(m, keys, i);
    ListsRemove(keys, s, i);
  }

  /** The sum does not depend on the order of the keys. */
  lemma {:induction false} AlongUnique<K>(m: map<K, int>, a: seq<K>, b: seq<K>, s: set<K>)
    requires Lists(a, s) && Lists(b, s)
    ensures SumAlong(m, a) == SumAlong(m, b)
    decreases |a|
  {
    DistinctSize(a);
    DistinctSize(b);
    if a != [] {
      var k := a[|a| - 1];
      assert k in Elements(a);
      var a' := TakeOut(m, a, s, k);
      var b' := TakeOut(m, b, s, k);
      AlongUnique(m, a', b', s - {k});
    }
  }

  lemma SumByList<K(!new)>(m: map<K, int>, keys: seq<K>)
    requires Lists(keys, m.Keys)
    ensures Sum(m) == SumAlong(m, keys)
  {
    var chosen :| Lists(chosen, m.Keys) && Sum(m) == SumAlong(m, chosen);
    AlongUnique(m, chosen, keys, m.Keys);
  }

  lemma {:induction false} AlongUpdate<K>(m: map<K, int>, keys: seq<K>, k: K, v: int)
    requires k !in keys
    ensures SumAlong(m[k := v], keys) == SumAlong(m, keys)
  {
    if keys != [] { AlongUpdate(m, keys[..|keys| - 1], k, v); }
  }

  /** Writing one entry moves the sum by the change of that entry. */
  lemma SumUpdate<K(!new)>(m: map<K, int>, k: K, v: int)
    ensures Sum(m[k := v]) == Sum(m) - ValueAt(m, k) + v
  {
    var rest := ListExists(m.Keys - {k});
    assert k !in rest;
    var all := rest + [k];
    assert Elements(all) == Elements(rest) + {k};
    assert all[..|rest|] == rest;
    AlongUpdate(m, rest, k, v);
    assert m[k := v].Keys == m.Keys + {k};
    SumByList(m[k := v], all);
    if k in m {
      SumByList(m, all);
    } else {
      assert m.Keys - {k} == m.Keys;
      SumByList(m, rest);
    }
  }
}
