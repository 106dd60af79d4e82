/** The collections the loader is built from: multimaps and hash maps collected from pairs, and
    flat maps over keys that come in an unspecified order. */
module Collections {
  /** Collecting pairs into a MultiMap: every value, in order. */
  function MultiMapOf<V>(pairs: seq<(nat, V)>): map<nat, seq<V>> {
    if pairs == [] then map[]
    else
      var m, p := MultiMapOf(pairs[..|pairs| - 1]), pairs[|pairs| - 1];
      m[p.0 := (if p.0 in m then m[p.0] else []) + [p.1]]
  }

  /** Collecting pairs into a HashMap: the last value wins. */
  function HashMapOf<V>(pairs: seq<(nat, V)>): map<nat, V> {
    if pairs == [] then map[]
    else
      var m, p := HashMapOf(pairs[..|pairs| - 1]), pairs[|pairs| - 1];
      m[p.0 := p.1]
  }

  ghost predicate DistinctKeys<V>(pairs: seq<(nat, V)>) {
    forall i, j :: 0 <= i < j < |pairs| ==> pairs[i].0 != pairs[j].0
  }

  lemma {:induction false} MultiMapKeys<V>(pairs: seq<(nat, V)>, key: nat)
    ensures key in MultiMapOf(pairs) <==> exists i :: 0 <= i < |pairs| && pairs[i].0 == key
  {
    if pairs != [] {
      var init := pairs[..|pairs| - 1];
      MultiMapKeys(init, key);
      if key in MultiMapOf(init) {
        var i :| 0 <= i < |init| && init[i].0 == key;
        assert pairs[i].0 == key;
      }
      if exists i :: 0 <= i < |pairs| && pairs[i].0 == key {
        var i :| 0 <= i < |pairs| && pairs[i].0 == key;
        if i < |init| { assert init[i].0 == key; }
      }
    }
  }

  lemma {:induction false} MultiMapOfDistinct<V>(pairs: seq<(nat, V)>, i: nat)
    requires DistinctKeys(pairs) && i < |pairs|
    ensures pairs[i].0 in MultiMapOf(pairs) && MultiMapOf(pairs)[pairs[i].0] == [pairs[i].1]
  {
    var init := pairs[..|pairs| - 1];
    if i == |pairs| - 1 {
      MultiMapKeys(init, pairs[i].0);
    } else {
      assert init[i] == pairs[i];
      MultiMapOfDistinct(init, i);
    }
  }

  lemma {:induction false} HashMapOfDistinct<V>(pairs: seq<(nat, V)>, i: nat)
    requires DistinctKeys(pairs) && i < |pairs|
    ensures pairs[i].0 in HashMapOf(pairs) && HashMapOf(pairs)[pairs[i].0] == pairs[i].1
  {
    var init := pairs[..|pairs| - 1];
    if i < |pairs| - 1 {
      assert init[i] == pairs[i];
      HashMapOfDistinct(init, i);
    }
  }

  /** `order` lists the elements of `keys`, each once, in some order: how a HashMap is iterated. */
  ghost predicate Enumerates<K(!new)>(order: seq<K>, keys: set<K>) {
    && (forall k :: k in order <==> k in keys)
    && (forall i, j :: 0 <= i < j < |order| ==> order[i] != order[j])
  }

  function FlatMap<K, T>(order: seq<K>, f: K -> seq<T>): seq<T> {
    if order == [] then [] else f(order[0]) + FlatMap(order[1..], f)
  }

  lemma {:induction false} FlatMapConcat<K, T>(a: seq<K>, b: seq<K>, f: K -> seq<T>)
    ensures FlatMap(a + b, f) == FlatMap(a, f) + FlatMap(b, f)
  {
    if a == [] {
      assert a + b == b;
    } else {
      assert (a + b)[0] == a[0] && (a + b)[1..] == a[1..] + b;
      FlatMapConcat(a[1..], b, f);
      assert f(a[0]) + (FlatMap(a[1..], f) + FlatMap(b, f)) == f(a[0]) + FlatMap(a[1..], f) + FlatMap(b, f);
    }
  }

  lemma FlatMapSnoc<K, T>(a: seq<K>, k: K, f: K -> seq<T>)
    ensures FlatMap(a + [k], f) == FlatMap(a, f) + f(k)
  {
    FlatMapConcat(a, [k], f);
    assert [k][1..] == [];
    assert FlatMap([k], f) == f(k) + [];
  }

  /** A flat map to one value for each key of one stretch and to nothing elsewhere is that list of values. */
  lemma {:induction false} FlatMapStretch<K, T>(keys: seq<K>, f: K -> seq<T>, start: nat, vals: seq<T>)
    requires vals == [] || start + |vals| <= |keys|
    requires forall a {:trigger keys[a]} :: 0 <= a < |keys| ==>
               f(keys[a]) == if start <= a < start + |vals| then [vals[a - start]] else []
    ensures FlatMap(keys, f) == vals
  {
    if keys != [] {
      var last := |keys| - 1;
      var init := keys[..last];
      assert init + [keys[last]] == keys;
      FlatMapSnoc(init, keys[last], f);
      if start <= last < start + |vals| {
        FlatMapStretch(init, f, start, vals[..|vals| - 1]);
      } else {
        FlatMapStretch(init, f, start, vals);
      }
    }
  }

  lemma PickedOut<T>(x: seq<T>, y: seq<T>, z: seq<T>)
    ensures multiset(x + (y + z)) == multiset(y) + multiset(x + z)
  {
  }

  lemma FlatMapPick<K, T>(b: seq<K>, i: nat, f: K -> seq<T>)
    requires i < |b|
    ensures multiset(FlatMap(b, f)) == multiset(f(b[i])) + multiset(FlatMap(b[..i] + b[i + 1..], f))
  {
    var front, back, rest := b[..i], b[i..], b[i + 1..];
    assert b == front + back;
    assert FlatMap(back, f) == f(b[i]) + FlatMap(rest, f) by { assert back[0] == b[i] && back[1..] == rest; }
    hide FlatMap;
    FlatMapConcat(front, back, f);
    FlatMapConcat(front, rest, f);
    PickedOut(FlatMap(front, f), f(b[i]), FlatMap(rest, f));
  }

  lemma HeadIn<K>(b: seq<K>)
    ensures b == [] || b[0] in b
  {
  }

  /** The order of the keys does not matter for the multiset of results. */
  lemma {:induction false} FlatMapOrder<K(!new), T>(a: seq<K>, b: seq<K>, keys: set<K>, f: K -> seq<T>)
    requires Enumerates(a, keys) && Enumerates(b, keys)
    ensures multiset(FlatMap(a, f)) == multiset(FlatMap(b, f))
    decreases |a|
  {
    if a == [] {
      HeadIn(b);
    } else {
      assert a[0] in keys;
      var i :| 0 <= i < |b| && b[i] == a[0];
      EnumeratesWithout(a, 0, keys);
      assert a[..0] + a[0 + 1..] == a[1..];
      EnumeratesWithout(b, i, keys);
      FlatMapOrder(a[1..], b[..i] + b[i + 1..], keys - {a[0]}, f);
      FlatMapPick(b, i, f);
    }
  }

  lemma EnumeratesWithout<K(!new)>(a: seq<K>, i: nat, keys: set<K>)
    requires Enumerates(a, keys) && i < |a|
    ensures Enumerates(a[..i] + a[i + 1..], keys - {a[i]})
  {
  }
}
