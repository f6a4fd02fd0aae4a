/** A JavaScript `Map` as its entries in insertion order. */
module OrderedMap {

  datatype Option<+T> = None | Some(value: T)

  type Entries<K, V> = seq<(K, V)>

  ghost predicate UniqueKeys<K, V>(m: Entries<K, V>) {
    forall i, j :: 0 <= i < j < |m| ==> m[i].0 != m[j].0
  }

  ghost predicate HasKey<K, V>(m: Entries<K, V>, k: K) {
    exists i :: 0 <= i < |m| && m[i].0 == k
  }

  lemma NoKey<K, V>(m: Entries<K, V>, k: K)
    requires m == []
    ensures !HasKey(m, k)
  {
  }

  /** Position of a key, or the length when the key is absent. */
  function Find<K(==), V>(m: Entries<K, V>, k: K): (i: nat)
    ensures i <= |m|
    ensures i < |m| ==> m[i].0 == k
    ensures forall j :: 0 <= j < i ==> m[j].0 != k
  {
    if m == [] || m[0].0 == k then 0 else 1 + Find(m[1..], k)
  }

  /** `map.set`: an existing key keeps its place, a new one goes last. */
  function Put<K(==), V>(m: Entries<K, V>, k: K, v: V): (r: Entries<K, V>)
    ensures UniqueKeys(m) ==> UniqueKeys(r)
    ensures Find(m, k) < |r| && r[Find(m, k)] == (k, v)
    ensures |r| == if Find(m, k) < |m| then |m| else |m| + 1
    ensures forall i :: 0 <= i < |m| && i != Find(m, k) ==> r[i] == m[i]
  {
    var i := Find(m, k);
    if i < |m| then m[i := (k, v)] else m + [(k, v)]
  }

  lemma PutKeys<K, V>(m: Entries<K, V>, k: K, v: V, x: K)
    ensures HasKey(Put(m, k, v), x) <==> HasKey(m, x) || x == k
  {
    var r := Put(m, k, v);
    assert r[Find(m, k)].0 == k;
    if i :| 0 <= i < |m| && m[i].0 == x {
      assert r[i].0 == x;
    }
    if i :| 0 <= i < |r| && r[i].0 == x && x != k {
      assert m[i].0 == x;
    }
  }

  lemma HasKeyAppend<K, V>(m: Entries<K, V>, e: (K, V), x: K)
    ensures HasKey(m + [e], x) <==> HasKey(m, x) || x == e.0
  {
    var r := m + [e];
    assert r[|m|] == e;
    if i :| 0 <= i < |m| && m[i].0 == x {
      assert r[i].0 == x;
    }
    if i :| 0 <= i < |r| && r[i].0 == x && x != e.0 {
      assert m[i].0 == x;
    }
  }
}
