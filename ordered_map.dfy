/** A Python `dict`: a finite map that remembers the order in which keys were
    first inserted. Overwriting a key changes its value but not its place,
    and iteration (`.items()`) follows that order. */
module OrderedMap {
  import opened Seqs

  datatype OrderedMap<K(!new), V> = OrderedMap(keys: seq<K>, values: map<K, V>) {

    /** Every key is listed once, and the listed keys are the map's keys. */
    predicate Valid() {
      && NoDup(keys)
      && (forall k :: k in values ==> k in keys)
      && (forall k :: k in keys ==> k in values)
    }

    /** `d[k] = v`. */
    function Put(k: K, v: V): (r: OrderedMap<K, V>)
      requires Valid()
      ensures r.Valid()
      ensures k in r.values && r.values[k] == v
      ensures forall j :: j != k ==> (j in r.values <==> j in values)
      ensures forall j :: j != k && j in values ==> r.values[j] == values[j]
      ensures k in values ==> r.keys == keys
      ensures k !in values ==> r.keys == keys + [k]
    {
      if k in values then OrderedMap(keys, values[k := v])
      else OrderedMap(keys + [k], values[k := v])
    }

    /** `list(d.values())`, in key order. */
    function Items(): (items: seq<V>)
      requires Valid()
      ensures |items| == |keys|
      ensures forall i :: 0 <= i < |keys| ==> items[i] == values[keys[i]]
    {
      seq(|keys|, i requires 0 <= i < |keys| && keys[i] in values => values[keys[i]])
    }
  }

  function Empty<K(!new), V>(): (m: OrderedMap<K, V>)
    ensures m.Valid() && m.keys == [] && m.values == map[]
  {
    OrderedMap([], map[])
  }

  /** `d[key(v)] = v` for each of `vs` in order, starting from an empty dict. */
  function PutEach<K(!new), V>(key: V -> K, vs: seq<V>): (m: OrderedMap<K, V>)
    ensures m.Valid()
    decreases |vs|
  {
    if vs == [] then Empty() else PutEach(key, vs[..|vs| - 1]).Put(key(vs[|vs| - 1]), vs[|vs| - 1])
  }

  /** The map part of `PutEach`: each write is a map update. */
  function WrittenValues<K(!new), V>(key: V -> K, vs: seq<V>): map<K, V>
    decreases |vs|
  {
    if vs == [] then map[] else WrittenValues(key, vs[..|vs| - 1])[key(vs[|vs| - 1]) := vs[|vs| - 1]]
  }

  lemma {:induction false} PutEachValues<K(!new), V>(key: V -> K, vs: seq<V>)
    ensures PutEach(key, vs).values == WrittenValues(key, vs)
    decreases |vs|
  {
    if vs != [] {
      PutEachValues(key, vs[..|vs| - 1]);
    }
  }

  /** The keys are exactly the keys of the written values. */
  lemma {:induction false} PutEachKeys<K(!new), V>(key: V -> K, vs: seq<V>, k: K)
    ensures k in PutEach(key, vs).values <==> exists i :: 0 <= i < |vs| && key(vs[i]) == k
  {
    PutEachValues(key, vs);
    WrittenKeys(key, vs, k);
  }

  lemma {:induction false} WrittenKeys<K(!new), V>(key: V -> K, vs: seq<V>, k: K)
    ensures k in WrittenValues(key, vs) <==> exists i :: 0 <= i < |vs| && key(vs[i]) == k
    decreases |vs|
  {
    if vs != [] {
      var n := |vs| - 1;
      var init := vs[..n];
      WrittenKeys(key, init, k);
      if exists i :: 0 <= i < |vs| && key(vs[i]) == k {
        var i :| 0 <= i < |vs| && key(vs[i]) == k;
        if i < n {
          assert init[i] == vs[i];
        }
      }
      if exists i :: 0 <= i < n && key(init[i]) == k {
        var i :| 0 <= i < n && key(init[i]) == k;
        assert init[i] == vs[i];
      }
    }
  }

  /** Each key holds the LAST value written under it, at position `j`. */
  lemma {:induction false} PutEachLastWins<K(!new), V>(key: V -> K, vs: seq<V>, k: K) returns (j: nat)
    requires k in PutEach(key, vs).values
    ensures j < |vs| && PutEach(key, vs).values[k] == vs[j] && key(vs[j]) == k
    ensures forall i :: j < i < |vs| ==> key(vs[i]) != k
  {
    PutEachValues(key, vs);
    j := WrittenLastWins(key, vs, k);
  }

  lemma {:induction false} WrittenLastWins<K(!new), V>(key: V -> K, vs: seq<V>, k: K) returns (j: nat)
    requires k in WrittenValues(key, vs)
    ensures j < |vs| && WrittenValues(key, vs)[k] == vs[j] && key(vs[j]) == k
    ensures forall i :: j < i < |vs| ==> key(vs[i]) != k
    decreases |vs|
  {
    var n := |vs| - 1;
    var init := vs[..n];
    if key(vs[n]) == k {
      j := n;
    } else {
      j := WrittenLastWins(key, init, k);
      assert init[j] == vs[j];
      forall i | j < i < |vs| ensures key(vs[i]) != k {
        if i < n {
          assert init[i] == vs[i];
        }
      }
    }
  }

  /** Every stored value is among the items. */
  lemma ValueIsItem<K(!new), V>(m: OrderedMap<K, V>, k: K)
    requires m.Valid() && k in m.values
    ensures m.values[k] in m.Items()
  {
    var i :| 0 <= i < |m.keys| && m.keys[i] == k;
    assert m.Items()[i] == m.values[k];
  }

  /** Every item is the value stored under one of the keys. */
  lemma ItemIsValue<K(!new), V>(m: OrderedMap<K, V>, v: V) returns (k: K)
    requires m.Valid() && v in m.Items()
    ensures k in m.values && m.values[k] == v
  {
    var i :| 0 <= i < |m.Items()| && m.Items()[i] == v;
    k := m.keys[i];
  }
}
