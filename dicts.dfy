/** A Python dict as it is observed by iteration: its keys in insertion order
    together with the mapping itself. Assigning an existing key keeps its
    position; a new key goes to the end. */
module Dicts {

  datatype Dict<K, V> = Dict(keys: seq<K>, items: map<K, V>) {

    /** The keys are distinct, each is a key of the mapping, and there are as
        many as the mapping has (so they are all of its keys, `KeysCover`). */
    ghost predicate Valid()
    {
      && (forall i, j | 0 <= i < j < |keys| :: keys[i] != keys[j])
      && (forall i | 0 <= i < |keys| :: keys[i] in items)
      && |items| == |keys|
    }

    /** `d.get(k, default)` */
    function Get(k: K, default: V): V
    {
      if k in items then items[k] else default
    }

    /** `d[k] = v` */
    function Put(k: K, v: V): (d: Dict<K, V>)
      requires Valid()
      ensures d.Valid()
      ensures d.items == items[k := v]
      ensures d.keys == if k in items then keys else keys + [k]
    {
      Dict(if k in items then keys else keys + [k], items[k := v])
    }
  }

  function Empty<K, V>(): (d: Dict<K, V>)
    ensures d.Valid() && d.keys == [] && d.items == map[]
  {
    Dict([], map[])
  }

  /** The set of the elements of `s`. */
  function Elements<K>(s: seq<K>): set<K>
  {
    set i | 0 <= i < |s| :: s[i]
  }

  lemma {:induction false} DistinctElements<K>(s: seq<K>)
    requires forall i, j | 0 <= i < j < |s| :: s[i] != s[j]
    ensures |Elements(s)| == |s|
  {
    if s != [] {
      var n := |s| - 1;
      DistinctElements(s[..n]);
      assert Elements(s) == Elements(s[..n]) + {s[n]};
      assert s[n] !in Elements(s[..n]);
    }
  }

  /** Every key of the mapping is among the keys, in exactly one place. */
  lemma KeysCover<K, V>(d: Dict<K, V>, k: K)
    requires d.Valid() && k in d.items
    ensures exists i | 0 <= i < |d.keys| :: d.keys[i] == k
  {
    var e := Elements(d.keys);
    DistinctElements(d.keys);
    assert e <= d.items.Keys;
    if k !in e {
      assert e + {k} <= d.items.Keys;
      assert |e + {k}| == |d.keys| + 1;
      assert |d.items.Keys| == |d.items|;
      SubsetCard(e + {k}, d.items.Keys);
      assert false;
    }
  }

  lemma SubsetCard<K>(a: set<K>, b: set<K>)
    requires a <= b
    ensures |a| <= |b|
  {
    assert b == a + (b - a);
  }
}
