/** A Python `dict`: the keys in insertion order and the mapping itself.
    Assigning `d[k] = v` keeps the position `k` had when it was first
    inserted and replaces its value; a new key goes to the end.  Iteration
    order (and therefore the order of header rows and of JSON members) is the
    key order. */
module Dict {
  import opened Wrappers

  datatype Entries<V> = Entries(keys: seq<string>, values: map<string, V>)

  /** Every key once, and exactly the keys of the mapping: the shape of
      every dict built from `Empty` with `Put`. */
  ghost predicate Valid<V>(d: Dict<V>)
  {
    (forall i, j :: 0 <= i < j < |d.keys| ==> d.keys[i] != d.keys[j]) &&
    (forall k :: k in d.values <==> k in d.keys)
  }

  type Dict<V> = Entries<V>

  /** `{}`. */
  function Empty<V>(): (r: Dict<V>)
    ensures |r.keys| == 0 && Valid(r)
  {
    Entries([], map[])
  }

  /** `d.get(k)`: the value stored under `k`, or `None`. */
  function Get<V>(d: Dict<V>, k: string): (r: Option<V>)
    ensures r.None? <==> k !in d.values
    ensures r.Some? ==> r.value == d.values[k]
  {
    if k in d.values then Some(d.values[k]) else None
  }

  /** `d[k] = v`. */
  function Put<V>(d: Dict<V>, k: string, v: V): (r: Dict<V>)
    ensures Get(r, k) == Some(v)
    ensures forall k' :: k' != k ==> Get(r, k') == Get(d, k')
    ensures k in d.values ==> r.keys == d.keys
    ensures k !in d.values ==> r.keys == d.keys + [k]
  {
    Entries(if k in d.values then d.keys else d.keys + [k], d.values[k := v])
  }

  lemma PutValid<V>(d: Dict<V>, k: string, v: V)
    requires Valid(d)
    ensures Valid(Put(d, k, v))
  {
    var r := Put(d, k, v);
    assert forall k' :: k' in r.values <==> k' in r.keys;
  }

  /** `d.items()`: each key in order with its value. */
  function Items<V>(d: Dict<V>): (r: seq<(string, V)>)
    ensures Valid(d) ==> |r| == |d.keys|
    ensures Valid(d) ==> forall i :: 0 <= i < |r| ==> r[i] == (d.keys[i], d.values[d.keys[i]])
    ensures forall i :: 0 <= i < |r| ==> r[i].0 in d.values && r[i].1 == d.values[r[i].0]
  {
    ItemsOf(d.keys, d.values)
  }

  /** The pairs of `ks` that `m` maps, in order. */
  function ItemsOf<V>(ks: seq<string>, m: map<string, V>): (r: seq<(string, V)>)
    ensures (forall k :: k in ks ==> k in m) ==> |r| == |ks|
    ensures (forall k :: k in ks ==> k in m) ==> forall i :: 0 <= i < |r| ==> r[i] == (ks[i], m[ks[i]])
    ensures forall i :: 0 <= i < |r| ==> r[i].0 in m && r[i].1 == m[r[i].0]
  {
    if ks == [] then []
    else
      var r := ItemsOf(ks[..|ks| - 1], m);
      var k := ks[|ks| - 1];
      if k in m then r + [(k, m[k])] else r
  }
}
