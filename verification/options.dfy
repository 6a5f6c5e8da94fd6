/** Optional values: the model's stand-in for Python's `None`. */
module Options {

  datatype Option<+T> = None | Some(value: T)

  /** Python's `dict.get(key)`: the value stored under `key`, or `None`. */
  function Get<K, V>(m: map<K, V>, key: K): (r: Option<V>)
    ensures r.Some? <==> key in m
    ensures r.Some? ==> r.value == m[key]
  {
    if key in m then Some(m[key]) else None
  }

  /** Python truthiness of an optional integer: `None` and `0` are false. */
  predicate Truthy(o: Option<int>)
  {
    o.Some? && o.value != 0
  }
}
