/**
 * `getOrCreate` of plugins/islands/helpers/map.ts: look a key up in a mutable map and, when it
 * is missing, create its value with the caller's factory and store it. The map is an object
 * updated in place; the factory is an object too, so that whether it was called is visible.
 */
module MapHelpers {

  /** A JavaScript `Map`, updated in place. */
  class MutableMap<K(==), V> {
    var contents: map<K, V>

    constructor ()
      ensures contents == map[]
    {
      contents := map[];
    }
  }

  /**
   * The `create` callback. Its results are `make(0)`, `make(1)`, ... in call order, and `calls`
   * counts how often it has been called.
   */
  class Factory<V> {
    var calls: nat
    const make: nat -> V

    constructor (make: nat -> V)
      ensures calls == 0 && this.make == make
    {
      calls := 0;
      this.make := make;
    }

    method Create() returns (value: V)
      modifies this
      ensures calls == old(calls) + 1
      ensures value == make(old(calls))
    {
      value := make(calls);
      calls := calls + 1;
    }
  }

  /**
   * `getOrCreate(map, key, create)`: a present key returns its stored value, leaves the map as
   * it was and never calls `create`; an absent key calls `create` once and stores and returns
   * its result. No other key's entry changes, and the key is present afterwards.
   */
  method GetOrCreate<K(==), V>(m: MutableMap<K, V>, key: K, create: Factory<V>) returns (value: V)
    modifies m, create
    ensures key in old(m.contents) ==>
              value == old(m.contents)[key] && m.contents == old(m.contents) && create.calls == old(create.calls)
    ensures key !in old(m.contents) ==>
              value == create.make(old(create.calls)) && create.calls == old(create.calls) + 1 &&
              m.contents == old(m.contents)[key := value]
    ensures key in m.contents && m.contents[key] == value
    ensures forall k :: k != key ==> (k in m.contents <==> k in old(m.contents))
    ensures forall k :: k != key && k in old(m.contents) ==> m.contents[k] == old(m.contents)[k]
  {
    if key in m.contents {
      return m.contents[key];
    }
    var obj := create.Create();
    m.contents := m.contents[key := obj];
    return obj;
  }

  /**
   * Asking twice for the same key gives the same value both times; the second call neither
   * grows the map nor calls `create`, and `create` is called at most once in all.
   */
  method GetOrCreateTwice<K(==), V>(m: MutableMap<K, V>, key: K, create: Factory<V>) returns (first: V, second: V)
    modifies m, create
    ensures first == second
    ensures m.contents.Keys == old(m.contents).Keys + {key}
    ensures m.contents[key] == first
    ensures create.calls <= old(create.calls) + 1
  {
    first := GetOrCreate(m, key, create);
    ghost var between := m.contents;
    second := GetOrCreate(m, key, create);
    assert m.contents == between;
  }
}
