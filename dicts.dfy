/**
 * Python dictionaries with string keys, as the configuration and the CLI
 * use them: a map together with the order in which keys were first inserted.
 */
module Dicts {
  import opened Manager

  datatype Dict<V> = Dict(keys: seq<string>, entries: map<string, V>)
  {
    /** Each key is listed once, and the listed keys are exactly the keys of the map. */
    ghost predicate Valid()
    {
      Distinct(keys) && forall k :: k in entries <==> k in keys
    }

    /**
     * `d[k] = v`: a new key goes to the end of the order, an existing key
     * keeps its place and takes the new value.
     */
    function Insert(k: string, v: V): (d: Dict<V>)
      ensures d.entries == entries[k := v]
      ensures k in entries ==> d.keys == keys
      ensures k !in entries ==> d.keys == keys + [k]
      ensures Valid() ==> d.Valid()
    {
      if k in entries then Dict(keys, entries[k := v]) else Dict(keys + [k], entries[k := v])
    }
  }

  function Empty<V>(): (d: Dict<V>)
    ensures d.Valid() && d.keys == [] && d.entries == map[]
  {
    Dict([], map[])
  }
}
