/** A JavaScript `Map<string, V>`: a finite map that remembers the order in
    which its keys were first inserted, which is the order `values()` yields. */
module OrderedMaps {
  import opened Wrappers

  datatype OMap<V> = OMap(keys: seq<string>, entries: map<string, V>) {

    /** Keys are listed once each, and the listed keys are the stored ones. */
    ghost predicate Valid() {
      && (forall i, j :: 0 <= i < j < |keys| ==> keys[i] != keys[j])
      && (forall k :: k in entries <==> k in keys)
    }

    /** `m.get(k)`. */
    function Get(k: string): (r: Option<V>)
      ensures r.Some? <==> k in entries
      ensures r.Some? ==> r.value == entries[k]
    {
      if k in entries then Some(entries[k]) else None
    }

    /** `m.set(k, v)`: a new key goes to the end; an existing key keeps its place. */
    function Set(k: string, v: V): (m: OMap<V>)
      requires Valid()
      ensures m.Valid()
      ensures m.entries == entries[k := v]
      ensures k in entries ==> m.keys == keys
      ensures k !in entries ==> m.keys == keys + [k]
    {
      if k in entries then OMap(keys, entries[k := v]) else OMap(keys + [k], entries[k := v])
    }

    /** `Array.from(m.values())`: the value of each key, in key order. */
    function Values(): (r: seq<V>)
      requires Valid()
      ensures |r| == |keys|
      ensures forall i :: 0 <= i < |keys| ==> r[i] == entries[keys[i]]
    {
      seq(|keys|, i requires 0 <= i < |keys| => entries[keys[i]])
    }
  }

  function Empty<V>(): (m: OMap<V>)
    ensures m.Valid() && m.Values() == []
  {
    OMap([], map[])
  }

  /** The values of a valid map are exactly its stored entries. */
  lemma ValuesMembership<V>(m: OMap<V>, x: V)
    requires m.Valid()
    ensures x in m.Values() <==> exists k :: k in m.entries && m.entries[k] == x
  {
    if x in m.Values() {
      var i :| 0 <= i < |m.Values()| && m.Values()[i] == x;
      assert m.keys[i] in m.entries;
    }
    if exists k :: k in m.entries && m.entries[k] == x {
      var k :| k in m.entries && m.entries[k] == x;
      var i :| 0 <= i < |m.keys| && m.keys[i] == k;
      assert m.Values()[i] == x;
    }
  }

  /** Setting a new key appends its value and leaves the other values as they were. */
  lemma SetFreshValues<V>(m: OMap<V>, k: string, v: V)
    requires m.Valid() && k !in m.entries
    ensures m.Set(k, v).Values() == m.Values() + [v]
  {
  }

  /** Setting an existing key replaces its value in place. */
  lemma SetExistingValues<V>(m: OMap<V>, k: string, v: V)
    requires m.Valid() && k in m.entries
    ensures |m.Set(k, v).Values()| == |m.Values()|
    ensures forall i :: 0 <= i < |m.keys| ==>
              m.Set(k, v).Values()[i] == if m.keys[i] == k then v else m.Values()[i]
  {
  }
}
