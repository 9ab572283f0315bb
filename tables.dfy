/**
 * A Python `dict` keyed by uid. Iteration follows first-insertion order, and
 * assigning to a key that is already present keeps that key's place; the
 * stable sorts of the queries break ties by this order.
 */
module Tables {

  /** The keys in first-insertion order, and the key-to-value map. */
  datatype Table<V> = Table(keys: seq<string>, rows: map<string, V>)
  {
    /** The keys are distinct and are exactly the keys of the map. */
    ghost predicate Valid()
    {
      && (forall i, j :: 0 <= i < j < |keys| ==> keys[i] != keys[j])
      && (forall k :: k in rows <==> k in keys)
    }

    /** `d.values()`: one value per key, in key order. */
    function Values(): (vs: seq<V>)
      ensures Valid() ==> |vs| == |keys| && forall i :: 0 <= i < |keys| ==> vs[i] == rows[keys[i]]
    {
      ValuesOf(keys, rows)
    }

    /** `d[k] = v`. */
    function Put(k: string, v: V): (t: Table<V>)
      ensures t.rows == rows[k := v]
    {
      if k in rows then Table(keys, rows[k := v]) else Table(keys + [k], rows[k := v])
    }
  }

  /** Assignment keeps the keys distinct and in step with the map. */
  lemma PutValid<V>(t: Table<V>, k: string, v: V)
    requires t.Valid()
    ensures t.Put(k, v).Valid()
  {
  }

  /** Assigning a new key appends its value after all the others. */
  lemma PutNewValues<V>(t: Table<V>, k: string, v: V)
    requires t.Valid() && k !in t.rows
    ensures t.Put(k, v).Values() == t.Values() + [v]
  {
    PutValid(t, k, v);
    var u := t.Put(k, v);
    var tv, uv := t.Values(), u.Values();
    assert u.keys == t.keys + [k];
    forall i | 0 <= i < |tv|
      ensures uv[i] == tv[i]
    {
      assert u.keys[i] == t.keys[i] && t.keys[i] != k;
    }
  }

  /** Assigning a key already present keeps its place and replaces only its value. */
  lemma PutKnownValues<V>(t: Table<V>, k: string, v: V)
    requires t.Valid() && k in t.rows
    ensures |t.Put(k, v).Values()| == |t.Values()|
    ensures forall i :: 0 <= i < |t.keys| ==> t.Put(k, v).Values()[i] == if t.keys[i] == k then v else t.Values()[i]
  {
    PutValid(t, k, v);
  }

  /** `{}`. */
  function Empty<V>(): (t: Table<V>)
    ensures t.Valid() && t.rows == map[] && t.Values() == []
  {
    Table([], map[])
  }

  /** The values of `rows` at `keys`, in order, skipping keys the map lacks. */
  function ValuesOf<V>(keys: seq<string>, rows: map<string, V>): (vs: seq<V>)
    ensures (forall k :: k in keys ==> k in rows) ==>
      |vs| == |keys| && forall i :: 0 <= i < |keys| ==> vs[i] == rows[keys[i]]
  {
    if keys == [] then []
    else
      var k := keys[|keys| - 1];
      ValuesOf(keys[..|keys| - 1], rows) + (if k in rows then [rows[k]] else [])
  }
}
