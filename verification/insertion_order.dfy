/**
 * A string-keyed map that remembers the order its keys were first set in:
 * what a JavaScript `Map`, or a plain object with non-numeric keys,
 * iterates in. Setting a key that is already there keeps its place.
 */
module InsertionOrder {
  import opened Wrappers

  datatype OrderedMap<V> = OrderedMap(keys: seq<string>, values: map<string, V>)

  /** Every key listed once, and the listed keys are exactly the stored ones. */
  predicate Valid<V>(m: OrderedMap<V>) {
    && (forall i, j :: 0 <= i < j < |m.keys| ==> m.keys[i] != m.keys[j])
    && (forall i :: 0 <= i < |m.keys| ==> m.keys[i] in m.values)
    && (forall k :: k in m.values ==> k in m.keys)
  }

  function EmptyMap<V>(): (r: OrderedMap<V>)
    ensures Valid(r) && forall k :: Get(r, k).None?
  {
    OrderedMap([], map[])
  }

  function Get<V>(m: OrderedMap<V>, k: string): (r: Option<V>)
    ensures r.Some? <==> k in m.values
    ensures r.Some? ==> r.value == m.values[k]
  {
    if k in m.values then Some(m.values[k]) else None
  }

  /** `m.set(k, v)`: the key takes the value; a new key goes last, an old one stays where it was. */
  function Set<V>(m: OrderedMap<V>, k: string, v: V): (r: OrderedMap<V>)
    requires Valid(m)
    ensures Valid(r)
    ensures Get(r, k) == Some(v)
    ensures forall k' :: k' != k ==> Get(r, k') == Get(m, k')
    ensures k in m.values ==> r.keys == m.keys
    ensures k !in m.values ==> r.keys == m.keys + [k]
  {
    if k in m.values then OrderedMap(m.keys, m.values[k := v])
    else OrderedMap(m.keys + [k], m.values[k := v])
  }

  /** The sum of the values, in key order. */
  function SumOver(keys: seq<string>, values: map<string, nat>): nat
    decreases |keys|
  {
    if |keys| == 0 then 0
    else (if keys[0] in values then values[keys[0]] else 0) + SumOver(keys[1..], values)
  }

  function Sum(m: OrderedMap<nat>): nat {
    SumOver(m.keys, m.values)
  }

  /** Raising one listed key's value by `d` raises the sum by `d`; an unlisted key does not count. */
  lemma {:induction false} SumOverUpdate(keys: seq<string>, values: map<string, nat>, k: string, d: nat)
    requires forall i, j :: 0 <= i < j < |keys| ==> keys[i] != keys[j]
    ensures var was := if k in values then values[k] else 0;
            SumOver(keys, values[k := was + d]) == SumOver(keys, values) + (if k in keys then d else 0)
    decreases |keys|
  {
    if |keys| > 0 {
      SumOverUpdate(keys[1..], values, k, d);
      assert keys[0] == k ==> k !in keys[1..];
    }
  }

  /** Appending a key adds its value to the sum. */
  lemma {:induction false} SumOverAppend(keys: seq<string>, values: map<string, nat>, k: string)
    ensures SumOver(keys + [k], values) == SumOver(keys, values) + (if k in values then values[k] else 0)
    decreases |keys|
  {
    if |keys| == 0 {
      assert ([] + [k])[1..] == [];
    } else {
      assert (keys + [k])[1..] == keys[1..] + [k];
      SumOverAppend(keys[1..], values, k);
    }
  }

  /** A key that is not listed does not contribute to the sum. */
  lemma {:induction false} SumOverIgnores(keys: seq<string>, values: map<string, nat>, k: string, v: nat)
    requires k !in keys
    ensures SumOver(keys, values[k := v]) == SumOver(keys, values)
    decreases |keys|
  {
    if |keys| > 0 {
      SumOverIgnores(keys[1..], values, k, v);
    }
  }

  /** `(m[k] || 0) + 1`: counting one more `k`. */
  function Bump(m: OrderedMap<nat>, k: string): (r: OrderedMap<nat>)
    requires Valid(m)
    ensures Valid(r)
    ensures Get(r, k) == Some(if k in m.values then m.values[k] + 1 else 1)
    ensures forall k' :: k' != k ==> Get(r, k') == Get(m, k')
  {
    Set(m, k, if k in m.values then m.values[k] + 1 else 1)
  }

  /** Every bump adds exactly one to the total. */
  lemma BumpSum(m: OrderedMap<nat>, k: string)
    requires Valid(m)
    ensures Sum(Bump(m, k)) == Sum(m) + 1
  {
    if k in m.values {
      SumOverUpdate(m.keys, m.values, k, 1);
    } else {
      SumOverIgnores(m.keys, m.values, k, 1);
      SumOverAppend(m.keys, m.values[k := 1], k);
    }
  }
}
