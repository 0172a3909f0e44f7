/** Python's dict as far as the web app relies on it: a finite map whose
    iteration order is the order in which its keys were first inserted. */
module Dicts {

  /** No element occurs twice. */
  predicate Distinct<T(==)>(s: seq<T>) {
    forall a, b :: 0 <= a < b < |s| ==> s[a] != s[b]
  }

  /** Dropping the last element keeps the rest distinct, and the last
      element occurs nowhere before it. */
  lemma DistinctInit<T>(s: seq<T>)
    requires Distinct(s) && |s| > 0
    ensures Distinct(s[..|s| - 1])
    ensures s[|s| - 1] !in s[..|s| - 1]
  {
    var n := |s| - 1;
    forall a | 0 <= a < n ensures s[..n][a] != s[n] {
      assert s[..n][a] == s[a];
    }
  }

  /** A non-empty sequence is its prefix and its last element. */
  lemma InitLast<T>(s: seq<T>)
    requires |s| > 0
    ensures s == s[..|s| - 1] + [s[|s| - 1]]
  {
  }

  /** `keys` is the iteration order, `entries` the mapping itself. */
  datatype Dict<K(==), V> = Dict(keys: seq<K>, entries: map<K, V>) {

    /** Each key is listed once, and exactly the mapped keys are listed. */
    predicate Valid() {
      Distinct(keys) && entries.Keys == set k | k in keys
    }

    /** `d[k] = v`: a new key goes to the end of the order, a key already
        present keeps its place and gets the new value. */
    function Put(k: K, v: V): (d: Dict<K, V>)
      ensures Valid() ==> d.Valid()
      ensures k in d.entries && d.entries[k] == v
      ensures d.entries.Keys == entries.Keys + {k}
      ensures forall k' :: k' != k && k' in entries ==> d.entries[k'] == entries[k']
      ensures keys <= d.keys
      ensures Valid() && k !in keys ==> d.keys == keys + [k]
      ensures Valid() && k in keys ==> d.keys == keys
    {
      Dict(if k in entries then keys else keys + [k], entries[k := v])
    }
  }

  /** `{}` */
  function Empty<K(==), V>(): (d: Dict<K, V>)
    ensures d.Valid() && d.keys == [] && d.entries == map[]
  {
    Dict([], map[])
  }

  /** The dict after `d[keys[i]] = values[i]` for i = 0, 1, ... in turn,
      starting from `{}`, so a later pair with a repeated key overwrites the
      value of an earlier one (FromPairsLast). */
  function FromPairs<K(==), V>(keys: seq<K>, values: seq<V>): (d: Dict<K, V>)
    requires |values| == |keys|
    ensures d.Valid()
    ensures d.entries.Keys == set k | k in keys
  {
    if |keys| == 0 then Empty()
    else
      var n := |keys| - 1;
      assert keys == keys[..n] + [keys[n]];
      FromPairs(keys[..n], values[..n]).Put(keys[n], values[n])
  }

  /** One more pair is one more assignment. */
  lemma FromPairsStep<K, V>(keys: seq<K>, values: seq<V>, i: nat)
    requires |values| == |keys| && i < |keys|
    ensures FromPairs(keys[..i + 1], values[..i + 1]) == FromPairs(keys[..i], values[..i]).Put(keys[i], values[i])
  {
    assert keys[..i + 1][..i] == keys[..i];
    assert values[..i + 1][..i] == values[..i];
  }

  /** With distinct keys the dict lists them in the order given. */
  lemma {:induction false} FromPairsOrder<K, V>(keys: seq<K>, values: seq<V>)
    requires |values| == |keys| && Distinct(keys)
    ensures FromPairs(keys, values).keys == keys
  {
    if |keys| > 0 {
      var n := |keys| - 1;
      DistinctInit(keys);
      FromPairsOrder(keys[..n], values[..n]);
      InitLast(keys);
    }
  }

  /** With distinct keys each key maps to the value at its own position. */
  lemma {:induction false} FromPairsAt<K, V>(keys: seq<K>, values: seq<V>, i: nat)
    requires |values| == |keys| && Distinct(keys) && i < |keys|
    ensures keys[i] in FromPairs(keys, values).entries
    ensures FromPairs(keys, values).entries[keys[i]] == values[i]
  {
    var n := |keys| - 1;
    if i < n {
      DistinctInit(keys);
      FromPairsAt(keys[..n], values[..n], i);
      assert keys[..n][i] == keys[i];
    }
  }

  /** An element that does not occur after position i, before the last
      position, is not the last element and does not occur after i in the
      rest either. */
  lemma LastBeforeEnd<T>(s: seq<T>, i: nat)
    requires i + 1 < |s| && s[i] !in s[i + 1..]
    ensures s[..|s| - 1][i] == s[i]
    ensures s[i] != s[|s| - 1]
    ensures s[i] !in s[..|s| - 1][i + 1..]
  {
    assert s[i + 1..][|s| - i - 2] == s[|s| - 1];
    assert s[..|s| - 1][i + 1..] == s[i + 1..][..|s| - i - 2];
  }

  /** Whatever the keys, a key maps to the value at its last position. */
  lemma {:induction false} FromPairsLast<K, V>(keys: seq<K>, values: seq<V>, i: nat)
    requires |values| == |keys| && i < |keys| && keys[i] !in keys[i + 1..]
    ensures keys[i] in FromPairs(keys, values).entries
    ensures FromPairs(keys, values).entries[keys[i]] == values[i]
  {
    var n := |keys| - 1;
    if i < n {
      LastBeforeEnd(keys, i);
      FromPairsLast(keys[..n], values[..n], i);
      assert values[..n][i] == values[i];
    }
  }

  /** Whatever the keys, every stored value is the value paired with its key
      at some position. */
  lemma {:induction false} FromPairsValues<K, V>(keys: seq<K>, values: seq<V>)
    requires |values| == |keys|
    ensures forall k :: k in FromPairs(keys, values).entries ==>
      exists i :: 0 <= i < |keys| && keys[i] == k && FromPairs(keys, values).entries[k] == values[i]
  {
    if |keys| > 0 {
      var n := |keys| - 1;
      FromPairsValues(keys[..n], values[..n]);
      var d' := FromPairs(keys[..n], values[..n]);
      var d := FromPairs(keys, values);
      forall k | k in d.entries
        ensures exists i :: 0 <= i < |keys| && keys[i] == k && d.entries[k] == values[i]
      {
        if k == keys[n] {
          assert keys[n] == k && d.entries[k] == values[n];
        } else {
          var i :| 0 <= i < n && keys[..n][i] == k && d'.entries[k] == values[..n][i];
          assert keys[i] == k && d.entries[k] == values[i];
        }
      }
    }
  }
}
