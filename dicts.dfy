/** Python dictionaries, which remember the order their keys were first
    inserted in. */
module Dicts {
  import opened Sorting

  /** A dictionary with string keys: the keys in insertion order and the
      value of each. */
  datatype Dict<V> = Dict(keys: seq<string>, values: map<string, V>)

  /** Every key is listed once, and the listed keys are exactly those
      with a value. */
  ghost predicate Valid<V>(d: Dict<V>)
  {
    NoDups(d.keys) && forall k :: k in d.values <==> k in d.keys
  }

  /** A JSON object with text values, as `json.loads` and `csv2json`
      produce them. */
  type JsonObject = Dict<string>

  /** `dict()`. */
  function Empty<V>(): (d: Dict<V>)
    ensures Valid(d) && d.keys == [] && d.values == map[]
  {
    Dict([], map[])
  }

  /** `d[k] = v`: an existing key keeps its place and gets the new value;
      a new key goes after all the others. */
  function Put<V>(d: Dict<V>, k: string, v: V): (r: Dict<V>)
    requires Valid(d)
    ensures Valid(r)
    ensures r.values == d.values[k := v]
    ensures |r.keys| == |d.keys| + (if k in d.values then 0 else 1)
    ensures r.keys[..|d.keys|] == d.keys
  {
    if k in d.values then Dict(d.keys, d.values[k := v])
    else Dict(d.keys + [k], d.values[k := v])
  }

  /** The keys of a list of pairs, in order. */
  function KeysOf<V>(pairs: seq<(string, V)>): (keys: seq<string>)
    ensures |keys| == |pairs|
    ensures forall i :: 0 <= i < |pairs| ==> keys[i] == pairs[i].0
  {
    seq(|pairs|, i requires 0 <= i < |pairs| => pairs[i].0)
  }

  /** `d[k] = v` for each pair in turn, into an empty dictionary. */
  function PutAll<V>(pairs: seq<(string, V)>): (d: Dict<V>)
    ensures Valid(d)
  {
    if pairs == [] then Empty()
    else
      var n := |pairs| - 1;
      Put(PutAll(pairs[..n]), pairs[n].0, pairs[n].1)
  }

  /** One more pair is one more `d[k] = v`. */
  lemma PutAllSnoc<V>(pairs: seq<(string, V)>, k: string, v: V)
    ensures PutAll(pairs + [(k, v)]) == Put(PutAll(pairs), k, v)
  {
    assert (pairs + [(k, v)])[..|pairs|] == pairs;
  }

  /** Inserting the pairs one after the other orders the keys by first
      appearance. */
  lemma {:induction false} PutAllOrder<V>(pairs: seq<(string, V)>)
    ensures PutAll(pairs).keys == Distinct(KeysOf(pairs))
    decreases |pairs|
  {
    if pairs != [] {
      var n := |pairs| - 1;
      var init := PutAll(pairs[..n]);
      var ks := KeysOf(pairs);
      assert ks[..n] == KeysOf(pairs[..n]);
      assert init.keys == Distinct(ks[..n]) by {
        PutAllOrder(pairs[..n]);
      }
      assert Distinct(ks) == if ks[n] in init.keys then init.keys else init.keys + [ks[n]];
      assert PutAll(pairs).keys == if ks[n] in init.keys then init.keys else init.keys + [ks[n]];
    }
  }

  /** The value stored under the key of pair `j` is its value when no later
      pair has that key: a later pair overwrites an earlier one. */
  lemma {:induction false} PutAllLookup<V>(pairs: seq<(string, V)>, j: nat)
    requires j < |pairs|
    requires forall k :: j < k < |pairs| ==> pairs[k].0 != pairs[j].0
    ensures pairs[j].0 in PutAll(pairs).values
    ensures PutAll(pairs).values[pairs[j].0] == pairs[j].1
    decreases |pairs|
  {
    var n := |pairs| - 1;
    var init := PutAll(pairs[..n]);
    assert PutAll(pairs).values == init.values[pairs[n].0 := pairs[n].1];
    if j < n {
      assert pairs[..n][j] == pairs[j] && pairs[n].0 != pairs[j].0;
      PutAllLookup(pairs[..n], j);
    }
  }

  /** Only the keys of the pairs get a value. */
  lemma {:induction false} PutAllKeys<V>(pairs: seq<(string, V)>)
    ensures forall k :: k in PutAll(pairs).values <==> k in KeysOf(pairs)
    decreases |pairs|
  {
    if pairs != [] {
      var n := |pairs| - 1;
      PutAllKeys(pairs[..n]);
      assert KeysOf(pairs[..n]) + [pairs[n].0] == KeysOf(pairs);
    }
  }
}
