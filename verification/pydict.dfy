/** Python's insertion-ordered `dict`, as a list of (key, value) pairs:
    assigning to a present key replaces its value in place, assigning to a
    new key appends it. */
module PyDict {
  import opened Wrappers

  type Dict<K, V> = seq<(K, V)>

  function KeyIndex<K(==), V>(d: Dict<K, V>, k: K): (r: int)
    ensures -1 <= r < |d|
    ensures r >= 0 ==> d[r].0 == k && forall j :: 0 <= j < r ==> d[j].0 != k
    ensures r == -1 ==> forall j :: 0 <= j < |d| ==> d[j].0 != k
  {
    if |d| == 0 then -1
    else
      var i := KeyIndex(d[..|d| - 1], k);
      if i >= 0 then i else if d[|d| - 1].0 == k then |d| - 1 else -1
  }

  /** `d.get(k)`, with None for a missing key. */
  function Get<K(==), V>(d: Dict<K, V>, k: K): Option<V>
  {
    var i := KeyIndex(d, k);
    if i < 0 then None else Some(d[i].1)
  }

  /** The keys in insertion order. */
  function Keys<K, V>(d: Dict<K, V>): (ks: seq<K>)
    ensures |ks| == |d| && forall i :: 0 <= i < |d| ==> ks[i] == d[i].0
  {
    seq(|d|, i requires 0 <= i < |d| => d[i].0)
  }

  ghost predicate DistinctKeys<K, V>(d: Dict<K, V>)
  {
    forall i, j :: 0 <= i < j < |d| ==> d[i].0 != d[j].0
  }

  /** `d[k] = v`. */
  function Put<K(==,!new), V>(d: Dict<K, V>, k: K, v: V): (r: Dict<K, V>)
    ensures Get(r, k) == Some(v)
    ensures forall k' :: k' != k ==> Get(r, k') == Get(d, k')
    ensures KeyIndex(d, k) >= 0 ==> Keys(r) == Keys(d)
    ensures KeyIndex(d, k) < 0 ==> Keys(r) == Keys(d) + [k] && r == d + [(k, v)]
    ensures DistinctKeys(d) ==> DistinctKeys(r)
  {
    var i := KeyIndex(d, k);
    var r := if i < 0 then d + [(k, v)] else d[i := (k, v)];
    assert forall k' :: k' != k ==> KeyIndex(r, k') == KeyIndex(d, k') by {
      forall k' | k' != k ensures KeyIndex(r, k') == KeyIndex(d, k') {
        if i < 0 {
          assert r[..|d|] == d;
        } else {
          ReplaceKeepsIndex(d, i, v, k');
        }
      }
    }
    if i >= 0 then
      ReplaceKeepsIndex(d, i, v, k);
      r
    else
      assert r[..|d|] == d;
      r
  }

  /** Assigning the next entry of a dict whose keys are new so far
      extends the prefix built so far by that entry. */
  lemma PutNext<K(!new), V>(d: Dict<K, V>, i: nat)
    requires i < |d| && forall j :: 0 <= j < i ==> d[j].0 != d[i].0
    ensures Put(d[..i], d[i].0, d[i].1) == d[..i + 1]
  {
    assert KeyIndex(d[..i], d[i].0) < 0;
  }

  lemma {:induction false} ReplaceKeepsIndex<K, V>(d: Dict<K, V>, i: nat, v: V, k': K)
    requires i < |d|
    ensures KeyIndex(d[i := (d[i].0, v)], k') == KeyIndex(d, k')
    decreases |d|
  {
    var r := d[i := (d[i].0, v)];
    if i < |d| - 1 {
      assert r[..|r| - 1] == d[..|d| - 1][i := (d[i].0, v)];
      ReplaceKeepsIndex(d[..|d| - 1], i, v, k');
    } else {
      assert r[..|r| - 1] == d[..|d| - 1];
    }
  }

  /** A dict built by assigning the pairs in order, as a dict display or
      comprehension does. */
  function FromPairs<K(==,!new), V>(ps: seq<(K, V)>): Dict<K, V>
  {
    if |ps| == 0 then [] else Put(FromPairs(ps[..|ps| - 1]), ps[|ps| - 1].0, ps[|ps| - 1].1)
  }

  /** Building from one more pair assigns that pair. */
  lemma FromPairsSnoc<K(!new), V>(ps: seq<(K, V)>, n: nat)
    requires n < |ps|
    ensures FromPairs(ps[..n + 1]) == Put(FromPairs(ps[..n]), ps[n].0, ps[n].1)
  {
    assert ps[..n + 1][..n] == ps[..n];
  }

  /** The value of the last pair with key `k`. */
  function LastValue<K(==), V>(ps: seq<(K, V)>, k: K): Option<V>
  {
    if |ps| == 0 then None
    else if ps[|ps| - 1].0 == k then Some(ps[|ps| - 1].1)
    else LastValue(ps[..|ps| - 1], k)
  }

  /** In a dict built from pairs, the last pair with a given key wins, and
      the keys are never repeated. */
  lemma {:induction false} FromPairsGet<K(!new), V>(ps: seq<(K, V)>, k: K)
    ensures Get(FromPairs(ps), k) == LastValue(ps, k)
    ensures DistinctKeys(FromPairs(ps))
  {
    if |ps| > 0 {
      FromPairsGet(ps[..|ps| - 1], k);
    }
  }

  /** In a dict without repeated keys, the entry at position i is what its
      key looks up. */
  lemma GetAt<K, V>(d: Dict<K, V>, i: nat)
    requires i < |d| && DistinctKeys(d)
    ensures Get(d, d[i].0) == Some(d[i].1)
  {
  }

  /** When no key repeats, the value paired with a key is the one found. */
  lemma {:induction false} LastValueAt<K, V>(ps: seq<(K, V)>, i: nat)
    requires i < |ps|
    requires forall a, b :: 0 <= a < b < |ps| ==> ps[a].0 != ps[b].0
    ensures LastValue(ps, ps[i].0) == Some(ps[i].1)
  {
    if i < |ps| - 1 {
      LastValueAt(ps[..|ps| - 1], i);
    }
  }
}
