/**
 * Dictionaries as the program uses them.
 *
 * A JavaScript object or Python dict that the program iterates over is an
 * ordered list of entries (both languages iterate in insertion order); one
 * that is only read and written key by key is a Dafny `map`.
 */
module Dicts {
  import opened Wrappers

  /** The entries of an iterated dictionary, in iteration order. */
  type Entries<V> = seq<(string, V)>

  /** The set of keys of an entry list. */
  function Keys<V>(d: Entries<V>): (ks: set<string>)
    ensures forall i :: 0 <= i < |d| ==> d[i].0 in ks
  {
    set i | 0 <= i < |d| :: d[i].0
  }

  /** A dictionary never holds the same key twice. */
  predicate DistinctKeys<V>(d: Entries<V>) {
    forall i, j :: 0 <= i < j < |d| ==> d[i].0 != d[j].0
  }

  /** `d[k]`: the value of the first entry with key `k`, or None when there is none. */
  function Get<V>(d: Entries<V>, k: string): (r: Option<V>)
    ensures r.Some? <==> k in Keys(d)
    ensures r.Some? ==> exists i :: 0 <= i < |d| && d[i].0 == k && d[i].1 == r.value
  {
    if |d| == 0 then None
    else if d[0].0 == k then Some(d[0].1)
    else
      assert Keys(d) == {d[0].0} + Keys(d[1..]);
      Get(d[1..], k)
  }

  /** `d[k]` for a key the caller knows is present. */
  function Lookup<V>(d: Entries<V>, k: string): V
    requires k in Keys(d)
  {
    Get(d, k).value
  }

  /** With distinct keys, looking up the key of an entry finds that entry's value. */
  lemma LookupEntry<V>(d: Entries<V>, i: int)
    requires DistinctKeys(d) && 0 <= i < |d|
    ensures d[i].0 in Keys(d) && Lookup(d, d[i].0) == d[i].1
  {
  }

  /** The keys of a suffix are keys of the whole. */
  lemma SuffixKeys<V>(d: Entries<V>, j: int)
    requires 0 <= j <= |d|
    ensures Keys(d[j..]) <= Keys(d)
  {
  }

  /**
   * `_update_subproperty` / `_updateSubproperty`: add `amount` to the counter
   * stored under `k`. The key must already be present: in the program an
   * absent key reads as `undefined` and the sum becomes NaN.
   */
  function AddAt(m: map<string, int>, k: string, amount: int): (r: map<string, int>)
    requires k in m
    ensures r.Keys == m.Keys
    ensures r[k] == m[k] + amount
    ensures forall j :: j in m && j != k ==> r[j] == m[j]
  {
    m[k := m[k] + amount]
  }
}
