/** Counters kept per value of a closed vocabulary, as the two summaries keep them. */
module Counts {
  import opened Ordering

  /** `dict.fromkeys(values, 0)`. */
  function Zeros<K(!new)>(keys: seq<K>): (m: map<K, nat>)
    ensures forall k :: k in m <==> k in keys
    ensures forall k | k in m :: m[k] == 0
  {
    map k | k in keys :: 0
  }

  /** How many elements have the value `k` of `f`. */
  function Tally<T, K(==)>(f: T -> K, items: seq<T>, k: K): nat {
    if items == [] then 0
    else Tally(f, items[..|items| - 1], k) + if f(items[|items| - 1]) == k then 1 else 0
  }

  /** The counters hold, for every value, the number of elements that have it. */
  ghost predicate Tallies<T, K(!new)>(m: map<K, nat>, f: T -> K, items: seq<T>) {
    forall k :: k in m && m[k] == Tally(f, items, k)
  }

  function Sum<K(==)>(keys: seq<K>, m: map<K, nat>): nat {
    if keys == [] then 0
    else
      var last := keys[|keys| - 1];
      Sum(keys[..|keys| - 1], m) + if last in m then m[last] else 0
  }

  lemma {:induction false} OneMore<K>(keys: seq<K>, m: map<K, nat>, m': map<K, nat>, x: K)
    requires Distinct(keys)
    requires forall k | k in keys :: k in m && k in m' && m'[k] == m[k] + if k == x then 1 else 0
    ensures Sum(keys, m') == Sum(keys, m) + if x in keys then 1 else 0
  {
    if keys != [] {
      var front, last := keys[..|keys| - 1], keys[|keys| - 1];
      assert keys == front + [last];
      OneMore(front, m, m', x);
    }
  }

  lemma {:induction false} AllZero<K>(keys: seq<K>, m: map<K, nat>)
    requires forall k | k in keys :: k in m && m[k] == 0
    ensures Sum(keys, m) == 0
  {
    if keys != [] {
      var front, last := keys[..|keys| - 1], keys[|keys| - 1];
      assert keys == front + [last];
      AllZero(front, m);
    }
  }

  /** Over a complete list of values, the tallies add up to the number of elements. */
  lemma {:induction false} TalliesSum<T, K(!new)>(keys: seq<K>, f: T -> K, items: seq<T>, m: map<K, nat>)
    requires Distinct(keys) && (forall k :: k in keys) && Tallies(m, f, items)
    ensures Sum(keys, m) == |items|
  {
    if items == [] {
      AllZero(keys, m);
    } else {
      var front, last := items[..|items| - 1], f(items[|items| - 1]);
      var before := map k | k in m :: Tally(f, front, k);
      TalliesSum(keys, f, front, before);
      OneMore(keys, before, m, last);
    }
  }

  /** Bumping the counter of one more element keeps the counters true. */
  lemma CountNext<T, K(!new)>(m: map<K, nat>, f: T -> K, items: seq<T>, i: nat)
    requires i < |items| && Tallies(m, f, items[..i])
    ensures Tallies(m[f(items[i]) := m[f(items[i])] + 1], f, items[..i + 1])
  {
    assert items[..i + 1][..i] == items[..i] && items[..i + 1][i] == items[i];
  }
}
