/**
 * Counting by key, as the dashboard does with plain objects used as
 * dictionaries: `[...new Set(keys)]` and `obj[k] = (obj[k] || 0) + 1`.
 * Keys are listed in order of first appearance, the order in which
 * `Object.values` and a `Set` enumerate non-numeric string keys.
 */
module Grouping {

  predicate NoDuplicates<T(==)>(s: seq<T>)
  {
    forall i, j :: 0 <= i < j < |s| ==> s[i] != s[j]
  }

  /** The distinct keys of `keys`, in order of first appearance. */
  function Distinct(keys: seq<string>): (r: seq<string>)
    ensures forall k :: k in r <==> k in keys
    ensures NoDuplicates(r)
    ensures |r| <= |keys|
  {
    if keys == [] then []
    else
      var init := keys[..|keys| - 1];
      var last := keys[|keys| - 1];
      var r := Distinct(init);
      assert keys == init + [last];
      if last in r then r else r + [last]
  }

  /** How often `k` occurs in `keys`. */
  function Occurrences(keys: seq<string>, k: string): (n: nat)
    ensures n <= |keys|
    ensures n == 0 <==> k !in keys
  {
    if keys == [] then 0
    else
      var init := keys[..|keys| - 1];
      assert keys == init + [keys[|keys| - 1]];
      Occurrences(init, k) + (if keys[|keys| - 1] == k then 1 else 0)
  }

  /** The total number of occurrences in `keys` of the keys listed in `ks`. */
  function SumOccurrences(keys: seq<string>, ks: seq<string>): nat
  {
    if ks == [] then 0 else SumOccurrences(keys, ks[..|ks| - 1]) + Occurrences(keys, ks[|ks| - 1])
  }

  /** How often `x` occurs in `ks`. */
  function CountEqual(ks: seq<string>, x: string): nat
  {
    if ks == [] then 0 else CountEqual(ks[..|ks| - 1], x) + (if ks[|ks| - 1] == x then 1 else 0)
  }

  lemma {:induction false} CountEqualOfDistinct(ks: seq<string>, x: string)
    requires NoDuplicates(ks)
    ensures CountEqual(ks, x) == (if x in ks then 1 else 0)
  {
    if ks != [] {
      var init := ks[..|ks| - 1];
      assert ks == init + [ks[|ks| - 1]];
      CountEqualOfDistinct(init, x);
      if ks[|ks| - 1] == x {
        assert x !in init by {
          forall i | 0 <= i < |init| ensures init[i] != x {
            assert init[i] == ks[i];
          }
        }
      }
    }
  }

  lemma {:induction false} SumOccurrencesAppendKey(keys: seq<string>, x: string, ks: seq<string>)
    ensures SumOccurrences(keys + [x], ks) == SumOccurrences(keys, ks) + CountEqual(ks, x)
  {
    if ks != [] {
      SumOccurrencesAppendKey(keys, x, ks[..|ks| - 1]);
      assert (keys + [x])[..|keys + [x]| - 1] == keys;
    }
  }

  /** Counting every distinct key accounts for every element once. */
  lemma {:induction false} OccurrencesSum(keys: seq<string>)
    ensures SumOccurrences(keys, Distinct(keys)) == |keys|
  {
    if keys != [] {
      var init := keys[..|keys| - 1];
      var x := keys[|keys| - 1];
      assert keys == init + [x];
      OccurrencesSum(init);
      var d := Distinct(init);
      SumOccurrencesAppendKey(init, x, d);
      CountEqualOfDistinct(d, x);
      if x !in d {
        assert (d + [x])[..|d + [x]| - 1] == d;
      }
    }
  }
}
