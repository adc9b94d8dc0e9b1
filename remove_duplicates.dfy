/** `removeDuplicates(array, getKey)`: keeps the first element of each key,
    in the order the keys first occur (a JavaScript `Map` iterates in
    insertion order). */
module RemoveDuplicates {

  /** The keys of `s`, element by element. */
  function Keys<T, K>(s: seq<T>, getKey: T -> K): (ks: seq<K>)
    ensures |ks| == |s|
    ensures forall j :: 0 <= j < |s| ==> ks[j] == getKey(s[j])
  {
    if s == [] then [] else Keys(s[..|s| - 1], getKey) + [getKey(s[|s| - 1])]
  }

  predicate DistinctKeys<T, K(==)>(s: seq<T>, getKey: T -> K) {
    forall i, j :: 0 <= i < j < |s| ==> getKey(s[i]) != getKey(s[j])
  }

  /** What the loop builds after reading `s`: an element is kept when its
      key has not been kept before. */
  function FirstOccurrences<T, K(==)>(s: seq<T>, getKey: T -> K): seq<T>
  {
    if s == [] then []
    else
      var r := FirstOccurrences(s[..|s| - 1], getKey);
      if getKey(s[|s| - 1]) in Keys(r, getKey) then r else r + [s[|s| - 1]]
  }

  /** Index of the first element of `s` with key `k`. */
  function FirstIndex<T, K(==)>(s: seq<T>, getKey: T -> K, k: K): (i: nat)
    requires k in Keys(s, getKey)
    ensures i < |s| && getKey(s[i]) == k
    ensures forall i' :: 0 <= i' < i ==> getKey(s[i']) != k
  {
    var p := s[..|s| - 1];
    if k in Keys(p, getKey) then FirstIndex(p, getKey, k) else |s| - 1
  }

  /** The Map and its insertion order hold exactly the kept elements. */
  ghost predicate Holds<T, K(!new)>(m: map<K, T>, order: seq<K>, kept: seq<T>, getKey: T -> K) {
    order == Keys(kept, getKey)
    && (forall k :: k in m <==> k in order)
    && (forall j :: 0 <= j < |order| ==> m[order[j]] == kept[j])
  }

  lemma HoldsKeep<T, K(!new)>(m: map<K, T>, order: seq<K>, kept: seq<T>, getKey: T -> K, item: T)
    requires Holds(m, order, kept, getKey)
    ensures getKey(item) in m <==> getKey(item) in Keys(kept, getKey)
    ensures getKey(item) !in m ==>
      Holds(m[getKey(item) := item], order + [getKey(item)], kept + [item], getKey)
  {
    KeysSnoc(kept, item, getKey);
  }

  method RemoveDuplicates<T, K(==, !new)>(items: seq<T>, getKey: T -> K) returns (r: seq<T>)
    ensures r == FirstOccurrences(items, getKey)
  {
    var m: map<K, T> := map[];
    var order: seq<K> := [];   // insertion order of the Map's keys
    ghost var kept: seq<T> := [];
    for i := 0 to |items|
      invariant kept == FirstOccurrences(items[..i], getKey)
      invariant Holds(m, order, kept, getKey)
    {
      var item := items[i];
      var key := getKey(item);
      FirstOccurrencesStep(items, i, getKey);
      HoldsKeep(m, order, kept, getKey, item);
      if key !in m {
        m := m[key := item];
        order := order + [key];
        kept := kept + [item];
      }
    }
    assert items[..|items|] == items;
    r := Values(m, order);
    assert |r| == |kept| && forall j :: 0 <= j < |r| ==> r[j] == kept[j];
  }

  /** `Array.from(map.values())`: the values in the Map's key order. */
  method Values<T, K>(m: map<K, T>, order: seq<K>) returns (r: seq<T>)
    requires forall j :: 0 <= j < |order| ==> order[j] in m
    ensures |r| == |order| && forall j :: 0 <= j < |order| ==> r[j] == m[order[j]]
  {
    r := [];
    for j := 0 to |order|
      invariant |r| == j && forall j' :: 0 <= j' < j ==> r[j'] == m[order[j']]
    {
      r := r + [m[order[j]]];
    }
  }

  lemma FirstOccurrencesStep<T, K>(items: seq<T>, i: int, getKey: T -> K)
    requires 0 <= i < |items|
    ensures var r := FirstOccurrences(items[..i], getKey);
      FirstOccurrences(items[..i + 1], getKey)
      == if getKey(items[i]) in Keys(r, getKey) then r else r + [items[i]]
  {
    assert items[..i + 1][..i] == items[..i];
  }

  lemma KeysSnoc<T, K>(s: seq<T>, x: T, getKey: T -> K)
    ensures Keys(s + [x], getKey) == Keys(s, getKey) + [getKey(x)]
  {
    assert (s + [x])[..|s|] == s;
  }

  // ----- properties -------------------------------------------------------

  /** Every kept key is an input key, and every input key is kept. */
  lemma {:induction false} KeysCovered<T, K>(s: seq<T>, getKey: T -> K, k: K)
    ensures k in Keys(FirstOccurrences(s, getKey), getKey) <==> k in Keys(s, getKey)
  {
    if s != [] {
      var p := s[..|s| - 1];
      KeysCovered(p, getKey, k);
      var r := FirstOccurrences(p, getKey);
      if getKey(s[|s| - 1]) !in Keys(r, getKey) {
        assert Keys(r + [s[|s| - 1]], getKey) == Keys(r, getKey) + [getKey(s[|s| - 1])];
      }
      assert Keys(s, getKey) == Keys(p, getKey) + [getKey(s[|s| - 1])];
    }
  }

  /** No two kept elements share a key. */
  lemma {:induction false} KeysDistinct<T, K>(s: seq<T>, getKey: T -> K)
    ensures DistinctKeys(FirstOccurrences(s, getKey), getKey)
  {
    if s != [] {
      KeysDistinct(s[..|s| - 1], getKey);
    }
  }

  /** Each kept element is the first input element with its key, and kept
      elements appear in the order their keys first occur; so the result is
      a subsequence of the input. */
  lemma KeptAreFirst<T, K>(s: seq<T>, getKey: T -> K)
    ensures var r := FirstOccurrences(s, getKey);
      (forall j :: 0 <= j < |r| ==>
         getKey(r[j]) in Keys(s, getKey) && r[j] == s[FirstIndex(s, getKey, getKey(r[j]))])
      && (forall j1, j2 :: 0 <= j1 < j2 < |r| ==>
            FirstIndex(s, getKey, getKey(r[j1])) < FirstIndex(s, getKey, getKey(r[j2])))
  {
    var r := FirstOccurrences(s, getKey);
    forall j | 0 <= j < |r|
      ensures getKey(r[j]) in Keys(s, getKey) && r[j] == s[FirstIndex(s, getKey, getKey(r[j]))]
    {
      KeptIsFirstAt(s, getKey, j);
    }
    forall j1, j2 | 0 <= j1 < j2 < |r|
      ensures getKey(r[j1]) in Keys(s, getKey) && getKey(r[j2]) in Keys(s, getKey)
      ensures FirstIndex(s, getKey, getKey(r[j1])) < FirstIndex(s, getKey, getKey(r[j2]))
    {
      KeptInOrderAt(s, getKey, j1, j2);
    }
  }

  /** On a key the prefix already has, the first index does not move. */
  lemma FirstIndexSnoc<T, K>(s: seq<T>, getKey: T -> K, k: K)
    requires s != [] && k in Keys(s[..|s| - 1], getKey)
    ensures k in Keys(s, getKey)
    ensures FirstIndex(s, getKey, k) == FirstIndex(s[..|s| - 1], getKey, k)
  {
    assert Keys(s, getKey) == Keys(s[..|s| - 1], getKey) + [getKey(s[|s| - 1])];
  }

  /** On a key the prefix does not have, the first index is the last one. */
  lemma FirstIndexLast<T, K>(s: seq<T>, getKey: T -> K)
    requires s != [] && getKey(s[|s| - 1]) !in Keys(s[..|s| - 1], getKey)
    ensures getKey(s[|s| - 1]) in Keys(s, getKey)
    ensures FirstIndex(s, getKey, getKey(s[|s| - 1])) == |s| - 1
  {
    assert Keys(s, getKey) == Keys(s[..|s| - 1], getKey) + [getKey(s[|s| - 1])];
  }

  lemma FirstOccurrencesSnoc<T, K>(s: seq<T>, getKey: T -> K)
    requires s != []
    ensures var r := FirstOccurrences(s[..|s| - 1], getKey);
      FirstOccurrences(s, getKey)
      == if getKey(s[|s| - 1]) in Keys(r, getKey) then r else r + [s[|s| - 1]]
  {
  }

  lemma {:induction false} KeptIsFirstAt<T, K>(s: seq<T>, getKey: T -> K, j: int)
    requires 0 <= j < |FirstOccurrences(s, getKey)|
    ensures var r := FirstOccurrences(s, getKey);
      getKey(r[j]) in Keys(s, getKey) && r[j] == s[FirstIndex(s, getKey, getKey(r[j]))]
  {
    var p := s[..|s| - 1];
    var rp := FirstOccurrences(p, getKey);
    FirstOccurrencesSnoc(s, getKey);
    if j < |rp| {
      KeptIsFirstAt(p, getKey, j);
      FirstIndexSnoc(s, getKey, getKey(rp[j]));
      assert s[FirstIndex(p, getKey, getKey(rp[j]))] == p[FirstIndex(p, getKey, getKey(rp[j]))];
    } else {
      KeysCovered(p, getKey, getKey(s[|s| - 1]));
      FirstIndexLast(s, getKey);
    }
  }

  lemma {:induction false} KeptInOrderAt<T, K>(s: seq<T>, getKey: T -> K, j1: int, j2: int)
    requires 0 <= j1 < j2 < |FirstOccurrences(s, getKey)|
    ensures var r := FirstOccurrences(s, getKey);
      getKey(r[j1]) in Keys(s, getKey) && getKey(r[j2]) in Keys(s, getKey)
      && FirstIndex(s, getKey, getKey(r[j1])) < FirstIndex(s, getKey, getKey(r[j2]))
  {
    var p := s[..|s| - 1];
    var rp := FirstOccurrences(p, getKey);
    FirstOccurrencesSnoc(s, getKey);
    KeptIsFirstAt(p, getKey, j1);
    FirstIndexSnoc(s, getKey, getKey(rp[j1]));
    if j2 < |rp| {
      KeptInOrderAt(p, getKey, j1, j2);
      FirstIndexSnoc(s, getKey, getKey(rp[j2]));
    } else {
      KeysCovered(p, getKey, getKey(s[|s| - 1]));
      FirstIndexLast(s, getKey);
    }
  }

  /** Keeping first occurrences of a list whose keys are already distinct
      changes nothing. */
  lemma {:induction false} DistinctUnchanged<T, K>(s: seq<T>, getKey: T -> K)
    requires DistinctKeys(s, getKey)
    ensures FirstOccurrences(s, getKey) == s
  {
    if s != [] {
      var p := s[..|s| - 1];
      assert DistinctKeys(p, getKey) by {
        forall i, j | 0 <= i < j < |p| ensures getKey(p[i]) != getKey(p[j]) {
          assert p[i] == s[i] && p[j] == s[j];
        }
      }
      DistinctUnchanged(p, getKey);
      assert getKey(s[|s| - 1]) !in Keys(p, getKey) by {
        forall j | 0 <= j < |p| ensures Keys(p, getKey)[j] != getKey(s[|s| - 1]) {
          assert p[j] == s[j];
        }
      }
      assert p + [s[|s| - 1]] == s;
    }
  }

  /** Removing duplicates twice is the same as removing them once. */
  lemma Idempotent<T, K>(s: seq<T>, getKey: T -> K)
    ensures FirstOccurrences(FirstOccurrences(s, getKey), getKey) == FirstOccurrences(s, getKey)
  {
    KeysDistinct(s, getKey);
    DistinctUnchanged(FirstOccurrences(s, getKey), getKey);
  }

  lemma {:induction false} DistinctCard<T, K>(s: seq<T>, getKey: T -> K)
    requires DistinctKeys(s, getKey)
    ensures |set k | k in Keys(s, getKey)| == |s|
  {
    if s != [] {
      var p := s[..|s| - 1];
      var last := getKey(s[|s| - 1]);
      assert DistinctKeys(p, getKey) by {
        forall i, j | 0 <= i < j < |p| ensures getKey(p[i]) != getKey(p[j]) {
          assert p[i] == s[i] && p[j] == s[j];
        }
      }
      DistinctCard(p, getKey);
      assert Keys(s, getKey) == Keys(p, getKey) + [last];
      assert (set k | k in Keys(s, getKey)) == (set k | k in Keys(p, getKey)) + {last};
      assert last !in Keys(p, getKey) by {
        forall j | 0 <= j < |p| ensures Keys(p, getKey)[j] != last {
          assert p[j] == s[j];
        }
      }
    }
  }

  /** The output has one element per distinct input key. */
  lemma LengthIsDistinctKeyCount<T, K(!new)>(s: seq<T>, getKey: T -> K)
    ensures |FirstOccurrences(s, getKey)| == |set k | k in Keys(s, getKey)|
  {
    var r := FirstOccurrences(s, getKey);
    KeysDistinct(s, getKey);
    DistinctCard(r, getKey);
    var a := set k | k in Keys(r, getKey);
    var b := set k | k in Keys(s, getKey);
    forall k ensures k in a <==> k in b {
      KeysCovered(s, getKey, k);
    }
    assert a == b;
  }
}
