/** `Array.prototype.sort` with a comparator. Since ES2019 the sort is stable,
    so it is modelled by a stable insertion sort over an order `le`
    (`le(a, b)` stands for `compare(a, b) <= 0`). */
module Sorting {

  /** `le` is total and transitive: what a consistent comparator gives. */
  ghost predicate TotalPreorder<T(!new)>(le: (T, T) -> bool) {
    (forall a, b :: le(a, b) || le(b, a))
    && (forall a, b, c :: le(a, b) && le(b, c) ==> le(a, c))
  }

  predicate Sorted<T>(s: seq<T>, le: (T, T) -> bool) {
    forall i :: 0 < i < |s| ==> le(s[i - 1], s[i])
  }

  /** The elements of `s` that `le` cannot tell apart from `x`, in order. */
  function Ties<T>(s: seq<T>, le: (T, T) -> bool, x: T): seq<T> {
    if s == [] then []
    else if le(s[0], x) && le(x, s[0]) then [s[0]] + Ties(s[1..], le, x)
    else Ties(s[1..], le, x)
  }

  /** Places `x` before the first element it is not after. */
  function Insert<T>(x: T, t: seq<T>, le: (T, T) -> bool): (r: seq<T>)
    ensures |r| == |t| + 1
  {
    if t == [] || le(x, t[0]) then [x] + t else [t[0]] + Insert(x, t[1..], le)
  }

  function Sort<T>(s: seq<T>, le: (T, T) -> bool): (r: seq<T>)
    ensures |r| == |s|
  {
    if s == [] then [] else Insert(s[0], Sort(s[1..], le), le)
  }

  lemma {:induction false} InsertHead<T>(x: T, t: seq<T>, le: (T, T) -> bool)
    ensures Insert(x, t, le)[0] == x || (t != [] && Insert(x, t, le)[0] == t[0])
  {
  }

  lemma {:induction false} InsertSorted<T(!new)>(x: T, t: seq<T>, le: (T, T) -> bool)
    requires TotalPreorder(le) && Sorted(t, le)
    ensures Sorted(Insert(x, t, le), le)
    decreases |t|
  {
    if t != [] && !le(x, t[0]) {
      var r := Insert(x, t[1..], le);
      InsertSorted(x, t[1..], le);
      InsertHead(x, t[1..], le);
      assert le(t[0], r[0]) by {
        if r[0] != x { assert t[1..][0] == t[1]; }
      }
      assert Insert(x, t, le) == [t[0]] + r;
    }
  }

  lemma {:induction false} InsertPermutes<T>(x: T, t: seq<T>, le: (T, T) -> bool)
    ensures multiset(Insert(x, t, le)) == multiset([x] + t)
    decreases |t|
  {
    if t != [] && !le(x, t[0]) {
      InsertPermutes(x, t[1..], le);
      assert t == [t[0]] + t[1..];
    }
  }

  lemma {:induction false} InsertTies<T(!new)>(x: T, t: seq<T>, le: (T, T) -> bool, z: T)
    requires TotalPreorder(le)
    ensures Ties(Insert(x, t, le), le, z)
         == (if le(x, z) && le(z, x) then [x] + Ties(t, le, z) else Ties(t, le, z))
    decreases |t|
  {
    if t == [] || le(x, t[0]) {
      assert Insert(x, t, le) == [x] + t;
      assert ([x] + t)[1..] == t;
    } else {
      InsertTies(x, t[1..], le, z);
      var r := Insert(x, t[1..], le);
      assert Insert(x, t, le) == [t[0]] + r;
      assert ([t[0]] + r)[1..] == r;
      if le(x, z) && le(z, x) {
        // t[0] is strictly before x, so it is not a tie of z
        assert !(le(t[0], z) && le(z, t[0]));
      }
    }
  }

  /** The sort orders its result by `le`. */
  lemma {:induction false} SortSorted<T(!new)>(s: seq<T>, le: (T, T) -> bool)
    requires TotalPreorder(le)
    ensures Sorted(Sort(s, le), le)
    decreases |s|
  {
    if s != [] {
      SortSorted(s[1..], le);
      InsertSorted(s[0], Sort(s[1..], le), le);
    }
  }

  /** The sort rearranges its input: same elements, same multiplicities. */
  lemma {:induction false} SortPermutes<T>(s: seq<T>, le: (T, T) -> bool)
    ensures multiset(Sort(s, le)) == multiset(s)
    decreases |s|
  {
    if s != [] {
      SortPermutes(s[1..], le);
      InsertPermutes(s[0], Sort(s[1..], le), le);
      assert s == [s[0]] + s[1..];
    }
  }

  /** The sort is stable: elements `le` cannot tell apart keep their input order. */
  lemma {:induction false} SortStable<T(!new)>(s: seq<T>, le: (T, T) -> bool, z: T)
    requires TotalPreorder(le)
    ensures Ties(Sort(s, le), le, z) == Ties(s, le, z)
    decreases |s|
  {
    if s != [] {
      SortStable(s[1..], le, z);
      InsertTies(s[0], Sort(s[1..], le), le, z);
    }
  }

  lemma {:induction false} SortedPairwise<T(!new)>(s: seq<T>, le: (T, T) -> bool, i: int, j: int)
    requires TotalPreorder(le) && Sorted(s, le)
    requires 0 <= i < j < |s|
    ensures le(s[i], s[j])
    decreases j - i
  {
    if i + 1 < j {
      SortedPairwise(s, le, i + 1, j);
    }
  }
}
