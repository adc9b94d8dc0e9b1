/** A JavaScript `Map<string, number>` used as a tally, the way the legacy
    category code uses it: rows in insertion order, at most one per key;
    `set` of a key already present keeps the row's place, a new key is
    appended. `Array.from(map)` is the row list itself. */
module Tally {
  import opened Wrappers
  import opened Sorting

  /** One `[name, minutes]` pair. */
  datatype Row = Row(name: string, minutes: int)

  predicate HasKey(m: seq<Row>, k: string) {
    exists i :: 0 <= i < |m| && m[i].name == k
  }

  predicate UniqueKeys(m: seq<Row>) {
    forall i, j :: 0 <= i < j < |m| ==> m[i].name != m[j].name
  }

  /** `map.get(k)`; `None` is `undefined`. */
  function Get(m: seq<Row>, k: string): Option<int> {
    if m == [] then None
    else if m[0].name == k then Some(m[0].minutes)
    else Get(m[1..], k)
  }

  /** `map.get(k) || 0`. */
  function GetOr0(m: seq<Row>, k: string): int {
    Get(m, k).GetOr(0)
  }

  /** `map.set(k, v)`. */
  function Set(m: seq<Row>, k: string, v: int): seq<Row> {
    if m == [] then [Row(k, v)]
    else if m[0].name == k then [Row(k, v)] + m[1..]
    else [m[0]] + Set(m[1..], k, v)
  }

  /** `map.set(row[0], (map.get(row[0]) || 0) + row[1])`. */
  function Bump(m: seq<Row>, row: Row): seq<Row> {
    Set(m, row.name, GetOr0(m, row.name) + row.minutes)
  }

  /** `rows.forEach(row => bump(map, row))`, left to right. */
  function Accumulate(m: seq<Row>, rows: seq<Row>): seq<Row> {
    if rows == [] then m
    else Bump(Accumulate(m, rows[..|rows| - 1]), rows[|rows| - 1])
  }

  /** `new Map(rows)`: the rows set one after the other, so a later row
      overwrites an earlier one with the same key. */
  function FromRows(rows: seq<Row>): seq<Row> {
    if rows == [] then []
    else Set(FromRows(rows[..|rows| - 1]), rows[|rows| - 1].name, rows[|rows| - 1].minutes)
  }

  /** The sum of the minutes of the rows. */
  function SumAll(m: seq<Row>): int {
    if m == [] then 0 else m[0].minutes + SumAll(m[1..])
  }

  /** The sum of the minutes of the rows named `n`. */
  function SumFor(rows: seq<Row>, n: string): int {
    if rows == [] then 0
    else SumFor(rows[..|rows| - 1], n) + (if rows[|rows| - 1].name == n then rows[|rows| - 1].minutes else 0)
  }

  /** `rows.filter(a => a[0] != b).map(a => a[1]).reduce((a, b) => a + b, 0)`. */
  function SumExcept(m: seq<Row>, b: string): int {
    if m == [] then 0 else (if m[0].name != b then m[0].minutes else 0) + SumExcept(m[1..], b)
  }

  /** `(a, b) => b[1] - a[1]`: larger values first. */
  function ByMinutesDesc(): (Row, Row) -> bool {
    (a: Row, b: Row) => a.minutes >= b.minutes
  }

  /** `Array.from(map).sort((a, b) => b[1] - a[1])`. */
  function SortDesc(m: seq<Row>): seq<Row> {
    Sort(m, ByMinutesDesc())
  }

  // ----- lookup ------------------------------------------------------------

  lemma UniqueTail(m: seq<Row>)
    requires UniqueKeys(m) && m != []
    ensures UniqueKeys(m[1..])
  {
    forall i, j | 0 <= i < j < |m| - 1
      ensures m[1..][i].name != m[1..][j].name
    {
      assert m[1..][i] == m[i + 1] && m[1..][j] == m[j + 1];
    }
  }

  lemma HeadKeyUnique(m: seq<Row>)
    requires UniqueKeys(m) && m != []
    ensures !HasKey(m[1..], m[0].name)
  {
    forall i | 0 <= i < |m[1..]|
      ensures m[1..][i].name != m[0].name
    {
      assert m[1..][i] == m[i + 1];
    }
  }

  lemma UniquePrefix(m: seq<Row>)
    requires UniqueKeys(m) && m != []
    ensures UniqueKeys(m[..|m| - 1])
    ensures !HasKey(m[..|m| - 1], m[|m| - 1].name)
  {
  }

  lemma HasKeyTail(m: seq<Row>, k: string)
    requires m != []
    ensures HasKey(m, k) <==> m[0].name == k || HasKey(m[1..], k)
  {
    if HasKey(m[1..], k) {
      var i :| 0 <= i < |m[1..]| && m[1..][i].name == k;
      assert m[i + 1] == m[1..][i];
    }
    if HasKey(m, k) && m[0].name != k {
      var i :| 0 <= i < |m| && m[i].name == k;
      assert m[1..][i - 1] == m[i];
    }
  }

  lemma HasKeySnoc(m: seq<Row>, x: Row, k: string)
    ensures HasKey(m + [x], k) <==> HasKey(m, k) || x.name == k
  {
    if HasKey(m, k) {
      var i :| 0 <= i < |m| && m[i].name == k;
      assert (m + [x])[i] == m[i];
    }
    assert (m + [x])[|m|] == x;
  }

  /** A key has a value exactly when some row carries it, and the value is
      that of a row with the key. */
  lemma {:induction false} GetHasKey(m: seq<Row>, k: string)
    ensures Get(m, k).Some? <==> HasKey(m, k)
    ensures Get(m, k).Some? ==> Row(k, Get(m, k).value) in m
    decreases |m|
  {
    if m != [] {
      HasKeyTail(m, k);
      if m[0].name != k {
        GetHasKey(m[1..], k);
      }
    }
  }

  /** With one row per key, the value of a key is that of its row. */
  lemma {:induction false} GetUnique(m: seq<Row>, k: string, v: int)
    requires UniqueKeys(m)
    ensures Get(m, k) == Some(v) <==> Row(k, v) in m
    decreases |m|
  {
    if m != [] {
      UniqueTail(m);
      if m[0].name == k {
        if Row(k, v) in m {
          var i :| 0 <= i < |m| && m[i] == Row(k, v);
          assert i == 0;
        }
      } else {
        GetUnique(m[1..], k, v);
        assert Row(k, v) in m <==> Row(k, v) in m[1..] by {
          assert m == [m[0]] + m[1..];
        }
      }
    }
  }

  // ----- `set` -------------------------------------------------------------

  /** After `set(k, v)`, `k` reads `v` and every other key reads as before. */
  lemma {:induction false} SetGet(m: seq<Row>, k: string, v: int, j: string)
    ensures Get(Set(m, k, v), j) == if j == k then Some(v) else Get(m, j)
    decreases |m|
  {
    if m != [] && m[0].name != k {
      SetGet(m[1..], k, v, j);
      assert Set(m, k, v)[1..] == Set(m[1..], k, v);
    } else if m != [] {
      assert Set(m, k, v)[1..] == m[1..];
    }
  }

  /** A new key is appended; a present key keeps its row's place and every
      row keeps its key. */
  lemma {:induction false} SetShape(m: seq<Row>, k: string, v: int)
    ensures !HasKey(m, k) ==> Set(m, k, v) == m + [Row(k, v)]
    ensures HasKey(m, k) ==> |Set(m, k, v)| == |m|
    ensures HasKey(m, k) ==> forall i :: 0 <= i < |m| ==> Set(m, k, v)[i].name == m[i].name
    decreases |m|
  {
    if m != [] {
      HasKeyTail(m, k);
      if m[0].name != k {
        SetShape(m[1..], k, v);
        var r := Set(m[1..], k, v);
        assert Set(m, k, v) == [m[0]] + r;
        if !HasKey(m, k) {
          assert [m[0]] + (m[1..] + [Row(k, v)]) == m + [Row(k, v)];
        } else {
          forall i | 0 <= i < |m|
            ensures Set(m, k, v)[i].name == m[i].name
          {
            if i > 0 { assert Set(m, k, v)[i] == r[i - 1]; }
          }
        }
      }
    }
  }

  lemma SetUnique(m: seq<Row>, k: string, v: int)
    requires UniqueKeys(m)
    ensures UniqueKeys(Set(m, k, v))
  {
    SetShape(m, k, v);
  }

  /** The keys after `set(k, v)` are the old ones and `k`. */
  lemma SetHasKey(m: seq<Row>, k: string, v: int, j: string)
    ensures HasKey(Set(m, k, v), j) <==> j == k || HasKey(m, j)
  {
    SetGet(m, k, v, j);
    GetHasKey(m, j);
    GetHasKey(Set(m, k, v), j);
  }

  /** `set` replaces the key's old value (0 when absent) in the sum. */
  lemma {:induction false} SetSum(m: seq<Row>, k: string, v: int)
    ensures SumAll(Set(m, k, v)) == SumAll(m) - GetOr0(m, k) + v
    decreases |m|
  {
    if m != [] {
      if m[0].name == k {
        assert Set(m, k, v)[1..] == m[1..];
      } else {
        SetSum(m[1..], k, v);
        assert Set(m, k, v)[1..] == Set(m[1..], k, v);
      }
    }
  }

  // ----- accumulation ------------------------------------------------------

  /** After accumulating `rows`, each key holds its old value (0 when
      absent) plus the minutes of the rows with that key. */
  lemma {:induction false} AccumulateGet(m: seq<Row>, rows: seq<Row>, n: string)
    ensures GetOr0(Accumulate(m, rows), n) == GetOr0(m, n) + SumFor(rows, n)
    decreases |rows|
  {
    if rows != [] {
      var init, x := rows[..|rows| - 1], rows[|rows| - 1];
      AccumulateGet(m, init, n);
      var a := Accumulate(m, init);
      SetGet(a, x.name, GetOr0(a, x.name) + x.minutes, n);
    }
  }

  /** The keys after accumulating are the old ones and those of the rows. */
  lemma {:induction false} AccumulateHasKey(m: seq<Row>, rows: seq<Row>, n: string)
    ensures HasKey(Accumulate(m, rows), n) <==> HasKey(m, n) || HasKey(rows, n)
    decreases |rows|
  {
    if rows != [] {
      var init, x := rows[..|rows| - 1], rows[|rows| - 1];
      AccumulateHasKey(m, init, n);
      var a := Accumulate(m, init);
      SetHasKey(a, x.name, GetOr0(a, x.name) + x.minutes, n);
      HasKeySnoc(init, x, n);
      assert init + [x] == rows;
    }
  }

  lemma {:induction false} AccumulateUnique(m: seq<Row>, rows: seq<Row>)
    requires UniqueKeys(m)
    ensures UniqueKeys(Accumulate(m, rows))
    decreases |rows|
  {
    if rows != [] {
      var init, x := rows[..|rows| - 1], rows[|rows| - 1];
      AccumulateUnique(m, init);
      var a := Accumulate(m, init);
      SetUnique(a, x.name, GetOr0(a, x.name) + x.minutes);
    }
  }

  lemma {:induction false} SumAllSnoc(m: seq<Row>, x: Row)
    ensures SumAll(m + [x]) == SumAll(m) + x.minutes
    decreases |m|
  {
    if m != [] {
      SumAllSnoc(m[1..], x);
      assert (m + [x])[1..] == m[1..] + [x];
    } else {
      assert ([] + [x])[1..] == [];
    }
  }

  /** Accumulating adds the rows' minutes to the sum. */
  lemma {:induction false} AccumulateSum(m: seq<Row>, rows: seq<Row>)
    ensures SumAll(Accumulate(m, rows)) == SumAll(m) + SumAll(rows)
    decreases |rows|
  {
    if rows != [] {
      var init, x := rows[..|rows| - 1], rows[|rows| - 1];
      AccumulateSum(m, init);
      var a := Accumulate(m, init);
      SetSum(a, x.name, GetOr0(a, x.name) + x.minutes);
      SumAllSnoc(init, x);
      assert init + [x] == rows;
    }
  }

  /** `new Map(rows)` has one row per key, and of rows with one row per key
      it is a copy in the same order. */
  lemma {:induction false} FromRowsUnique(rows: seq<Row>)
    ensures UniqueKeys(FromRows(rows))
    ensures UniqueKeys(rows) ==> FromRows(rows) == rows
    decreases |rows|
  {
    if rows != [] {
      var init, x := rows[..|rows| - 1], rows[|rows| - 1];
      FromRowsUnique(init);
      SetUnique(FromRows(init), x.name, x.minutes);
      if UniqueKeys(rows) {
        UniquePrefix(rows);
        SetShape(init, x.name, x.minutes);
        assert init + [Row(x.name, x.minutes)] == rows;
      }
    }
  }

  /** With one row per key, the sum of the rows with key `n` is its value. */
  lemma {:induction false} SumForUnique(rows: seq<Row>, n: string)
    requires UniqueKeys(rows)
    ensures SumFor(rows, n) == GetOr0(rows, n)
  {
    FromRowsUnique(rows);
    AccumulateGet([], rows, n);
    AccumulateOfUnique(rows);
  }

  /** Accumulating rows with one row per key into an empty map copies them. */
  lemma {:induction false} AccumulateOfUnique(rows: seq<Row>)
    requires UniqueKeys(rows)
    ensures Accumulate([], rows) == rows
    decreases |rows|
  {
    if rows != [] {
      var init, x := rows[..|rows| - 1], rows[|rows| - 1];
      UniquePrefix(rows);
      AccumulateOfUnique(init);
      GetHasKey(init, x.name);
      SetShape(init, x.name, x.minutes);
      assert init + [Row(x.name, x.minutes)] == rows;
    }
  }

  /** Leaving out key `b` from a map removes exactly its value from the sum. */
  lemma {:induction false} SumExceptUnique(m: seq<Row>, b: string)
    requires UniqueKeys(m)
    ensures SumExcept(m, b) == SumAll(m) - GetOr0(m, b)
    decreases |m|
  {
    if m != [] {
      UniqueTail(m);
      SumExceptUnique(m[1..], b);
      if m[0].name == b {
        GetHasKey(m[1..], b);
        HeadKeyUnique(m);
      }
    }
  }

  // ----- sorting -----------------------------------------------------------

  lemma DescOrders()
    ensures TotalPreorder(ByMinutesDesc())
  {
  }

  lemma InsertMembers(x: Row, t: seq<Row>, y: Row)
    ensures y in Insert(x, t, ByMinutesDesc()) <==> y == x || y in t
  {
    InsertPermutes(x, t, ByMinutesDesc());
    assert y in multiset(Insert(x, t, ByMinutesDesc())) <==> y in multiset([x] + t);
  }

  lemma SortMembers(m: seq<Row>, y: Row)
    ensures y in SortDesc(m) <==> y in m
  {
    SortPermutes(m, ByMinutesDesc());
    assert y in multiset(SortDesc(m)) <==> y in multiset(m);
  }

  lemma {:induction false} InsertUnique(x: Row, t: seq<Row>)
    requires UniqueKeys(t) && !HasKey(t, x.name)
    ensures UniqueKeys(Insert(x, t, ByMinutesDesc()))
    decreases |t|
  {
    var le := ByMinutesDesc();
    if t != [] && !le(x, t[0]) {
      UniqueTail(t);
      HasKeyTail(t, x.name);
      InsertUnique(x, t[1..]);
      var r := Insert(x, t[1..], le);
      assert Insert(x, t, le) == [t[0]] + r;
      forall i | 0 <= i < |r|
        ensures r[i].name != t[0].name
      {
        InsertMembers(x, t[1..], r[i]);
        if r[i] != x {
          var j :| 0 <= j < |t[1..]| && t[1..][j] == r[i];
          assert t[j + 1] == r[i];
        }
      }
      forall i, j | 0 <= i < j < |r| + 1
        ensures ([t[0]] + r)[i].name != ([t[0]] + r)[j].name
      {
        if i > 0 { assert ([t[0]] + r)[i] == r[i - 1]; }
        assert ([t[0]] + r)[j] == r[j - 1];
      }
    } else {
      forall i, j | 0 <= i < j < |t| + 1
        ensures ([x] + t)[i].name != ([x] + t)[j].name
      {
        if i > 0 { assert ([x] + t)[i] == t[i - 1]; }
        assert ([x] + t)[j] == t[j - 1];
      }
    }
  }

  lemma {:induction false} SortUnique(m: seq<Row>)
    requires UniqueKeys(m)
    ensures UniqueKeys(SortDesc(m))
    decreases |m|
  {
    if m != [] {
      UniqueTail(m);
      SortUnique(m[1..]);
      var t := SortDesc(m[1..]);
      forall i | 0 <= i < |t|
        ensures t[i].name != m[0].name
      {
        SortMembers(m[1..], t[i]);
        var j :| 0 <= j < |m[1..]| && m[1..][j] == t[i];
        assert m[j + 1] == t[i];
      }
      InsertUnique(m[0], t);
    }
  }

  /** Sorting a map's rows keeps a key's value. */
  lemma SortGet(m: seq<Row>, n: string)
    requires UniqueKeys(m)
    ensures Get(SortDesc(m), n) == Get(m, n)
  {
    SortUnique(m);
    var r := SortDesc(m);
    GetHasKey(r, n);
    GetHasKey(m, n);
    if Get(r, n).Some? {
      SortMembers(m, Row(n, Get(r, n).value));
      GetUnique(m, n, Get(r, n).value);
    } else if Get(m, n).Some? {
      SortMembers(m, Row(n, Get(m, n).value));
      GetUnique(r, n, Get(m, n).value);
    }
  }

  lemma {:induction false} InsertSum(x: Row, t: seq<Row>)
    ensures SumAll(Insert(x, t, ByMinutesDesc())) == x.minutes + SumAll(t)
    decreases |t|
  {
    var le := ByMinutesDesc();
    if t != [] && !le(x, t[0]) {
      InsertSum(x, t[1..]);
      assert Insert(x, t, le)[1..] == Insert(x, t[1..], le);
    } else {
      assert ([x] + t)[1..] == t;
    }
  }

  /** Sorting keeps the sum. */
  lemma {:induction false} SortSum(m: seq<Row>)
    ensures SumAll(SortDesc(m)) == SumAll(m)
    decreases |m|
  {
    if m != [] {
      SortSum(m[1..]);
      InsertSum(m[0], SortDesc(m[1..]));
    }
  }

  /** The sorted rows run from the largest value down, are a rearrangement
      of the map's rows, keep rows of equal value in insertion order, and
      keep one row per key, each key's value and the sum. */
  lemma SortDescSpec(m: seq<Row>, z: Row)
    requires UniqueKeys(m)
    ensures forall i, j :: 0 <= i < j < |SortDesc(m)| ==> SortDesc(m)[i].minutes >= SortDesc(m)[j].minutes
    ensures multiset(SortDesc(m)) == multiset(m)
    ensures Ties(SortDesc(m), ByMinutesDesc(), z) == Ties(m, ByMinutesDesc(), z)
    ensures UniqueKeys(SortDesc(m))
    ensures forall n :: Get(SortDesc(m), n) == Get(m, n)
    ensures SumAll(SortDesc(m)) == SumAll(m)
  {
    var r := SortDesc(m);
    DescOrders();
    SortSorted(m, ByMinutesDesc());
    forall i, j | 0 <= i < j < |r|
      ensures r[i].minutes >= r[j].minutes
    {
      SortedPairwise(r, ByMinutesDesc(), i, j);
    }
    SortPermutes(m, ByMinutesDesc());
    SortStable(m, ByMinutesDesc(), z);
    SortUnique(m);
    forall n
      ensures Get(r, n) == Get(m, n)
    {
      SortGet(m, n);
    }
    SortSum(m);
  }
}
