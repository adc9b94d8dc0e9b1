/** The legacy `CategoryInformation` (features/categories/category_information.ts):
    the minutes of a span of days per sub category and per common category,
    each a list of `[name, minutes]` rows, with the total, the total without
    the base category and the length of the day. `add` merges two of them. */
module CategoryInformation {
  import opened Wrappers
  import opened Js
  import opened Sorting
  import opened Tally

  /** `totalDailyTime` is `null` (`None`) when a page lacks one of its times. */
  datatype Info = Info(sub: seq<Row>, com: seq<Row>, total: int, totalWithoutBase: int, totalDailyTime: Option<Num>)

  /** `new CategoryInformation([], [], 0, 0, 0)`. */
  const Empty := Info([], [], 0, 0, Some(N(0)))

  /** One row per name in both lists: what the calculator and `add` produce. */
  predicate Valid(info: Info) {
    UniqueKeys(info.sub) && UniqueKeys(info.com)
  }

  /** `x + y` on two `number | null` values: `null` counts as 0. */
  function AddDaily(x: Option<Num>, y: Option<Num>): Num {
    OrZero(x).Plus(OrZero(y))
  }

  /** A list copied into a map, the other list's rows added into it and the
      result sorted by decreasing minutes. */
  function Merged(rows: seq<Row>, other: seq<Row>): seq<Row> {
    SortDesc(Accumulate(FromRows(rows), other))
  }

  /** `new CategoryInformation(sub, com, ...)` with the totals of `a` and
      `b` added. */
  function WithTotals(a: Info, b: Info, sub: seq<Row>, com: seq<Row>): Info {
    Info(sub, com, a.total + b.total, a.totalWithoutBase + b.totalWithoutBase,
         Some(AddDaily(a.totalDailyTime, b.totalDailyTime)))
  }

  /** `a.add(b)`. */
  function AddSpec(a: Info, b: Info): Info {
    WithTotals(a, b, Merged(a.sub, b.sub), Merged(a.com, b.com))
  }

  /** `rows.forEach(row => map.set(row[0], (map.get(row[0]) || 0) + row[1]))`. */
  method AccumulateInto(m: seq<Row>, rows: seq<Row>) returns (acc: seq<Row>)
    ensures acc == Accumulate(m, rows)
  {
    acc := m;
    var i := 0;
    while i < |rows|
      invariant 0 <= i <= |rows|
      invariant acc == Accumulate(m, rows[..i])
    {
      assert rows[..i + 1][..i] == rows[..i];
      acc := Bump(acc, rows[i]);
      i := i + 1;
    }
    assert rows[..i] == rows;
  }

  /** `add`, with its two `forEach` loops. */
  method Add(a: Info, b: Info) returns (r: Info)
    ensures r == AddSpec(a, b)
  {
    var sub := AccumulateInto(FromRows(a.sub), b.sub);
    var com := AccumulateInto(FromRows(a.com), b.com);
    r := WithTotals(a, b, SortDesc(sub), SortDesc(com));
  }

  /** The merged list holds one row per name: the names of either list,
      each with its minutes in the first list (0 when absent) plus the
      minutes of the second list's rows with that name; it runs from the
      largest value down, rows of equal value in the order their names
      were first met, and it sums to the two lists' sums. */
  lemma MergedSpec(rows: seq<Row>, other: seq<Row>, z: Row)
    requires UniqueKeys(rows)
    ensures var r := Merged(rows, other);
      && UniqueKeys(r)
      && (forall n :: GetOr0(r, n) == GetOr0(rows, n) + SumFor(other, n))
      && (forall n :: HasKey(r, n) <==> HasKey(rows, n) || HasKey(other, n))
      && (forall i, j :: 0 <= i < j < |r| ==> r[i].minutes >= r[j].minutes)
      && multiset(r) == multiset(Accumulate(rows, other))
      && Ties(r, ByMinutesDesc(), z) == Ties(Accumulate(rows, other), ByMinutesDesc(), z)
      && SumAll(r) == SumAll(rows) + SumAll(other)
  {
    FromRowsUnique(rows);
    var m := Accumulate(rows, other);
    AccumulateUnique(rows, other);
    SortDescSpec(m, z);
    forall n
      ensures GetOr0(Merged(rows, other), n) == GetOr0(rows, n) + SumFor(other, n)
    {
      AccumulateGet(rows, other, n);
    }
    forall n
      ensures HasKey(Merged(rows, other), n) <==> HasKey(rows, n) || HasKey(other, n)
    {
      AccumulateHasKey(rows, other, n);
      GetHasKey(m, n);
      GetHasKey(Merged(rows, other), n);
    }
    AccumulateSum(rows, other);
  }

  /** Merging two maps adds their values name by name. */
  lemma MergedValues(rows: seq<Row>, other: seq<Row>, n: string)
    requires UniqueKeys(rows) && UniqueKeys(other)
    ensures GetOr0(Merged(rows, other), n) == GetOr0(rows, n) + GetOr0(other, n)
  {
    MergedSpec(rows, other, Row(n, 0));
    SumForUnique(other, n);
  }

  /** `add` of two valid values: each sub and common name is worth its
      minutes in both added up, the names are those of either, one row per
      name, each list sorted by decreasing minutes and summing to the two
      sums; the totals add up, a missing day length counting as 0. */
  lemma AddSums(a: Info, b: Info, n: string)
    requires Valid(a) && Valid(b)
    ensures var r := AddSpec(a, b);
      && Valid(r)
      && GetOr0(r.sub, n) == GetOr0(a.sub, n) + GetOr0(b.sub, n)
      && GetOr0(r.com, n) == GetOr0(a.com, n) + GetOr0(b.com, n)
      && (HasKey(r.sub, n) <==> HasKey(a.sub, n) || HasKey(b.sub, n))
      && (HasKey(r.com, n) <==> HasKey(a.com, n) || HasKey(b.com, n))
      && (forall i, j :: 0 <= i < j < |r.sub| ==> r.sub[i].minutes >= r.sub[j].minutes)
      && (forall i, j :: 0 <= i < j < |r.com| ==> r.com[i].minutes >= r.com[j].minutes)
      && SumAll(r.sub) == SumAll(a.sub) + SumAll(b.sub)
      && SumAll(r.com) == SumAll(a.com) + SumAll(b.com)
      && r.total == a.total + b.total
      && r.totalWithoutBase == a.totalWithoutBase + b.totalWithoutBase
  {
    MergedSpec(a.sub, b.sub, Row(n, 0));
    MergedSpec(a.com, b.com, Row(n, 0));
    MergedValues(a.sub, b.sub, n);
    MergedValues(a.com, b.com, n);
  }

  /** The day lengths add with `null` as 0 and NaN absorbing. */
  lemma AddDailyCases(x: Option<Num>, y: Option<Num>)
    ensures x.None? && y.None? ==> AddDaily(x, y) == N(0)
    ensures x.None? && y.Some? ==> AddDaily(x, y) == y.value
    ensures x == Some(NaN) || y == Some(NaN) ==> AddDaily(x, y) == NaN
    ensures x.Some? && x.value.N? && y.Some? && y.value.N? ==> AddDaily(x, y) == N(x.value.v + y.value.v)
    ensures AddDaily(x, y) == AddDaily(y, x)
  {
  }

  /** Name by name and in the totals, `a.add(b)` and `b.add(a)` agree; only
      the order among rows of equal minutes may differ. */
  lemma AddCommutes(a: Info, b: Info, n: string)
    requires Valid(a) && Valid(b)
    ensures GetOr0(AddSpec(a, b).sub, n) == GetOr0(AddSpec(b, a).sub, n)
    ensures GetOr0(AddSpec(a, b).com, n) == GetOr0(AddSpec(b, a).com, n)
  {
    AddLists(a, b);
    AddLists(b, a);
    MergedCommutes(a.sub, b.sub, n);
    MergedCommutes(a.com, b.com, n);
  }

  lemma MergedCommutes(x: seq<Row>, y: seq<Row>, n: string)
    requires UniqueKeys(x) && UniqueKeys(y)
    ensures GetOr0(Merged(x, y), n) == GetOr0(Merged(y, x), n)
  {
    MergedValues(x, y, n);
    MergedValues(y, x, n);
  }

  lemma AddLists(a: Info, b: Info)
    ensures AddSpec(a, b).sub == Merged(a.sub, b.sub) && AddSpec(a, b).com == Merged(a.com, b.com)
  {
  }

  /** A sorted list is its own sort. */
  lemma {:induction false} SortOfSorted(m: seq<Row>)
    requires forall i, j :: 0 <= i < j < |m| ==> m[i].minutes >= m[j].minutes
    ensures SortDesc(m) == m
    decreases |m|
  {
    if m != [] {
      SortOfSorted(m[1..]);
      assert m == [m[0]] + m[1..];
    }
  }

  /** Adding a valid value with sorted lists to the empty one gives back its
      lists and totals. */
  lemma AddToEmpty(b: Info)
    requires Valid(b)
    requires forall i, j :: 0 <= i < j < |b.sub| ==> b.sub[i].minutes >= b.sub[j].minutes
    requires forall i, j :: 0 <= i < j < |b.com| ==> b.com[i].minutes >= b.com[j].minutes
    ensures AddSpec(Empty, b).sub == b.sub && AddSpec(Empty, b).com == b.com
    ensures AddSpec(Empty, b).total == b.total && AddSpec(Empty, b).totalWithoutBase == b.totalWithoutBase
  {
    AccumulateOfUnique(b.sub);
    AccumulateOfUnique(b.com);
    SortOfSorted(b.sub);
    SortOfSorted(b.com);
  }
}
