/** The pie charts of the two `ChartManager`s (charts/chart_manager.ts and the
    older charts/charts.ts): the small slices at the end of the data are
    merged into one "other" slice before drawing. Drawing itself (the canvas
    and Chart.js) is not part of this model. */
module Charts {
  import opened Wrappers

  // ----- merging the small slices --------------------------------------------

  function Sum(vs: seq<int>): int {
    if vs == [] then 0 else Sum(vs[..|vs| - 1]) + vs[|vs| - 1]
  }

  lemma {:induction false} SumSplit(vs: seq<int>, i: nat)
    requires i <= |vs|
    ensures Sum(vs[..i]) + Sum(vs[i..]) == Sum(vs)
    decreases |vs|
  {
    if i < |vs| {
      var w := vs[..|vs| - 1];
      SumSplit(w, i);
      assert w[..i] == vs[..i];
      assert vs[i..][..|vs[i..]| - 1] == w[i..];
    } else {
      assert vs[..i] == vs;
    }
  }

  lemma SumSnoc(vs: seq<int>, x: int)
    ensures Sum(vs + [x]) == Sum(vs) + x
  {
    assert (vs + [x])[..|vs|] == vs;
  }

  /** `values[i] / total > 1 / 20`, read on integers: a positive total
      scales without changing the direction, a negative one reverses it,
      and over a zero total only a positive value gives +Infinity. */
  predicate Above(v: int, total: int) {
    if total > 0 then 20 * v > total
    else if total < 0 then 20 * v < total
    else v > 0
  }

  /** The last index below `n` whose value is above the ratio, or -1. */
  function LastAbove(vs: seq<int>, total: int, n: nat): (k: int)
    requires n <= |vs|
    ensures -1 <= k < n
    ensures k >= 0 ==> Above(vs[k], total)
    ensures forall j :: k < j < n ==> !Above(vs[j], total)
  {
    if n == 0 then -1
    else if Above(vs[n - 1], total) then n - 1
    else LastAbove(vs, total, n - 1)
  }

  /** `_shrinkToOther` as a function of the labels and values: everything
      after the last slice above a twentieth of the total becomes one slice
      labelled `other`, worth their sum. */
  function Shrink(ls: seq<string>, vs: seq<int>, other: string): (seq<string>, seq<int>)
    requires |ls| == |vs|
  {
    var i := LastAbove(vs, Sum(vs), |vs|) + 1;
    if i < |vs| then (ls[..i] + [other], vs[..i] + [Sum(vs[i..])]) else (ls, vs)
  }

  /** `_shrinkToOther` itself: a descending scan for the last slice above the
      ratio (`Cut`), then the tail is summed into its first cell, the label
      replaced, and both arrays cut after it. */
  method ShrinkToOther(labels: array<string>, values: array<int>, other: string)
    returns (ls: seq<string>, vs: seq<int>)
    requires labels.Length == values.Length
    modifies labels, values
    ensures (ls, vs) == Shrink(old(labels[..]), old(values[..]), other)
  {
    ghost var l0, v0 := labels[..], values[..];
    var total := Sum(values[..]);
    var i := Cut(values, total);
    if i < values.Length {
      values[i] := Sum(values[i..]);
      labels[i] := other;
      vs := values[..i + 1];
      ls := labels[..i + 1];
      CutTail(v0, i, Sum(v0[i..]));
      CutTail(l0, i, other);
    } else {
      vs := values[..];
      ls := labels[..];
    }
  }

  /** The scan of `_shrinkToOther`, starting one past the end (where
      `values[i]` is `undefined`): one past the last slice above the ratio. */
  method Cut(values: array<int>, total: int) returns (i: int)
    ensures i == LastAbove(values[..], total, values.Length) + 1
  {
    i := values.Length;
    while i >= 0
      invariant -1 <= i <= values.Length
      invariant i < values.Length ==> LastAbove(values[..], total, values.Length) == LastAbove(values[..], total, i + 1)
      decreases i + 1
    {
      if i < values.Length && Above(values[i], total) {
        break;
      }
      i := i - 1;
    }
    i := i + 1;
  }

  lemma CutTail<X>(s: seq<X>, i: nat, x: X)
    requires i < |s|
    ensures s[i := x][..i + 1] == s[..i] + [x]
  {
  }

  /** The merge keeps the total. */
  lemma ShrinkKeepsTotal(ls: seq<string>, vs: seq<int>, other: string)
    requires |ls| == |vs|
    ensures Sum(Shrink(ls, vs, other).1) == Sum(vs)
  {
    var i := LastAbove(vs, Sum(vs), |vs|) + 1;
    if i < |vs| {
      SumSnoc(vs[..i], Sum(vs[i..]));
      SumSplit(vs, i);
    }
  }

  /** The shape of the result: the slices up to the last one above the ratio
      are kept; if anything follows, it is one slice labelled `other` worth
      the rest, and none of the merged slices was above the ratio. */
  lemma ShrinkShape(ls: seq<string>, vs: seq<int>, other: string)
    requires |ls| == |vs|
    ensures var r := Shrink(ls, vs, other);
      var k := LastAbove(vs, Sum(vs), |vs|);
      |r.0| == |r.1| <= |vs|
      && (k >= 0 ==> Above(vs[k], Sum(vs)))
      && (forall j :: 0 <= j <= k ==> r.0[j] == ls[j] && r.1[j] == vs[j])
      && (k + 1 == |vs| ==> r == (ls, vs))
      && (k + 1 < |vs| ==>
            |r.1| == k + 2 && r.0[k + 1] == other && r.1[k + 1] == Sum(vs[k + 1..])
            && forall j :: k < j < |vs| ==> !Above(vs[j], Sum(vs)))
  {
  }

  /** When no slice is above the ratio, everything collapses into the one
      `other` slice. */
  lemma ShrinkCollapses(ls: seq<string>, vs: seq<int>, other: string)
    requires |ls| == |vs| && |vs| > 0
    requires forall j :: 0 <= j < |vs| ==> !Above(vs[j], Sum(vs))
    ensures Shrink(ls, vs, other) == ([other], [Sum(vs)])
  {
    assert LastAbove(vs, Sum(vs), |vs|) == -1;
    assert vs[0..] == vs;
    assert ls[..0] + [other] == [other];
    assert vs[..0] + [Sum(vs)] == [Sum(vs)];
  }

  /** The labels shown are input labels or `other`. */
  lemma ShrinkLabels(ls: seq<string>, vs: seq<int>, other: string)
    requires |ls| == |vs|
    ensures forall l :: l in Shrink(ls, vs, other).0 ==> l in ls || l == other
  {
    var i := LastAbove(vs, Sum(vs), |vs|) + 1;
    if i < |vs| {
      forall l | l in Shrink(ls, vs, other).0
        ensures l in ls || l == other
      {
        var j :| 0 <= j <= i && Shrink(ls, vs, other).0[j] == l;
        if j < i {
          assert l == ls[j];
        }
      }
    }
  }

  // ----- ChartManager.pie (chart_manager.ts) ---------------------------------

  /** `PieChartDataUnit`, without its tooltip; `caption` is its `label`. */
  datatype PieUnit = PieUnit(caption: string, value: int, color: string)

  /** What the pie shows, and the caller's data array after the call, which
      has `otherDataUnit` pushed onto it. */
  datatype PieChart = PieChart(labels: seq<string>, values: seq<int>, colors: seq<Option<string>>,
                               data: seq<PieUnit>)

  function Labels(data: seq<PieUnit>): (r: seq<string>)
    ensures |r| == |data| && forall k :: 0 <= k < |data| ==> r[k] == data[k].caption
  {
    seq(|data|, k requires 0 <= k < |data| => data[k].caption)
  }

  function Values(data: seq<PieUnit>): (r: seq<int>)
    ensures |r| == |data| && forall k :: 0 <= k < |data| ==> r[k] == data[k].value
  {
    seq(|data|, k requires 0 <= k < |data| => data[k].value)
  }

  /** `data.find((item) => item.caption == name)?.color`. */
  function ColorOf(data: seq<PieUnit>, name: string): (r: Option<string>)
    ensures r.Some? <==> exists k :: 0 <= k < |data| && data[k].caption == name
    ensures r.Some? ==> exists k :: 0 <= k < |data| && data[k].caption == name && data[k].color == r.value
  {
    if data == [] then None
    else if data[0].caption == name then Some(data[0].color)
    else
      var r := ColorOf(data[1..], name);
      assert forall k :: 1 <= k < |data| ==> data[k] == data[1..][k - 1];
      r
  }

  /** `labels.map((label) => data.find(...))`, with the colours. */
  function Colors(data: seq<PieUnit>, ls: seq<string>): (r: seq<Option<string>>)
    ensures |r| == |ls| && forall k :: 0 <= k < |ls| ==> r[k] == ColorOf(data, ls[k])
  {
    seq(|ls|, k requires 0 <= k < |ls| => ColorOf(data, ls[k]))
  }

  /** `pie`: empty data throws; otherwise the slices are merged with the
      ratio 1/20 under `otherDataUnit.label`, the unit is pushed onto the data
      and every label takes the colour of the first unit with that label. */
  function Pie(data: seq<PieUnit>, other: PieUnit): Result<PieChart> {
    if data == [] then Err("Data is empty")
    else
      var (ls, vs) := Shrink(Labels(data), Values(data), other.caption);
      var pushed := data + [other];
      Ok(PieChart(ls, vs, Colors(pushed, ls), pushed))
  }

  /** Every label shown finds a colour: its own unit or the pushed
      `otherDataUnit`, so `item!` never fails. */
  lemma PieColorsFound(data: seq<PieUnit>, other: PieUnit)
    requires data != []
    ensures var r := Pie(data, other);
      r.Ok? && r.value.data == data + [other]
      && |r.value.colors| == |r.value.labels| == |r.value.values|
      && forall k :: 0 <= k < |r.value.colors| ==> r.value.colors[k].Some?
  {
    var ls, vs := Labels(data), Values(data);
    var r := Shrink(ls, vs, other.caption);
    ShrinkLabels(ls, vs, other.caption);
    ShrinkShape(ls, vs, other.caption);
    var pushed := data + [other];
    var cs := Colors(pushed, r.0);
    assert Pie(data, other) == Ok(PieChart(r.0, r.1, cs, pushed));
    forall k | 0 <= k < |r.0|
      ensures cs[k].Some?
    {
      LabelColored(data, other, r.0[k]);
    }
  }

  lemma LabelColored(data: seq<PieUnit>, other: PieUnit, name: string)
    requires name in Labels(data) || name == other.caption
    ensures ColorOf(data + [other], name).Some?
  {
    var pushed := data + [other];
    if name == other.caption {
      assert pushed[|data|].caption == name;
    } else {
      var j :| 0 <= j < |data| && Labels(data)[j] == name;
      assert pushed[j].caption == name;
    }
  }

  /** The slices shown add up to the data's total. */
  lemma PieKeepsTotal(data: seq<PieUnit>, other: PieUnit)
    requires data != []
    ensures Pie(data, other).Ok? && Sum(Pie(data, other).value.values) == Sum(Values(data))
  {
    ShrinkKeepsTotal(Labels(data), Values(data), other.caption);
  }

  lemma PieOfEmpty(other: PieUnit)
    ensures Pie([], other) == Err("Data is empty")
  {
  }

  // ----- ChartManager.pie (charts.ts) ----------------------------------------

  const OtherLabel := "Остальное"

  /** The fixed colours of the older chart manager, by category label. */
  const CatToColors: map<string, string> := map[
    "Базированный" := "rgba(201, 203, 207, 0.7)",
    "Успешный" := "rgba(255, 159, 64, 0.7)",
    "Телесный" := "rgba(255, 140, 203, 0.7)",
    "Духовный" := "rgba(75, 192, 192, 0.7)",
    "Умелый" := "rgba(0, 128, 255, 0.7)",
    "Деятельный" := "rgba(255, 99, 132, 0.7)",
    "Весёлый" := "rgba(255, 206, 86, 0.7)",
    "Проёбушек" := "rgba(153, 102, 255, 0.7)",
    "Лёгкий" := "rgba(123, 239, 178, 0.7)",
    "Интересный" := "rgba(54, 162, 235, 0.7)",
    "Остальное" := "rgba(87, 117, 144, 0.7)"]

  datatype LegacyPie =
    | Paragraph(text: string)
    | LegacyChart(labels: seq<string>, values: seq<int>, colors: seq<Option<string>>)

  const EmptyText := "Учёт времени не заполнен.."

  function Lookup(m: map<string, string>, k: string): Option<string> {
    if k in m then Some(m[k]) else None
  }

  /** The older `pie`: empty data gives the paragraph instead of a chart;
      otherwise the slices are merged under "Остальное" and each label takes
      its fixed colour, if it has one. */
  function LegacyPieOf(data: seq<(string, int)>): LegacyPie {
    if data == [] then Paragraph(EmptyText)
    else
      var (ls, vs) := Shrink(PairLabels(data), PairValues(data), OtherLabel);
      LegacyChart(ls, vs, ColoursOf(ls))
  }

  /** `data.map((x) => x[0])`. */
  function PairLabels(data: seq<(string, int)>): (r: seq<string>)
    ensures |r| == |data| && forall k :: 0 <= k < |data| ==> r[k] == data[k].0
  {
    seq(|data|, k requires 0 <= k < |data| => data[k].0)
  }

  /** `data.map((x) => x[1])`. */
  function PairValues(data: seq<(string, int)>): (r: seq<int>)
    ensures |r| == |data| && forall k :: 0 <= k < |data| ==> r[k] == data[k].1
  {
    seq(|data|, k requires 0 <= k < |data| => data[k].1)
  }

  /** Each label's fixed colour, if it has one. */
  function ColoursOf(ls: seq<string>): (r: seq<Option<string>>)
    ensures |r| == |ls|
    ensures forall k :: 0 <= k < |ls| ==> r[k] == Lookup(CatToColors, ls[k])
  {
    seq(|ls|, k requires 0 <= k < |ls| => Lookup(CatToColors, ls[k]))
  }

  lemma OtherColour()
    ensures Lookup(CatToColors, OtherLabel) == Some("rgba(87, 117, 144, 0.7)")
  {
  }

  /** Empty data gives the paragraph and nothing else; otherwise a chart
      whose slices add up to the data's total, whose labels are the data's
      own or "Остальное" (the merged slice, with its colour), and whose every
      label takes its fixed colour. */
  lemma LegacyPieShape(data: seq<(string, int)>)
    ensures data == [] <==> LegacyPieOf(data).Paragraph?
    ensures data == [] ==> LegacyPieOf(data).text == EmptyText
    ensures data != [] ==>
      var r := LegacyPieOf(data);
      |r.labels| == |r.values| == |r.colors| <= |data|
      && Sum(r.values) == Sum(PairValues(data))
      && (forall l :: l in r.labels ==> l == OtherLabel || exists k :: 0 <= k < |data| && data[k].0 == l)
      && (forall k :: 0 <= k < |r.labels| ==> r.colors[k] == Lookup(CatToColors, r.labels[k]))
      && forall k :: 0 <= k < |r.labels| && r.labels[k] == OtherLabel ==> r.colors[k] == Some("rgba(87, 117, 144, 0.7)")
  {
    if data != [] {
      LegacyShape(data);
      LegacyTotal(data);
      LegacyLabels(data);
    }
  }

  lemma LegacyShape(data: seq<(string, int)>)
    requires data != []
    ensures var r := LegacyPieOf(data);
      r.LegacyChart? && |r.labels| == |r.values| == |r.colors| <= |data|
      && (forall k :: 0 <= k < |r.labels| ==> r.colors[k] == Lookup(CatToColors, r.labels[k]))
      && forall k :: 0 <= k < |r.labels| && r.labels[k] == OtherLabel ==> r.colors[k] == Some("rgba(87, 117, 144, 0.7)")
  {
    ShrinkShape(PairLabels(data), PairValues(data), OtherLabel);
    OtherColour();
  }

  lemma LegacyTotal(data: seq<(string, int)>)
    requires data != []
    ensures LegacyPieOf(data).LegacyChart? && Sum(LegacyPieOf(data).values) == Sum(PairValues(data))
  {
    ShrinkKeepsTotal(PairLabels(data), PairValues(data), OtherLabel);
  }

  lemma LegacyLabels(data: seq<(string, int)>)
    requires data != []
    ensures LegacyPieOf(data).LegacyChart?
    ensures forall l :: l in LegacyPieOf(data).labels ==> l == OtherLabel || exists k :: 0 <= k < |data| && data[k].0 == l
  {
    var ls, vs := PairLabels(data), PairValues(data);
    ShrinkLabels(ls, vs, OtherLabel);
    forall l | l in Shrink(ls, vs, OtherLabel).0 && l != OtherLabel
      ensures exists k :: 0 <= k < |data| && data[k].0 == l
    {
      var k :| 0 <= k < |ls| && ls[k] == l;
      assert data[k].0 == l;
    }
  }
}
