/** `CategoryPrinter` (printers/category_printer.ts): the table of a day's or
    a period's buckets, pack by pack, and the per-category histories of the
    line chart, with the days a category was not logged filled in. The DOM
    and the chart drawing are not part of this model. */
module CategoryPrinter {
  import opened Wrappers
  import opened Js
  import opened CategoryModels
  import Sorting
  import ItemModel

  // ----- packs ---------------------------------------------------------------

  /** `packs.find((p) => p.type === packType)`. */
  function FindPack(packs: seq<CategoryPack>, packType: string): (r: Option<CategoryPack>)
    ensures r.Some? <==> exists k :: 0 <= k < |packs| && packs[k].packType == packType
    ensures r.Some? ==> exists k :: 0 <= k < |packs| && packs[k] == r.value
                          && packs[k].packType == packType
                          && forall j :: 0 <= j < k ==> packs[j].packType != packType
  {
    if packs == [] then None
    else if packs[0].packType == packType then Some(packs[0])
    else
      var r := FindPack(packs[1..], packType);
      assert forall k :: 1 <= k < |packs| ==> packs[k] == packs[1..][k - 1];
      r
  }

  /** `findPack`, whose error names the pack type. */
  function PackInfo(packs: seq<CategoryPack>, packType: string): (r: Result<CategoryPack>)
    ensures r.Ok? <==> FindPack(packs, packType).Some?
    ensures r.Ok? ==> r.value.packType == packType
    ensures r.Err? ==> r.msg == "Info for pack type " + packType + " not found"
  {
    match FindPack(packs, packType)
    case Some(p) => Ok(p)
    case None => Err("Info for pack type " + packType + " not found")
  }

  /** The packs of `makeTable`, one per type in order; the first unknown type
      throws. */
  function TablePacks(packs: seq<CategoryPack>, types: seq<string>): (r: Result<seq<CategoryPack>>)
    ensures r.Ok? ==>
      |r.value| == |types| && forall k :: 0 <= k < |types| ==> FindPack(packs, types[k]) == Some(r.value[k])
    ensures r.Ok? <==> forall k :: 0 <= k < |types| ==> FindPack(packs, types[k]).Some?
    ensures r.Err? ==>
      exists k ::
        0 <= k < |types| && FindPack(packs, types[k]).None? && r.msg == "Pack type " + types[k] + " not found"
        && forall j :: 0 <= j < k ==> FindPack(packs, types[j]).Some?
  {
    if types == [] then Ok([])
    else
      match FindPack(packs, types[0])
      case None => Err("Pack type " + types[0] + " not found")
      case Some(p) =>
        var rest := TablePacks(packs, types[1..]);
        assert forall k :: 1 <= k < |types| ==> types[k] == types[1..][k - 1];
        if rest.Err? then Err(rest.msg) else Ok([p] + rest.value)
  }

  // ----- the table -------------------------------------------------------------

  /** `[pack.prettyName, "Время"]` per pack, flattened. */
  function Titles(packs: seq<CategoryPack>): seq<string> {
    if packs == [] then [] else Titles(packs[..|packs| - 1]) + [packs[|packs| - 1].prettyName, "Время"]
  }

  lemma {:induction false} TitlesShape(packs: seq<CategoryPack>)
    ensures |Titles(packs)| == 2 * |packs|
    ensures forall j :: 0 <= j < |packs| ==>
      Titles(packs)[2 * j] == packs[j].prettyName && Titles(packs)[2 * j + 1] == "Время"
  {
    if packs != [] {
      TitlesShape(packs[..|packs| - 1]);
    }
  }

  /** The buckets of the pack's categories that have one, in the pack's
      order. */
  function Present(names: seq<string>, averages: map<string, CalculatedCategory>): (r: seq<CalculatedCategory>)
    ensures forall x :: x in r <==> exists n :: n in names && n in averages && averages[n] == x
  {
    if names == [] then []
    else
      var init := Present(names[..|names| - 1], averages);
      var n := names[|names| - 1];
      assert forall m :: m in names <==> m in names[..|names| - 1] || m == n;
      if n in averages then init + [averages[n]] else init
  }

  /** `sort((a, b) => b.totalMinutes - a.totalMinutes)`: more time first. */
  function ByTimeDesc(): (CalculatedCategory, CalculatedCategory) -> bool {
    (a: CalculatedCategory, b: CalculatedCategory) => b.totalMinutes <= a.totalMinutes
  }

  lemma ByTimeDescOrders()
    ensures Sorting.TotalPreorder(ByTimeDesc())
  {
  }

  /** One column of the table. */
  function Column(pack: CategoryPack, averages: map<string, CalculatedCategory>): seq<CalculatedCategory> {
    Sorting.Sort(Present(pack.categories, averages), ByTimeDesc())
  }

  /** A column lists exactly the buckets of the pack's categories, each as
      often as the pack names it, from the most time to the least. */
  lemma ColumnSpec(pack: CategoryPack, averages: map<string, CalculatedCategory>)
    ensures var c := Column(pack, averages);
      multiset(c) == multiset(Present(pack.categories, averages))
      && (forall x :: x in c <==> exists n :: n in pack.categories && n in averages && averages[n] == x)
      && forall i, j :: 0 <= i < j < |c| ==> c[i].totalMinutes >= c[j].totalMinutes
  {
    var p := Present(pack.categories, averages);
    var c := Column(pack, averages);
    Sorting.SortPermutes(p, ByTimeDesc());
    ByTimeDescOrders();
    Sorting.SortSorted(p, ByTimeDesc());
    forall x
      ensures x in c <==> x in p
    {
      assert x in c <==> x in multiset(c);
      assert x in p <==> x in multiset(p);
    }
    forall i, j | 0 <= i < j < |c|
      ensures c[i].totalMinutes >= c[j].totalMinutes
    {
      Sorting.SortedPairwise(c, ByTimeDesc(), i, j);
    }
  }

  /** `Math.round(value / days)` for a positive number of days. */
  function RoundDiv(value: int, days: nat): int
    requires days > 0
  {
    (2 * value + days) / (2 * days)
  }

  lemma RoundDivNearest(value: int, days: nat)
    requires days > 0
    ensures var q := RoundDiv(value, days);
      2 * days * q <= 2 * value + days < 2 * days * (q + 1)
  {
  }

  /** `unit2tip`: the time (per day when averaging over a positive number of
      days), then the share of the total. The share's text —
      `((value / totalMinutes) * 100).toFixed(1)` with a comma — is a
      parameter: it is floating-point formatting. */
  function UnitTip(value: int, total: int, days: Option<nat>, percent: (int, int) -> string): string {
    var perDay := days.Some? && days.value != 0;
    ItemModel.FormatMinutes(if perDay then RoundDiv(value, days.value) else value)
      + (if perDay then " / д." else "") + "; " + percent(value, total) + "%"
  }

  function Cell(col: seq<CalculatedCategory>, i: nat, tip: int -> string): seq<string> {
    if i < |col| then [col[i].prettyName, tip(col[i].totalMinutes)] else ["", ""]
  }

  /** Row `i`: two cells per column, blank where the column is shorter. */
  function Row(cols: seq<seq<CalculatedCategory>>, i: nat, tip: int -> string): seq<string> {
    if cols == [] then [] else Row(cols[..|cols| - 1], i, tip) + Cell(cols[|cols| - 1], i, tip)
  }

  lemma SliceOfLeft(a: seq<string>, b: seq<string>, lo: nat, hi: nat)
    requires lo <= hi <= |a|
    ensures (a + b)[lo..hi] == a[lo..hi]
  {
  }

  lemma SliceOfRight(a: seq<string>, b: seq<string>)
    ensures (a + b)[|a|..|a| + |b|] == b
  {
  }

  lemma {:induction false} RowLength(cols: seq<seq<CalculatedCategory>>, i: nat, tip: int -> string)
    ensures |Row(cols, i, tip)| == 2 * |cols|
    decreases |cols|
  {
    if cols != [] {
      RowLength(cols[..|cols| - 1], i, tip);
    }
  }

  /** The cells of column `j` sit at `2 j` and `2 j + 1`. */
  lemma {:induction false} RowAt(cols: seq<seq<CalculatedCategory>>, i: nat, tip: int -> string, j: nat)
    requires j < |cols|
    ensures |Row(cols, i, tip)| == 2 * |cols|
    ensures Row(cols, i, tip)[2 * j..2 * j + 2] == Cell(cols[j], i, tip)
    decreases |cols|
  {
    var init := cols[..|cols| - 1];
    RowLength(cols, i, tip);
    RowLength(init, i, tip);
    var a, b := Row(init, i, tip), Cell(cols[|cols| - 1], i, tip);
    assert Row(cols, i, tip) == a + b;
    if j < |init| {
      RowAt(init, i, tip, j);
      SliceOfLeft(a, b, 2 * j, 2 * j + 2);
      assert cols[j] == init[j];
    } else {
      SliceOfRight(a, b);
    }
  }

  /** `Math.max(...columns.map((c) => c.length))`, 0 when there are no
      columns (where the source's -Infinity gives no rows either). */
  function MaxLen(cols: seq<seq<CalculatedCategory>>): (m: nat)
    ensures forall j :: 0 <= j < |cols| ==> |cols[j]| <= m
    ensures cols != [] ==> exists j :: 0 <= j < |cols| && |cols[j]| == m
  {
    if cols == [] then 0
    else
      var init := MaxLen(cols[..|cols| - 1]);
      var last := |cols[|cols| - 1]|;
      assert forall j :: 0 <= j < |cols| - 1 ==> cols[j] == cols[..|cols| - 1][j];
      if |cols| > 1 && init >= last then init else last
  }

  /** The loop of `makeTable` that pushes one row per index up to the
      longest column. */
  method MakeRows(cols: seq<seq<CalculatedCategory>>, tip: int -> string) returns (rows: seq<seq<string>>)
    ensures |rows| == MaxLen(cols)
    ensures forall i :: 0 <= i < |rows| ==> rows[i] == Row(cols, i, tip)
  {
    rows := [];
    var i := 0;
    var n := MaxLen(cols);
    while i < n
      invariant 0 <= i <= n && |rows| == i
      invariant forall k :: 0 <= k < i ==> rows[k] == Row(cols, k, tip)
    {
      rows := rows + [Row(cols, i, tip)];
      i := i + 1;
    }
  }

  datatype Table = Table(titles: seq<string>, rows: seq<seq<string>>, onEmptyHtml: string)

  function Columns(packs: seq<CategoryPack>, averages: map<string, CalculatedCategory>): (r: seq<seq<CalculatedCategory>>)
    ensures |r| == |packs| && forall j :: 0 <= j < |packs| ==> r[j] == Column(packs[j], averages)
  {
    seq(|packs|, j requires 0 <= j < |packs| => Column(packs[j], averages))
  }

  /** `makeTable`: the packs by type, a title pair per pack, one column per
      pack and the rows across them; `pagesCount` is the number of pages,
      used only when averaging. */
  method MakeTable(st: CategoriesState, calculated: CalculatedCategories, packTypes: seq<string>, avg: bool,
                   pagesCount: nat, percent: (int, int) -> string) returns (r: Result<Table>)
    ensures r.Ok? <==> TablePacks(st.packs, packTypes).Ok?
    ensures r.Err? ==> r == Err(TablePacks(st.packs, packTypes).msg)
    ensures r.Ok? ==>
      var packs := TablePacks(st.packs, packTypes).value;
      var cols := Columns(packs, calculated.averages);
      var tip := (v: int) => UnitTip(v, calculated.totalMinutes, if avg then Some(pagesCount) else None, percent);
      r.value.titles == Titles(packs) && r.value.onEmptyHtml == "Времяучёт не заполнен"
      && |r.value.rows| == MaxLen(cols)
      && forall i :: 0 <= i < |r.value.rows| ==> r.value.rows[i] == Row(cols, i, tip)
  {
    var packs := TablePacks(st.packs, packTypes);
    if packs.Err? {
      return Err(packs.msg);
    }
    var cols := Columns(packs.value, calculated.averages);
    var days := if avg then Some(pagesCount) else None;
    var rows := MakeRows(cols, (v: int) => UnitTip(v, calculated.totalMinutes, days, percent));
    return Ok(Table(Titles(packs.value), rows, "Времяучёт не заполнен"));
  }

  /** The table's layout: two titles per pack, as many rows as the longest
      column, two cells per pack in each row, blank pairs below a short
      column. */
  lemma TableLayout(packs: seq<CategoryPack>, averages: map<string, CalculatedCategory>, tip: int -> string, i: nat, j: nat)
    requires j < |packs|
    ensures var cols := Columns(packs, averages);
      |Titles(packs)| == 2 * |packs|
      && |Row(cols, i, tip)| == 2 * |packs|
      && (i < |cols[j]| ==> Row(cols, i, tip)[2 * j..2 * j + 2] == [cols[j][i].prettyName, tip(cols[j][i].totalMinutes)])
      && (i >= |cols[j]| ==> Row(cols, i, tip)[2 * j..2 * j + 2] == ["", ""])
      && |cols[j]| <= MaxLen(cols)
  {
    TitlesShape(packs);
    RowAt(Columns(packs, averages), i, tip, j);
  }

  // ----- the line chart ----------------------------------------------------------

  /** `a.date.localeCompare(b.date) <= 0`, read as code-unit order, which
      is what it is on the diary's ISO dates. */
  function ByDate(): (CalculatedCategoryDated, CalculatedCategoryDated) -> bool {
    (a: CalculatedCategoryDated, b: CalculatedCategoryDated) => StrLe(a.date, b.date)
  }

  lemma ByDateOrders()
    ensures Sorting.TotalPreorder(ByDate())
  {
    forall a: CalculatedCategoryDated, b: CalculatedCategoryDated
      ensures StrLe(a.date, b.date) || StrLe(b.date, a.date)
    {
      StrLeTotal(a.date, b.date);
    }
    forall a: CalculatedCategoryDated, b: CalculatedCategoryDated, c: CalculatedCategoryDated
      | StrLe(a.date, b.date) && StrLe(b.date, c.date)
      ensures StrLe(a.date, c.date)
    {
      StrLeTransitive(a.date, b.date, c.date);
    }
  }

  /** What a filler copies from the first entry of the history. */
  datatype Meta = Meta(prettyName: string, color: Option<string>, hideOnLineChart: bool)

  function MetaOf(d: CalculatedCategoryDated): Meta {
    Meta(d.cat.prettyName, d.cat.color, d.cat.hideOnLineChart)
  }

  /** The entry put in for a page the category has no entry for: no time,
      no units, the first entry's name, colour and visibility. */
  function Filler(name: string, m: Meta, date: string): CalculatedCategoryDated {
    Dated(CalculatedCategory(name, m.prettyName, 0, m.color, m.hideOnLineChart, []), date)
  }

  /** The gap-fill, as a function: the page dates are walked in step with
      the entries; a page whose date the entry at the same place does not
      have gets a filler there. */
  function Fill(cats: seq<CalculatedCategoryDated>, dates: seq<string>, name: string, m: Meta): seq<CalculatedCategoryDated>
    decreases |dates|
  {
    if dates == [] then cats
    else if cats != [] && cats[0].date == dates[0] then [cats[0]] + Fill(cats[1..], dates[1..], name, m)
    else [Filler(name, m, dates[0])] + Fill(cats, dates[1..], name, m)
  }

  /** The fillers `Fill` puts in, in order. */
  function Fillers(cats: seq<CalculatedCategoryDated>, dates: seq<string>, name: string, m: Meta): seq<CalculatedCategoryDated>
    decreases |dates|
  {
    if dates == [] then []
    else if cats != [] && cats[0].date == dates[0] then Fillers(cats[1..], dates[1..], name, m)
    else [Filler(name, m, dates[0])] + Fillers(cats, dates[1..], name, m)
  }

  /** After the fill the i-th entry is dated by the i-th page. */
  lemma {:induction false} FillDates(cats: seq<CalculatedCategoryDated>, dates: seq<string>, name: string, m: Meta)
    ensures |Fill(cats, dates, name, m)| >= |dates|
    ensures forall i :: 0 <= i < |dates| ==> Fill(cats, dates, name, m)[i].date == dates[i]
    decreases |dates|
  {
    if dates != [] {
      if cats != [] && cats[0].date == dates[0] {
        FillDates(cats[1..], dates[1..], name, m);
      } else {
        FillDates(cats, dates[1..], name, m);
      }
    }
  }

  /** The fill only inserts: the entries are the old ones together with the
      fillers, and every filler is dated by a page. */
  lemma FillOnlyInserts(cats: seq<CalculatedCategoryDated>, dates: seq<string>, name: string, m: Meta)
    ensures multiset(Fill(cats, dates, name, m)) == multiset(cats) + multiset(Fillers(cats, dates, name, m))
    ensures forall x :: x in Fillers(cats, dates, name, m) ==> exists d :: d in dates && x == Filler(name, m, d)
  {
    FillMultiset(cats, dates, name, m);
    FillersDated(cats, dates, name, m);
  }

  lemma {:induction false} FillMultiset(cats: seq<CalculatedCategoryDated>, dates: seq<string>, name: string, m: Meta)
    ensures multiset(Fill(cats, dates, name, m)) == multiset(cats) + multiset(Fillers(cats, dates, name, m))
    decreases |dates|
  {
    if dates != [] {
      if cats != [] && cats[0].date == dates[0] {
        FillMultiset(cats[1..], dates[1..], name, m);
        assert Fill(cats, dates, name, m) == [cats[0]] + Fill(cats[1..], dates[1..], name, m);
        assert Fillers(cats, dates, name, m) == Fillers(cats[1..], dates[1..], name, m);
        assert cats == [cats[0]] + cats[1..];
      } else {
        FillMultiset(cats, dates[1..], name, m);
        assert Fill(cats, dates, name, m) == [Filler(name, m, dates[0])] + Fill(cats, dates[1..], name, m);
        assert Fillers(cats, dates, name, m) == [Filler(name, m, dates[0])] + Fillers(cats, dates[1..], name, m);
      }
    }
  }

  lemma {:induction false} FillersDated(cats: seq<CalculatedCategoryDated>, dates: seq<string>, name: string, m: Meta)
    ensures forall x :: x in Fillers(cats, dates, name, m) ==> exists d :: d in dates && x == Filler(name, m, d)
    decreases |dates|
  {
    if dates != [] {
      if cats != [] && cats[0].date == dates[0] {
        FillersDated(cats[1..], dates[1..], name, m);
      } else {
        FillersDated(cats, dates[1..], name, m);
      }
      assert forall d :: d in dates[1..] ==> d in dates;
    }
  }

  /** Entries already dated by the pages are left as they are; so filling a
      filled history changes nothing. */
  lemma {:induction false} FillOfFilled(cats: seq<CalculatedCategoryDated>, dates: seq<string>, name: string, m: Meta)
    requires |cats| >= |dates| && forall i :: 0 <= i < |dates| ==> cats[i].date == dates[i]
    ensures Fill(cats, dates, name, m) == cats
    ensures Fillers(cats, dates, name, m) == []
    decreases |dates|
  {
    if dates != [] {
      FillOfFilled(cats[1..], dates[1..], name, m);
      assert cats == [cats[0]] + cats[1..];
    }
  }

  lemma FillIdempotent(cats: seq<CalculatedCategoryDated>, dates: seq<string>, name: string, m: Meta, m': Meta)
    ensures Fill(Fill(cats, dates, name, m), dates, name, m') == Fill(cats, dates, name, m)
  {
    FillDates(cats, dates, name, m);
    FillOfFilled(Fill(cats, dates, name, m), dates, name, m');
  }

  /** A filler: the page's date, the history's name, no time, no units and
      the first entry's metadata. */
  lemma FillerMeta(name: string, m: Meta, d: string)
    ensures MetaOf(Filler(name, m, d)) == m
    ensures var f := Filler(name, m, d);
      f.date == d && f.cat.name == name && f.cat.totalMinutes == 0 && f.cat.units == []
  {
  }

  /** The filled history; an empty one stays empty. */
  function Filled(cats: seq<CalculatedCategoryDated>, dates: seq<string>, name: string): seq<CalculatedCategoryDated> {
    if cats == [] then [] else Fill(cats, dates, name, MetaOf(cats[0]))
  }

  /** The gap-fill of one sorted history: an empty history with pages to
      fill throws, since its first entry is `undefined`. */
  function GapFilled(cats: seq<CalculatedCategoryDated>, dates: seq<string>, name: string): Result<seq<CalculatedCategoryDated>> {
    if cats == [] && dates != [] then Err(TypeError) else Ok(Filled(cats, dates, name))
  }

  lemma FillStep(cur: seq<CalculatedCategoryDated>, i: nat, dates: seq<string>, name: string, m: Meta)
    requires i < |dates| && i <= |cur|
    ensures i < |cur| && cur[i].date == dates[i] ==>
      cur[..i] + Fill(cur[i..], dates[i..], name, m) == cur[..i + 1] + Fill(cur[i + 1..], dates[i + 1..], name, m)
    ensures !(i < |cur| && cur[i].date == dates[i]) ==>
      var next := cur[..i] + [Filler(name, m, dates[i])] + cur[i..];
      cur[..i] + Fill(cur[i..], dates[i..], name, m) == next[..i + 1] + Fill(next[i + 1..], dates[i + 1..], name, m)
  {
    assert dates[i..][1..] == dates[i + 1..];
    if i < |cur| && cur[i].date == dates[i] {
      assert cur[i..][1..] == cur[i + 1..];
      assert cur[..i + 1] == cur[..i] + [cur[i]];
    } else {
      var next := cur[..i] + [Filler(name, m, dates[i])] + cur[i..];
      assert next[..i + 1] == cur[..i] + [Filler(name, m, dates[i])];
      assert next[i + 1..] == cur[i..];
    }
  }

  /** The inner loop of `makeLineChart`: page and entry indexes advance
      together, and a filler is spliced in where the entry's date is not
      the page's. */
  method GapFill(cats: seq<CalculatedCategoryDated>, dates: seq<string>, name: string)
    returns (r: Result<seq<CalculatedCategoryDated>>)
    ensures r == GapFilled(cats, dates, name)
  {
    if dates == [] {
      return Ok(cats);
    }
    if cats == [] {
      return Err(TypeError);
    }
    ghost var m := MetaOf(cats[0]);
    var cur := cats;
    var i := 0;
    while i < |dates|
      invariant 0 <= i <= |dates| && i <= |cur| && cur != []
      invariant MetaOf(cur[0]) == m
      invariant cur[..i] + Fill(cur[i..], dates[i..], name, m) == Fill(cats, dates, name, m)
    {
      FillStep(cur, i, dates, name, m);
      if i >= |cur| || dates[i] != cur[i].date {
        var first := cur[0];
        var filler := Filler(name, MetaOf(first), dates[i]);
        cur := cur[..i] + [filler] + cur[i..];
      }
      i := i + 1;
    }
    assert i == |dates| && dates[i..] == [];
    assert cur[..i] + cur[i..] == cur;
    return Ok(cur);
  }

  datatype LineChart =
    | NotFilled(text: string)
    | LineChart(categories: map<string, seq<CalculatedCategoryDated>>, totalDateMinutes: map<string, int>)

  /** The histories of the pack's categories. The pack is only looked up
      while filtering the histories, so an unknown pack throws only when
      there is some history. */
  function Selected(st: CategoriesState, calculated: CalculatedCategories, packType: string): Result<set<string>> {
    if |calculated.history| == 0 then Ok({})
    else
      var pack :- PackInfo(st.packs, packType);
      Ok(set n | n in calculated.history && n in pack.categories)
  }

  /** `makeLineChart` for the page dates `dates`: each selected history is
      sorted by date and gap-filled; with nothing selected, the text "График
      не заполнен!" instead of a chart. */
  function LineChartOf(st: CategoriesState, calculated: CalculatedCategories, packType: string, dates: seq<string>): Result<LineChart> {
    var names :- Selected(st, calculated, packType);
    if exists n :: n in names && calculated.history[n] == [] && dates != [] then Err(TypeError)
    else if names == {} then Ok(NotFilled("График не заполнен!"))
    else
      Ok(LineChart(map n | n in names :: Filled(Sorting.Sort(calculated.history[n], ByDate()), dates, n),
                   calculated.totalDateMinutes))
  }

  /** The histories shown are exactly those of the pack's categories; each
      is its history sorted by date and gap-filled, so it has at least an
      entry per page and its i-th entry is dated by the i-th page. */
  lemma LineChartShape(st: CategoriesState, calculated: CalculatedCategories, packType: string, dates: seq<string>, n: string)
    requires LineChartOf(st, calculated, packType, dates).Ok? && LineChartOf(st, calculated, packType, dates).value.LineChart?
    ensures var cs := LineChartOf(st, calculated, packType, dates).value.categories;
      (n in cs ==> n in calculated.history && FindPack(st.packs, packType).Some? && n in FindPack(st.packs, packType).value.categories)
      && (n in cs ==> |cs[n]| >= |dates| && forall i :: 0 <= i < |dates| ==> cs[n][i].date == dates[i])
      && (n in calculated.history && FindPack(st.packs, packType).Some? && n in FindPack(st.packs, packType).value.categories ==> n in cs)
      && (n in cs ==> cs[n] == Filled(Sorting.Sort(calculated.history[n], ByDate()), dates, n))
  {
    var cs := LineChartOf(st, calculated, packType, dates).value.categories;
    if n in cs {
      var s := Sorting.Sort(calculated.history[n], ByDate());
      if s != [] {
        FillDates(s, dates, n, MetaOf(s[0]));
      }
    }
  }

  /** Without any history the pack is never looked up, even when unknown. */
  lemma LineChartWithoutHistory(st: CategoriesState, calculated: CalculatedCategories, packType: string, dates: seq<string>)
    requires |calculated.history| == 0
    ensures LineChartOf(st, calculated, packType, dates) == Ok(NotFilled("График не заполнен!"))
  {
  }

  /** With some history, an unknown pack throws. */
  lemma LineChartUnknownPack(st: CategoriesState, calculated: CalculatedCategories, packType: string, dates: seq<string>)
    requires |calculated.history| > 0 && FindPack(st.packs, packType).None?
    ensures LineChartOf(st, calculated, packType, dates) == Err("Info for pack type " + packType + " not found")
  {
  }
}
