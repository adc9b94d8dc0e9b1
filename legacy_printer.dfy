/** The legacy `CategoryPrinter` (features/categories/managers/category_printer.ts):
    the pie data adjusted for categories skipped on the diagram, the check
    that some page has a log, the table of the information packs and the
    sum of the pages' day lengths. The packs come from a manager whose
    `calculate(packType)` is a parameter here. */
module LegacyCategoryPrinter {
  import opened Wrappers
  import opened Js
  import CategoryCalculator
  import TimeNoteManager
  import CategoryPrinter
  import ItemManager

  /** An item of a pack: its category's name, its minutes and whether the
      category is skipped on the diagram. */
  datatype InfoItem = InfoItem(name: string, totalMinutes: int, skipOnDiagramm: bool)

  /** `{ root, items }`: the root category's name and minutes, and the items. */
  datatype InfoPack = InfoPack(rootName: string, rootMinutes: int, items: seq<InfoItem>)

  /** `{ root, items, title }` of the chart data. */
  datatype ChartPack = ChartPack(root: InfoPack, title: string)

  // ----- the chart adjustment in `loadPages` -----------------------------------

  /** `items.filter((item) => item.category!.skipOnDiagramm)
      .reduce((acc, curr) => acc + curr.totalMinutes, 0)`. */
  function SkippedMinutes(items: seq<InfoItem>): int {
    if items == [] then 0
    else
      var last := items[|items| - 1];
      SkippedMinutes(items[..|items| - 1]) + (if last.skipOnDiagramm then last.totalMinutes else 0)
  }

  /** `items.filter((item) => !item.category!.skipOnDiagramm)`. */
  function Kept(items: seq<InfoItem>): seq<InfoItem> {
    if items == [] then []
    else Kept(items[..|items| - 1]) + (if items[|items| - 1].skipOnDiagramm then [] else [items[|items| - 1]])
  }

  /** The minutes of all the items. */
  function ItemsMinutes(items: seq<InfoItem>): int {
    if items == [] then 0 else ItemsMinutes(items[..|items| - 1]) + items[|items| - 1].totalMinutes
  }

  function NotFoundMessage(packType: string): string {
    "Info pack with type " + packType + " not found"
  }

  /** One chart pack: a missing pack throws; otherwise the skipped items'
      minutes come off the root and the skipped items are dropped. */
  function ChartOf(info: Option<InfoPack>, packType: string): Result<ChartPack> {
    if info.None? then Err(NotFoundMessage(packType))
    else
      var p := info.value;
      Ok(ChartPack(InfoPack(p.rootName, p.rootMinutes - SkippedMinutes(p.items), Kept(p.items)), packType))
  }

  /** The chart step for one pack type, the manager's `calculate` given. */
  function ChartMaker(calculate: string -> Option<InfoPack>): string -> Result<ChartPack> {
    (packType: string) => ChartOf(calculate(packType), packType)
  }

  /** `chartInfo`: absent pack types give no charts; the first missing pack
      throws. */
  function ChartInfo(chartPackTypes: Option<seq<string>>, calculate: string -> Option<InfoPack>)
    : Result<seq<ChartPack>>
  {
    if chartPackTypes.None? then Ok([])
    else ItemManager.MapAll(chartPackTypes.value, ChartMaker(calculate))
  }

  /** The kept items are the items that are not skipped. */
  lemma {:induction false} KeptMembers(items: seq<InfoItem>)
    ensures forall x :: x in Kept(items) <==> x in items && !x.skipOnDiagramm
    decreases |items|
  {
    if items != [] {
      var init, last := items[..|items| - 1], items[|items| - 1];
      KeptMembers(init);
      assert items == init + [last];
    }
  }

  /** The items' minutes split between kept and skipped items. */
  lemma {:induction false} KeptMinutes(items: seq<InfoItem>)
    ensures ItemsMinutes(items) == ItemsMinutes(Kept(items)) + SkippedMinutes(items)
    decreases |items|
  {
    if items != [] {
      var init, last := items[..|items| - 1], items[|items| - 1];
      KeptMinutes(init);
      if !last.skipOnDiagramm {
        var k := Kept(items);
        assert k == Kept(init) + [last];
        assert k[..|k| - 1] == Kept(init) && k[|k| - 1] == last;
      } else {
        assert Kept(items) == Kept(init) + [];
        assert Kept(init) + [] == Kept(init);
      }
    }
  }

  /** A pack that is found gives a chart of the same root name and title
      the pack type, whose items are the pack's unskipped ones; when the
      root's minutes were its items' minutes, the adjusted root's minutes are
      the kept items' minutes. */
  lemma ChartOfSpec(p: InfoPack, packType: string)
    ensures ChartOf(Some(p), packType).Ok?
    ensures var c := ChartOf(Some(p), packType).value;
      && c.title == packType && c.root.rootName == p.rootName
      && (forall x :: x in c.root.items <==> x in p.items && !x.skipOnDiagramm)
      && (p.rootMinutes == ItemsMinutes(p.items) ==> c.root.rootMinutes == ItemsMinutes(c.root.items))
    ensures ChartOf(None, packType) == Err(NotFoundMessage(packType))
  {
    KeptMembers(p.items);
    KeptMinutes(p.items);
  }

  /** The charts are built exactly when every pack type has a pack, one per
      pack type, in order. */
  lemma ChartInfoSpec(types: seq<string>, calculate: string -> Option<InfoPack>)
    ensures ChartInfo(Some(types), calculate).Ok? <==> forall i :: 0 <= i < |types| ==> calculate(types[i]).Some?
    ensures ChartInfo(Some(types), calculate).Ok? ==>
      var cs := ChartInfo(Some(types), calculate).value;
      |cs| == |types| && forall i :: 0 <= i < |types| ==> cs[i] == ChartOf(calculate(types[i]), types[i]).value
  {
    ItemManager.MapAllEach(types, ChartMaker(calculate));
  }

  // ----- `checkCanBuild` ---------------------------------------------------------

  /** `pages.filter((page) => <the page has a non-empty log>)`. */
  function Buildable(pages: seq<CategoryCalculator.DayPage>): seq<CategoryCalculator.DayPage> {
    if pages == [] then []
    else
      var last := pages[|pages| - 1];
      Buildable(pages[..|pages| - 1]) + (if CategoryCalculator.CheckCanBuild(last) then [last] else [])
  }

  /** `checkCanBuild(pages)`. */
  predicate CheckCanBuild(pages: seq<CategoryCalculator.DayPage>) {
    |Buildable(pages)| > 0
  }

  /** The pages can be built exactly when one of them has a non-empty log. */
  lemma {:induction false} CheckCanBuildSpec(pages: seq<CategoryCalculator.DayPage>)
    ensures CheckCanBuild(pages) <==> exists i :: 0 <= i < |pages| && CategoryCalculator.CheckCanBuild(pages[i])
    decreases |pages|
  {
    if pages != [] {
      var init := pages[..|pages| - 1];
      CheckCanBuildSpec(init);
      assert forall i :: 0 <= i < |init| ==> init[i] == pages[i];
      if CheckCanBuild(init) {
        var i :| 0 <= i < |init| && CategoryCalculator.CheckCanBuild(init[i]);
        assert CategoryCalculator.CheckCanBuild(pages[i]);
      }
    }
  }

  // ----- day lengths -------------------------------------------------------------

  /** `_calcDailyTotalTime`: the times are read with `Number` and the
      length computed as the current time notes do without the clock: no
      length without both times, a bed time before the wake-up time counting
      from the next day. */
  function DailyTotalTime(page: CategoryCalculator.DayPage): Option<Num> {
    TimeNoteManager.DailyTotal(TimeNoteManager.TimePage("", page.wake, page.sleep), false, 0)
  }

  /** `pages.map((page) => this._calcDailyTotalTime(page))`. */
  function Lengths(pages: seq<CategoryCalculator.DayPage>): (r: seq<Option<Num>>)
    ensures |r| == |pages| && forall i :: 0 <= i < |pages| ==> r[i] == DailyTotalTime(pages[i])
  {
    seq(|pages|, i requires 0 <= i < |pages| => DailyTotalTime(pages[i]))
  }

  /** `.reduce((acc, curr) => (acc ?? 0) + (curr ?? 0), 0)`. */
  function IntervalSum(lengths: seq<Option<Num>>): Num {
    if lengths == [] then N(0)
    else IntervalSum(lengths[..|lengths| - 1]).Plus(OrZero(lengths[|lengths| - 1]))
  }

  /** `_calcTotalIntervalTime`: a zero sum is `null`. */
  function TotalIntervalTime(pages: seq<CategoryCalculator.DayPage>): Option<Num> {
    var v := IntervalSum(Lengths(pages));
    if v == N(0) then None else Some(v)
  }

  /** A length as a whole number: 0 when missing or not a number. */
  function Minutes(length: Option<Num>): int {
    if length.Some? && length.value.N? then length.value.v else 0
  }

  /** The sum of the whole-number lengths. */
  function MinutesSum(lengths: seq<Option<Num>>): int {
    if lengths == [] then 0 else MinutesSum(lengths[..|lengths| - 1]) + Minutes(lengths[|lengths| - 1])
  }

  /** Some length is NaN. */
  predicate SomeNaN(lengths: seq<Option<Num>>) {
    exists i :: 0 <= i < |lengths| && lengths[i] == Some(NaN)
  }

  /** The sum is the lengths added up, a missing one counting as 0, unless
      one of them is NaN, which makes the sum NaN. */
  lemma {:induction false} IntervalSumSpec(lengths: seq<Option<Num>>)
    ensures SomeNaN(lengths) ==> IntervalSum(lengths) == NaN
    ensures !SomeNaN(lengths) ==> IntervalSum(lengths) == N(MinutesSum(lengths))
    decreases |lengths|
  {
    if lengths != [] {
      var init := lengths[..|lengths| - 1];
      IntervalSumSpec(init);
      assert forall i :: 0 <= i < |init| ==> init[i] == lengths[i];
      if SomeNaN(init) {
        var i :| 0 <= i < |init| && init[i] == Some(NaN);
        assert lengths[i] == Some(NaN);
      }
      if !SomeNaN(lengths) {
        assert lengths[|init|] != Some(NaN);
      }
    }
  }

  /** The total interval is absent exactly when the pages' lengths add up to
      zero; otherwise it is their sum, or NaN when one of them is NaN. */
  lemma TotalIntervalTimeSpec(pages: seq<CategoryCalculator.DayPage>)
    ensures var ls := Lengths(pages);
      TotalIntervalTime(pages).None? <==> !SomeNaN(ls) && MinutesSum(ls) == 0
    ensures var ls := Lengths(pages);
      !SomeNaN(ls) && MinutesSum(ls) != 0 ==> TotalIntervalTime(pages) == Some(N(MinutesSum(ls)))
    ensures SomeNaN(Lengths(pages)) ==> TotalIntervalTime(pages) == Some(NaN)
  {
    IntervalSumSpec(Lengths(pages));
  }

  // ----- `_makeTable` ------------------------------------------------------------

  /** The titles: each pack's root name followed by "Время". */
  function Titles(packs: seq<InfoPack>): seq<string> {
    if packs == [] then [] else Titles(packs[..|packs| - 1]) + [packs[|packs| - 1].rootName, "Время"]
  }

  /** The time of an item: `_item2tip` of its minutes against the first
      pack's root, per page when averaging. `_item2tip` reads exactly as the
      current printer's `unit2tip`. */
  function Tip(packs: seq<InfoPack>, avg: bool, pageCount: nat, percent: (int, int) -> string): int -> string {
    var total := if packs == [] then 0 else packs[0].rootMinutes;
    (value: int) => CategoryPrinter.UnitTip(value, total, if avg then Some(pageCount) else None, percent)
  }

  /** `rowsPack`: the packs' items. */
  function Columns(packs: seq<InfoPack>): (r: seq<seq<InfoItem>>)
    ensures |r| == |packs| && forall j :: 0 <= j < |packs| ==> r[j] == packs[j].items
  {
    seq(|packs|, j requires 0 <= j < |packs| => packs[j].items)
  }

  /** The two cells of a column in row `i`: blank past its last item. */
  function Cell(col: seq<InfoItem>, i: nat, tip: int -> string): seq<string> {
    if i < |col| then [col[i].name, tip(col[i].totalMinutes)] else ["", ""]
  }

  /** Row `i`: two cells per column. */
  function Row(cols: seq<seq<InfoItem>>, i: nat, tip: int -> string): seq<string> {
    if cols == [] then [] else Row(cols[..|cols| - 1], i, tip) + Cell(cols[|cols| - 1], i, tip)
  }

  /** `Math.max(...rowsPack.map((items) => items.length))`; no packs give no
      rows, as the source's -Infinity does. */
  function MaxLen(cols: seq<seq<InfoItem>>): (m: nat)
    ensures forall j :: 0 <= j < |cols| ==> |cols[j]| <= m
    ensures cols != [] ==> exists j :: 0 <= j < |cols| && |cols[j]| == m
  {
    if cols == [] then 0
    else
      var init := MaxLen(cols[..|cols| - 1]);
      var last := |cols[|cols| - 1]|;
      assert forall j :: 0 <= j < |cols| - 1 ==> cols[j] == cols[..|cols| - 1][j];
      if |cols| > 1 && init >= last then init else last
  }

  datatype Table = Table(titles: seq<string>, rows: seq<seq<string>>)

  /** `_makeTable(avg)`, the packs and the number of pages given. */
  function TableOf(infoPacks: Option<seq<InfoPack>>, avg: bool, pageCount: nat, percent: (int, int) -> string)
    : Result<Table>
  {
    if infoPacks.None? then Err("Info packs not loaded")
    else
      var packs := infoPacks.value;
      var tip := Tip(packs, avg, pageCount, percent);
      var cols := Columns(packs);
      Ok(Table(Titles(packs), seq(MaxLen(cols), i requires 0 <= i < MaxLen(cols) => Row(cols, i, tip))))
  }

  /** `_makeTable`, with its loop over the rows. */
  method MakeTable(infoPacks: Option<seq<InfoPack>>, avg: bool, pageCount: nat, percent: (int, int) -> string)
    returns (r: Result<Table>)
    ensures r == TableOf(infoPacks, avg, pageCount, percent)
  {
    if infoPacks.None? {
      return Err("Info packs not loaded");
    }
    var packs := infoPacks.value;
    var tip := Tip(packs, avg, pageCount, percent);
    var cols := Columns(packs);
    var rows: seq<seq<string>> := [];
    var n := MaxLen(cols);
    var i := 0;
    while i < n
      invariant 0 <= i <= n && |rows| == i
      invariant forall k :: 0 <= k < i ==> rows[k] == Row(cols, k, tip)
    {
      rows := rows + [Row(cols, i, tip)];
      i := i + 1;
    }
    assert rows == seq(MaxLen(cols), k requires 0 <= k < MaxLen(cols) => Row(cols, k, tip));
    r := Ok(Table(Titles(packs), rows));
  }

  lemma {:induction false} TitlesShape(packs: seq<InfoPack>)
    ensures |Titles(packs)| == 2 * |packs|
    ensures forall j :: 0 <= j < |packs| ==>
      Titles(packs)[2 * j] == packs[j].rootName && Titles(packs)[2 * j + 1] == "Время"
    decreases |packs|
  {
    if packs != [] {
      var init := packs[..|packs| - 1];
      TitlesShape(init);
      assert forall j :: 0 <= j < |init| ==> init[j] == packs[j];
    }
  }

  lemma {:induction false} RowLength(cols: seq<seq<InfoItem>>, i: nat, tip: int -> string)
    ensures |Row(cols, i, tip)| == 2 * |cols|
    decreases |cols|
  {
    if cols != [] {
      RowLength(cols[..|cols| - 1], i, tip);
    }
  }

  /** The cells of column `j` sit at `2 j` and `2 j + 1`. */
  lemma {:induction false} RowAt(cols: seq<seq<InfoItem>>, i: nat, tip: int -> string, j: nat)
    requires j < |cols|
    ensures |Row(cols, i, tip)| == 2 * |cols|
    ensures Row(cols, i, tip)[2 * j..2 * j + 2] == Cell(cols[j], i, tip)
    decreases |cols|
  {
    var init := cols[..|cols| - 1];
    RowLength(cols, i, tip);
    RowLength(init, i, tip);
    var a, b := Row(init, i, tip), Cell(cols[|cols| - 1], i, tip);
    assert Row(cols, i, tip) == a + b;
    if j < |init| {
      RowAt(init, i, tip, j);
      CategoryPrinter.SliceOfLeft(a, b, 2 * j, 2 * j + 2);
      assert cols[j] == init[j];
    } else {
      CategoryPrinter.SliceOfRight(a, b);
    }
  }

  /** The table has two titles per pack, the root's name and "Время", and
      as many rows as the longest pack has items; the cells of pack `j` in
      row `i` are its `i`-th item's name and time, blank past its last item. */
  lemma TableLayout(packs: seq<InfoPack>, avg: bool, pageCount: nat, percent: (int, int) -> string, i: nat, j: nat)
    requires i < MaxLen(Columns(packs)) && j < |packs|
    ensures TableOf(Some(packs), avg, pageCount, percent).Ok?
    ensures var t := TableOf(Some(packs), avg, pageCount, percent).value;
      var tip := Tip(packs, avg, pageCount, percent);
      && |t.titles| == 2 * |packs| && t.titles[2 * j] == packs[j].rootName && t.titles[2 * j + 1] == "Время"
      && |t.rows| == MaxLen(Columns(packs))
      && |t.rows[i]| == 2 * |packs|
      && (i < |packs[j].items| ==> t.rows[i][2 * j..2 * j + 2] == [packs[j].items[i].name, tip(packs[j].items[i].totalMinutes)])
      && (i >= |packs[j].items| ==> t.rows[i][2 * j..2 * j + 2] == ["", ""])
  {
    TitlesShape(packs);
    RowAt(Columns(packs), i, Tip(packs, avg, pageCount, percent), j);
  }
}
