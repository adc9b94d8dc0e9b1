/** The `calc` callbacks of the lazy state holders of the category pipeline:
    configuration -> categories state -> items -> calculated categories.
    Each is a function of the upstream holders' states (already read); the
    holder objects themselves are `LazyDerivedValueNotifier`s. */
module Holders {
  import opened Wrappers
  import opened CategoryModels
  import CategoryConfig
  import ItemManager
  import CategoryManager

  /** `CategoriesHolder`: a missing configuration gives a missing state,
      otherwise the built graph (or the builder's error). */
  function CategoriesStateOf(config: Option<CategoriesYaml>): (r: Result<Option<CategoriesState>>)
    ensures config.None? ==> r == Ok(None)
    ensures config.Some? ==> (r.Ok? <==> CategoryConfig.Build(config.value).Ok?)
    ensures config.Some? && r.Err? ==> r.msg == CategoryConfig.Build(config.value).msg
    ensures r.Ok? && r.value.Some? ==> StateValid(r.value.value)
  {
    match config
    case None => Ok(None)
    case Some(c) =>
      var st :- CategoryConfig.Build(c);
      CategoryConfig.BuildGraph(c);
      Ok(Some(st))
  }

  /** `pages.filter((page) => !!page)`. */
  function Present(pages: seq<Option<ItemManager.Page>>): (r: seq<ItemManager.Page>)
    ensures |r| <= |pages|
    ensures forall k :: 0 <= k < |r| ==> Some(r[k]) in pages
  {
    if pages == [] then []
    else Present(pages[..|pages| - 1]) + (if pages[|pages| - 1].Some? then [pages[|pages| - 1].value] else [])
  }

  /** The filter keeps every present page, and in order: it distributes over
      concatenation. */
  lemma {:induction false} PresentAppend(a: seq<Option<ItemManager.Page>>, b: seq<Option<ItemManager.Page>>)
    ensures Present(a + b) == Present(a) + Present(b)
    decreases |b|
  {
    if b == [] {
      assert a + b == a;
    } else {
      var b0 := b[..|b| - 1];
      assert (a + b)[..|a + b| - 1] == a + b0;
      PresentAppend(a, b0);
    }
  }

  lemma {:induction false} PresentKeeps(pages: seq<Option<ItemManager.Page>>, k: nat)
    requires k < |pages| && pages[k].Some?
    ensures pages[k].value in Present(pages)
  {
    var n := |pages| - 1;
    if k < n {
      PresentKeeps(pages[..n], k);
    }
  }

  /** A list without missing pages is kept as it is. */
  lemma {:induction false} PresentAll(pages: seq<ItemManager.Page>)
    ensures Present(seq(|pages|, k requires 0 <= k < |pages| => Some(pages[k]))) == pages
  {
    if pages != [] {
      var n := |pages| - 1;
      var ws := seq(|pages|, k requires 0 <= k < |pages| => Some(pages[k]));
      assert ws[..n] == seq(n, k requires 0 <= k < n => Some(pages[..n][k]));
      PresentAll(pages[..n]);
    }
  }

  /** `CalculatedItemHolder`: with either upstream state missing the items
      are empty; otherwise the present pages are parsed with the state's
      items field. */
  function ItemsOf(pages: Option<seq<Option<ItemManager.Page>>>, cats: Option<CategoriesState>): (r: Result<seq<Item>>)
    ensures pages.None? || cats.None? ==> r == Ok([])
  {
    if pages.Some? && cats.Some? then
      ItemManager.Calc(Present(pages.value), cats.value, cats.value.itemsFieldName)
    else Ok([])
  }

  /** With both upstream states present and every present page carrying its
      list, the items are the parsed lines of the present pages, in order, or
      the batch fails because some line does not parse. */
  lemma ItemsOfLines(pages: seq<Option<ItemManager.Page>>, st: CategoriesState)
    requires var ps := Present(pages);
      forall i :: 0 <= i < |ps| ==> ItemManager.HasList(ps[i], st.itemsFieldName)
    ensures var r := ItemsOf(Some(pages), Some(st));
      var ls := ItemManager.Lines(Present(pages), st.itemsFieldName);
      (r.Ok? <==> forall k :: 0 <= k < |ls| ==> ItemManager.ParseEntry(st, ls[k].0, ls[k].1).Ok?)
      && (r.Ok? ==>
            |r.value| == |ls|
            && forall k :: 0 <= k < |ls| ==> r.value[k] == ItemManager.ParseEntry(st, ls[k].0, ls[k].1).value)
  {
    ItemManager.CalcIsFlatMap(Present(pages), st, st.itemsFieldName);
    assert ItemsOf(Some(pages), Some(st)) == ItemManager.Calc(Present(pages), st, st.itemsFieldName);
  }

  /** `CalculatedCategoriesHolder`: missing unless both upstream states are
      present (an empty item list is present); it fails exactly when some
      item's category is unknown. */
  function CalculatedOf(cats: Option<CategoriesState>, items: Option<seq<Item>>)
    : (r: Result<Option<CalculatedCategories>>)
    requires cats.Some? ==> StateValid(cats.value)
    ensures cats.None? || items.None? ==> r == Ok(None)
    ensures cats.Some? && items.Some? ==>
      (r.Ok? <==> CategoryManager.FirstUnknown(cats.value, items.value) == |items.value|)
  {
    if cats.Some? && items.Some? then
      CategoryManager.RunOutcome(cats.value, items.value);
      match CategoryManager.CalcSpec(cats.value, items.value)
      case Ok(c) => Ok(Some(c))
      case Err(m) => Err(m)
    else Ok(None)
  }

  /** A calculated result adds up: its grand total is the sum of the items'
      minutes, its per-date totals are the sums per date, and its all-time
      buckets hold each category's weighted sum. */
  lemma CalculatedTotals(st: CategoriesState, items: seq<Item>, x: string, d: string)
    requires StateValid(st) && CalculatedOf(Some(st), Some(items)).Ok?
    ensures var c := CalculatedOf(Some(st), Some(items)).value;
      c.Some?
      && c.value.totalMinutes == CategoryManager.SumMinutes(items)
      && CategoryManager.DayTotal(c.value.totalDateMinutes, d) == CategoryManager.DateMinutes(items, d)
      && CategoryManager.Total(c.value.averages, x) == CategoryManager.Weighted(st, items, x)
  {
    CategoryManager.RunGrandTotal(st, items);
    CategoryManager.RunDays(st, items, d);
    CategoryManager.RunAverages(st, items, x);
  }

  /** The whole chain for one configuration and one list of pages: the
      categories state, then the items, then the calculated categories. */
  function Pipeline(config: Option<CategoriesYaml>, pages: Option<seq<Option<ItemManager.Page>>>)
    : Result<Option<CalculatedCategories>>
  {
    var cats :- CategoriesStateOf(config);
    var items :- ItemsOf(pages, cats);
    CalculatedOf(cats, Some(items))
  }

  /** Without a configuration nothing is calculated; with one whose build
      fails, the build's error comes out; a calculated result's grand total
      is the sum of the minutes of the parsed items. */
  lemma PipelineOutcome(config: Option<CategoriesYaml>, pages: Option<seq<Option<ItemManager.Page>>>)
    ensures config.None? ==> Pipeline(config, pages) == Ok(None)
    ensures config.Some? && CategoryConfig.Build(config.value).Err? ==>
      Pipeline(config, pages) == Err(CategoryConfig.Build(config.value).msg)
    ensures config.Some? && pages.None? && CategoryConfig.Build(config.value).Ok? ==>
      Pipeline(config, pages).Ok? && Pipeline(config, pages).value.Some?
      && Pipeline(config, pages).value.value.totalMinutes == 0
  {
    if config.Some? && pages.None? && CategoryConfig.Build(config.value).Ok? {
      var st := CategoriesStateOf(config).value.value;
      assert ItemsOf(pages, Some(st)) == Ok([]);
      assert CategoryManager.FirstUnknown(st, []) == 0;
    }
  }
}
