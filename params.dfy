/** `ParamsManager` (params/params_manager.ts) and `CalculatedParamsHolder`
    (params/states/calculated_params_holder.ts): the numeric parameters of
    the diary pages collected per configured parameter, and their means.
    Numbers are reals here, without floating-point rounding. */
module ParamsManager {
  import opened Wrappers
  import Sorting

  datatype ParamYaml = ParamYaml(name: string, order: int, color: Option<string>, hiddenOnChart: Option<bool>)

  datatype ParamsYaml = ParamsYaml(params: seq<ParamYaml>)

  /** A page field: a number, or anything else. */
  datatype PageValue = Number(v: real) | Other

  /** A page: its file name and its fields. */
  datatype ParamPage = ParamPage(name: string, fields: map<string, PageValue>)

  datatype ParamValue = ParamValue(date: string, value: real)

  datatype ParamHistory = ParamHistory(name: string, order: int, values: seq<ParamValue>,
                                       color: Option<string>, hiddenOnChart: Option<bool>)

  /** A mean; `None` stands for the NaN of an empty division. */
  datatype Param = Param(name: string, order: int, value: Option<real>,
                         color: Option<string>, hiddenOnChart: Option<bool>)

  /** `_getParams`. */
  function GetParams(config: Option<ParamsYaml>): (r: Result<ParamsYaml>)
    ensures r.Ok? <==> config.Some?
    ensures r.Ok? ==> r.value == config.value
    ensures r.Err? ==> r.msg == "Params not found"
  {
    if config.None? then Err("Params not found") else Ok(config.value)
  }

  // ----- collecting ------------------------------------------------------------

  /** The value of the field `name` of a page, when it is a number. */
  function NumberOf(page: ParamPage, name: string): Option<real> {
    if name in page.fields && page.fields[name].Number? then Some(page.fields[name].v) else None
  }

  /** The inner loop's result as a function: the numeric values in page
      order, each dated by its page's name. */
  function RawValues(pages: seq<ParamPage>, name: string): seq<ParamValue> {
    if pages == [] then []
    else
      var last := pages[|pages| - 1];
      var init := RawValues(pages[..|pages| - 1], name);
      match NumberOf(last, name)
      case Some(v) => init + [ParamValue(last.name, v)]
      case None => init
  }

  function HistoryOf(p: ParamYaml, pages: seq<ParamPage>): ParamHistory {
    ParamHistory(p.name, p.order, RawValues(pages, p.name), p.color, p.hiddenOnChart)
  }

  function Histories(params: seq<ParamYaml>, pages: seq<ParamPage>): (r: seq<ParamHistory>)
    ensures |r| == |params| && forall k :: 0 <= k < |params| ==> r[k] == HistoryOf(params[k], pages)
  {
    seq(|params|, k requires 0 <= k < |params| => HistoryOf(params[k], pages))
  }

  /** `filter((param) => param.values.length > 0)`. */
  function WithValues(hs: seq<ParamHistory>): (r: seq<ParamHistory>)
    ensures forall h :: h in r <==> h in hs && h.values != []
  {
    if hs == [] then []
    else
      var init := WithValues(hs[..|hs| - 1]);
      var last := hs[|hs| - 1];
      assert forall h :: h in hs <==> h in hs[..|hs| - 1] || h == last;
      if last.values != [] then init + [last] else init
  }

  /** `sort((a, b) => a.order - b.order)`. */
  function ByOrder(): (ParamHistory, ParamHistory) -> bool {
    (a: ParamHistory, b: ParamHistory) => a.order <= b.order
  }

  /** `getParametersArray` as a function. */
  function ParametersArray(config: Option<ParamsYaml>, pages: seq<ParamPage>): Result<seq<ParamHistory>> {
    var params :- GetParams(config);
    Ok(Sorting.Sort(WithValues(Histories(params.params, pages)), ByOrder()))
  }

  /** `getParametersArray`: for each configured parameter, a loop over the
      pages pushing the numeric values; then the parameters without values
      are dropped and the rest sorted by `order`. */
  method GetParametersArray(config: Option<ParamsYaml>, pages: seq<ParamPage>) returns (r: Result<seq<ParamHistory>>)
    ensures r == ParametersArray(config, pages)
  {
    var params := GetParams(config);
    if params.Err? {
      return Err(params.msg);
    }
    var ps := params.value.params;
    var paramsList: seq<ParamHistory> := [];
    var i := 0;
    while i < |ps|
      invariant 0 <= i <= |ps|
      invariant paramsList == Histories(ps[..i], pages)
    {
      var rawValues: seq<ParamValue> := [];
      var j := 0;
      while j < |pages|
        invariant 0 <= j <= |pages|
        invariant rawValues == RawValues(pages[..j], ps[i].name)
      {
        var val := NumberOf(pages[j], ps[i].name);
        if val.Some? {
          rawValues := rawValues + [ParamValue(pages[j].name, val.value)];
        }
        assert pages[..j + 1][..j] == pages[..j];
        j := j + 1;
      }
      assert pages[..j] == pages;
      paramsList := paramsList + [ParamHistory(ps[i].name, ps[i].order, rawValues, ps[i].color, ps[i].hiddenOnChart)];
      assert ps[..i + 1] == ps[..i] + [ps[i]];
      i := i + 1;
    }
    assert ps[..i] == ps;
    return Ok(Sorting.Sort(WithValues(paramsList), ByOrder()));
  }

  /** The values are collected page by page, in page order. */
  lemma {:induction false} RawValuesAppend(a: seq<ParamPage>, b: seq<ParamPage>, name: string)
    ensures RawValues(a + b, name) == RawValues(a, name) + RawValues(b, name)
    decreases |b|
  {
    if b == [] {
      assert a + b == a;
    } else {
      var b' := b[..|b| - 1];
      RawValuesAppend(a, b', name);
      assert (a + b)[..|a + b| - 1] == a + b';
      assert b[..|b| - 1] == b';
    }
  }

  /** One page gives its value when the field is a number, dated by the
      page's name, and nothing otherwise. */
  lemma RawValuesOfPage(page: ParamPage, name: string)
    ensures RawValues([page], name)
      == if NumberOf(page, name).Some? then [ParamValue(page.name, NumberOf(page, name).value)] else []
  {
    assert [page][..0] == [];
  }

  /** Every value collected is a page's number, dated by that page. */
  lemma {:induction false} RawValuesFromPages(pages: seq<ParamPage>, name: string)
    ensures |RawValues(pages, name)| <= |pages|
    ensures forall x :: x in RawValues(pages, name) ==>
      exists k :: 0 <= k < |pages| && pages[k].name == x.date && NumberOf(pages[k], name) == Some(x.value)
    decreases |pages|
  {
    if pages != [] {
      var init := pages[..|pages| - 1];
      RawValuesFromPages(init, name);
      forall x | x in RawValues(pages, name)
        ensures exists k :: 0 <= k < |pages| && pages[k].name == x.date && NumberOf(pages[k], name) == Some(x.value)
      {
        if x in RawValues(init, name) {
          var k :| 0 <= k < |init| && init[k].name == x.date && NumberOf(init[k], name) == Some(x.value);
          assert pages[k] == init[k];
        } else {
          assert pages[|pages| - 1].name == x.date;
        }
      }
    }
  }

  lemma ByOrderOrders()
    ensures Sorting.TotalPreorder(ByOrder())
  {
  }

  /** The result: exactly the configured parameters that have some value,
      each with its own fields copied, ascending by `order`, parameters of
      equal order in configuration order. Without a configuration, "Params
      not found". */
  lemma ParametersArraySpec(config: Option<ParamsYaml>, pages: seq<ParamPage>, z: ParamHistory)
    ensures config.None? ==> ParametersArray(config, pages) == Err("Params not found")
    ensures config.Some? ==>
      var r := ParametersArray(config, pages).value;
      var hs := Histories(config.value.params, pages);
      (forall h :: h in r <==> h in hs && h.values != [])
      && (forall i, j :: 0 <= i < j < |r| ==> r[i].order <= r[j].order)
      && Sorting.Ties(r, ByOrder(), z) == Sorting.Ties(WithValues(hs), ByOrder(), z)
  {
    if config.Some? {
      var hs := Histories(config.value.params, pages);
      var w := WithValues(hs);
      var r := Sorting.Sort(w, ByOrder());
      Sorting.SortPermutes(w, ByOrder());
      ByOrderOrders();
      Sorting.SortSorted(w, ByOrder());
      Sorting.SortStable(w, ByOrder(), z);
      forall h
        ensures h in r <==> h in w
      {
        assert h in r <==> h in multiset(r);
        assert h in w <==> h in multiset(w);
      }
      forall i, j | 0 <= i < j < |r|
        ensures r[i].order <= r[j].order
      {
        Sorting.SortedPairwise(r, ByOrder(), i, j);
      }
    }
  }

  // ----- averaging ---------------------------------------------------------------

  function SumValues(vs: seq<ParamValue>): real {
    if vs == [] then 0.0 else SumValues(vs[..|vs| - 1]) + vs[|vs| - 1].value
  }

  /** `values.reduce(+, 0) / values.length`: NaN for no values. */
  function Mean(vs: seq<ParamValue>): Option<real> {
    if vs == [] then None else Some(SumValues(vs) / (|vs| as real))
  }

  /** `calculateAveragesByParams`: one mean per parameter, in the same
      order, the other fields copied. */
  function CalculateAverages(hs: seq<ParamHistory>): (r: seq<Param>)
    ensures |r| == |hs|
    ensures forall k :: 0 <= k < |hs| ==>
      r[k] == Param(hs[k].name, hs[k].order, Mean(hs[k].values), hs[k].color, hs[k].hiddenOnChart)
  {
    seq(|hs|, k requires 0 <= k < |hs| => Param(hs[k].name, hs[k].order, Mean(hs[k].values), hs[k].color, hs[k].hiddenOnChart))
  }

  /** A mean lies between the smallest and the largest value, and is their
      common value when all are equal. */
  lemma {:induction false} SumBounds(vs: seq<ParamValue>, lo: real, hi: real)
    requires forall k :: 0 <= k < |vs| ==> lo <= vs[k].value <= hi
    ensures (|vs| as real) * lo <= SumValues(vs) <= (|vs| as real) * hi
    decreases |vs|
  {
    if vs != [] {
      var init := vs[..|vs| - 1];
      assert forall k :: 0 <= k < |init| ==> init[k] == vs[k];
      SumBounds(init, lo, hi);
    }
  }

  lemma MeanBounds(vs: seq<ParamValue>, lo: real, hi: real)
    requires vs != []
    requires forall k :: 0 <= k < |vs| ==> lo <= vs[k].value <= hi
    ensures Mean(vs).Some? && lo <= Mean(vs).value <= hi
  {
    SumBounds(vs, lo, hi);
    var n := |vs| as real;
    var s := SumValues(vs);
    DivBetween(s, n, lo, hi);
  }

  lemma DivBetween(s: real, n: real, lo: real, hi: real)
    requires n > 0.0 && lo * n <= s <= hi * n
    ensures lo <= s / n <= hi
  {
    var q := s / n;
    assert q * n == s;
    assert (q - lo) * n == s - lo * n;
    assert (hi - q) * n == hi * n - s;
  }

  /** Every parameter kept has a value, so none of the means of the
      collected history is NaN. */
  lemma AveragesOfHistoryAreNumbers(config: Option<ParamsYaml>, pages: seq<ParamPage>)
    requires config.Some?
    ensures var hs := ParametersArray(config, pages).value;
      forall k :: 0 <= k < |hs| ==> CalculateAverages(hs)[k].value.Some?
  {
    var hs := ParametersArray(config, pages).value;
    var w := WithValues(Histories(config.value.params, pages));
    Sorting.SortPermutes(w, ByOrder());
    forall k | 0 <= k < |hs|
      ensures hs[k].values != []
    {
      assert hs[k] in multiset(hs);
      assert hs[k] in w;
    }
  }

  // ----- CalculatedParamsHolder --------------------------------------------------

  datatype CalculatedParams = CalculatedParams(history: seq<ParamHistory>, averages: seq<Param>)

  /** The holder's calc: no pages give `null`; otherwise the history and its
      means. */
  function CalculatedParamsOf(config: Option<ParamsYaml>, pages: seq<ParamPage>): (r: Result<Option<CalculatedParams>>)
    ensures pages == [] ==> r == Ok(None)
    ensures pages != [] ==>
      (r.Ok? <==> config.Some?)
      && (r.Err? ==> r.msg == "Params not found")
      && (r.Ok? ==> r.value.Some? && r.value.value.history == ParametersArray(config, pages).value
                    && r.value.value.averages == CalculateAverages(r.value.value.history))
  {
    if pages == [] then Ok(None)
    else
      var history :- ParametersArray(config, pages);
      Ok(Some(CalculatedParams(history, CalculateAverages(history))))
  }
}
