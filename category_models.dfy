/** The value types of the category pipeline: the YAML configuration, the
    built category graph, log items and the calculated buckets.

    Categories refer to each other by qualified name (`type.local`) instead of
    by object reference: `allCategories` is the single store every reference
    goes through, so an update of a category is seen through every reference,
    as with the shared objects of the source. */
module CategoryModels {
  import opened Wrappers

  // ----- configuration (YAML) ----------------------------------------------

  datatype CategoryYaml = CategoryYaml(
    name: string,
    color: Option<string>,
    parents: Option<seq<string>>,
    skipOnDiagramm: Option<bool>,
    hideOnLineChart: Option<bool>)

  datatype CategoryPackYaml = CategoryPackYaml(
    packType: string,
    prettyName: string,
    categories: seq<CategoryYaml>,
    isCertain: Option<bool>)

  datatype FastButton = FastButton(category: string, text: string)

  datatype OptionsYaml = OptionsYaml(discardCommentsLevel: Option<int>, itemsFieldName: string)

  datatype OtherCategoryYaml = OtherCategoryYaml(
    name: string, color: Option<string>, skipOnDiagramm: Option<bool>)

  datatype CategoriesYaml = CategoriesYaml(
    fastButtonsCategories: seq<FastButton>,
    options: OptionsYaml,
    categoriesPacks: seq<CategoryPackYaml>,
    otherCategory: OtherCategoryYaml)

  // ----- the built graph ------------------------------------------------------

  datatype Category = Category(
    name: string,
    prettyName: string,
    parents: seq<string>,
    children: seq<string>,
    color: Option<string>,
    skipOnDiagramm: bool,
    hideOnLineChart: bool)

  datatype CategoryPack = CategoryPack(packType: string, categories: seq<string>, prettyName: string)

  /** `order` is the insertion order of the `allCategories` Map. */
  datatype CategoriesState = CategoriesState(
    packs: seq<CategoryPack>,
    allCategories: map<string, Category>,
    order: seq<string>,
    certainPack: Option<CategoryPack>,
    otherCategory: Category,
    discardCommentsLevel: int,
    itemsFieldName: string)

  /** Position of `n` in `s`. */
  function IndexOf(s: seq<string>, n: string): (i: nat)
    requires n in s
    ensures i < |s| && s[i] == n
    ensures forall j :: 0 <= j < i ==> s[j] != n
  {
    if s[0] == n then 0 else 1 + IndexOf(s[1..], n)
  }

  /** What every built state satisfies: the store is keyed by name, the Map
      order lists each key once, and every parent is a category declared
      earlier (so the parent relation has no cycle). */
  ghost predicate StateValid(st: CategoriesState) {
    var all := st.allCategories;
    (forall i, j :: 0 <= i < j < |st.order| ==> st.order[i] != st.order[j])
    && (forall n :: n in all <==> n in st.order)
    && (forall n :: n in all ==> all[n].name == n)
    && (forall n, p :: n in all && p in all[n].parents ==>
          p in all && IndexOf(st.order, p) < IndexOf(st.order, n))
  }

  // ----- items and calculated buckets --------------------------------------

  /** One parsed log line. */
  datatype Item = Item(categoryName: string, minutes: int, date: string, comment: Option<string>)

  datatype TimeUnit = TimeUnit(certainCategory: string, minutes: int, comment: Option<string>)

  datatype CalculatedCategory = CalculatedCategory(
    name: string,
    prettyName: string,
    totalMinutes: int,
    color: Option<string>,
    hideOnLineChart: bool,
    units: seq<TimeUnit>)

  /** `CalculatedCategoryDated`: a bucket together with its date. */
  datatype CalculatedCategoryDated = Dated(cat: CalculatedCategory, date: string)

  datatype CalculatedCategories = CalculatedCategories(
    averages: map<string, CalculatedCategory>,
    history: map<string, seq<CalculatedCategoryDated>>,
    totalDateMinutes: map<string, int>,
    totalMinutes: int)

  // ----- multiplicity --------------------------------------------------------

  /** How many times `x` occurs in `s`. */
  function Count(s: seq<string>, x: string): nat {
    if s == [] then 0 else Count(s[..|s| - 1], x) + (if s[|s| - 1] == x then 1 else 0)
  }

  lemma {:induction false} CountPositive(s: seq<string>, x: string)
    ensures Count(s, x) > 0 <==> x in s
  {
    if s != [] {
      CountPositive(s[..|s| - 1], x);
      assert s == s[..|s| - 1] + [s[|s| - 1]];
    }
  }
}
