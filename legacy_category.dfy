/** The legacy `Category` (features/categories/category.ts): a name, the
    name of its parent and the map of the level above in which the parent is
    looked up. */
module LegacyCategory {
  import opened Wrappers

  /** `parentName` and `parentCategoriesMap` default to `null` (`None`). */
  datatype Category = Category(name: string, parentName: Option<string>, parents: Option<map<string, Category>>)

  /** `parentCategory()`: `null` without a map, otherwise the map's entry for
      the parent's name, `undefined` when there is none. */
  function ParentCategory(c: Category): (r: Option<Category>)
    ensures r.Some? <==> c.parents.Some? && c.parentName.Some? && c.parentName.value in c.parents.value
    ensures r.Some? ==> r.value == c.parents.value[c.parentName.value]
  {
    if c.parents.Some? && c.parentName.Some? && c.parentName.value in c.parents.value then
      Some(c.parents.value[c.parentName.value])
    else None
  }

  const Prefix := "Категория: "
  const ParentPrefix := ", Родительская категория: "

  /** A template-literal condition: the parent name is shown when truthy,
      that is present and not empty. */
  predicate ShowsParent(c: Category) {
    c.parentName.Some? && c.parentName.value != ""
  }

  /** `toString()`. */
  function ToString(c: Category): string {
    Prefix + c.name + (if ShowsParent(c) then ParentPrefix + c.parentName.value else "")
  }

  /** The text is the name after the prefix, followed by the parent's name
      exactly when that is present and not empty. */
  lemma ToStringParts(c: Category)
    ensures var s := ToString(c);
      |s| >= |Prefix| + |c.name| && s[..|Prefix| + |c.name|] == Prefix + c.name
      && (ShowsParent(c) ==> s[|Prefix| + |c.name|..] == ParentPrefix + c.parentName.value)
      && (!ShowsParent(c) ==> s == Prefix + c.name)
  {
    var s := ToString(c);
    var head := Prefix + c.name;
    var tail := if ShowsParent(c) then ParentPrefix + c.parentName.value else "";
    assert s == head + tail;
    assert s[..|head|] == head;
    assert s[|head|..] == tail;
  }
}
