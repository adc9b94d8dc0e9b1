/** `CategoryConfigManager.calc`: builds the category graph from the YAML
    declarations (qualified names, parents resolved against the categories
    built so far, children back-filled, duplicates rejected). */
module CategoryConfig {
  import opened Wrappers
  import opened CategoryModels

  /** One category declaration with its qualified name. */
  datatype Decl = Decl(q: string, yaml: CategoryYaml)

  function Qualify(packType: string, name: string): string {
    packType + "." + name
  }

  function DeclsOf(packType: string, cs: seq<CategoryYaml>): (ds: seq<Decl>)
    ensures |ds| == |cs|
    ensures forall j :: 0 <= j < |cs| ==> ds[j] == Decl(Qualify(packType, cs[j].name), cs[j])
  {
    if cs == [] then []
    else DeclsOf(packType, cs[..|cs| - 1]) + [Decl(Qualify(packType, cs[|cs| - 1].name), cs[|cs| - 1])]
  }

  /** All declarations, pack after pack, in file order. */
  function Flat(pys: seq<CategoryPackYaml>): seq<Decl> {
    if pys == [] then []
    else Flat(pys[..|pys| - 1]) + DeclsOf(pys[|pys| - 1].packType, pys[|pys| - 1].categories)
  }

  function Names(ds: seq<Decl>): (ns: seq<string>)
    ensures |ns| == |ds| && forall k :: 0 <= k < |ds| ==> ns[k] == ds[k].q
  {
    if ds == [] then [] else Names(ds[..|ds| - 1]) + [ds[|ds| - 1].q]
  }

  function ParentNames(d: Decl): seq<string> {
    d.yaml.parents.GetOr([])
  }

  /** The name `parents.map(...)` throws on: the first one not built yet. */
  function FirstMissing(names: seq<string>, built: set<string>): (r: Option<string>)
    ensures r.None? <==> forall k :: 0 <= k < |names| ==> names[k] in built
    ensures r.Some? ==> r.value in names && r.value !in built
  {
    if names == [] then None
    else if names[0] !in built then Some(names[0])
    else FirstMissing(names[1..], built)
  }

  /** `parents.forEach(p => p.children.push(child))`. */
  function AddChildren(all: map<string, Category>, ps: seq<string>, child: string)
    : (r: map<string, Category>)
    requires forall k :: 0 <= k < |ps| ==> ps[k] in all
    ensures r.Keys == all.Keys
  {
    if ps == [] then all
    else
      var a := AddChildren(all, ps[..|ps| - 1], child);
      var p := ps[|ps| - 1];
      a[p := a[p].(children := a[p].children + [child])]
  }

  /** The category a declaration builds, with the defaults of the source:
      `skipOnDiagramm` only when literally `true`, `hideOnLineChart` true
      unless given. */
  function NewCategory(d: Decl): Category {
    Category(d.q, d.yaml.name, ParentNames(d), [], d.yaml.color,
             d.yaml.skipOnDiagramm == Some(true), d.yaml.hideOnLineChart.GetOr(true))
  }

  /** One iteration of the inner loop. */
  function AddDecl(all: map<string, Category>, d: Decl): Result<map<string, Category>> {
    if d.q in all then Err("Category " + d.yaml.name + " already exists")
    else
      match FirstMissing(ParentNames(d), all.Keys)
      case Some(p) => Err("Parent " + p + " not found")
      case None => Ok(AddChildren(all, ParentNames(d), d.q)[d.q := NewCategory(d)])
  }

  function BuildDecls(ds: seq<Decl>): Result<map<string, Category>> {
    if ds == [] then Ok(map[])
    else
      var all :- BuildDecls(ds[..|ds| - 1]);
      AddDecl(all, ds[|ds| - 1])
  }

  function PackOf(py: CategoryPackYaml): CategoryPack {
    CategoryPack(py.packType, Names(DeclsOf(py.packType, py.categories)), py.prettyName)
  }

  function PacksOf(pys: seq<CategoryPackYaml>): (ps: seq<CategoryPack>)
    ensures |ps| == |pys| && forall i :: 0 <= i < |pys| ==> ps[i] == PackOf(pys[i])
  {
    if pys == [] then [] else PacksOf(pys[..|pys| - 1]) + [PackOf(pys[|pys| - 1])]
  }

  /** The pack `certainPack` ends up holding: the last one marked certain. */
  function LastCertain(pys: seq<CategoryPackYaml>): Option<CategoryPack> {
    if pys == [] then None
    else if pys[|pys| - 1].isCertain == Some(true) then Some(PackOf(pys[|pys| - 1]))
    else LastCertain(pys[..|pys| - 1])
  }

  function OtherCategory(o: OtherCategoryYaml): Category {
    Category(o.name, o.name, [], [], o.color, o.skipOnDiagramm.GetOr(false), false)
  }

  /** What `calc` returns, or the error it throws. */
  function Build(config: CategoriesYaml): Result<CategoriesState> {
    var pys := config.categoriesPacks;
    var all :- BuildDecls(Flat(pys));
    Ok(CategoriesState(PacksOf(pys), all, Names(Flat(pys)), LastCertain(pys),
                       OtherCategory(config.otherCategory),
                       config.options.discardCommentsLevel.GetOr(99),
                       config.options.itemsFieldName))
  }

  // ----- the loops ------------------------------------------------------------

  /** `categoryYaml.parents?.map(...)`: the first name that is not built yet. */
  method ResolveParents(all: map<string, Category>, ps: seq<string>) returns (missing: Option<string>)
    ensures missing == FirstMissing(ps, all.Keys)
  {
    for k := 0 to |ps|
      invariant FirstMissing(ps, all.Keys) == FirstMissing(ps[k..], all.Keys)
    {
      assert ps[k..][1..] == ps[k + 1..];
      if ps[k] !in all {
        return Some(ps[k]);
      }
    }
    return None;
  }

  method PushChildren(all: map<string, Category>, ps: seq<string>, child: string)
    returns (r: map<string, Category>)
    requires forall k :: 0 <= k < |ps| ==> ps[k] in all
    ensures r == AddChildren(all, ps, child)
  {
    r := all;
    for k := 0 to |ps|
      invariant r == AddChildren(all, ps[..k], child)
    {
      assert ps[..k + 1][..k] == ps[..k];
      r := r[ps[k] := r[ps[k]].(children := r[ps[k]].children + [child])];
    }
    assert ps[..|ps|] == ps;
  }

  /** One iteration of the inner loop: reject a duplicate, resolve the
      parents, register the child with each of them and store the category. */
  method AddOne(cur: map<string, Category>, d: Decl) returns (r: Result<map<string, Category>>)
    ensures r == AddDecl(cur, d)
  {
    if d.q in cur {
      return Err("Category " + d.yaml.name + " already exists");
    }
    var ps := ParentNames(d);
    var missing := ResolveParents(cur, ps);
    if missing.Some? {
      return Err("Parent " + missing.value + " not found");
    }
    var added := PushChildren(cur, ps, d.q);
    r := Ok(added[d.q := NewCategory(d)]);
  }

  /** The inner loop over one pack's categories. */
  method AddPack(ghost done: seq<Decl>, all: map<string, Category>, order: seq<string>,
                 py: CategoryPackYaml)
    returns (r: Result<(map<string, Category>, seq<string>)>)
    requires BuildDecls(done) == Ok(all) && order == Names(done)
    ensures var ds := done + DeclsOf(py.packType, py.categories);
      (r.Ok? ==> BuildDecls(ds) == Ok(r.value.0) && r.value.1 == Names(ds))
      && (r.Err? ==> BuildDecls(ds) == Err(r.msg))
  {
    var cs := py.categories;
    var cur, names := all, order;
    assert done + DeclsOf(py.packType, cs[..0]) == done;
    for j := 0 to |cs|
      invariant BuildDecls(done + DeclsOf(py.packType, cs[..j])) == Ok(cur)
      invariant names == Names(done + DeclsOf(py.packType, cs[..j]))
    {
      var d := Decl(Qualify(py.packType, cs[j].name), cs[j]);
      ghost var before := done + DeclsOf(py.packType, cs[..j]);
      PackSnoc(done, py.packType, cs, j);
      BuildSnoc(before, d, cur);
      var next := AddOne(cur, d);
      if next.Err? {
        r := Err(next.msg);
        ErrPersistsInPack(done, py.packType, cs, j);
        return;
      }
      cur := next.value;
      names := names + [d.q];
    }
    assert cs[..|cs|] == cs;
    r := Ok((cur, names));
  }

  /** One more category of the current pack extends the declarations by one. */
  lemma PackSnoc(done: seq<Decl>, t: string, cs: seq<CategoryYaml>, j: int)
    requires 0 <= j < |cs|
    ensures done + DeclsOf(t, cs[..j + 1]) == (done + DeclsOf(t, cs[..j])) + [Decl(Qualify(t, cs[j].name), cs[j])]
  {
    assert cs[..j + 1][..j] == cs[..j];
  }

  /** Building one more declaration is one more `AddDecl` step, and its name
      is appended to the order. */
  lemma BuildSnoc(before: seq<Decl>, d: Decl, cur: map<string, Category>)
    requires BuildDecls(before) == Ok(cur)
    ensures BuildDecls(before + [d]) == AddDecl(cur, d)
    ensures Names(before + [d]) == Names(before) + [d.q]
  {
    assert (before + [d])[..|before|] == before;
  }

  method Calc(config: CategoriesYaml) returns (r: Result<CategoriesState>)
    ensures r == Build(config)
  {
    var pys := config.categoriesPacks;
    var packs: seq<CategoryPack> := [];
    var certainPack: Option<CategoryPack> := None;
    var all: map<string, Category> := map[];
    var order: seq<string> := [];
    for i := 0 to |pys|
      invariant packs == PacksOf(pys[..i]) && certainPack == LastCertain(pys[..i])
      invariant BuildDecls(Flat(pys[..i])) == Ok(all) && order == Names(Flat(pys[..i]))
    {
      var py := pys[i];
      PacksSnoc(pys, i);
      var added := AddPack(Flat(pys[..i]), all, order, py);
      if added.Err? {
        r := Err(added.msg);
        ErrPersistsInPacks(pys, i);
        return;
      }
      all, order := added.value.0, added.value.1;
      if py.isCertain == Some(true) {
        certainPack := Some(PackOf(py));
      }
      packs := packs + [PackOf(py)];
    }
    assert pys[..|pys|] == pys;
    r := Ok(CategoriesState(packs, all, order, certainPack,
                            OtherCategory(config.otherCategory),
                            config.options.discardCommentsLevel.GetOr(99),
                            config.options.itemsFieldName));
  }

  /** One more pack extends the flat declarations, the packs and the
      certain pack by that pack. */
  lemma PacksSnoc(pys: seq<CategoryPackYaml>, i: int)
    requires 0 <= i < |pys|
    ensures Flat(pys[..i + 1]) == Flat(pys[..i]) + DeclsOf(pys[i].packType, pys[i].categories)
    ensures PacksOf(pys[..i + 1]) == PacksOf(pys[..i]) + [PackOf(pys[i])]
    ensures LastCertain(pys[..i + 1])
         == if pys[i].isCertain == Some(true) then Some(PackOf(pys[i])) else LastCertain(pys[..i])
  {
    FlatSnoc(pys[..i + 1], pys[..i], pys[i]);
  }

  /** A pack that fails makes the whole build fail with its message. */
  lemma ErrPersistsInPacks(pys: seq<CategoryPackYaml>, i: int)
    requires 0 <= i < |pys| && BuildDecls(Flat(pys[..i + 1])).Err?
    ensures BuildDecls(Flat(pys)) == BuildDecls(Flat(pys[..i + 1]))
  {
    FlatSplit(pys, i + 1);
    ErrPersists(Flat(pys[..i + 1]), Flat(pys[i + 1..]));
  }

  /** Once a prefix of the declarations fails, the whole build fails with the
      same message. */
  lemma {:induction false} ErrPersists(ds: seq<Decl>, more: seq<Decl>)
    requires BuildDecls(ds).Err?
    ensures BuildDecls(ds + more) == BuildDecls(ds)
    decreases |more|
  {
    if more == [] {
      assert ds + more == ds;
    } else {
      var m := more[..|more| - 1];
      ErrPersists(ds, m);
      assert (ds + more)[..|ds + more| - 1] == ds + m;
    }
  }

  lemma {:induction false} FlatAppend(a: seq<CategoryPackYaml>, b: seq<CategoryPackYaml>)
    ensures Flat(a + b) == Flat(a) + Flat(b)
    decreases |b|
  {
    if b == [] {
      assert a + b == a;
    } else {
      var b', last := b[..|b| - 1], b[|b| - 1];
      FlatAppend(a, b');
      assert (a + b)[..|a + b| - 1] == a + b';
      assert (a + b)[|a + b| - 1] == last;
      FlatSnoc(a + b, a + b', last);
      FlatSnoc(b, b', last);
      ConcatAssoc(Flat(a), Flat(b'), DeclsOf(last.packType, last.categories));
    }
  }

  lemma FlatSnoc(s: seq<CategoryPackYaml>, p: seq<CategoryPackYaml>, last: CategoryPackYaml)
    requires s != [] && s[..|s| - 1] == p && s[|s| - 1] == last
    ensures Flat(s) == Flat(p) + DeclsOf(last.packType, last.categories)
  {
  }

  lemma ConcatAssoc(x: seq<Decl>, y: seq<Decl>, z: seq<Decl>)
    ensures (x + y) + z == x + (y + z)
  {
  }

  lemma ErrPersistsInPack(done: seq<Decl>, t: string, cs: seq<CategoryYaml>, j: int)
    requires 0 <= j < |cs|
    requires BuildDecls(done + DeclsOf(t, cs[..j + 1])).Err?
    ensures BuildDecls(done + DeclsOf(t, cs)) == BuildDecls(done + DeclsOf(t, cs[..j + 1]))
  {
    var all := DeclsOf(t, cs);
    assert all[..j + 1] == DeclsOf(t, cs[..j + 1]);
    assert done + all == (done + DeclsOf(t, cs[..j + 1])) + all[j + 1..];
    ErrPersists(done + DeclsOf(t, cs[..j + 1]), all[j + 1..]);
  }

  // ----- what a build means -----------------------------------------------

  /** Every qualified name is new when declared, and every parent is a name
      declared earlier. */
  ghost predicate WellDeclared(ds: seq<Decl>) {
    ds == [] || (WellDeclared(ds[..|ds| - 1]) && DeclOk(ds[..|ds| - 1], ds[|ds| - 1]))
  }

  /** `d` is new and its parents are among the names `done` declares. */
  ghost predicate DeclOk(done: seq<Decl>, d: Decl) {
    d.q !in Names(done) && forall p :: p in ParentNames(d) ==> p in Names(done)
  }

  /** Each declaration of a well-declared list is new and names earlier parents. */
  lemma {:induction false} WellDeclaredAt(ds: seq<Decl>, k: int)
    requires WellDeclared(ds) && 0 <= k < |ds|
    ensures DeclOk(ds[..k], ds[k])
  {
    var p := ds[..|ds| - 1];
    if k < |p| {
      WellDeclaredAt(p, k);
      assert p[..k] == ds[..k];
    }
  }

  /** The error the declaration `d` raises when the declarations `done` came first. */
  ghost function DeclError(done: seq<Decl>, d: Decl): Option<string> {
    if d.q in Names(done) then Some("Category " + d.yaml.name + " already exists")
    else
      match FirstMissing(ParentNames(d), set n | n in Names(done))
      case Some(p) => Some("Parent " + p + " not found")
      case None => None
  }

  function Repeat(x: string, n: nat): seq<string> {
    if n == 0 then [] else Repeat(x, n - 1) + [x]
  }

  /** The children of `n`: every later declaration naming `n` as a parent,
      in order, once per time it names it. */
  ghost function ChildrenIn(ds: seq<Decl>, n: string): seq<string> {
    if ds == [] then []
    else ChildrenIn(ds[..|ds| - 1], n) + Repeat(ds[|ds| - 1].q, Count(ParentNames(ds[|ds| - 1]), n))
  }

  ghost function ExpectedCategory(ds: seq<Decl>, d: Decl): Category {
    NewCategory(d).(children := ChildrenIn(ds, d.q))
  }

  lemma {:induction false} RepeatMembers(x: string, n: nat, c: string)
    ensures c in Repeat(x, n) <==> n > 0 && c == x
  {
    if n > 0 {
      RepeatMembers(x, n - 1, c);
    }
  }

  lemma {:induction false} AddChildrenEffect(all: map<string, Category>, ps: seq<string>, c: string, n: string)
    requires forall k :: 0 <= k < |ps| ==> ps[k] in all
    requires n in all
    ensures AddChildren(all, ps, c)[n]
         == all[n].(children := all[n].children + Repeat(c, Count(ps, n)))
  {
    if ps != [] {
      AddChildrenEffect(all, ps[..|ps| - 1], c, n);
    }
  }

  lemma {:induction false} NoChildrenYet(ds: seq<Decl>, n: string)
    requires WellDeclared(ds) && n !in Names(ds)
    ensures ChildrenIn(ds, n) == []
  {
    if ds != [] {
      var p := ds[..|ds| - 1];
      var last := ds[|ds| - 1];
      NoChildrenYet(p, n);
      CountPositive(ParentNames(last), n);
      assert n !in ParentNames(last);
    }
  }

  lemma {:induction false} WellDeclaredPrefix(ds: seq<Decl>, k: int)
    requires WellDeclared(ds) && 0 <= k <= |ds|
    ensures WellDeclared(ds[..k])
    decreases |ds|
  {
    if k < |ds| {
      var p := ds[..|ds| - 1];
      WellDeclaredPrefix(p, k);
      assert p[..k] == ds[..k];
    } else {
      assert ds[..k] == ds;
    }
  }

  /** `all` is the store the declarations `ds` describe. */
  ghost predicate Describes(ds: seq<Decl>, all: map<string, Category>) {
    (forall n :: n in all <==> n in Names(ds))
    && forall d :: d in ds ==> d.q in all && all[d.q] == ExpectedCategory(ds, d)
  }

  lemma WellDeclaredSnoc(p: seq<Decl>, e: Decl)
    ensures WellDeclared(p + [e]) <==>
      WellDeclared(p) && e.q !in Names(p) && forall x :: x in ParentNames(e) ==> x in Names(p)
  {
    assert (p + [e])[..|p|] == p;
  }

  lemma AddDeclFails(p: seq<Decl>, e: Decl, all: map<string, Category>)
    requires WellDeclared(p) && Describes(p, all) && AddDecl(all, e).Err?
    ensures !WellDeclared(p + [e]) && DeclError(p, e) == Some(AddDecl(all, e).msg)
  {
    assert all.Keys == set n | n in Names(p);
    WellDeclaredSnoc(p, e);
  }

  lemma ChildrenSnoc(p: seq<Decl>, e: Decl, n: string)
    ensures ChildrenIn(p + [e], n) == ChildrenIn(p, n) + Repeat(e.q, Count(ParentNames(e), n))
  {
    assert (p + [e])[..|p|] == p;
  }

  lemma AddDeclSucceeds(p: seq<Decl>, e: Decl, all: map<string, Category>)
    requires WellDeclared(p) && Describes(p, all) && AddDecl(all, e).Ok?
    ensures WellDeclared(p + [e]) && Describes(p + [e], AddDecl(all, e).value)
  {
    var ds := p + [e];
    var ps := ParentNames(e);
    WellDeclaredSnoc(p, e);
    assert e.q !in all;
    assert FirstMissing(ps, all.Keys).None?;
    assert forall k :: 0 <= k < |ps| ==> ps[k] in all;
    var added := AddChildren(all, ps, e.q);
    var all' := added[e.q := NewCategory(e)];
    assert AddDecl(all, e).value == all';
    assert Names(ds) == Names(p) + [e.q] by {
      assert ds[..|ds| - 1] == p;
    }
    assert forall n :: n in all' <==> n in Names(ds);
    EntriesAfterAdd(p, e, all);
  }

  lemma EntriesAfterAdd(p: seq<Decl>, e: Decl, all: map<string, Category>)
    requires WellDeclared(p) && Describes(p, all) && e.q !in all
    requires forall x :: x in ParentNames(e) ==> x in Names(p)
    requires forall k :: 0 <= k < |ParentNames(e)| ==> ParentNames(e)[k] in all
    ensures var all' := AddChildren(all, ParentNames(e), e.q)[e.q := NewCategory(e)];
      forall d :: d in p + [e] ==> d.q in all' && all'[d.q] == ExpectedCategory(p + [e], d)
  {
    var all' := AddChildren(all, ParentNames(e), e.q)[e.q := NewCategory(e)];
    forall d | d in p + [e] ensures d.q in all' && all'[d.q] == ExpectedCategory(p + [e], d) {
      if d == e {
        assert e.q !in Names(p);
        NewEntry(p, e);
      } else {
        assert d in p;
        StoredEarlier(p, e, all, d);
      }
    }
  }

  lemma StoredEarlier(p: seq<Decl>, e: Decl, all: map<string, Category>, d: Decl)
    requires Describes(p, all) && e.q !in all && d in p
    requires forall k :: 0 <= k < |ParentNames(e)| ==> ParentNames(e)[k] in all
    ensures var all' := AddChildren(all, ParentNames(e), e.q)[e.q := NewCategory(e)];
      d.q in all' && all'[d.q] == ExpectedCategory(p + [e], d)
  {
    assert d.q in all && all[d.q] == ExpectedCategory(p, d);
    EarlierEntry(p, e, all, d);
  }

  lemma NewEntry(p: seq<Decl>, e: Decl)
    requires WellDeclared(p) && e.q !in Names(p)
    requires forall x :: x in ParentNames(e) ==> x in Names(p)
    ensures ExpectedCategory(p + [e], e) == NewCategory(e)
  {
    ChildrenSnoc(p, e, e.q);
    NoChildrenYet(p, e.q);
    CountPositive(ParentNames(e), e.q);
  }

  lemma EarlierEntry(p: seq<Decl>, e: Decl, all: map<string, Category>, d: Decl)
    requires forall k :: 0 <= k < |ParentNames(e)| ==> ParentNames(e)[k] in all
    requires d.q in all && all[d.q] == ExpectedCategory(p, d)
    ensures AddChildren(all, ParentNames(e), e.q)[d.q] == ExpectedCategory(p + [e], d)
  {
    ChildrenSnoc(p, e, d.q);
    AddChildrenEffect(all, ParentNames(e), e.q, d.q);
  }

  /** The build succeeds exactly for well-declared input, and then the store
      holds exactly the declared names, each with the category its declaration
      describes and every later declaration naming it as a child; otherwise
      the error is the one of the first declaration that fails. */
  lemma {:induction false} BuildDeclsShape(ds: seq<Decl>)
    ensures BuildDecls(ds).Ok? <==> WellDeclared(ds)
    ensures BuildDecls(ds).Ok? ==> Describes(ds, BuildDecls(ds).value)
  {
    if ds != [] {
      var p := ds[..|ds| - 1];
      var e := ds[|ds| - 1];
      BuildDeclsShape(p);
      assert ds == p + [e];
      if BuildDecls(p).Err? {
        WellDeclaredSnoc(p, e);
      } else {
        var all := BuildDecls(p).value;
        assert BuildDecls(ds) == AddDecl(all, e);
        if AddDecl(all, e).Err? {
          AddDeclFails(p, e, all);
        } else {
          AddDeclSucceeds(p, e, all);
        }
      }
    }
  }

  lemma {:induction false} BuildDeclsFailure(ds: seq<Decl>)
    requires BuildDecls(ds).Err?
    ensures exists k :: 0 <= k < |ds| && WellDeclared(ds[..k])
                        && DeclError(ds[..k], ds[k]) == Some(BuildDecls(ds).msg)
  {
    var p := ds[..|ds| - 1];
    var e := ds[|ds| - 1];
    assert ds == p + [e];
    if BuildDecls(p).Err? {
      BuildDeclsFailure(p);
      var k :| 0 <= k < |p| && WellDeclared(p[..k]) && DeclError(p[..k], p[k]) == Some(BuildDecls(p).msg);
      assert ds[..k] == p[..k] && ds[k] == p[k];
    } else {
      BuildDeclsShape(p);
      var all := BuildDecls(p).value;
      AddDeclFails(p, e, all);
      assert ds[..|p|] == p;
    }
  }

  lemma {:induction false} ChildrenMembers(ds: seq<Decl>, n: string, c: string)
    ensures c in ChildrenIn(ds, n) <==>
      exists k :: 0 <= k < |ds| && ds[k].q == c && n in ParentNames(ds[k])
  {
    if ds != [] {
      var p := ds[..|ds| - 1];
      var last := ds[|ds| - 1];
      ChildrenMembers(p, n, c);
      RepeatMembers(last.q, Count(ParentNames(last), n), c);
      CountPositive(ParentNames(last), n);
      assert forall k :: 0 <= k < |p| ==> p[k] == ds[k];
    }
  }

  lemma IndexOfDistinct(s: seq<string>, k: int)
    requires forall i, j :: 0 <= i < j < |s| ==> s[i] != s[j]
    requires 0 <= k < |s|
    ensures IndexOf(s, s[k]) == k
  {
  }

  lemma {:induction false} NamesDistinct(ds: seq<Decl>)
    requires WellDeclared(ds)
    ensures forall i, j :: 0 <= i < j < |Names(ds)| ==> Names(ds)[i] != Names(ds)[j]
  {
    if ds != [] {
      var p := ds[..|ds| - 1];
      NamesDistinct(p);
      forall i, j | 0 <= i < j < |ds| ensures ds[i].q != ds[j].q {
        assert p[i] == ds[i];
        if j == |p| {
          assert Names(p)[i] == ds[i].q;
        } else {
          assert p[j] == ds[j] && Names(p)[j] == ds[j].q && Names(p)[i] == ds[i].q;
        }
      }
    }
  }

  /** The declaration a built category comes from: the one at its position
      in the Map order. */
  lemma Locate(ds: seq<Decl>, all: map<string, Category>, c: string) returns (k: nat)
    requires BuildDecls(ds) == Ok(all) && c in all
    ensures k < |ds| && ds[k].q == c && IndexOf(Names(ds), c) == k
    ensures all[c] == ExpectedCategory(ds, ds[k])
    ensures forall k' :: 0 <= k' < |ds| && ds[k'].q == c ==> k' == k
  {
    BuildDeclsShape(ds);
    NamesDistinct(ds);
    k := IndexOf(Names(ds), c);
    assert ds[k] in ds;
    forall k' | 0 <= k' < |ds| && ds[k'].q == c ensures k' == k {
      assert Names(ds)[k'] == c;
    }
  }

  /** The store holds exactly the declared names, and the Map order lists
      each of them once. */
  lemma BuiltOrder(ds: seq<Decl>, all: map<string, Category>, order: seq<string>)
    requires BuildDecls(ds) == Ok(all) && order == Names(ds)
    ensures KeysListed(all, order) && Distinct(order)
  {
    BuildDeclsShape(ds);
    NamesDistinct(ds);
  }

  ghost predicate Distinct(order: seq<string>) {
    forall i, j :: 0 <= i < j < |order| ==> order[i] != order[j]
  }

  ghost predicate KeysListed(all: map<string, Category>, order: seq<string>) {
    forall n :: n in all <==> n in order
  }

  ghost predicate NamesMatchKeys(all: map<string, Category>) {
    forall n :: n in all ==> all[n].name == n
  }

  ghost predicate ParentsBefore(all: map<string, Category>, order: seq<string>) {
    forall n, p :: n in all && p in all[n].parents ==>
      p in all && p in order && n in order && IndexOf(order, p) < IndexOf(order, n)
  }

  /** The four facts a valid state is made of. */
  lemma StateValidIntro(st: CategoriesState)
    requires Distinct(st.order) && KeysListed(st.allCategories, st.order)
    requires NamesMatchKeys(st.allCategories) && ParentsBefore(st.allCategories, st.order)
    ensures StateValid(st)
  {
  }

  lemma NameIsKey(ds: seq<Decl>, all: map<string, Category>, c: string)
    requires BuildDecls(ds) == Ok(all) && c in all
    ensures all[c].name == c
  {
    var k := Locate(ds, all, c);
  }

  lemma ParentEarlier(ds: seq<Decl>, all: map<string, Category>, c: string, p: string)
    requires BuildDecls(ds) == Ok(all)
    requires c in all && p in all[c].parents
    ensures p in all && p in Names(ds) && c in Names(ds)
    ensures IndexOf(Names(ds), p) < IndexOf(Names(ds), c)
  {
    var k := Locate(ds, all, c);
    assert all[c].parents == ParentNames(ds[k]);
    BuildDeclsShape(ds);
    WellDeclaredAt(ds, k);
    var j := IndexOf(Names(ds[..k]), p);
    assert ds[..k][j] == ds[j];
    NamesDistinct(ds);
    IndexOfDistinct(Names(ds), j);
  }

  lemma ParentIffChildAt(ds: seq<Decl>, all: map<string, Category>, c: string, p: string)
    requires BuildDecls(ds) == Ok(all) && c in all && p in all
    ensures p in all[c].parents <==> c in all[p].children
  {
    var k := Locate(ds, all, c);
    var kp := Locate(ds, all, p);
    ChildrenMembers(ds, p, c);
  }

  /** A built state is valid: names are keys, the order lists every key once,
      parents are declared earlier (no cycles), and `p` is a parent of `c`
      exactly when `c` is a child of `p`. */
  lemma BuildGraph(config: CategoriesYaml)
    requires Build(config).Ok?
    ensures StateValid(Build(config).value)
    ensures var all := Build(config).value.allCategories;
      forall c, p :: c in all && p in all ==> (p in all[c].parents <==> c in all[p].children)
  {
    var ds := Flat(config.categoriesPacks);
    var st := Build(config).value;
    assert BuildDecls(ds) == Ok(st.allCategories);
    assert st.order == Names(ds);
    BuiltStateValid(ds, st);
    ParentIffChild(ds, st.allCategories);
  }

  lemma BuiltStateValid(ds: seq<Decl>, st: CategoriesState)
    requires BuildDecls(ds) == Ok(st.allCategories) && st.order == Names(ds)
    ensures StateValid(st)
  {
    BuiltOrder(ds, st.allCategories, st.order);
    NamesAreKeys(ds, st.allCategories);
    ParentsEarlier(ds, st.allCategories, st.order);
    StateValidIntro(st);
  }

  lemma NamesAreKeys(ds: seq<Decl>, all: map<string, Category>)
    requires BuildDecls(ds) == Ok(all)
    ensures NamesMatchKeys(all)
  {
    forall c | c in all ensures all[c].name == c {
      NameIsKey(ds, all, c);
    }
  }

  lemma ParentsEarlier(ds: seq<Decl>, all: map<string, Category>, order: seq<string>)
    requires BuildDecls(ds) == Ok(all) && order == Names(ds)
    ensures ParentsBefore(all, order)
  {
    forall c, p | c in all && p in all[c].parents
      ensures p in all && p in order && c in order && IndexOf(order, p) < IndexOf(order, c)
    {
      ParentEarlier(ds, all, c, p);
    }
  }

  lemma ParentIffChild(ds: seq<Decl>, all: map<string, Category>)
    requires BuildDecls(ds) == Ok(all)
    ensures forall c, p :: c in all && p in all ==> (p in all[c].parents <==> c in all[p].children)
  {
    forall c, p | c in all && p in all
      ensures p in all[c].parents <==> c in all[p].children
    {
      ParentIffChildAt(ds, all, c, p);
    }
  }

  /** Build succeeds exactly when the declarations are well formed; a failed
      build reports the first failing declaration's message. */
  lemma BuildErrors(config: CategoriesYaml)
    ensures Build(config).Ok? <==> WellDeclared(Flat(config.categoriesPacks))
    ensures Build(config).Err? ==> var ds := Flat(config.categoriesPacks);
      (exists k :: 0 <= k < |ds| && WellDeclared(ds[..k])
                   && DeclError(ds[..k], ds[k]) == Some(Build(config).msg))
  {
    BuildDeclsShape(Flat(config.categoriesPacks));
    if Build(config).Err? {
      BuildDeclsFailure(Flat(config.categoriesPacks));
    }
  }

  lemma DeclInFlat(pys: seq<CategoryPackYaml>, i: int, j: int)
    requires 0 <= i < |pys| && 0 <= j < |pys[i].categories|
    ensures Decl(Qualify(pys[i].packType, pys[i].categories[j].name), pys[i].categories[j]) in Flat(pys)
  {
    var ds := DeclsOf(pys[i].packType, pys[i].categories);
    FlatSplit(pys, i + 1);
    PacksSnoc(pys, i);
    InMiddle(Flat(pys[..i]), ds, Flat(pys[i + 1..]), j);
  }

  lemma FlatSplit(pys: seq<CategoryPackYaml>, k: int)
    requires 0 <= k <= |pys|
    ensures Flat(pys) == Flat(pys[..k]) + Flat(pys[k..])
  {
    PacksJoin(pys, k);
    FlatAppend(pys[..k], pys[k..]);
  }

  lemma PacksJoin(pys: seq<CategoryPackYaml>, k: int)
    requires 0 <= k <= |pys|
    ensures pys[..k] + pys[k..] == pys
  {
  }

  lemma InMiddle(a: seq<Decl>, b: seq<Decl>, c: seq<Decl>, j: int)
    requires 0 <= j < |b|
    ensures b[j] in (a + b) + c
  {
    assert ((a + b) + c)[|a| + j] == b[j];
  }

  /** Packs keep declaration order and hold the qualified names of their
      categories; each declared category is built as `type.local` with
      `prettyName = local` and the documented defaults. */
  lemma BuildMatchesDeclarations(config: CategoriesYaml, i: int, j: int)
    requires Build(config).Ok?
    requires 0 <= i < |config.categoriesPacks| && 0 <= j < |config.categoriesPacks[i].categories|
    ensures var st := Build(config).value;
      var py := config.categoriesPacks[i];
      var cy := py.categories[j];
      var q := py.packType + "." + cy.name;
      |st.packs| == |config.categoriesPacks|
      && st.packs[i].packType == py.packType && st.packs[i].prettyName == py.prettyName
      && |st.packs[i].categories| == |py.categories| && st.packs[i].categories[j] == q
      && q in st.allCategories
      && st.allCategories[q].name == q && st.allCategories[q].prettyName == cy.name
      && st.allCategories[q].parents == cy.parents.GetOr([])
      && st.allCategories[q].color == cy.color
      && st.allCategories[q].skipOnDiagramm == (cy.skipOnDiagramm == Some(true))
      && st.allCategories[q].hideOnLineChart == cy.hideOnLineChart.GetOr(true)
  {
    var pys := config.categoriesPacks;
    DeclInFlat(pys, i, j);
    BuildDeclsShape(Flat(pys));
    var d := Decl(Qualify(pys[i].packType, pys[i].categories[j].name), pys[i].categories[j]);
    assert d.q in Names(Flat(pys));
  }

  /** The keys of `allCategories` are exactly the declared qualified names. */
  lemma BuildKeys(config: CategoriesYaml)
    requires Build(config).Ok?
    ensures forall n :: n in Build(config).value.allCategories <==>
      (exists i, j :: 0 <= i < |config.categoriesPacks| && 0 <= j < |config.categoriesPacks[i].categories|
                      && n == config.categoriesPacks[i].packType + "." + config.categoriesPacks[i].categories[j].name)
  {
    var pys := config.categoriesPacks;
    BuildDeclsShape(Flat(pys));
    forall n | n in Build(config).value.allCategories
      ensures exists i, j :: (0 <= i < |pys| && 0 <= j < |pys[i].categories|
                              && n == pys[i].packType + "." + pys[i].categories[j].name)
    {
      DeclFromFlat(pys, n);
    }
    forall i, j | 0 <= i < |pys| && 0 <= j < |pys[i].categories|
      ensures pys[i].packType + "." + pys[i].categories[j].name in Build(config).value.allCategories
    {
      DeclInFlat(pys, i, j);
      var d := Decl(Qualify(pys[i].packType, pys[i].categories[j].name), pys[i].categories[j]);
      assert d.q in Names(Flat(pys));
    }
  }

  lemma {:induction false} DeclFromFlat(pys: seq<CategoryPackYaml>, n: string)
    requires n in Names(Flat(pys))
    ensures exists i, j :: (0 <= i < |pys| && 0 <= j < |pys[i].categories|
                            && n == pys[i].packType + "." + pys[i].categories[j].name)
  {
    var p := pys[..|pys| - 1];
    var last := pys[|pys| - 1];
    var a := Flat(p);
    var b := DeclsOf(last.packType, last.categories);
    var k := IndexOf(Names(Flat(pys)), n);
    if k < |a| {
      assert Names(a)[k] == n;
      DeclFromFlat(p, n);
      var i, j :| 0 <= i < |p| && 0 <= j < |p[i].categories|
        && n == p[i].packType + "." + p[i].categories[j].name;
      assert p[i] == pys[i];
    } else {
      assert b[k - |a|].q == n;
      assert n == last.packType + "." + last.categories[k - |a|].name;
    }
  }

  /** The other category is built from its configuration alone: its name
      as both names, no parents or children, shown on line charts, no skip
      unless configured; the comment level defaults to 99. */
  lemma BuildDefaults(config: CategoriesYaml)
    requires Build(config).Ok?
    ensures var st := Build(config).value;
      var o := config.otherCategory;
      st.otherCategory.name == o.name && st.otherCategory.prettyName == o.name
      && st.otherCategory.parents == [] && st.otherCategory.children == []
      && st.otherCategory.color == o.color
      && st.otherCategory.skipOnDiagramm == (o.skipOnDiagramm == Some(true))
      && !st.otherCategory.hideOnLineChart
      && (config.options.discardCommentsLevel.None? ==> st.discardCommentsLevel == 99)
      && (config.options.discardCommentsLevel.Some? ==> st.discardCommentsLevel == config.options.discardCommentsLevel.value)
      && st.itemsFieldName == config.options.itemsFieldName
  {
  }

  /** `certainPack` is the last pack marked certain, and null when there is
      none (no error is raised then). */
  lemma {:induction false} CertainPackIsLast(pys: seq<CategoryPackYaml>)
    ensures LastCertain(pys).None? <==> forall i :: 0 <= i < |pys| ==> pys[i].isCertain != Some(true)
    ensures LastCertain(pys).Some? ==>
      (exists i :: 0 <= i < |pys| && pys[i].isCertain == Some(true)
                   && LastCertain(pys) == Some(PackOf(pys[i]))
                   && forall i' :: i < i' < |pys| ==> pys[i'].isCertain != Some(true))
  {
    if pys != [] {
      var p := pys[..|pys| - 1];
      CertainPackIsLast(p);
      assert forall i :: 0 <= i < |p| ==> p[i] == pys[i];
    }
  }

  // ----- examples ------------------------------------------------------------

  function Plain(name: string, parents: seq<string>): CategoryYaml {
    CategoryYaml(name, None, Some(parents), None, None)
  }

  /** A configuration with one pack and default options. */
  function OnePack(packType: string, cs: seq<CategoryYaml>): CategoriesYaml {
    CategoriesYaml([], OptionsYaml(None, "items"),
                   [CategoryPackYaml(packType, packType, cs, None)],
                   OtherCategoryYaml("other", None, None))
  }

  lemma FlatOne(py: CategoryPackYaml)
    ensures Flat([py]) == DeclsOf(py.packType, py.categories)
  {
    assert [py][..0] == [];
  }

  lemma DeclsPair(t: string, x: CategoryYaml, y: CategoryYaml)
    ensures DeclsOf(t, [x, y]) == [Decl(Qualify(t, x.name), x), Decl(Qualify(t, y.name), y)]
  {
  }

  /** The declarations of a one-pack configuration of two categories. */
  lemma TwoDecls(t: string, x: CategoryYaml, y: CategoryYaml)
    ensures Flat(OnePack(t, [x, y]).categoriesPacks)
         == [Decl(Qualify(t, x.name), x), Decl(Qualify(t, y.name), y)]
  {
    FlatOne(CategoryPackYaml(t, t, [x, y], None));
    DeclsPair(t, x, y);
  }

  lemma FirstParentMissing(d: Decl, e: Decl, p: string)
    requires ParentNames(d) == [p]
    ensures BuildDecls([d, e]) == Err("Parent " + p + " not found")
  {
    BuildSnoc([], d, map[]);
    assert [] + [d] == [d];
    ErrPersists([d], [e]);
    assert [d] + [e] == [d, e];
  }

  lemma SingleDecl(d: Decl)
    requires ParentNames(d) == []
    ensures BuildDecls([d]) == Ok(map[d.q := NewCategory(d)])
  {
    BuildSnoc([], d, map[]);
    assert [] + [d] == [d];
  }

  lemma SameTwiceFails(d: Decl)
    requires ParentNames(d) == []
    ensures BuildDecls([d, d]) == Err("Category " + d.yaml.name + " already exists")
  {
    SingleDecl(d);
    BuildSnoc([d], d, map[d.q := NewCategory(d)]);
    assert [d] + [d] == [d, d];
  }

  lemma ChildOfSingle(a: Decl, b: Decl)
    requires a.q != b.q && ParentNames(b) == [a.q]
    ensures var r := AddDecl(map[a.q := NewCategory(a)], b);
      r.Ok? && a.q in r.value && b.q in r.value
      && r.value[a.q].children == NewCategory(a).children + [b.q] && r.value[b.q].parents == [a.q]
  {
    var m := map[a.q := NewCategory(a)];
    assert FirstMissing([a.q], m.Keys) == None;
    assert AddChildren(m, [a.q], b.q)[a.q].children == m[a.q].children + [b.q];
  }

  lemma ParentThenChild(a: Decl, b: Decl)
    requires a.q != b.q && ParentNames(a) == [] && ParentNames(b) == [a.q]
    ensures BuildDecls([a, b]).Ok?
    ensures var all := BuildDecls([a, b]).value;
      a.q in all && b.q in all && all[a.q].children == [b.q] && all[b.q].parents == [a.q]
    ensures Names([a, b]) == [a.q, b.q]
  {
    SingleDecl(a);
    BuildSnoc([a], b, map[a.q := NewCategory(a)]);
    assert [a] + [b] == [a, b];
    ChildOfSingle(a, b);
  }

  /** A parent must be declared before its child, and under its qualified
      name: naming a parent that comes later in the pack fails. */
  lemma ParentDeclaredLaterFails(t: string, a: string, b: string)
    ensures Build(OnePack(t, [Plain(b, [t + "." + a]), Plain(a, [])]))
         == Err("Parent " + t + "." + a + " not found")
  {
    var x, y := Plain(b, [t + "." + a]), Plain(a, []);
    TwoDecls(t, x, y);
    assert ParentNames(Decl(Qualify(t, b), x)) == [t + "." + a];
    FirstParentMissing(Decl(Qualify(t, b), x), Decl(Qualify(t, a), y), t + "." + a);
  }

  /** The same local name twice in one pack is an error that names the local name. */
  lemma DuplicateFails(t: string, a: string)
    ensures Build(OnePack(t, [Plain(a, []), Plain(a, [])])) == Err("Category " + a + " already exists")
  {
    var x := Plain(a, []);
    TwoDecls(t, x, x);
    assert ParentNames(Decl(Qualify(t, a), x)) == [];
    SameTwiceFails(Decl(Qualify(t, a), x));
  }

  /** A child gets its parent's qualified name in `parents` and appears in the
      parent's `children`; the order is the declaration order, there is no
      certain pack and the default comment level is 99. */
  lemma ChildRegistered(t: string, a: string, b: string)
    requires a != b
    ensures var r := Build(OnePack(t, [Plain(a, []), Plain(b, [t + "." + a])]));
      r.Ok? && t + "." + a in r.value.allCategories && t + "." + b in r.value.allCategories
      && r.value.allCategories[t + "." + a].children == [t + "." + b]
      && r.value.allCategories[t + "." + b].parents == [t + "." + a]
      && r.value.order == [t + "." + a, t + "." + b]
      && r.value.certainPack.None?
      && r.value.discardCommentsLevel == 99
  {
    var x, y := Plain(a, []), Plain(b, [t + "." + a]);
    TwoDecls(t, x, y);
    QualifyInjective(t, a, b);
    ParentThenChild(Decl(Qualify(t, a), x), Decl(Qualify(t, b), y));
    assert LastCertain([CategoryPackYaml(t, t, [x, y], None)]) == None;
  }

  lemma QualifyInjective(t: string, a: string, b: string)
    requires a != b
    ensures Qualify(t, a) != Qualify(t, b)
  {
    assert Qualify(t, a)[|t| + 1..] == a;
    assert Qualify(t, b)[|t| + 1..] == b;
  }
}
