/** `CategoryManager.calc`: sums the minutes of the parsed items into
    buckets. Every item counts for its own (leaf) category and for every
    ancestor `getAllParents` lists, without removing repeated ancestors, so
    a category reached along two paths is counted twice. Each category gets
    an all-time bucket (`averages`) and a bucket per date (`history`); a
    bucket holds units keyed by (leaf pretty name, shortened comment). Totals
    per date and overall are kept beside them. */
module CategoryManager {
  import opened Wrappers
  import opened Js
  import opened CategoryModels

  // ----- discardComment ------------------------------------------------------

  /** Where `slice(0, n)` stops on a list of length `len` (a negative `n`
      counts from the end). */
  function SliceEnd(len: nat, n: int): (e: nat)
    ensures e <= len
  {
    if n < 0 then (if len + n > 0 then len + n else 0)
    else if n < len then n else len
  }

  function TrimAll(parts: seq<string>): (r: seq<string>)
    ensures |r| == |parts| && forall k :: 0 <= k < |r| ==> r[k] == Trim(parts[k])
  {
    seq(|parts|, k requires 0 <= k < |parts| => Trim(parts[k]))
  }

  /** `discardComment(item, level)`: no comment at level 0 or without a
      comment; otherwise the first `level` trimmed `;`-segments joined by
      `"; "` (a negative level drops that many segments from the end). */
  function DiscardComment(comment: Option<string>, level: int): (r: Option<string>)
    ensures r.None? <==> level == 0 || comment.None?
  {
    if level == 0 then None
    else if comment.None? then None
    else
      var parts := TrimAll(Split(comment.value, ';'));
      Some(Join(parts[..SliceEnd(|parts|, level)], "; "))
  }

  /** A comment without `;` is kept, trimmed, at every positive level. */
  lemma DiscardSingleSegment(c: string, level: int)
    requires level > 0 && ';' !in c
    ensures DiscardComment(Some(c), level) == Some(Trim(c))
  {
    SplitWithoutSeparator(c, ';');
    assert TrimAll(Split(c, ';')) == [Trim(c)];
  }

  /** At a negative level a comment without `;` loses its only segment and
      becomes the empty string (not `null`). */
  lemma DiscardNegativeSingleSegment(c: string, level: int)
    requires level < 0 && ';' !in c
    ensures DiscardComment(Some(c), level) == Some("")
  {
    SplitWithoutSeparator(c, ';');
    assert TrimAll(Split(c, ';')) == [Trim(c)];
  }

  /** The segments a comment keeps: trimmed, free of `;`, at most `level`. */
  lemma DiscardParts(c: string, level: int) returns (q: seq<string>)
    requires level > 0
    ensures DiscardComment(Some(c), level) == Some(Join(q, "; "))
    ensures |q| <= level && forall k :: 0 <= k < |q| ==> ';' !in q[k] && Trim(q[k]) == q[k]
  {
    var ps := Split(c, ';');
    var parts := TrimAll(ps);
    q := parts[..SliceEnd(|parts|, level)];
    forall k | 0 <= k < |q| ensures ';' !in q[k] && Trim(q[k]) == q[k] {
      assert q[k] == Trim(ps[k]);
      TrimKeepsOut(ps[k], ';');
      TrimOfTrimmed(q[k]);
    }
  }

  /** Trimmed `;`-free segments, at most `level` of them, joined by `"; "`,
      are what discarding keeps of their join. */
  lemma DiscardOfJoined(q: seq<string>, level: int)
    requires level > 0 && |q| <= level
    requires forall k :: 0 <= k < |q| ==> ';' !in q[k] && Trim(q[k]) == q[k]
    ensures DiscardComment(Some(Join(q, "; ")), level) == Some(Join(q, "; "))
  {
    if q == [] {
      DiscardEmpty(level);
    } else {
      var r := SplitJoined(q);
      assert TrimAll(r) == q;
      DiscardOfParts(Join(q, "; "), level, q);
    }
  }

  lemma DiscardOfParts(x: string, level: int, q: seq<string>)
    requires level > 0 && |q| <= level && TrimAll(Split(x, ';')) == q
    ensures DiscardComment(Some(x), level) == Some(Join(q, "; "))
  {
    assert SliceEnd(|q|, level) == |q|;
    assert q[..|q|] == q;
  }

  lemma DiscardEmpty(level: int)
    requires level > 0
    ensures DiscardComment(Some(""), level) == Some("")
  {
    assert Split("", ';') == [""];
    assert TrimAll([""]) == [""];
  }

  /** The segments of a join of trimmed `;`-free segments trim back to them. */
  lemma SplitJoined(q: seq<string>) returns (r: seq<string>)
    requires |q| >= 1 && forall k :: 0 <= k < |q| ==> ';' !in q[k] && Trim(q[k]) == q[k]
    ensures r == Split(Join(q, "; "), ';') && |r| == |q|
    ensures forall k :: 0 <= k < |q| ==> Trim(r[k]) == q[k]
  {
    assert "; " == [';'] + " ";
    SplitJoinPadded(q, ';', " ");
    r := Split(Join(q, "; "), ';');
    TrimPaddedParts(r, q);
  }

  lemma TrimPaddedParts(r: seq<string>, q: seq<string>)
    requires |r| == |q| >= 1 && r[0] == q[0]
    requires forall k :: 1 <= k < |q| ==> r[k] == " " + q[k]
    requires forall k :: 0 <= k < |q| ==> Trim(q[k]) == q[k]
    ensures forall k :: 0 <= k < |q| ==> Trim(r[k]) == q[k]
  {
    forall k | 1 <= k < |q| ensures Trim(r[k]) == q[k] {
      TrimAfterSpace(q[k]);
    }
  }

  /** At a positive level, discarding again changes nothing. */
  lemma DiscardIdempotent(c: Option<string>, level: int)
    requires level > 0
    ensures DiscardComment(DiscardComment(c, level), level) == DiscardComment(c, level)
  {
    if c.Some? {
      var q := DiscardParts(c.value, level);
      DiscardOfJoined(q, level);
    }
  }

  /** Trimming never introduces a character. */
  lemma TrimKeepsOut(s: string, x: char)
    requires x !in s
    ensures x !in Trim(s)
  {
    forall k | 0 <= k < |Trim(s)| ensures Trim(s)[k] != x { TrimKeepsChars(s, k); }
  }

  // ----- buckets ---------------------------------------------------------------

  function UnitsMinutes(us: seq<TimeUnit>): int {
    if us == [] then 0 else UnitsMinutes(us[..|us| - 1]) + us[|us| - 1].minutes
  }

  /** The predicate `units.find` applies in `putUnitUnitCategory`: the same
      comment and the same certain category. */
  predicate SameKey(u: TimeUnit, certain: string, comment: Option<string>) {
    u.comment == comment && u.certainCategory == certain
  }

  predicate DistinctKeys(us: seq<TimeUnit>) {
    forall i, j :: 0 <= i < j < |us| ==> !SameKey(us[j], us[i].certainCategory, us[i].comment)
  }

  /** A bucket's invariant: its total is the sum of its units' minutes, and no
      two units share a key. */
  predicate BucketOk(b: CalculatedCategory) {
    b.totalMinutes == UnitsMinutes(b.units) && DistinctKeys(b.units)
  }

  /** `units.find(...)`: the first unit with the key, or `|us|` for none. */
  function FindUnit(us: seq<TimeUnit>, certain: string, comment: Option<string>): (i: nat)
    ensures i <= |us|
    ensures i < |us| ==> SameKey(us[i], certain, comment)
    ensures forall j :: 0 <= j < i ==> !SameKey(us[j], certain, comment)
  {
    if us == [] then 0
    else if SameKey(us[0], certain, comment) then 0
    else 1 + FindUnit(us[1..], certain, comment)
  }

  /** `makeCalculatedCategory`: a bucket of category `c` holding one unit. */
  function MakeCalculatedCategory(c: Category, certain: string, comment: Option<string>, minutes: int)
    : (b: CalculatedCategory)
    ensures BucketOk(b) && b.totalMinutes == minutes
  {
    CalculatedCategory(c.name, c.prettyName, minutes, c.color, c.hideOnLineChart,
                       [TimeUnit(certain, minutes, comment)])
  }

  /** `putUnitUnitCategory`: adds the minutes to the bucket's total and to the
      unit with the key, or appends a new unit when there is none. */
  function PutUnit(b: CalculatedCategory, certain: string, minutes: int, comment: Option<string>)
    : CalculatedCategory
  {
    var i := FindUnit(b.units, certain, comment);
    b.(totalMinutes := b.totalMinutes + minutes,
       units := if i < |b.units| then b.units[i := b.units[i].(minutes := b.units[i].minutes + minutes)]
                else b.units + [TimeUnit(certain, minutes, comment)])
  }

  lemma {:induction false} UnitsMinutesUpdate(us: seq<TimeUnit>, i: nat, u: TimeUnit)
    requires i < |us|
    ensures UnitsMinutes(us[i := u]) == UnitsMinutes(us) - us[i].minutes + u.minutes
  {
    var n := |us| - 1;
    if i < n {
      assert us[i := u][..n] == us[..n][i := u];
      UnitsMinutesUpdate(us[..n], i, u);
    } else {
      assert us[i := u][..n] == us[..n];
    }
  }

  /** Adding a unit keeps the bucket's invariant, adds the minutes to its
      total, keeps its metadata, and leaves exactly one unit with the key. */
  lemma PutUnitOk(b: CalculatedCategory, certain: string, minutes: int, comment: Option<string>)
    requires BucketOk(b)
    ensures var r := PutUnit(b, certain, minutes, comment);
      BucketOk(r) && r.totalMinutes == b.totalMinutes + minutes
      && r.name == b.name && r.prettyName == b.prettyName
      && r.color == b.color && r.hideOnLineChart == b.hideOnLineChart
      && exists k :: 0 <= k < |r.units| && SameKey(r.units[k], certain, comment)
  {
    var i := FindUnit(b.units, certain, comment);
    var r := PutUnit(b, certain, minutes, comment);
    if i < |b.units| {
      UnitsMinutesUpdate(b.units, i, b.units[i].(minutes := b.units[i].minutes + minutes));
      assert SameKey(r.units[i], certain, comment);
    } else {
      var us := b.units + [TimeUnit(certain, minutes, comment)];
      assert us[..|us| - 1] == b.units;
      assert SameKey(r.units[|b.units|], certain, comment);
    }
  }

  // ----- the date record of one category ---------------------------------------

  /** The date record of one category, in insertion order; each bucket is
      stored with its date, which is its key. */
  function FindDate(hs: seq<CalculatedCategoryDated>, d: string): (i: nat)
    ensures i <= |hs|
    ensures i < |hs| ==> hs[i].date == d
    ensures forall j :: 0 <= j < i ==> hs[j].date != d
  {
    if hs == [] then 0
    else if hs[0].date == d then 0
    else 1 + FindDate(hs[1..], d)
  }

  /** The date step of `pushUnitToHistory`. */
  function AddDated(hs: seq<CalculatedCategoryDated>, c: Category, certain: string,
                    comment: Option<string>, minutes: int, date: string): seq<CalculatedCategoryDated>
  {
    var i := FindDate(hs, date);
    if i < |hs| then hs[i := Dated(PutUnit(hs[i].cat, certain, minutes, comment), date)]
    else hs + [Dated(MakeCalculatedCategory(c, certain, comment, minutes), date)]
  }

  function DatesOf(hs: seq<CalculatedCategoryDated>): (ds: seq<string>)
    ensures |ds| == |hs| && forall k :: 0 <= k < |hs| ==> ds[k] == hs[k].date
  {
    seq(|hs|, k requires 0 <= k < |hs| => hs[k].date)
  }

  function DatedMinutes(hs: seq<CalculatedCategoryDated>): int {
    if hs == [] then 0 else DatedMinutes(hs[..|hs| - 1]) + hs[|hs| - 1].cat.totalMinutes
  }

  /** One bucket per date, each keeping the bucket invariant. */
  predicate HistoryOk(hs: seq<CalculatedCategoryDated>) {
    (forall i, j :: 0 <= i < j < |hs| ==> hs[i].date != hs[j].date)
    && forall k :: 0 <= k < |hs| ==> BucketOk(hs[k].cat)
  }

  lemma {:induction false} DatedMinutesUpdate(hs: seq<CalculatedCategoryDated>, i: nat, h: CalculatedCategoryDated)
    requires i < |hs|
    ensures DatedMinutes(hs[i := h]) == DatedMinutes(hs) - hs[i].cat.totalMinutes + h.cat.totalMinutes
  {
    var n := |hs| - 1;
    if i < n {
      assert hs[i := h][..n] == hs[..n][i := h];
      DatedMinutesUpdate(hs[..n], i, h);
    } else {
      assert hs[i := h][..n] == hs[..n];
    }
  }

  /** Adding to the date record keeps one bucket per date, adds the minutes
      to the record's sum, and leaves a bucket for the date. */
  lemma AddDatedOk(hs: seq<CalculatedCategoryDated>, c: Category, certain: string,
                   comment: Option<string>, minutes: int, date: string)
    requires HistoryOk(hs)
    ensures var r := AddDated(hs, c, certain, comment, minutes, date);
      HistoryOk(r) && DatedMinutes(r) == DatedMinutes(hs) + minutes
  {
    var i := FindDate(hs, date);
    if i < |hs| {
      AddDatedFound(hs, i, certain, comment, minutes, date);
    } else {
      var r := AddDated(hs, c, certain, comment, minutes, date);
      assert r[..|r| - 1] == hs;
    }
  }

  lemma AddDatedFound(hs: seq<CalculatedCategoryDated>, i: nat, certain: string,
                      comment: Option<string>, minutes: int, date: string)
    requires HistoryOk(hs) && i < |hs| && hs[i].date == date
    ensures var r := hs[i := Dated(PutUnit(hs[i].cat, certain, minutes, comment), date)];
      HistoryOk(r) && DatedMinutes(r) == DatedMinutes(hs) + minutes
  {
    PutUnitOk(hs[i].cat, certain, minutes, comment);
    DatedMinutesUpdate(hs, i, Dated(PutUnit(hs[i].cat, certain, minutes, comment), date));
  }


  /** The dates of the record after adding: the old ones and `date`. */
  lemma AddDatedDates(hs: seq<CalculatedCategoryDated>, c: Category, certain: string,
                      comment: Option<string>, minutes: int, date: string)
    ensures var r := AddDated(hs, c, certain, comment, minutes, date);
      forall d :: d in DatesOf(r) <==> d == date || d in DatesOf(hs)
  {
    var i := FindDate(hs, date);
    var r := AddDated(hs, c, certain, comment, minutes, date);
    if i < |hs| {
      assert DatesOf(r) == DatesOf(hs);
    } else {
      assert DatesOf(r) == DatesOf(hs) + [date];
    }
  }

  // ----- ancestors -------------------------------------------------------------

  /** `getAllParents(c)`: the direct parents, then the ancestors of each
      parent in turn; an ancestor reached along several paths is listed once
      per path. Terminates because every parent was declared earlier. */
  function AllParents(st: CategoriesState, n: string): (r: seq<string>)
    requires StateValid(st) && n in st.allCategories
    ensures forall k :: 0 <= k < |r| ==> r[k] in st.allCategories
    decreases IndexOf(st.order, n), 1, 0
  {
    var ps := st.allCategories[n].parents;
    ps + ParentsOfEach(st, ps, n)
  }

  /** `parents.flatMap(p => getAllParents(p))` for a suffix `ps` of the
      parents of `n`. */
  function ParentsOfEach(st: CategoriesState, ps: seq<string>, n: string): (r: seq<string>)
    requires StateValid(st) && n in st.allCategories
    requires forall p :: p in ps ==> p in st.allCategories[n].parents
    ensures forall k :: 0 <= k < |r| ==> r[k] in st.allCategories
    decreases IndexOf(st.order, n), 0, |ps|
  {
    if ps == [] then []
    else AllParents(st, ps[0]) + ParentsOfEach(st, ps[1..], n)
  }

  /** `[certainCategory, ...getAllParents(certainCategory)]`. */
  function Chain(st: CategoriesState, n: string): (r: seq<string>)
    requires StateValid(st) && n in st.allCategories
    ensures |r| >= 1 && r[0] == n
    ensures forall k :: 0 <= k < |r| ==> r[k] in st.allCategories
  {
    [n] + AllParents(st, n)
  }

  // ----- the accumulated records -----------------------------------------------

  /** The four records `calc` fills: all-time buckets per category name,
      the date record per category name, minutes per date, total minutes. */
  datatype Acc = Acc(
    averages: map<string, CalculatedCategory>,
    history: map<string, seq<CalculatedCategoryDated>>,
    totalDateMinutes: map<string, int>,
    totalMinutes: int)

  const EmptyAcc := Acc(map[], map[], map[], 0)

  /** `pushUnitToAverages`. */
  function AddToAverages(avg: map<string, CalculatedCategory>, c: Category, certain: string,
                         comment: Option<string>, minutes: int): map<string, CalculatedCategory>
  {
    if c.name in avg then avg[c.name := PutUnit(avg[c.name], certain, minutes, comment)]
    else avg[c.name := MakeCalculatedCategory(c, certain, comment, minutes)]
  }

  /** `pushUnitToHistory`: a missing date record starts empty. */
  function AddToHistory(h: map<string, seq<CalculatedCategoryDated>>, c: Category, certain: string,
                        comment: Option<string>, minutes: int, date: string)
    : map<string, seq<CalculatedCategoryDated>>
  {
    h[c.name := AddDated(if c.name in h then h[c.name] else [], c, certain, comment, minutes, date)]
  }

  /** The body of the `forEach` over the chain, for one category `c`. */
  function PushOne(a: Acc, c: Category, certain: string, comment: Option<string>, minutes: int,
                   date: string): Acc
  {
    a.(averages := AddToAverages(a.averages, c, certain, comment, minutes),
       history := AddToHistory(a.history, c, certain, comment, minutes, date))
  }

  /** The `forEach` over a chain prefix. */
  function PushChain(st: CategoriesState, a: Acc, chain: seq<string>, certain: string,
                     comment: Option<string>, minutes: int, date: string): Acc
    requires forall k :: 0 <= k < |chain| ==> chain[k] in st.allCategories
  {
    if chain == [] then a
    else
      PushOne(PushChain(st, a, chain[..|chain| - 1], certain, comment, minutes, date),
              st.allCategories[chain[|chain| - 1]], certain, comment, minutes, date)
  }

  function NotFoundMessage(name: string): string {
    "Category " + name + " not found"
  }

  /** The minutes recorded for date `d`, zero when there are none. */
  function DayTotal(tdm: map<string, int>, d: string): int {
    if d in tdm then tdm[d] else 0
  }

  /** `totalDateMinutes[date] = (totalDateMinutes[date] ?? 0) + minutes` and
      `totalMinutes += minutes`. */
  function AddToTotals(a: Acc, date: string, minutes: int): Acc {
    a.(totalDateMinutes := a.totalDateMinutes[date := DayTotal(a.totalDateMinutes, date) + minutes],
       totalMinutes := a.totalMinutes + minutes)
  }

  /** One iteration of the loop over the items. */
  function Step(st: CategoriesState, a: Acc, item: Item): Result<Acc>
    requires StateValid(st)
  {
    var comment := DiscardComment(item.comment, st.discardCommentsLevel);
    if item.categoryName !in st.allCategories then Err(NotFoundMessage(item.categoryName))
    else
      var certain := st.allCategories[item.categoryName];
      var b := PushChain(st, a, Chain(st, item.categoryName), certain.prettyName, comment,
                         item.minutes, item.date);
      Ok(AddToTotals(b, item.date, item.minutes))
  }

  /** The loop over a prefix of the items; the first unknown category stops it. */
  function Run(st: CategoriesState, items: seq<Item>): Result<Acc>
    requires StateValid(st)
  {
    if items == [] then Ok(EmptyAcc)
    else
      var a :- Run(st, items[..|items| - 1]);
      Step(st, a, items[|items| - 1])
  }

  /** `CategoryManager.calc(categories, items)`, as a function. */
  function CalcSpec(st: CategoriesState, items: seq<Item>): Result<CalculatedCategories>
    requires StateValid(st)
  {
    var a :- Run(st, items);
    Ok(CalculatedCategories(a.averages, a.history, a.totalDateMinutes, a.totalMinutes))
  }

  // ----- what the records satisfy ----------------------------------------------

  /** Every category has both records; each bucket keeps its invariant; a
      category's date record has one bucket per date, and their totals add
      up to the all-time bucket's total. */
  ghost predicate AccValid(a: Acc) {
    (forall c :: c in a.averages <==> c in a.history)
    && forall c :: c in a.averages ==>
         BucketOk(a.averages[c]) && HistoryOk(a.history[c])
         && DatedMinutes(a.history[c]) == a.averages[c].totalMinutes
  }

  /** The all-time total of `x`, zero when it has no bucket. */
  function Total(avg: map<string, CalculatedCategory>, x: string): int {
    if x in avg then avg[x].totalMinutes else 0
  }

  /** Replacing one category's two records by valid ones keeps the rest valid. */
  lemma AccValidUpdate(a: Acc, n: string, b: CalculatedCategory, hs: seq<CalculatedCategoryDated>)
    requires AccValid(a) && BucketOk(b) && HistoryOk(hs) && DatedMinutes(hs) == b.totalMinutes
    ensures AccValid(a.(averages := a.averages[n := b], history := a.history[n := hs]))
  {
  }

  /** The facts about one category's entry that `AccValid` asks for. */
  ghost predicate EntryOk(a: Acc, n: string) {
    (n in a.averages <==> n in a.history)
    && (n in a.averages ==>
          BucketOk(a.averages[n]) && HistoryOk(a.history[n])
          && DatedMinutes(a.history[n]) == a.averages[n].totalMinutes)
  }

  lemma PushOneEntry(a: Acc, c: Category, certain: string, comment: Option<string>, minutes: int,
                     date: string)
    requires EntryOk(a, c.name)
    ensures var b := PushOne(a, c, certain, comment, minutes, date);
      BucketOk(b.averages[c.name]) && HistoryOk(b.history[c.name])
      && DatedMinutes(b.history[c.name]) == b.averages[c.name].totalMinutes
  {
    var n := c.name;
    var hs := if n in a.history then a.history[n] else [];
    if n in a.averages {
      PutUnitOk(a.averages[n], certain, minutes, comment);
    }
    AddDatedOk(hs, c, certain, comment, minutes, date);
  }

  lemma PushOneValid(a: Acc, c: Category, certain: string, comment: Option<string>, minutes: int,
                     date: string)
    requires AccValid(a)
    ensures AccValid(PushOne(a, c, certain, comment, minutes, date))
  {
    var b := PushOne(a, c, certain, comment, minutes, date);
    assert EntryOk(a, c.name);
    PushOneEntry(a, c, certain, comment, minutes, date);
    AccValidUpdate(a, c.name, b.averages[c.name], b.history[c.name]);
    assert b == a.(averages := a.averages[c.name := b.averages[c.name]],
                   history := a.history[c.name := b.history[c.name]]);
  }


  lemma PushOneTotals(a: Acc, c: Category, certain: string, comment: Option<string>, minutes: int,
                      date: string, x: string)
    ensures var b := PushOne(a, c, certain, comment, minutes, date);
      Total(b.averages, x) == Total(a.averages, x) + (if x == c.name then minutes else 0)
      && (x in b.averages <==> x in a.averages || x == c.name)
      && b.totalDateMinutes == a.totalDateMinutes && b.totalMinutes == a.totalMinutes
  {
  }

  predicate NamedByKey(st: CategoriesState, chain: seq<string>) {
    forall k :: 0 <= k < |chain| ==>
      chain[k] in st.allCategories && st.allCategories[chain[k]].name == chain[k]
  }

  /** Pushing a chain keeps the records' invariant. */
  lemma {:induction false} PushChainValid(st: CategoriesState, a: Acc, chain: seq<string>, certain: string,
                                          comment: Option<string>, minutes: int, date: string)
    requires forall k :: 0 <= k < |chain| ==> chain[k] in st.allCategories
    requires AccValid(a)
    ensures AccValid(PushChain(st, a, chain, certain, comment, minutes, date))
  {
    if chain != [] {
      var init := chain[..|chain| - 1];
      PushChainValid(st, a, init, certain, comment, minutes, date);
      PushOneValid(PushChain(st, a, init, certain, comment, minutes, date),
                   st.allCategories[chain[|chain| - 1]], certain, comment, minutes, date);
    }
  }

  /** Pushing a chain adds the minutes to each category once per occurrence
      in the chain, gives a bucket to every category of the chain, and leaves
      the date and overall totals alone. */
  lemma {:induction false} PushChainTotals(st: CategoriesState, a: Acc, chain: seq<string>, certain: string,
                                           comment: Option<string>, minutes: int, date: string, x: string)
    requires NamedByKey(st, chain)
    ensures var b := PushChain(st, a, chain, certain, comment, minutes, date);
      Total(b.averages, x) == Total(a.averages, x) + minutes * Count(chain, x)
      && (x in b.averages <==> x in a.averages || x in chain)
      && b.totalDateMinutes == a.totalDateMinutes && b.totalMinutes == a.totalMinutes
  {
    if chain != [] {
      var init := chain[..|chain| - 1];
      var last := chain[|chain| - 1];
      assert NamedByKey(st, init);
      PushChainTotals(st, a, init, certain, comment, minutes, date, x);
      var b0 := PushChain(st, a, init, certain, comment, minutes, date);
      PushOneTotals(b0, st.allCategories[last], certain, comment, minutes, date, x);
      assert chain == init + [last];
      CountSnoc(init, last, x, minutes);
    }
  }

  lemma CountSnoc(s: seq<string>, y: string, x: string, m: int)
    ensures Count(s + [y], x) == Count(s, x) + (if y == x then 1 else 0)
    ensures m * Count(s + [y], x) == m * Count(s, x) + (if y == x then m else 0)
  {
    assert (s + [y])[..|s|] == s;
  }

  // ----- what the loop over the items computes ----------------------------------

  predicate Known(st: CategoriesState, item: Item) {
    item.categoryName in st.allCategories
  }

  /** The index of the first item whose category is unknown, or `|items|`. */
  function FirstUnknown(st: CategoriesState, items: seq<Item>): (k: nat)
    ensures k <= |items|
    ensures forall j :: 0 <= j < k ==> Known(st, items[j])
    ensures k < |items| ==> !Known(st, items[k])
  {
    if items == [] then 0
    else
      var k := FirstUnknown(st, items[..|items| - 1]);
      if k < |items| - 1 then k
      else if Known(st, items[|items| - 1]) then |items|
      else |items| - 1
  }

  /** `calc` succeeds exactly when every category is known, and otherwise
      throws the "not found" error of the first unknown one. */
  lemma {:induction false} RunOutcome(st: CategoriesState, items: seq<Item>)
    requires StateValid(st)
    ensures var k := FirstUnknown(st, items);
      (Run(st, items).Ok? <==> k == |items|)
      && (k < |items| ==> Run(st, items) == Err(NotFoundMessage(items[k].categoryName)))
  {
    if items != [] {
      RunOutcome(st, items[..|items| - 1]);
    }
  }

  /** Once a prefix has failed, the whole run fails with the same error. */
  lemma {:induction false} RunErrPersists(st: CategoriesState, items: seq<Item>, n: nat)
    requires StateValid(st) && n <= |items| && Run(st, items[..n]).Err?
    ensures Run(st, items) == Run(st, items[..n])
    decreases |items| - n
  {
    if n < |items| {
      var init := items[..|items| - 1];
      assert init[..n] == items[..n];
      RunErrPersists(st, init, n);
    } else {
      assert items[..n] == items;
    }
  }

  /** The items' dates, in order. */
  function ItemDates(items: seq<Item>): (ds: seq<string>)
    ensures |ds| == |items| && forall k :: 0 <= k < |items| ==> ds[k] == items[k].date
  {
    if items == [] then [] else ItemDates(items[..|items| - 1]) + [items[|items| - 1].date]
  }

  /** Sum of the items' minutes. */
  function SumMinutes(items: seq<Item>): int {
    if items == [] then 0 else SumMinutes(items[..|items| - 1]) + items[|items| - 1].minutes
  }

  /** Sum of the minutes of the items dated `d`. */
  function DateMinutes(items: seq<Item>, d: string): int {
    if items == [] then 0
    else DateMinutes(items[..|items| - 1], d)
         + (if items[|items| - 1].date == d then items[|items| - 1].minutes else 0)
  }

  /** Each known item's minutes, counted once for every occurrence of `x` in
      its chain (a category reached through two parents is counted twice). */
  function Weighted(st: CategoriesState, items: seq<Item>, x: string): int
    requires StateValid(st)
  {
    if items == [] then 0
    else
      var last := items[|items| - 1];
      Weighted(st, items[..|items| - 1], x)
      + (if Known(st, last) then last.minutes * Count(Chain(st, last.categoryName), x) else 0)
  }

  /** `x` lies on the chain of some known item. */
  predicate InSomeChain(st: CategoriesState, items: seq<Item>, x: string)
    requires StateValid(st)
  {
    items != []
    && (InSomeChain(st, items[..|items| - 1], x)
        || (Known(st, items[|items| - 1]) && x in Chain(st, items[|items| - 1].categoryName)))
  }

  lemma ChainNamed(st: CategoriesState, n: string)
    requires StateValid(st) && n in st.allCategories
    ensures NamedByKey(st, Chain(st, n))
  {
  }

  lemma StepValid(st: CategoriesState, a: Acc, item: Item)
    requires StateValid(st) && AccValid(a) && Step(st, a, item).Ok?
    ensures AccValid(Step(st, a, item).value)
  {
    var certain := st.allCategories[item.categoryName];
    PushChainValid(st, a, Chain(st, item.categoryName), certain.prettyName,
                   DiscardComment(item.comment, st.discardCommentsLevel), item.minutes, item.date);
  }

  lemma StepTotals(st: CategoriesState, a: Acc, item: Item, x: string, d: string)
    requires StateValid(st) && Known(st, item)
    ensures Step(st, a, item).Ok?
    ensures var b := Step(st, a, item).value;
      Total(b.averages, x) == Total(a.averages, x) + item.minutes * Count(Chain(st, item.categoryName), x)
      && (x in b.averages <==> x in a.averages || x in Chain(st, item.categoryName))
      && b.totalMinutes == a.totalMinutes + item.minutes
      && (d in b.totalDateMinutes <==> d in a.totalDateMinutes || d == item.date)
      && DayTotal(b.totalDateMinutes, d)
         == DayTotal(a.totalDateMinutes, d) + (if d == item.date then item.minutes else 0)
  {
    var certain := st.allCategories[item.categoryName];
    ChainNamed(st, item.categoryName);
    PushChainTotals(st, a, Chain(st, item.categoryName), certain.prettyName,
                    DiscardComment(item.comment, st.discardCommentsLevel), item.minutes, item.date, x);
  }

  /** Every record `calc` returns keeps the records' invariant. */
  lemma {:induction false} RunValid(st: CategoriesState, items: seq<Item>)
    requires StateValid(st)
    ensures Run(st, items).Ok? ==> AccValid(Run(st, items).value)
  {
    if items != [] && Run(st, items).Ok? {
      var init := items[..|items| - 1];
      RunValid(st, init);
      StepValid(st, Run(st, init).value, items[|items| - 1]);
    }
  }

  /** A successful run is a successful run of the prefix followed by a
      step over a known last item. */
  lemma RunLast(st: CategoriesState, items: seq<Item>)
    requires StateValid(st) && items != [] && Run(st, items).Ok?
    ensures Run(st, items[..|items| - 1]).Ok? && Known(st, items[|items| - 1])
    ensures Run(st, items) == Step(st, Run(st, items[..|items| - 1]).value, items[|items| - 1])
  {
  }

  /** What a successful `calc` adds up per category: the all-time total of
      `x` is the weighted sum of the items whose chain reaches it, and the
      categories with a bucket are exactly those reached. */
  lemma {:induction false} RunAverages(st: CategoriesState, items: seq<Item>, x: string)
    requires StateValid(st) && Run(st, items).Ok?
    ensures var a := Run(st, items).value;
      Total(a.averages, x) == Weighted(st, items, x)
      && (x in a.averages <==> InSomeChain(st, items, x))
  {
    if items != [] {
      var init := items[..|items| - 1];
      RunLast(st, items);
      RunAverages(st, init, x);
      StepTotals(st, Run(st, init).value, items[|items| - 1], x, "");
    }
  }

  /** The grand total of a successful `calc` is the sum of all minutes. */
  lemma {:induction false} RunGrandTotal(st: CategoriesState, items: seq<Item>)
    requires StateValid(st) && Run(st, items).Ok?
    ensures Run(st, items).value.totalMinutes == SumMinutes(items)
  {
    if items != [] {
      var init := items[..|items| - 1];
      RunLast(st, items);
      RunGrandTotal(st, init);
      StepTotals(st, Run(st, init).value, items[|items| - 1], "", "");
    }
  }

  /** The dates with a total in a successful `calc` are exactly the items'
      dates, and each total is the sum over that date's items. */
  lemma {:induction false} RunDays(st: CategoriesState, items: seq<Item>, d: string)
    requires StateValid(st) && Run(st, items).Ok?
    ensures var a := Run(st, items).value;
      (d in a.totalDateMinutes <==> d in ItemDates(items))
      && DayTotal(a.totalDateMinutes, d) == DateMinutes(items, d)
  {
    if items != [] {
      var init := items[..|items| - 1];
      RunLast(st, items);
      RunDays(st, init, d);
      StepTotals(st, Run(st, init).value, items[|items| - 1], "", d);
    }
  }



  /** A diamond: `f` has parents `l` and `r`, which share the parent `t`;
      `t` lies twice on the chain of `f`. */
  lemma DiamondChain(st: CategoriesState, f: string, l: string, r: string, t: string)
    requires StateValid(st) && f in st.allCategories
    requires st.allCategories[f].parents == [l, r]
    requires st.allCategories[l].parents == [t] && st.allCategories[r].parents == [t]
    requires st.allCategories[t].parents == []
    ensures Chain(st, f) == [f, l, r, t, t]
  {
    AllParentsPair(st, f, l, r);
    AllParentsSingle(st, l, t);
    AllParentsSingle(st, r, t);
    assert AllParents(st, t) == [];
  }

  lemma DiamondDistinct(st: CategoriesState, f: string, l: string, r: string, t: string)
    requires StateValid(st) && f in st.allCategories
    requires st.allCategories[f].parents == [l, r]
    requires st.allCategories[l].parents == [t] && st.allCategories[r].parents == [t]
    ensures t != f && t != l && t != r
  {
    assert st.allCategories[f].parents[0] == l && st.allCategories[f].parents[1] == r;
    assert st.allCategories[l].parents[0] == t && st.allCategories[r].parents[0] == t;
    ParentInStore(st, f, l);
    ParentInStore(st, f, r);
  }

  lemma CountTwice(f: string, l: string, r: string, t: string)
    requires t != f && t != l && t != r
    ensures Count([f, l, r, t, t], t) == 2
  {
    var p3 := [f, l, r];
    assert Count(p3, t) == 0 by { CountPositive(p3, t); }
    CountSnoc(p3, t, t, 1);
    assert [f, l, r, t, t] == (p3 + [t]) + [t];
    CountSnoc(p3 + [t], t, t, 1);
  }

  lemma AllParentsSingle(st: CategoriesState, n: string, p: string)
    requires StateValid(st) && n in st.allCategories && st.allCategories[n].parents == [p]
    ensures p in st.allCategories && AllParents(st, n) == [p] + AllParents(st, p)
  {
    var ps := st.allCategories[n].parents;
    assert p in ps;
    assert AllParents(st, n) == ps + ParentsOfEach(st, ps, n);
    assert ps[1..] == [];
    assert ParentsOfEach(st, [], n) == [];
    assert ParentsOfEach(st, ps, n) == AllParents(st, p) + ParentsOfEach(st, [], n);
  }

  lemma ParentInStore(st: CategoriesState, n: string, p: string)
    requires StateValid(st) && n in st.allCategories && p in st.allCategories[n].parents
    ensures p in st.allCategories
  {
  }

  lemma AllParentsPair(st: CategoriesState, n: string, p: string, q: string)
    requires StateValid(st) && n in st.allCategories && st.allCategories[n].parents == [p, q]
    ensures p in st.allCategories && q in st.allCategories
    ensures AllParents(st, n) == [p, q] + AllParents(st, p) + AllParents(st, q)
  {
    var ps := st.allCategories[n].parents;
    assert ps[0] == p && ps[1] == q;
    ParentInStore(st, n, p);
    ParentInStore(st, n, q);
    var rest := ParentsOfEach(st, ps, n);
    assert rest == AllParents(st, p) + ParentsOfEach(st, ps[1..], n);
    assert ps[1..][1..] == [];
    assert ParentsOfEach(st, ps[1..], n) == AllParents(st, q) + ParentsOfEach(st, ps[1..][1..], n);
  }


  /** So minutes logged on `f` count twice for `t`. */
  lemma DiamondCountsTwice(st: CategoriesState, f: string, l: string, r: string, t: string, item: Item)
    requires StateValid(st) && f in st.allCategories
    requires st.allCategories[f].parents == [l, r]
    requires st.allCategories[l].parents == [t] && st.allCategories[r].parents == [t]
    requires st.allCategories[t].parents == []
    requires item.categoryName == f
    ensures Run(st, [item]).Ok?
    ensures Total(Run(st, [item]).value.averages, t) == 2 * item.minutes
  {
    DiamondChain(st, f, l, r, t);
    DiamondDistinct(st, f, l, r, t);
    CountTwice(f, l, r, t);
    var items := [item];
    assert items[..0] == [];
    assert Weighted(st, items, t) == 2 * item.minutes;
    RunOutcome(st, items);
    RunAverages(st, items, t);
  }

  // ----- the imperative calc ---------------------------------------------------

  lemma PushChainSnoc(st: CategoriesState, a: Acc, chain: seq<string>, j: nat, certain: string,
                      comment: Option<string>, minutes: int, date: string)
    requires forall k :: 0 <= k < |chain| ==> chain[k] in st.allCategories
    requires j < |chain|
    ensures PushChain(st, a, chain[..j + 1], certain, comment, minutes, date)
         == PushOne(PushChain(st, a, chain[..j], certain, comment, minutes, date),
                    st.allCategories[chain[j]], certain, comment, minutes, date)
  {
    assert chain[..j + 1][..j] == chain[..j];
  }

  /** The `forEach` over an item's chain, filling the two records in place. */
  method PushUnits(st: CategoriesState, a: Acc, chain: seq<string>, certain: string,
                   comment: Option<string>, minutes: int, date: string) returns (b: Acc)
    requires forall k :: 0 <= k < |chain| ==> chain[k] in st.allCategories
    ensures b == PushChain(st, a, chain, certain, comment, minutes, date)
  {
    var averages := a.averages;
    var history := a.history;
    for j := 0 to |chain|
      invariant a.(averages := averages, history := history)
        == PushChain(st, a, chain[..j], certain, comment, minutes, date)
    {
      PushChainSnoc(st, a, chain, j, certain, comment, minutes, date);
      var c := st.allCategories[chain[j]];
      averages := AddToAverages(averages, c, certain, comment, minutes);
      history := AddToHistory(history, c, certain, comment, minutes, date);
    }
    assert chain[..|chain|] == chain;
    b := a.(averages := averages, history := history);
  }

  lemma RunSnoc(st: CategoriesState, items: seq<Item>, i: nat)
    requires StateValid(st) && i < |items| && Run(st, items[..i]).Ok?
    ensures Run(st, items[..i + 1]) == Step(st, Run(st, items[..i]).value, items[i])
  {
    assert items[..i + 1][..i] == items[..i];
  }

  /** `CategoryManager.calc`: the records are filled in a loop over the
      items; the first unknown category ends it with the "not found" error. */
  method Calc(st: CategoriesState, items: seq<Item>) returns (r: Result<CalculatedCategories>)
    requires StateValid(st)
    ensures r == CalcSpec(st, items)
  {
    var acc := EmptyAcc;
    for i := 0 to |items|
      invariant Run(st, items[..i]) == Ok(acc)
    {
      var item := items[i];
      RunSnoc(st, items, i);
      var comment := DiscardComment(item.comment, st.discardCommentsLevel);
      if item.categoryName !in st.allCategories {
        RunErrPersists(st, items, i + 1);
        return Err(NotFoundMessage(item.categoryName));
      }
      var certain := st.allCategories[item.categoryName];
      acc := PushUnits(st, acc, Chain(st, item.categoryName), certain.prettyName, comment,
                       item.minutes, item.date);
      acc := AddToTotals(acc, item.date, item.minutes);
    }
    assert items[..|items|] == items;
    r := Ok(CalculatedCategories(acc.averages, acc.history, acc.totalDateMinutes, acc.totalMinutes));
  }
}
