/** `ItemManager.calc`: every time-log line of every page becomes an `Item`.

    A line is matched against the entry pattern (`EntryGrammar.MatchEntry`,
    lenient form); its trimmed text names a category of the certain pack by
    pretty name, its time parts give the minutes, its parenthesised part is
    the comment and the page's name is the date. The first bad line aborts
    the whole batch. */
module ItemManager {
  import opened Wrappers
  import opened Js
  import opened EntryGrammar
  import opened CategoryModels

  /** An element of a page's entry list: a string, or any other value. */
  datatype Entry = Text(s: string) | NonText

  /** The value of a page field: a list, or any other value. */
  datatype FieldValue = List(entries: seq<Entry>) | Scalar

  /** A Dataview page: its `file.name` and its front-matter fields. */
  datatype Page = Page(name: string, fields: map<string, FieldValue>)

  /** `parseInt(group || "0")`. */
  function GroupNumber(p: Option<TimePart>): Num {
    ParseInt(if p.Some? then p.value.digits else "0")
  }

  /** `parseInt(match[3] || "0") * 60 + parseInt(match[4] || "0")`. */
  function TailMinutes(t: Tail): Num {
    GroupNumber(t.hours).Times(60).Plus(GroupNumber(t.mins))
  }

  /** The value a time part stands for; an absent part counts as 0. */
  function PartValue(p: Option<TimePart>): nat {
    if p.Some? && AllDigits(p.value.digits) then DigitsValue(p.value.digits) else 0
  }

  /** The minutes a time designates: `60 * hours + minutes`. */
  function TimeValue(hours: Option<TimePart>, mins: Option<TimePart>): nat {
    60 * PartValue(hours) + PartValue(mins)
  }

  lemma GroupNumberValue(p: Option<TimePart>)
    requires PartWellFormed(p, false)
    ensures GroupNumber(p) == N(PartValue(p))
  {
    if p.Some? {
      ParseIntOfDigits(p.value.digits);
    } else {
      ParseIntZero();
    }
  }

  lemma ParseIntZero()
    ensures ParseInt("0") == N(0)
  {
    assert AllDigits("0");
    ParseIntOfDigits("0");
    assert DigitsValue("0") == 0;
  }

  /** The minutes of a matched tail are `60 * hours + minutes`. */
  lemma TailMinutesValue(t: Tail)
    requires TailWellFormed(t, false)
    ensures TailMinutes(t) == N(TimeValue(t.hours, t.mins))
  {
    GroupNumberValue(t.hours);
    GroupNumberValue(t.mins);
    HoursAndMinutes(GroupNumber(t.hours), GroupNumber(t.mins), PartValue(t.hours), PartValue(t.mins));
  }

  lemma HoursAndMinutes(x: Num, y: Num, a: int, b: int)
    requires x == N(a) && y == N(b)
    ensures x.Times(60).Plus(y) == N(60 * a + b)
  {
  }

  /** The minutes of a matched line. */
  function LineMinutes(t: Tail): (m: int)
    requires TailWellFormed(t, false)
    ensures m == TimeValue(t.hours, t.mins)
  {
    TailMinutesValue(t);
    TailMinutes(t).v
  }

  /** `categories.certainPack.categories.find(c => c.prettyName == text)`:
      the first category of the list with that pretty name. */
  function FindByPrettyName(all: map<string, Category>, names: seq<string>, text: string)
    : (r: Option<string>)
    ensures r.Some? ==> r.value in names && r.value in all && all[r.value].prettyName == text
    ensures r.None? ==> forall n :: n in names && n in all ==> all[n].prettyName != text
  {
    if names == [] then None
    else if names[0] in all && all[names[0]].prettyName == text then Some(names[0])
    else FindByPrettyName(all, names[1..], text)
  }

  /** The category found is the first of the list with that pretty name. */
  lemma {:induction false} FindIsFirst(all: map<string, Category>, names: seq<string>, text: string)
    requires FindByPrettyName(all, names, text).Some?
    ensures var i := IndexOf(names, FindByPrettyName(all, names, text).value);
      forall j :: 0 <= j < i ==> names[j] in all ==> all[names[j]].prettyName != text
  {
    if !(names[0] in all && all[names[0]].prettyName == text) {
      FindIsFirst(all, names[1..], text);
      var n := FindByPrettyName(all, names, text).value;
      var i := IndexOf(names, n);
      assert n != names[0];
      assert i == 1 + IndexOf(names[1..], n);
      forall j | 0 < j < i
        ensures names[j] in all ==> all[names[j]].prettyName != text
      {
        assert names[j] == names[1..][j - 1];
      }
    }
  }

  function MatchErrorMessage(entry: string): string {
    "error with match " + entry + " | null"
  }

  /** "Не найдено конкретной категории <text>". */
  function NotFoundMessage(text: string): string {
    "\U{041D}\U{0435} \U{043D}\U{0430}\U{0439}\U{0434}\U{0435}\U{043D}\U{043E} "
    + "\U{043A}\U{043E}\U{043D}\U{043A}\U{0440}\U{0435}\U{0442}\U{043D}\U{043E}\U{0439} "
    + "\U{043A}\U{0430}\U{0442}\U{0435}\U{0433}\U{043E}\U{0440}\U{0438}\U{0438} " + text
  }

  /** The item of a matched line: its trimmed text names the category. */
  function ParseShape(st: CategoriesState, date: string, shape: Shape): Result<Item>
    requires TailWellFormed(shape.tail, false)
  {
    var category := Trim(shape.text);
    var minutes := LineMinutes(shape.tail);
    if st.certainPack.None? then Err(TypeError)
    else
      match FindByPrettyName(st.allCategories, st.certainPack.value.categories, category)
      case None => Err(NotFoundMessage(category))
      case Some(name) => Ok(Item(name, minutes, date, shape.comment))
  }

  /** The item of one line (the callback of the inner `map`). */
  function ParseEntry(st: CategoriesState, date: string, entry: Entry): Result<Item> {
    match entry
    case NonText => Err(TypeError)
    case Text(line) =>
      match MatchEntry(line, false)
      case None => Err(MatchErrorMessage(line))
      case Some(shape) =>
        MatchEntrySound(line, false);
        ParseShape(st, date, shape)
  }

  // ----- `Array.prototype.map` with a callback that may throw, and `flat` ---

  /** `xs.map(f)` where `f` may throw: the first failure, left to right, is
      the result. */
  function MapAll<A, B>(xs: seq<A>, f: A -> Result<B>): Result<seq<B>> {
    if xs == [] then Ok([])
    else
      var first :- f(xs[0]);
      var rest :- MapAll(xs[1..], f);
      Ok([first] + rest)
  }

  /** `xss.flat()`. */
  function Flatten<B>(xss: seq<seq<B>>): seq<B> {
    if xss == [] then [] else xss[0] + Flatten(xss[1..])
  }

  /** The map succeeds exactly when the callback succeeds on every element,
      and then it lists the callback's values in order. */
  lemma {:induction false} MapAllEach<A, B>(xs: seq<A>, f: A -> Result<B>)
    ensures MapAll(xs, f).Ok? <==> forall k :: 0 <= k < |xs| ==> f(xs[k]).Ok?
    ensures MapAll(xs, f).Ok? ==>
      |MapAll(xs, f).value| == |xs|
      && forall k :: 0 <= k < |xs| ==> MapAll(xs, f).value[k] == f(xs[k]).value
  {
    if xs != [] {
      MapAllEach(xs[1..], f);
      if f(xs[0]).Ok? && MapAll(xs[1..], f).Ok? {
        var r := MapAll(xs, f).value;
        forall k | 0 < k < |xs|
          ensures r[k] == f(xs[k]).value
        {
          assert xs[1..][k - 1] == xs[k];
        }
      } else if f(xs[0]).Ok? {
        var k :| 0 <= k < |xs[1..]| && !f(xs[1..][k]).Ok?;
        assert xs[1..][k] == xs[k + 1];
      }
    }
  }

  /** The inner callback, for the lines of the page named `date`. */
  function LineParser(st: CategoriesState, date: string): Entry -> Result<Item> {
    (e: Entry) => ParseEntry(st, date, e)
  }

  /** The items of one page (the outer callback): reading `map` of a missing
      field or of a non-list value throws a `TypeError`. */
  function PageItems(st: CategoriesState, page: Page, field: string): Result<seq<Item>> {
    if HasList(page, field) then
      MapAll(page.fields[field].entries, LineParser(st, page.name))
    else Err(TypeError)
  }

  /** The outer callback. */
  function PageParser(st: CategoriesState, field: string): Page -> Result<seq<Item>> {
    (p: Page) => PageItems(st, p, field)
  }

  /** `ItemManager.calc(pages, categories, itemsFieldName)`. */
  function Calc(pages: seq<Page>, st: CategoriesState, field: string): Result<seq<Item>> {
    var perPage :- MapAll(pages, PageParser(st, field));
    Ok(Flatten(perPage))
  }

  // ----- reference: the flattened list of (date, line) pairs -----------------

  predicate HasList(page: Page, field: string) {
    field in page.fields && page.fields[field].List?
  }

  /** Every line of every page, tagged with its page's name, pages in order
      and lines in order within a page. */
  function Lines(pages: seq<Page>, field: string): (r: seq<(string, Entry)>)
    requires forall i :: 0 <= i < |pages| ==> HasList(pages[i], field)
  {
    if pages == [] then []
    else
      assert HasList(pages[0], field);
      var es := pages[0].fields[field].entries;
      (seq(|es|, k requires 0 <= k < |es| => (pages[0].name, es[k])))
      + Lines(pages[1..], field)
  }

  /** A page whose field is not a list aborts the batch with a `TypeError`. */
  lemma CalcNeedsLists(pages: seq<Page>, st: CategoriesState, field: string)
    requires exists i :: 0 <= i < |pages| && !HasList(pages[i], field)
    ensures Calc(pages, st, field).Err?
  {
    var f := PageParser(st, field);
    MapAllEach(pages, f);
    var i :| 0 <= i < |pages| && !HasList(pages[i], field);
    assert !f(pages[i]).Ok?;
  }

  /** Generic form of the flat-map: per-page lists built from per-line
      results, flattened, are the results on the tagged lines. */
  lemma {:induction false} FlattenEach(pages: seq<Page>, field: string, g: (string, Entry) -> Result<Item>,
                                        per: seq<seq<Item>>)
    requires |per| == |pages|
    requires forall i :: 0 <= i < |pages| ==>
      (HasList(pages[i], field) &&
       var es := pages[i].fields[field].entries;
       |per[i]| == |es| && forall k :: 0 <= k < |es| ==> g(pages[i].name, es[k]).Ok? && per[i][k] == g(pages[i].name, es[k]).value)
    ensures var ls := Lines(pages, field);
      |Flatten(per)| == |ls|
      && forall k :: 0 <= k < |ls| ==> g(ls[k].0, ls[k].1).Ok? && Flatten(per)[k] == g(ls[k].0, ls[k].1).value
  {
    if pages != [] {
      assert HasList(pages[0], field);
      var es := pages[0].fields[field].entries;
      var head := seq(|es|, k requires 0 <= k < |es| => (pages[0].name, es[k]));
      var ls := Lines(pages, field);
      var tl := Lines(pages[1..], field);
      assert ls == head + tl;
      assert forall i :: 0 <= i < |pages| - 1 ==> pages[1..][i] == pages[i + 1] && per[1..][i] == per[i + 1];
      FlattenEach(pages[1..], field, g, per[1..]);
      forall k | 0 <= k < |ls|
        ensures g(ls[k].0, ls[k].1).Ok? && Flatten(per)[k] == g(ls[k].0, ls[k].1).value
      {
        if k < |es| {
          assert ls[k] == (pages[0].name, es[k]);
        } else {
          assert ls[k] == tl[k - |es|];
        }
      }
    }
  }

  /** A failing line makes the flat-map fail. */
  lemma {:induction false} LineFailureEach(pages: seq<Page>, field: string, g: (string, Entry) -> Result<Item>, k: nat)
    requires forall i :: 0 <= i < |pages| ==> HasList(pages[i], field)
    requires k < |Lines(pages, field)| && !g(Lines(pages, field)[k].0, Lines(pages, field)[k].1).Ok?
    ensures exists i, j ::
      0 <= i < |pages| && HasList(pages[i], field) && 0 <= j < |pages[i].fields[field].entries|
      && !g(pages[i].name, pages[i].fields[field].entries[j]).Ok?
  {
    assert HasList(pages[0], field);
    var es := pages[0].fields[field].entries;
    var ls := Lines(pages, field);
    var tl := Lines(pages[1..], field);
    assert ls == seq(|es|, k requires 0 <= k < |es| => (pages[0].name, es[k])) + tl;
    if k < |es| {
      assert ls[k] == (pages[0].name, es[k]);
    } else {
      assert ls[k] == tl[k - |es|];
      assert forall i :: 0 <= i < |pages| - 1 ==> pages[1..][i] == pages[i + 1];
      LineFailureEach(pages[1..], field, g, k - |es|);
      var i, j :| 0 <= i < |pages[1..]| && 0 <= j < |pages[1..][i].fields[field].entries|
        && !g(pages[1..][i].name, pages[1..][i].fields[field].entries[j]).Ok?;
      assert pages[1..][i] == pages[i + 1];
    }
  }

  /** When every page has its list, the batch succeeds exactly when every line
      parses; its items are then the lines' items, in page order and line
      order (so there is one item per line). */
  lemma CalcIsFlatMap(pages: seq<Page>, st: CategoriesState, field: string)
    requires forall i :: 0 <= i < |pages| ==> HasList(pages[i], field)
    ensures var ls := Lines(pages, field);
      (Calc(pages, st, field).Ok? <==>
         forall k :: 0 <= k < |ls| ==> ParseEntry(st, ls[k].0, ls[k].1).Ok?)
      && (Calc(pages, st, field).Ok? ==>
            |Calc(pages, st, field).value| == |ls|
            && forall k :: 0 <= k < |ls| ==>
                 Calc(pages, st, field).value[k] == ParseEntry(st, ls[k].0, ls[k].1).value)
  {
    var g := (d: string, e: Entry) => ParseEntry(st, d, e);
    var f := PageParser(st, field);
    var ls := Lines(pages, field);
    MapAllEach(pages, f);
    forall i | 0 <= i < |pages|
      ensures f(pages[i]).Ok? <==>
        forall k :: 0 <= k < |pages[i].fields[field].entries| ==> g(pages[i].name, pages[i].fields[field].entries[k]).Ok?
      ensures f(pages[i]).Ok? ==>
        |f(pages[i]).value| == |pages[i].fields[field].entries|
        && forall k :: 0 <= k < |pages[i].fields[field].entries| ==>
             f(pages[i]).value[k] == g(pages[i].name, pages[i].fields[field].entries[k]).value
    {
      MapAllEach(pages[i].fields[field].entries, LineParser(st, pages[i].name));
    }
    if Calc(pages, st, field).Ok? {
      var per := MapAll(pages, f).value;
      FlattenEach(pages, field, g, per);
    } else if forall k :: 0 <= k < |ls| ==> g(ls[k].0, ls[k].1).Ok? {
      var i :| 0 <= i < |pages| && !f(pages[i]).Ok?;
      var j :| 0 <= j < |pages[i].fields[field].entries| && !g(pages[i].name, pages[i].fields[field].entries[j]).Ok?;
      LineOfPage(pages, field, i, j);
      assert false;
    } else {
      var k :| 0 <= k < |ls| && !g(ls[k].0, ls[k].1).Ok?;
      assert !ParseEntry(st, ls[k].0, ls[k].1).Ok?;
    }
  }

  /** The `j`-th line of page `i` is one of the tagged lines. */
  lemma {:induction false} LineOfPage(pages: seq<Page>, field: string, i: nat, j: nat)
    requires forall i :: 0 <= i < |pages| ==> HasList(pages[i], field)
    requires i < |pages| && HasList(pages[i], field) && j < |pages[i].fields[field].entries|
    ensures (pages[i].name, pages[i].fields[field].entries[j]) in Lines(pages, field)
  {
    assert HasList(pages[0], field);
    var es := pages[0].fields[field].entries;
    var ls := Lines(pages, field);
    var tl := Lines(pages[1..], field);
    assert ls == seq(|es|, k requires 0 <= k < |es| => (pages[0].name, es[k])) + tl;
    if i == 0 {
      assert ls[j] == (pages[0].name, es[j]);
    } else {
      assert forall i :: 0 <= i < |pages| - 1 ==> pages[1..][i] == pages[i + 1];
      LineOfPage(pages[1..], field, i - 1, j);
    }
  }

  // ----- one line ------------------------------------------------------------

  /** A matched line is read through its shape. */
  lemma EntryOfLine(st: CategoriesState, date: string, line: string)
    requires MatchEntry(line, false).Some?
    ensures WellFormed(MatchEntry(line, false).value, false)
    ensures ParseEntry(st, date, Text(line)) == ParseShape(st, date, MatchEntry(line, false).value)
  {
    MatchEntrySound(line, false);
  }

  /** What the item of a shape is made of. */
  lemma ShapeItem(st: CategoriesState, date: string, shape: Shape)
    requires TailWellFormed(shape.tail, false)
    requires ParseShape(st, date, shape).Ok?
    ensures var it := ParseShape(st, date, shape).value;
      && st.certainPack.Some?
      && it.categoryName in st.certainPack.value.categories
      && it.categoryName in st.allCategories
      && st.allCategories[it.categoryName].prettyName == Trim(shape.text)
      && it.categoryName
           == FindByPrettyName(st.allCategories, st.certainPack.value.categories, Trim(shape.text)).value
      && it.minutes == TimeValue(shape.tail.hours, shape.tail.mins)
      && it.comment == shape.comment
      && it.date == date
  {
    TailMinutesValue(shape.tail);
  }

  /** What a parsed item is made of: the match of its line, the category of
      the certain pack whose pretty name is the trimmed text (the first such),
      the minutes `60 * hours + minutes`, the line's comment and the page's
      date. */
  lemma ParsedItem(st: CategoriesState, date: string, line: string)
    requires ParseEntry(st, date, Text(line)).Ok?
    ensures MatchEntry(line, false).Some?
    ensures var it := ParseEntry(st, date, Text(line)).value;
      var shape := MatchEntry(line, false).value;
      && st.certainPack.Some?
      && it.categoryName in st.certainPack.value.categories
      && it.categoryName in st.allCategories
      && st.allCategories[it.categoryName].prettyName == Trim(shape.text)
      && it.categoryName
           == FindByPrettyName(st.allCategories, st.certainPack.value.categories, Trim(shape.text)).value
      && it.minutes == TimeValue(shape.tail.hours, shape.tail.mins)
      && it.comment == shape.comment
      && it.date == date
  {
    EntryOfLine(st, date, line);
    ShapeItem(st, date, MatchEntry(line, false).value);
  }

  /** The certain pack's category of a parsed item is the first one with the
      line's trimmed text as its pretty name. */
  lemma ParsedItemIsFirstMatch(st: CategoriesState, date: string, line: string)
    requires ParseEntry(st, date, Text(line)).Ok?
    ensures MatchEntry(line, false).Some? && st.certainPack.Some?
    ensures var names := st.certainPack.value.categories;
      var it := ParseEntry(st, date, Text(line)).value;
      it.categoryName in names
      && forall j :: 0 <= j < IndexOf(names, it.categoryName) ==>
           names[j] in st.allCategories ==>
             st.allCategories[names[j]].prettyName != Trim(MatchEntry(line, false).value.text)
  {
    ParsedItem(st, date, line);
    var shape := MatchEntry(line, false).value;
    FindIsFirst(st.allCategories, st.certainPack.value.categories, Trim(shape.text));
  }

  /** A line without time parts is worth 0 minutes. */
  lemma NoTimeIsZero(st: CategoriesState, date: string, line: string)
    requires ParseEntry(st, date, Text(line)).Ok?
    requires MatchEntry(line, false).value.tail.hours.None?
    requires MatchEntry(line, false).value.tail.mins.None?
    ensures ParseEntry(st, date, Text(line)).value.minutes == 0
  {
    ParsedItem(st, date, line);
  }

  /** The category text of a line never holds a digit or a parenthesis, so a
      category whose pretty name holds one is never found. */
  lemma CategoryTextIsPlain(st: CategoriesState, date: string, line: string)
    requires ParseEntry(st, date, Text(line)).Ok?
    ensures var n := st.allCategories[ParseEntry(st, date, Text(line)).value.categoryName].prettyName;
      forall i :: 0 <= i < |n| ==> !IsDigit(n[i]) && n[i] != '(' && n[i] != ')'
  {
    ParsedItem(st, date, line);
    var shape := MatchEntry(line, false).value;
    TextHasNoDigitOrParen(line, false);
    forall i | 0 <= i < |Trim(shape.text)|
      ensures !IsDigit(Trim(shape.text)[i]) && Trim(shape.text)[i] != '(' && Trim(shape.text)[i] != ')'
    {
      TrimKeepsChars(shape.text, i);
    }
  }

  /** The error cases of one line, in the order the source checks them. */
  lemma EntryErrors(st: CategoriesState, date: string, entry: Entry)
    ensures entry.NonText? ==> ParseEntry(st, date, entry) == Err(TypeError)
    ensures entry.Text? && MatchEntry(entry.s, false).None? ==>
      ParseEntry(st, date, entry) == Err(MatchErrorMessage(entry.s))
    ensures entry.Text? && MatchEntry(entry.s, false).Some? && st.certainPack.None? ==>
      ParseEntry(st, date, entry) == Err(TypeError)
    ensures entry.Text? && MatchEntry(entry.s, false).Some? && st.certainPack.Some? ==>
      var text := Trim(MatchEntry(entry.s, false).value.text);
      (forall n :: n in st.certainPack.value.categories && n in st.allCategories ==>
         st.allCategories[n].prettyName != text)
      ==> ParseEntry(st, date, entry) == Err(NotFoundMessage(text))
  {
    if entry.Text? && MatchEntry(entry.s, false).Some? {
      EntryOfLine(st, date, entry.s);
    }
  }

  /** A trimmed text followed by white space trims back to itself. */
  lemma TrimPadded(a: string, s: string)
    requires Trim(a) == a && |a| <= |s| && s[..|a|] == a && AllSpaces(s[|a|..])
    ensures Trim(s) == a
  {
    assert s == s[..|a|] + s[|a|..];
    TrimAppendSpaces(a, s[|a|..]);
  }

  /** A shape whose trimmed text is the pretty name of a certain-pack
      category gives that category's item. */
  lemma ShapeOfCategory(st: CategoriesState, date: string, r: Shape, text: string, name: string)
    requires TailWellFormed(r.tail, false) && Trim(r.text) == text
    requires st.certainPack.Some?
    requires FindByPrettyName(st.allCategories, st.certainPack.value.categories, text) == Some(name)
    ensures ParseShape(st, date, r) == Ok(Item(name, LineMinutes(r.tail), date, r.comment))
  {
  }

  /** Every line of the language parses: a line made of a category's pretty
      name, white space, an optional comment and time parts gives that
      category (when it is the first of the certain pack with its pretty
      name), the line's comment and its minutes. */
  lemma LineOfTheLanguage(st: CategoriesState, date: string, e: Shape, name: string)
    requires WellFormed(e, false) && Trim(e.text) == e.text
    requires st.certainPack.Some?
    requires FindByPrettyName(st.allCategories, st.certainPack.value.categories, e.text) == Some(name)
    ensures ParseEntry(st, date, Text(Render(e)))
      == Ok(Item(name, TimeValue(e.tail.hours, e.tail.mins), date, e.comment))
  {
    MatchesLanguage(e, false);
    var r := MatchEntry(Render(e), false).value;
    TrimPadded(e.text, r.text);
    LineReading(st, date, Render(e), name, e.comment, e.tail);
  }

  /** A line whose match has a certain-pack category's pretty name as its
      trimmed text reads as that category, with the match's comment and time. */
  lemma LineReading(st: CategoriesState, date: string, line: string, name: string,
                    comment: Option<string>, t: Tail)
    requires MatchEntry(line, false).Some?
    requires MatchEntry(line, false).value.comment == comment
    requires MatchEntry(line, false).value.tail.hours == t.hours
    requires MatchEntry(line, false).value.tail.mins == t.mins
    requires st.certainPack.Some?
    requires FindByPrettyName(st.allCategories, st.certainPack.value.categories,
                              Trim(MatchEntry(line, false).value.text)) == Some(name)
    ensures ParseEntry(st, date, Text(line))
      == Ok(Item(name, TimeValue(t.hours, t.mins), date, comment))
  {
    EntryOfLine(st, date, line);
    var r := MatchEntry(line, false).value;
    ShapeOfCategory(st, date, r, Trim(r.text), name);
    SameTimeMinutes(r.tail, t);
  }

  lemma SameTimeMinutes(t: Tail, u: Tail)
    requires TailWellFormed(t, false) && t.hours == u.hours && t.mins == u.mins
    ensures LineMinutes(t) == TimeValue(u.hours, u.mins)
  {
  }
}
