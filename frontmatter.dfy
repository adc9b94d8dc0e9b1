/** `FrontmatterManager` (managers/frontmatter_manager.ts): the edits a note's
    list of log lines undergoes when an entry is added or the last one
    removed. Adding merges the new entry into one of the last two lines when
    both name the same category with the same comment; otherwise the entry
    is appended. The reading and writing of the note's header is not part
    of this model; the two closures passed to it are. */
module FrontmatterManager {
  import opened Wrappers
  import opened Js
  import opened CategoryModels

  /** `ItemManager.parseEntry(line, categories, date)` for the note's date: a
      function defined outside the shown code, so a parameter here. It may
      throw on a line it cannot read; the error carries the thrown message. */
  type EntryParser = string -> Result<Item>

  /** `ItemManager.formatEntry(prettyName, minutes, comment)`, also defined
      outside the shown code. */
  type EntryFormatter = (string, Num, Option<string>) -> string

  /** `isCompatible`: the same category and strictly the same comment. */
  predicate IsCompatible(lhs: Item, rhs: Item) {
    lhs.categoryName == rhs.categoryName && lhs.comment == rhs.comment
  }

  /** `lhs.comment ?? rhs.comment`. */
  function EitherComment(lhs: Item, rhs: Item): Option<string> {
    if lhs.comment.Some? then lhs.comment else rhs.comment
  }

  /** `merge`: one line for the summed minutes, under the pretty name of the
      category; an unknown category is read as `undefined`, whose
      `prettyName` throws. */
  function Merge(st: CategoriesState, lhs: Item, rhs: Item, format: EntryFormatter): (r: Result<string>)
    ensures r.Ok? <==> lhs.categoryName in st.allCategories
    ensures r.Err? ==> r.msg == TypeError
  {
    if lhs.categoryName in st.allCategories then
      Ok(format(st.allCategories[lhs.categoryName].prettyName, N(lhs.minutes + rhs.minutes), EitherComment(lhs, rhs)))
    else Err(TypeError)
  }

  /** Two compatible items merge into a line of the summed minutes with
      their common comment. */
  lemma MergeCompatible(st: CategoriesState, lhs: Item, rhs: Item, format: EntryFormatter)
    requires IsCompatible(lhs, rhs) && lhs.categoryName in st.allCategories
    ensures Merge(st, lhs, rhs, format)
      == Ok(format(st.allCategories[rhs.categoryName].prettyName, N(lhs.minutes + rhs.minutes), rhs.comment))
  {
  }

  /** A scanned line that was read and does not take the entry. */
  predicate Passes(cur: Item, p: Result<Item>) {
    p.Ok? && !IsCompatible(cur, p.value)
  }

  /** A scanned line that was read and takes the entry. */
  predicate Matches(cur: Item, p: Result<Item>) {
    p.Ok? && IsCompatible(cur, p.value)
  }

  /** The line the new entry merges into: the last line if compatible,
      otherwise the one before it if compatible; no older line is looked
      at. A line that cannot be read stops the scan with its error. */
  function Candidate(es: seq<string>, cur: Item, parse: EntryParser): (r: Result<Option<nat>>)
    requires |es| > 0
    ensures r.Ok? && r.value.Some? ==>
      var i := r.value.value;
      |es| - 2 <= i < |es| && Matches(cur, parse(es[i]))
      && forall j :: i < j < |es| ==> Passes(cur, parse(es[j]))
    ensures r == Ok(None) <==> forall j :: |es| - 2 <= j < |es| && 0 <= j ==> Passes(cur, parse(es[j]))
    ensures r.Err? <==> exists k :: |es| - 2 <= k < |es| && 0 <= k && parse(es[k]).Err?
                                 && forall j :: k < j < |es| ==> Passes(cur, parse(es[j]))
    ensures r.Err? ==> exists k :: |es| - 2 <= k < |es| && 0 <= k && parse(es[k]) == Err(r.msg)
  {
    var n := |es|;
    var last :- parse(es[n - 1]);
    if IsCompatible(cur, last) then Ok(Some(n - 1))
    else if n < 2 then Ok(None)
    else
      var prev :- parse(es[n - 2]);
      if IsCompatible(cur, prev) then Ok(Some(n - 2)) else Ok(None)
  }

  /** The list with line `i` replaced. */
  function Replace(es: seq<string>, i: nat, line: string): (r: seq<string>)
    requires i < |es|
    ensures |r| == |es| && r[i] == line
    ensures forall j :: 0 <= j < |es| && j != i ==> r[j] == es[j]
  {
    es[..i] + [line] + es[i + 1..]
  }

  /** What the `addTimeEntry` update closure returns. */
  function AddEntry(entries: Option<seq<string>>, entry: string, st: CategoriesState,
                    parse: EntryParser, format: EntryFormatter): Result<seq<string>>
  {
    if entries.None? || |entries.value| == 0 then Ok([entry])
    else
      var es := entries.value;
      var cur :- parse(entry);
      var c :- Candidate(es, cur, parse);
      match c
      case Some(i) =>
        var m :- Merge(st, cur, parse(es[i]).value, format);
        Ok(Replace(es, i, m))
      case None => Ok(es + [entry])
  }

  /** The closure itself: a descending scan over the last two lines that
      returns at the first compatible one. */
  method AddTimeEntry(entries: Option<seq<string>>, entry: string, st: CategoriesState,
                      parse: EntryParser, format: EntryFormatter) returns (r: Result<seq<string>>)
    ensures r == AddEntry(entries, entry, st, parse, format)
  {
    if entries.None? || |entries.value| == 0 {
      return Ok([entry]);
    }
    var es := entries.value;
    var parsed := parse(entry);
    if parsed.Err? {
      return Err(parsed.msg);
    }
    var cur := parsed.value;
    var lo := if |es| >= 2 then |es| - 2 else 0;
    var i := |es| - 1;
    while i >= lo
      invariant lo - 1 <= i <= |es| - 1
      invariant forall j :: i < j < |es| ==> Passes(cur, parse(es[j]))
      decreases i
    {
      var line := parse(es[i]);
      if line.Err? {
        return Err(line.msg);
      }
      var last := line.value;
      if IsCompatible(cur, last) {
        var m := Merge(st, cur, last, format);
        if m.Err? {
          return Err(m.msg);
        }
        return Ok(es[..i] + [m.value] + es[i + 1..]);
      }
      i := i - 1;
    }
    return Ok(es + [entry]);
  }

  /** A missing or empty list becomes the one new line, whatever the entry
      holds. */
  lemma AddToEmpty(entries: Option<seq<string>>, entry: string, st: CategoriesState,
                   parse: EntryParser, format: EntryFormatter)
    requires entries.None? || entries.value == []
    ensures AddEntry(entries, entry, st, parse, format) == Ok([entry])
  {
  }

  /** On a non-empty list, an entry that cannot be read fails the edit with
      the parser's error before any line is looked at. */
  lemma AddFailsOnEntry(es: seq<string>, entry: string, st: CategoriesState, parse: EntryParser, format: EntryFormatter)
    requires |es| > 0 && parse(entry).Err?
    ensures AddEntry(Some(es), entry, st, parse, format) == Err(parse(entry).msg)
  {
  }

  /** A scanned line that cannot be read fails the edit with the parser's
      error; the scan reaches line `k` only when every newer line was read
      and does not take the entry. */
  lemma AddFailsOnLine(es: seq<string>, entry: string, cur: Item, k: nat, st: CategoriesState,
                       parse: EntryParser, format: EntryFormatter)
    requires |es| - 2 <= k < |es|
    requires parse(entry) == Ok(cur) && parse(es[k]).Err?
    requires forall j :: k < j < |es| ==> Passes(cur, parse(es[j]))
    ensures AddEntry(Some(es), entry, st, parse, format) == Err(parse(es[k]).msg)
  {
    var c := Candidate(es, cur, parse);
    assert c.Err?;
    if k == |es| - 1 {
      assert c == Err(parse(es[k]).msg);
    } else {
      assert Passes(cur, parse(es[|es| - 1]));
    }
  }

  /** With the last two lines read and neither compatible, the entry is
      appended, whatever the older lines hold; the list grows by one. */
  lemma AddAppends(es: seq<string>, entry: string, cur: Item, st: CategoriesState,
                   parse: EntryParser, format: EntryFormatter)
    requires |es| > 0 && parse(entry) == Ok(cur)
    requires forall j :: |es| - 2 <= j < |es| && 0 <= j ==> Passes(cur, parse(es[j]))
    ensures var r := AddEntry(Some(es), entry, st, parse, format);
      r == Ok(es + [entry]) && |r.value| == |es| + 1
  {
    assert Candidate(es, cur, parse) == Ok(None);
  }

  /** When line `i`, one of the last two, is the first the scan reads as
      compatible, it is replaced by the merge and every other line is kept,
      so the length is unchanged; the edit fails exactly when the category
      is unknown. Lines older than `i` are not read. */
  lemma AddMerges(es: seq<string>, entry: string, cur: Item, i: nat, st: CategoriesState,
                  parse: EntryParser, format: EntryFormatter)
    requires |es| - 2 <= i < |es| && parse(entry) == Ok(cur)
    requires Matches(cur, parse(es[i]))
    requires forall j :: i < j < |es| ==> Passes(cur, parse(es[j]))
    ensures var r := AddEntry(Some(es), entry, st, parse, format);
      && (r.Ok? <==> cur.categoryName in st.allCategories)
      && (r.Err? ==> r.msg == TypeError)
      && (r.Ok? ==>
            |r.value| == |es|
            && r.value[i] == Merge(st, cur, parse(es[i]).value, format).value
            && forall j :: 0 <= j < |es| && j != i ==> r.value[j] == es[j])
  {
    var c := Candidate(es, cur, parse);
    if i < |es| - 1 {
      assert Passes(cur, parse(es[|es| - 1]));
    }
    assert c == Ok(Some(i));
  }

  /** What the `removeLastTimeEntry` update closure returns. */
  function RemoveLast(value: Option<seq<string>>): (r: seq<string>)
    ensures value.Some? && |value.value| > 0 ==> r + [value.value[|value.value| - 1]] == value.value
    ensures value.None? || value.value == [] ==> r == []
  {
    if value.Some? && |value.value| > 0 then value.value[..|value.value| - 1] else []
  }

  /** Adding to a list and then removing the last line gives the list back
      when the entry was appended. */
  lemma RemoveUndoesAppend(es: seq<string>, entry: string, cur: Item, st: CategoriesState,
                           parse: EntryParser, format: EntryFormatter)
    requires |es| > 0 && parse(entry) == Ok(cur)
    requires forall j :: |es| - 2 <= j < |es| && 0 <= j ==> Passes(cur, parse(es[j]))
    ensures RemoveLast(Some(AddEntry(Some(es), entry, st, parse, format).value)) == es
  {
    AddAppends(es, entry, cur, st, parse, format);
    assert (es + [entry])[..|es|] == es;
  }
}
