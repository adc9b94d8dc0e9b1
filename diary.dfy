/** `DiaryPagesManager` (features/diary/diary_pages_manager.ts): the names of
    daily ("YYYY-MM-DD"), weekly ("YYYY-Www") and monthly ("YYYY-MM") diary
    pages, the lists of pages of a period and the names of neighbouring
    periods. A page is represented by its file name. The calendar
    arithmetic done with `moment` is foreign code: its results are the
    fields of a `Calendar` passed in; only the literal branches of the
    manager are computed here. */
module DiaryPagesManager {
  import opened Wrappers
  import opened Js
  import Sorting

  // ----- the three name patterns -------------------------------------------------

  /** One position of a fixed-width regular expression: `\d` or a literal. */
  datatype Atom = Digit | Lit(c: char)

  predicate AtomMatches(a: Atom, c: char) {
    if a.Digit? then IsDigit(c) else c == a.c
  }

  /** `\d{4}-\d{2}-\d{2}`, `\d{4}-W\d{2}` and `\d{4}-\d{2}`. */
  const DayPattern: seq<Atom> := [Digit, Digit, Digit, Digit, Lit('-'), Digit, Digit, Lit('-'), Digit, Digit]
  const WeekPattern: seq<Atom> := [Digit, Digit, Digit, Digit, Lit('-'), Lit('W'), Digit, Digit]
  const MonthPattern: seq<Atom> := [Digit, Digit, Digit, Digit, Lit('-'), Digit, Digit]

  /** The pattern matches `s` starting at position `i`. */
  predicate MatchesAt(p: seq<Atom>, s: string, i: nat) {
    i + |p| <= |s| && forall k :: 0 <= k < |p| ==> AtomMatches(p[k], s[i + k])
  }

  /** The leftmost position at or after `from` where the pattern matches. */
  function Find(p: seq<Atom>, s: string, from: nat): (r: Option<nat>)
    ensures r.Some? ==> from <= r.value && MatchesAt(p, s, r.value)
    ensures r.Some? ==> forall j :: from <= j < r.value ==> !MatchesAt(p, s, j)
    ensures r.None? ==> forall j :: from <= j ==> !MatchesAt(p, s, j)
    decreases |s| - from
  {
    if from + |p| > |s| then None
    else if MatchesAt(p, s, from) then Some(from)
    else Find(p, s, from + 1)
  }

  /** `s.match(/p/)` is non-null: the pattern occurs somewhere in `s`. */
  predicate Occurs(p: seq<Atom>, s: string) {
    Find(p, s, 0).Some?
  }

  /** `/^p$/.test(s)`: the pattern is the whole of `s`. */
  predicate Whole(p: seq<Atom>, s: string) {
    |s| == |p| && MatchesAt(p, s, 0)
  }

  lemma OccursIff(p: seq<Atom>, s: string)
    ensures Occurs(p, s) <==> exists i: nat :: MatchesAt(p, s, i)
  {
    if exists i: nat :: MatchesAt(p, s, i) {
      var i: nat :| MatchesAt(p, s, i);
      assert Find(p, s, 0).Some?;
    }
  }

  predicate IsDay(value: string) {
    Whole(DayPattern, value)
  }

  predicate IsWeek(value: string) {
    Whole(WeekPattern, value)
  }

  predicate IsMonth(value: string) {
    Whole(MonthPattern, value)
  }

  /** `isDay` holds exactly for four digits, '-', two digits, '-', two digits. */
  lemma IsDayExactly(s: string)
    ensures IsDay(s) <==> |s| == 10 && AllDigits(s[..4]) && s[4] == '-' && AllDigits(s[5..7])
                          && s[7] == '-' && AllDigits(s[8..])
  {
    if |s| == 10 {
      var p := DayPattern;
      assert p[0] == p[1] == p[2] == p[3] == p[5] == p[6] == p[8] == p[9] == Digit;
      assert p[4] == p[7] == Lit('-');
      if IsDay(s) {
        forall k | 0 <= k < 4 ensures IsDigit(s[..4][k]) { assert AtomMatches(p[k], s[k]); }
        forall k | 0 <= k < 2 ensures IsDigit(s[5..7][k]) && IsDigit(s[8..][k]) {
          assert AtomMatches(p[5 + k], s[5 + k]);
          assert AtomMatches(p[8 + k], s[8 + k]);
        }
        assert AtomMatches(p[4], s[4]) && AtomMatches(p[7], s[7]);
      }
      if AllDigits(s[..4]) && s[4] == '-' && AllDigits(s[5..7]) && s[7] == '-' && AllDigits(s[8..]) {
        forall k | 0 <= k < 10 ensures AtomMatches(p[k], s[k]) {
          if k < 4 { assert s[..4][k] == s[k]; }
          else if 5 <= k < 7 { assert s[5..7][k - 5] == s[k]; }
          else if 8 <= k { assert s[8..][k - 8] == s[k]; }
        }
      }
    }
  }

  /** `isWeek` holds exactly for four digits, "-W", two digits. */
  lemma IsWeekExactly(s: string)
    ensures IsWeek(s) <==> |s| == 8 && AllDigits(s[..4]) && s[4..6] == "-W" && AllDigits(s[6..])
  {
    if |s| == 8 {
      var p := WeekPattern;
      assert p[0] == p[1] == p[2] == p[3] == p[6] == p[7] == Digit;
      assert p[4] == Lit('-') && p[5] == Lit('W');
      if IsWeek(s) {
        forall k | 0 <= k < 4 ensures IsDigit(s[..4][k]) { assert AtomMatches(p[k], s[k]); }
        forall k | 0 <= k < 2 ensures IsDigit(s[6..][k]) { assert AtomMatches(p[6 + k], s[6 + k]); }
        assert AtomMatches(p[4], s[4]) && AtomMatches(p[5], s[5]);
        assert s[4..6] == [s[4], s[5]];
      }
      if AllDigits(s[..4]) && s[4..6] == "-W" && AllDigits(s[6..]) {
        forall k | 0 <= k < 8 ensures AtomMatches(p[k], s[k]) {
          if k < 4 { assert s[..4][k] == s[k]; }
          else if k < 6 { assert s[4..6][k - 4] == s[k]; }
          else { assert s[6..][k - 6] == s[k]; }
        }
      }
    }
  }

  /** `isMonth` holds exactly for four digits, '-', two digits. */
  lemma IsMonthExactly(s: string)
    ensures IsMonth(s) <==> |s| == 7 && AllDigits(s[..4]) && s[4] == '-' && AllDigits(s[5..])
  {
    if |s| == 7 {
      var p := MonthPattern;
      assert p[0] == p[1] == p[2] == p[3] == p[5] == p[6] == Digit;
      assert p[4] == Lit('-');
      if IsMonth(s) {
        forall k | 0 <= k < 4 ensures IsDigit(s[..4][k]) { assert AtomMatches(p[k], s[k]); }
        forall k | 0 <= k < 2 ensures IsDigit(s[5..][k]) { assert AtomMatches(p[5 + k], s[5 + k]); }
        assert AtomMatches(p[4], s[4]);
      }
      if AllDigits(s[..4]) && s[4] == '-' && AllDigits(s[5..]) {
        forall k | 0 <= k < 7 ensures AtomMatches(p[k], s[k]) {
          if k < 4 { assert s[..4][k] == s[k]; }
          else if k >= 5 { assert s[5..][k - 5] == s[k]; }
        }
      }
    }
  }

  /** The anchored tests exclude one another: a full date is not a month. */
  lemma KindsExclusive(s: string)
    ensures !(IsDay(s) && IsMonth(s)) && !(IsDay(s) && IsWeek(s)) && !(IsWeek(s) && IsMonth(s))
  {
  }

  /** The anchored test implies the unanchored match. */
  lemma WholeOccurs(p: seq<Atom>, s: string)
    requires Whole(p, s)
    ensures Occurs(p, s)
  {
    OccursIff(p, s);
  }

  /** A date contains a month (`\d{4}-\d{2}` is a prefix of the day pattern). */
  lemma DayContainsMonth(s: string)
    requires Occurs(DayPattern, s)
    ensures Occurs(MonthPattern, s)
  {
    var i := Find(DayPattern, s, 0).value;
    assert forall k :: 0 <= k < |MonthPattern| ==> MonthPattern[k] == DayPattern[k];
    assert MatchesAt(MonthPattern, s, i);
    OccursIff(MonthPattern, s);
  }

  /** A pattern longer than the text cannot occur in it. */
  lemma TooShort(p: seq<Atom>, s: string)
    requires |s| < |p|
    ensures !Occurs(p, s)
  {
  }

  /** `year`: `filename.slice(0, 4)`. */
  function Year(filename: string): (r: string)
    ensures |r| == if |filename| < 4 then |filename| else 4
    ensures r == filename[..|r|]
  {
    if |filename| < 4 then filename else filename[..4]
  }

  /** `s.slice(6)`. */
  function FromSix(s: string): string {
    if |s| < 6 then [] else s[6..]
  }

  // ----- the calendar ----------------------------------------------------------

  /** What `moment` computes for the manager, one field per use. */
  datatype Calendar = Calendar(
    dayWeekEdges: string -> (string, string),    // first and last day of a date's ISO week
    weekWeekEdges: string -> (string, string),   // the same for a week name
    monthEdges: string -> (string, string),      // first and last day of a month
    monthWeekEdges: string -> (string, string),  // Monday before and Sunday after a month
    weekStart: string -> string,                 // the Monday of a week name
    dayToWeek: string -> string,                 // a date as "YYYY-[W]WW"
    dayToMonth: string -> string,                // a date as "YYYY-MM"
    weekToMonth: string -> string,               // a week name as "YYYY-MM"
    nextWeekOfWeek: string -> string,            // a week name plus one week
    nextWeekOfDay: string -> string,             // a date plus one week, as a week name
    prevWeekOfWeek: string -> string,
    prevWeekOfDay: string -> string,
    isoWeeksInYear: int -> int                   // 52 or 53
  )

  // ----- edges -------------------------------------------------------------------

  function WeekEdges(filename: string, cal: Calendar): (r: Result<(string, string)>)
    ensures r.Err? <==> !Occurs(DayPattern, filename) && !Occurs(WeekPattern, filename)
    ensures r.Err? ==> r.msg == "Can't get week"
  {
    if Occurs(DayPattern, filename) then Ok(cal.dayWeekEdges(filename))
    else if Occurs(WeekPattern, filename) then Ok(cal.weekWeekEdges(filename))
    else Err("Can't get week")
  }

  function MonthWeekEdges(filename: string, cal: Calendar): (r: Result<(string, string)>)
    ensures r.Err? <==> !Occurs(MonthPattern, filename)
    ensures r.Err? ==> r.msg == "Невозможно получить границы недель месяца"
  {
    if Occurs(MonthPattern, filename) then Ok(cal.monthWeekEdges(filename))
    else Err("Невозможно получить границы недель месяца")
  }

  function MonthEdges(filename: string, cal: Calendar): (r: Result<(string, string)>)
    ensures r.Err? <==> !Occurs(MonthPattern, filename)
    ensures r.Err? ==> r.msg == "Can't get month edges"
  {
    if Occurs(MonthPattern, filename) then Ok(cal.monthEdges(filename))
    else Err("Can't get month edges")
  }

  // ----- lists of pages ----------------------------------------------------------

  /** `a.file.name.localeCompare(b.file.name)`, read as code-unit order. */
  function ByName(): (string, string) -> bool {
    (a: string, b: string) => StrLe(a, b)
  }

  lemma ByNameOrders()
    ensures Sorting.TotalPreorder(ByName())
  {
    forall a: string, b: string
      ensures StrLe(a, b) || StrLe(b, a)
    {
      StrLeTotal(a, b);
    }
    forall a: string, b: string, c: string | StrLe(a, b) && StrLe(b, c)
      ensures StrLe(a, c)
    {
      StrLeTransitive(a, b, c);
    }
  }

  /** `filter(keep)`, keeping the order. */
  function Filter(names: seq<string>, keep: string -> bool): (r: seq<string>)
    ensures forall n :: n in r <==> n in names && keep(n)
    ensures forall n :: multiset(r)[n] == if keep(n) then multiset(names)[n] else 0
  {
    if names == [] then []
    else
      var init := names[..|names| - 1];
      var last := names[|names| - 1];
      assert names == init + [last];
      if keep(last) then Filter(init, keep) + [last] else Filter(init, keep)
  }

  /** `[...pages.filter(keep)].sort(byName)`. */
  function Selection(names: seq<string>, keep: string -> bool): seq<string> {
    Sorting.Sort(Filter(names, keep), ByName())
  }

  /** A selection holds each kept name as often as the pages do, no other
      name, in ascending order. */
  lemma SelectionSpec(names: seq<string>, keep: string -> bool)
    ensures var r := Selection(names, keep);
      (forall n :: multiset(r)[n] == if keep(n) then multiset(names)[n] else 0)
      && (forall n :: n in r <==> n in names && keep(n))
      && (forall i, j :: 0 <= i < j < |r| ==> StrLe(r[i], r[j]))
  {
    var f := Filter(names, keep);
    var r := Selection(names, keep);
    Sorting.SortPermutes(f, ByName());
    ByNameOrders();
    Sorting.SortSorted(f, ByName());
    forall n
      ensures n in r <==> n in names && keep(n)
    {
      assert n in r <==> n in multiset(r);
      assert n in f <==> n in multiset(f);
    }
    forall i, j | 0 <= i < j < |r|
      ensures StrLe(r[i], r[j])
    {
      Sorting.SortedPairwise(r, ByName(), i, j);
    }
  }

  /** A daily page name of length 10 within the edges (string comparison). */
  predicate InRange(name: string, start: string, end: string) {
    StrLe(start, name) && StrLe(name, end) && |name| == 10
  }

  function InRangeOf(start: string, end: string): string -> bool {
    n => InRange(n, start, end)
  }

  /** `weekPages`: the daily pages of the week of `filename`. */
  function WeekPages(filename: string, daily: seq<string>, cal: Calendar): (r: Result<seq<string>>)
    ensures r.Err? <==> WeekEdges(filename, cal).Err?
    ensures r.Ok? ==>
      var (s, e) := WeekEdges(filename, cal).value;
      r.value == Selection(daily, InRangeOf(s, e))
  {
    var edges :- WeekEdges(filename, cal);
    Ok(Selection(daily, InRangeOf(edges.0, edges.1)))
  }

  /** `monthPages`: the daily pages of the month of `filename`. */
  function MonthPages(filename: string, daily: seq<string>, cal: Calendar): (r: Result<seq<string>>)
    ensures r.Err? <==> MonthEdges(filename, cal).Err?
    ensures r.Ok? ==>
      var (s, e) := MonthEdges(filename, cal).value;
      r.value == Selection(daily, InRangeOf(s, e))
  {
    var edges :- MonthEdges(filename, cal);
    Ok(Selection(daily, InRangeOf(edges.0, edges.1)))
  }

  /** The range lists keep exactly the names of length 10 between the edges,
      each as often as among the pages, in ascending order. */
  lemma RangePagesSpec(filename: string, daily: seq<string>, cal: Calendar, n: string)
    requires WeekPages(filename, daily, cal).Ok?
    ensures var r := WeekPages(filename, daily, cal).value;
      var (s, e) := WeekEdges(filename, cal).value;
      (n in r <==> n in daily && |n| == 10 && StrLe(s, n) && StrLe(n, e))
      && multiset(r)[n] == (if InRange(n, s, e) then multiset(daily)[n] else 0)
      && (forall i, j :: 0 <= i < j < |r| ==> StrLe(r[i], r[j]))
  {
    var (s, e) := WeekEdges(filename, cal).value;
    SelectionSpec(daily, InRangeOf(s, e));
  }

  function SameYearOf(year: string): string -> bool {
    n => Year(n) == year && |n| == 10
  }

  /** `yearPages`: the daily pages whose first four characters are the year
      of `filename`. */
  function YearPages(filename: string, daily: seq<string>): (r: seq<string>)
    ensures forall n :: n in r <==> n in daily && |n| == 10 && n[..4] == Year(filename)
  {
    SelectionSpec(daily, SameYearOf(Year(filename)));
    Selection(daily, SameYearOf(Year(filename)))
  }

  function StartsWithOf(year: string): string -> bool {
    n => |year| <= |n| && n[..|year|] == year
  }

  /** `monthsPages`: the monthly pages whose name starts with the year. */
  function MonthsPages(filename: string, monthly: seq<string>): (r: seq<string>)
    ensures forall n :: n in r <==> n in monthly && |Year(filename)| <= |n| && n[..|Year(filename)|] == Year(filename)
  {
    SelectionSpec(monthly, StartsWithOf(Year(filename)));
    Selection(monthly, StartsWithOf(Year(filename)))
  }

  function WeekStartsWithin(cal: Calendar, start: string, end: string): string -> bool {
    n => |n| == 8 && StrLe(start, cal.weekStart(n)) && StrLe(cal.weekStart(n), end)
  }

  /** `weeksByMonthPages`: the weekly pages whose Monday lies within the
      weeks of the month of `filename`. */
  function WeeksByMonthPages(filename: string, weekly: seq<string>, cal: Calendar): (r: Result<seq<string>>)
    ensures r.Err? <==> !Occurs(MonthPattern, filename)
    ensures r.Ok? ==>
      var (s, e) := cal.monthWeekEdges(filename);
      forall n :: n in r.value <==> n in weekly && |n| == 8 && StrLe(s, cal.weekStart(n)) && StrLe(cal.weekStart(n), e)
  {
    var edges :- MonthWeekEdges(filename, cal);
    SelectionSpec(weekly, WeekStartsWithin(cal, edges.0, edges.1));
    Ok(Selection(weekly, WeekStartsWithin(cal, edges.0, edges.1)))
  }

  // ----- names of periods --------------------------------------------------------

  /** `weekPageName`: a date is converted, a week name is kept. */
  function WeekPageName(filename: string, cal: Calendar): (r: Result<string>)
    ensures r.Err? <==> !Occurs(DayPattern, filename) && !Occurs(WeekPattern, filename)
    ensures r.Err? ==> r.msg == "Can't get week page name"
  {
    if Occurs(DayPattern, filename) then Ok(cal.dayToWeek(filename))
    else if Occurs(WeekPattern, filename) then Ok(filename)
    else Err("Can't get week page name")
  }

  /** A name holding a week and no date is its own week page name; in
      particular every week name is. */
  lemma WeekPageNameKeepsWeek(filename: string, cal: Calendar)
    requires Occurs(WeekPattern, filename) && !Occurs(DayPattern, filename)
    ensures WeekPageName(filename, cal) == Ok(filename)
  {
  }

  lemma WeekNameIsItsWeek(filename: string, cal: Calendar)
    requires IsWeek(filename)
    ensures WeekPageName(filename, cal) == Ok(filename)
  {
    WholeOccurs(WeekPattern, filename);
    TooShort(DayPattern, filename);
  }

  /** `monthPageName`: a date or a week is converted, a month name kept. */
  function MonthPageName(filename: string, cal: Calendar): (r: Result<string>)
    ensures r.Err? ==> r.msg == "Can't get month page name"
  {
    if Occurs(DayPattern, filename) then Ok(cal.dayToMonth(filename))
    else if Occurs(WeekPattern, filename) then Ok(cal.weekToMonth(filename))
    else if Occurs(MonthPattern, filename) then Ok(filename)
    else Err("Can't get month page name")
  }

  /** Only a name with neither a week nor a month in it is refused. */
  lemma MonthPageNameFails(filename: string, cal: Calendar)
    ensures MonthPageName(filename, cal).Err? <==> !Occurs(WeekPattern, filename) && !Occurs(MonthPattern, filename)
  {
    if Occurs(DayPattern, filename) {
      DayContainsMonth(filename);
    }
  }

  /** A month name is its own month page name. */
  lemma MonthNameIsItsMonth(filename: string, cal: Calendar)
    requires IsMonth(filename)
    ensures MonthPageName(filename, cal) == Ok(filename)
  {
    WholeOccurs(MonthPattern, filename);
    TooShort(DayPattern, filename);
    TooShort(WeekPattern, filename);
  }

  /** `nextWeekPageName`: week 52 rolls over to week 1 of the next year,
      computed from `parseInt` of the year; other names go to the calendar. */
  function NextWeekPageName(filename: string, cal: Calendar): string {
    if Occurs(WeekPattern, filename) then
      var weekNum := ParseInt(FromSix(filename));
      var year := ParseInt(Year(filename));
      if weekNum == N(52) then year.Plus(N(1)).ToString() + "-W01"
      else cal.nextWeekOfWeek(filename)
    else cal.nextWeekOfDay(filename)
  }

  /** `prevWeekPageName`: week 2 goes back to week 1 of the same year (the
      year kept as text); other names go to the calendar. */
  function PrevWeekPageName(filename: string, cal: Calendar): string {
    if Occurs(WeekPattern, filename) then
      var weekNum := ParseInt(FromSix(filename));
      if weekNum == N(2) then Year(filename) + "-W01"
      else cal.prevWeekOfWeek(filename)
    else cal.prevWeekOfDay(filename)
  }

  /** A week name "YYYY-Www" splits into its year and its week number. */
  lemma WeekNameParts(y: string, w: string)
    requires |y| == 4 && |w| == 2 && AllDigits(y) && AllDigits(w)
    ensures Occurs(WeekPattern, y + "-W" + w)
    ensures Year(y + "-W" + w) == y && FromSix(y + "-W" + w) == w
    ensures ParseInt(FromSix(y + "-W" + w)) == N(DigitsValue(w))
    ensures ParseInt(Year(y + "-W" + w)) == N(DigitsValue(y))
  {
    var s := y + "-W" + w;
    assert s[..4] == y;
    assert s[6..] == w;
    assert s[4..6] == "-W";
    IsWeekExactly(s);
    WholeOccurs(WeekPattern, s);
    ParseIntOfDigits(w);
    ParseIntOfDigits(y);
  }

  /** A week whose number reads as 52 rolls over to week 1 of the year
      after `year`, the value of its first four digits. */
  lemma NextWeekRollsOver(y: string, w: string, cal: Calendar, year: nat)
    requires |y| == 4 && |w| == 2 && AllDigits(y) && AllDigits(w) && DigitsValue(w) == 52
    requires year == DigitsValue(y)
    ensures NextWeekPageName(y + "-W" + w, cal) == IntToString(year + 1) + "-W01"
  {
    WeekNameParts(y, w);
    RollOverBranch(y + "-W" + w, cal, year);
  }

  /** Any name holding a week, whose seventh character on reads as 52 and
      whose first four as a year, takes the roll-over branch. */
  lemma RollOverBranch(s: string, cal: Calendar, year: nat)
    requires Occurs(WeekPattern, s) && ParseInt(FromSix(s)) == N(52) && ParseInt(Year(s)) == N(year)
    ensures NextWeekPageName(s, cal) == IntToString(year + 1) + "-W01"
  {
  }

  /** "YYYY-W52" is followed by "(YYYY+1)-W01". */
  lemma NextWeekAfter52(y: string, s: string, cal: Calendar)
    requires |y| == 4 && AllDigits(y) && s == y + "-W52"
    ensures NextWeekPageName(s, cal) == IntToString(DigitsValue(y) + 1) + "-W01"
  {
    var w := "52";
    WeekDigits(w, 52);
    WeekJoin(y, w, "-W52");
    NextWeekRollsOver(y, w, cal, DigitsValue(y));
  }

  /** A two-digit week number given as text, with its value. */
  lemma WeekDigits(w: string, n: nat)
    requires (w == "52" && n == 52) || (w == "02" && n == 2)
    ensures |w| == 2 && AllDigits(w) && DigitsValue(w) == n
  {
    TwoDigits(w);
  }

  lemma TwoDigits(w: string)
    requires |w| == 2 && AllDigits(w)
    ensures DigitsValue(w) == DigitValue(w[0]) * 10 + DigitValue(w[1])
  {
    var head := w[..1];
    assert head[..0] == [] && head[0] == w[0];
    assert DigitsValue(head) == DigitValue(w[0]);
  }

  lemma WeekJoin(y: string, w: string, suffix: string)
    requires suffix == "-W" + w
    ensures y + "-W" + w == y + suffix
  {
  }

  /** A week whose number reads as 2 goes back to week 1 of the same year. */
  lemma PrevWeekGoesBackToFirst(y: string, w: string, cal: Calendar)
    requires |y| == 4 && |w| == 2 && AllDigits(y) && AllDigits(w) && DigitsValue(w) == 2
    ensures PrevWeekPageName(y + "-W" + w, cal) == y + "-W01"
  {
    WeekNameParts(y, w);
  }

  /** "YYYY-W02" is preceded by "YYYY-W01". */
  lemma PrevWeekBefore02(y: string, s: string, cal: Calendar)
    requires |y| == 4 && AllDigits(y) && s == y + "-W02"
    ensures PrevWeekPageName(s, cal) == y + "-W01"
  {
    var w := "02";
    WeekDigits(w, 2);
    WeekJoin(y, w, "-W02");
    PrevWeekGoesBackToFirst(y, w, cal);
  }

  /** Any other week number goes to the calendar, as does a date. */
  lemma NextWeekOtherwise(y: string, w: string, cal: Calendar)
    requires |y| == 4 && |w| == 2 && AllDigits(y) && AllDigits(w) && DigitsValue(w) != 52
    ensures NextWeekPageName(y + "-W" + w, cal) == cal.nextWeekOfWeek(y + "-W" + w)
  {
    WeekNameParts(y, w);
  }

  // ----- the week after week 52 --------------------------------------------------

  /** In a year of 53 ISO weeks (ISO 8601 gives 2020 one) the week after
      "2020-W52" is "2020-W53", but week 52 always rolls over. */
  lemma NextWeekSkipsWeek53(y: string, s: string, cal: Calendar)
    requires y == "2020" && s == y + "-W52" && cal.isoWeeksInYear(2020) == 53
    ensures NextWeekPageName(s, cal) == "2021-W01"
  {
    DigitsOf2020(y);
    NextWeekAfter52(y, s, cal);
    Shown2021(DigitsValue(y) + 1, NextWeekPageName(s, cal));
  }

  lemma Shown2021(n: int, t: string)
    requires n == 2021 && t == IntToString(n) + "-W01"
    ensures t == "2021-W01"
  {
  }

  lemma DigitsOf2020(y: string)
    requires y == "2020"
    ensures |y| == 4 && AllDigits(y) && DigitsValue(y) == 2020
  {
    assert y[..3] == "202" && y[..2] == "20" && y[..1] == "2";
    assert DigitsValue(y[..1]) == 2;
    assert DigitsValue(y[..2]) == 20 by { assert y[..2][..1] == y[..1]; }
    assert DigitsValue(y[..3]) == 202 by { assert y[..3][..2] == y[..2]; }
    assert y[..4][..3] == y[..3];
  }

  /** The roll-over taken after the last ISO week of the year, whether that
      is week 52 or week 53. */
  function NextWeekPageNameIso(filename: string, cal: Calendar): string {
    if Occurs(WeekPattern, filename) then
      var weekNum := ParseInt(FromSix(filename));
      var year := ParseInt(Year(filename));
      if year.N? && weekNum == N(cal.isoWeeksInYear(year.v)) then IntToString(year.v + 1) + "-W01"
      else cal.nextWeekOfWeek(filename)
    else cal.nextWeekOfDay(filename)
  }

  /** The corrected roll-over: the last week of a year is followed by week 1
      of the next, and week 52 of a 53-week year goes to the calendar; in a
      52-week year it agrees with `NextWeekPageName`. */
  lemma NextWeekIsoRollsOverLastWeek(y: string, w: string, cal: Calendar)
    requires |y| == 4 && |w| == 2 && AllDigits(y) && AllDigits(w)
    ensures var s := y + "-W" + w;
      var last := cal.isoWeeksInYear(DigitsValue(y));
      (DigitsValue(w) == last ==> NextWeekPageNameIso(s, cal) == IntToString(DigitsValue(y) + 1) + "-W01")
      && (DigitsValue(w) != last ==> NextWeekPageNameIso(s, cal) == cal.nextWeekOfWeek(s))
      && (last == 52 ==> NextWeekPageNameIso(s, cal) == NextWeekPageName(s, cal))
  {
    WeekNameParts(y, w);
    IsoBranch(y + "-W" + w, cal, DigitsValue(y), DigitsValue(w));
  }

  /** Any name holding a week, with the week number and year it reads as. */
  lemma IsoBranch(s: string, cal: Calendar, year: nat, week: nat)
    requires Occurs(WeekPattern, s) && ParseInt(FromSix(s)) == N(week) && ParseInt(Year(s)) == N(year)
    ensures var last := cal.isoWeeksInYear(year);
      (week == last ==> NextWeekPageNameIso(s, cal) == IntToString(year + 1) + "-W01")
      && (week != last ==> NextWeekPageNameIso(s, cal) == cal.nextWeekOfWeek(s))
      && (last == 52 ==> NextWeekPageNameIso(s, cal) == NextWeekPageName(s, cal))
  {
    if cal.isoWeeksInYear(year) == 52 {
      IsoAgrees(s, cal, year, week);
    }
  }

  lemma IsoAgrees(s: string, cal: Calendar, year: nat, week: nat)
    requires Occurs(WeekPattern, s) && ParseInt(FromSix(s)) == N(week) && ParseInt(Year(s)) == N(year)
    requires cal.isoWeeksInYear(year) == 52
    ensures NextWeekPageNameIso(s, cal) == NextWeekPageName(s, cal)
  {
    assert N(year).Plus(N(1)).ToString() == IntToString(year + 1);
  }
}
