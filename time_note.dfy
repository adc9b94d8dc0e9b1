/** `TimeNoteManager` (managers/time_note_manager.ts): the day-length
    arithmetic of a diary page. A page may carry a wake-up time ("Подъём")
    and a bed time ("Отбой") written "H:M"; a day's length is bed time minus
    wake-up time, taken past midnight when bed time is earlier. The summary
    compares those lengths with the minutes the entries account for. A day
    is 24 * 60 = 1440 minutes. */
module TimeNoteManager {
  import opened Wrappers
  import opened Js
  import opened CategoryModels
  import CategoryManager
  import Holders

  /** The two time fields of a page; `None` when the field is absent. */
  datatype TimePage = TimePage(name: string, wake: Option<string>, sleep: Option<string>)

  /** `TimeNoteState`; `None` stands for `null`. */
  datatype TimeNoteState = TimeNoteState(
    fullIntervalMinutes: int,
    countedMinutes: int,
    specifiedIntervalMinutes: Option<Num>,
    minutesStart: Option<Num>,
    minutesEnd: Option<Num>,
    missingMinutes: Option<Num>)

  /** The first two ':'-separated parts read with `Number` as hours and
      minutes; a missing second part makes the sum NaN. */
  function ReadTime(parts: seq<string>): Num
    requires |parts| >= 1
  {
    ToNumber(parts[0]).Times(60).Plus(if |parts| > 1 then ToNumber(parts[1]) else NaN)
  }

  /** `timeToMinutes`: absent or blank is `None`. */
  function TimeToMinutes(time: Option<string>): (r: Option<Num>)
    ensures r.None? <==> time.None? || Trim(time.value) == []
  {
    if time.None? || Trim(time.value) == [] then None
    else Some(ReadTime(Split(time.value, ':')))
  }

  /** A non-blank time is read part by part. */
  lemma TimeOfText(t: string)
    requires Trim(t) != []
    ensures TimeToMinutes(Some(t)) == Some(ReadTime(Split(t, ':')))
  {
  }

  /** Two parts that are numbers give sixty times the first plus the second. */
  lemma ReadTimeOfParts(t: string, a: string, b: string, x: int, y: int)
    requires Split(t, ':') == [a, b]
    requires ToNumber(a) == N(x) && ToNumber(b) == N(y)
    ensures ReadTime(Split(t, ':')) == N(60 * x + y)
  {
  }

  lemma TimeOfParts(t: string, a: string, b: string, x: int, y: int)
    requires Trim(t) != [] && Split(t, ':') == [a, b]
    requires ToNumber(a) == N(x) && ToNumber(b) == N(y)
    ensures TimeToMinutes(Some(t)) == Some(N(60 * x + y))
  {
    TimeOfText(t);
    ReadTimeOfParts(t, a, b, x, y);
  }

  /** A run of digits reads as its value and holds no ':'. */
  lemma DigitsRead(d: string, x: nat)
    requires AllDigits(d) && x == DigitsValue(d)
    ensures ToNumber(d) == N(x) && ':' !in d
  {
    ToNumberOfDigits(d);
    forall k | 0 <= k < |d| ensures d[k] != ':' { assert IsDigit(d[k]); }
  }

  lemma SplitTime(h: string, m: string)
    requires ':' !in h && ':' !in m
    ensures Split(h + ":" + m, ':') == [h, m]
  {
    SplitGlue(h, m, ':', "");
    SplitWithoutSeparator(m, ':');
    assert h + ([':'] + ("" + m)) == h + ":" + m;
    assert "" + m == m;
  }

  /** "H:M", where the digit runs H and M have the values x and y (leading
      zeros allowed, "07:05"), is 60 x + y minutes. */
  lemma TimeOfDigits(h: string, m: string, x: nat, y: nat)
    requires AllDigits(h) && AllDigits(m) && x == DigitsValue(h) && y == DigitsValue(m)
    ensures TimeToMinutes(Some(h + ":" + m)) == Some(N(60 * x + y))
  {
    var t := h + ":" + m;
    assert t[|h|] == ':';
    TrimKeepsNonSpace(t, |h|);
    DigitsRead(h, x);
    DigitsRead(m, y);
    SplitTime(h, m);
    TimeOfParts(t, h, m, x, y);
  }

  /** Reading back a time written with `toString` on both parts. */
  lemma TimeOfNumbers(a: nat, b: nat)
    ensures TimeToMinutes(Some(NatToString(a) + ":" + NatToString(b))) == Some(N(60 * a + b))
  {
    NatToStringValue(a);
    NatToStringValue(b);
    TimeOfDigits(NatToString(a), NatToString(b), a, b);
  }

  /** A time without ':' has no minutes part and reads as NaN. */
  lemma TimeWithoutColon(t: string)
    requires Trim(t) != [] && ':' !in t
    ensures TimeToMinutes(Some(t)) == Some(NaN)
  {
    SplitWithoutSeparator(t, ':');
    TimeOfText(t);
  }

  /** `calcDailyTotalTime` on the two times already read: the bed time falls
      back to `now` only when `useNow` is set (`??` replaces an absent value,
      not NaN); without both times there is no total; a bed time before the
      wake-up time is read as the next day. */
  function TotalOf(start: Option<Num>, sleep: Option<Num>, useNow: bool, now: int): Option<Num> {
    var end := if sleep.Some? then sleep else if useNow then Some(N(now)) else None;
    if start.None? || end.None? then None
    else
      var e := if end.value.Less(start.value) then end.value.Plus(N(1440)) else end.value;
      Some(e.Minus(start.value))
  }

  /** `calcDailyTotalTime(page, useNow)`. */
  function DailyTotal(page: TimePage, useNow: bool, now: int): Option<Num> {
    TotalOf(TimeToMinutes(page.wake), TimeToMinutes(page.sleep), useNow, now)
  }

  /** A missing wake-up time, or a missing bed time with no clock to fall
      back on, gives no total; with both times the clock is not read. */
  lemma TotalMissing(start: Option<Num>, sleep: Option<Num>, useNow: bool, now: int)
    ensures start.None? ==> TotalOf(start, sleep, useNow, now).None?
    ensures sleep.None? && !useNow ==> TotalOf(start, sleep, useNow, now).None?
    ensures start.Some? && sleep.Some? ==> TotalOf(start, sleep, useNow, now) == TotalOf(start, sleep, false, now)
  {
  }

  /** With both times known as minutes of the day, the total is the time
      from wake-up to bed, wrapping past midnight, and lies in [0, 1440). */
  lemma TotalWraps(s: int, e: int, useNow: bool, now: int)
    requires 0 <= s < 1440 && 0 <= e < 1440
    ensures TotalOf(Some(N(s)), Some(N(e)), useNow, now) == Some(N(if e < s then e + 1440 - s else e - s))
    ensures var t := TotalOf(Some(N(s)), Some(N(e)), useNow, now).value.v; 0 <= t < 1440
  {
  }

  /** Without a bed time the clock `now` (minutes of the day) stands in for
      it when asked to. */
  lemma TotalUsesNow(s: int, now: int)
    ensures TotalOf(Some(N(s)), None, true, now) == Some(N(if now < s then now + 1440 - s else now - s))
  {
  }

  /** A page whose two times are minutes of the day: its day length, past
      midnight when the bed time is the earlier, within [0, 1440). */
  lemma DailyTotalOfPage(page: TimePage, useNow: bool, now: int, s: int, e: int)
    requires TimeToMinutes(page.wake) == Some(N(s)) && 0 <= s < 1440
    requires TimeToMinutes(page.sleep) == Some(N(e)) && 0 <= e < 1440
    ensures DailyTotal(page, useNow, now) == Some(N(if e < s then e + 1440 - s else e - s))
    ensures var t := DailyTotal(page, useNow, now).value.v; 0 <= t < 1440
  {
    TotalWraps(s, e, useNow, now);
  }

  // ----- the summary ----------------------------------------------------------

  /** `new Set(items.map((item) => item.date))`. */
  function ItemDates(items: seq<Item>): (r: set<string>)
    ensures forall d :: d in r <==> exists k :: 0 <= k < |items| && items[k].date == d
  {
    if items == [] then {}
    else
      var init := items[..|items| - 1];
      var r := ItemDates(init);
      assert forall k :: 0 <= k < |init| ==> init[k] == items[k];
      r + {items[|items| - 1].date}
  }

  /** There are no more distinct dates than items, and none without items. */
  lemma {:induction false} ItemDatesCount(items: seq<Item>)
    ensures |ItemDates(items)| <= |items|
    ensures items != [] ==> |ItemDates(items)| >= 1
  {
    if items != [] {
      var init := items[..|items| - 1];
      ItemDatesCount(init);
      assert items[|items| - 1].date in ItemDates(items);
    }
  }

  /** Per page: its daily total when it is dated like some item (the
      clock is not read), absent otherwise. */
  function Candidates(pages: seq<TimePage>, dates: set<string>): (r: seq<Option<Num>>)
    ensures |r| == |pages|
  {
    seq(|pages|, k requires 0 <= k < |pages| =>
      if pages[k].name in dates then DailyTotal(pages[k], false, 0) else None)
  }

  /** The present values, in order (`filter((val) => val != null)`). */
  function Somes(xs: seq<Option<Num>>): (r: seq<Num>)
    ensures |r| <= |xs|
  {
    if xs == [] then []
    else Somes(xs[..|xs| - 1]) + (if xs[|xs| - 1].Some? then [xs[|xs| - 1].value] else [])
  }

  /** Nothing is left exactly when every value is absent. */
  lemma {:induction false} SomesEmpty(xs: seq<Option<Num>>)
    ensures Somes(xs) == [] <==> forall k :: 0 <= k < |xs| ==> xs[k].None?
  {
    if xs != [] {
      var init := xs[..|xs| - 1];
      SomesEmpty(init);
      assert forall k :: 0 <= k < |init| ==> init[k] == xs[k];
    }
  }

  /** Every value left is one of the present values. */
  lemma {:induction false} SomesFrom(xs: seq<Option<Num>>, j: nat)
    requires j < |Somes(xs)|
    ensures Some(Somes(xs)[j]) in xs
  {
    var init := xs[..|xs| - 1];
    if j < |Somes(init)| {
      SomesFrom(init, j);
    }
  }

  /** The daily totals of the pages dated like some item, without the
      absent ones, in page order. */
  function SpecifiedList(pages: seq<TimePage>, dates: set<string>): seq<Num> {
    Somes(Candidates(pages, dates))
  }

  /** `reduce((acc, val) => acc + val, 0)`. */
  function NumSum(xs: seq<Num>): Num {
    if xs == [] then N(0) else NumSum(xs[..|xs| - 1]).Plus(xs[|xs| - 1])
  }

  /** `specified - countedMinutes` when the day length is known. */
  function MissingOf(total: Option<Num>, counted: int): Option<Num> {
    if total.Some? then Some(total.value.Minus(N(counted))) else None
  }

  /** Start, end and missing minutes of the summary. */
  datatype PageTimes = PageTimes(start: Option<Num>, end: Option<Num>, missing: Option<Num>)

  /** The `pages.length == 1` branch: the page's two times, and its day
      length measured up to `now` less the counted minutes. */
  function OnePageTimes(page: TimePage, counted: int, now: int): PageTimes {
    TimesOf(TimeToMinutes(page.wake), TimeToMinutes(page.sleep), counted, now)
  }

  /** The same on the two times already read (`calcDailyTotalTime(page, true)`
      is `TotalOf` of them). */
  function TimesOf(start: Option<Num>, sleep: Option<Num>, counted: int, now: int): PageTimes {
    PageTimes(start, sleep, MissingOf(TotalOf(start, sleep, true, now), counted))
  }

  /** `TimeNoteManager.calc`; `now` is the wall clock in minutes of the day,
      read only for the single page. */
  function Calc(items: seq<Item>, pages: seq<TimePage>, now: int): TimeNoteState {
    var dates := ItemDates(items);
    var counted := CategoryManager.SumMinutes(items);
    var list := SpecifiedList(pages, dates);
    var specified := if |list| > 0 then Some(NumSum(list)) else None;
    var f := if |pages| == 1 then OnePageTimes(pages[0], counted, now) else PageTimes(None, None, None);
    TimeNoteState(|dates| * 1440, counted, specified, f.start, f.end, f.missing)
  }

  /** The full interval is a whole day per distinct item date: zero exactly
      without items, and at most a day per item. */
  lemma FullInterval(items: seq<Item>, pages: seq<TimePage>, now: int)
    ensures var s := Calc(items, pages, now);
      s.fullIntervalMinutes == 1440 * |ItemDates(items)|
      && (s.fullIntervalMinutes == 0 <==> items == [])
      && s.fullIntervalMinutes <= 1440 * |items|
  {
    ItemDatesCount(items);
  }

  /** The counted minutes are the grand total the aggregation computes for
      the same items. */
  lemma CountedIsGrandTotal(st: CategoriesState, items: seq<Item>, pages: seq<TimePage>, now: int)
    requires StateValid(st) && Holders.CalculatedOf(Some(st), Some(items)).Ok?
    ensures Calc(items, pages, now).countedMinutes
      == Holders.CalculatedOf(Some(st), Some(items)).value.value.totalMinutes
  {
    Holders.CalculatedTotals(st, items, "", "");
  }

  /** No list entry exactly when no page dated like an item has both times. */
  lemma SpecifiedListEmpty(pages: seq<TimePage>, dates: set<string>)
    ensures SpecifiedList(pages, dates) == [] <==>
      forall k :: 0 <= k < |pages| && pages[k].name in dates ==> DailyTotal(pages[k], false, 0).None?
  {
    var cs := Candidates(pages, dates);
    SomesEmpty(cs);
    assert forall k :: 0 <= k < |pages| ==>
      cs[k] == if pages[k].name in dates then DailyTotal(pages[k], false, 0) else None;
  }

  /** The totals listed are those of pages dated like some item; the clock
      is never read for them. */
  lemma SpecifiedListFrom(pages: seq<TimePage>, dates: set<string>, j: nat)
    requires j < |SpecifiedList(pages, dates)|
    ensures exists k ::
      0 <= k < |pages| && pages[k].name in dates && DailyTotal(pages[k], false, 0) == Some(SpecifiedList(pages, dates)[j])
  {
    var cs := Candidates(pages, dates);
    SomesFrom(cs, j);
    var k :| 0 <= k < |cs| && cs[k] == Some(Somes(cs)[j]);
    assert pages[k].name in dates && DailyTotal(pages[k], false, 0) == cs[k];
  }

  /** The specified interval is absent when no page dated like an item has
      both times, and otherwise the sum of those pages' daily totals. */
  lemma Specified(items: seq<Item>, pages: seq<TimePage>, now: int)
    ensures var s := Calc(items, pages, now);
      (s.specifiedIntervalMinutes.None? <==>
        forall k :: 0 <= k < |pages| && pages[k].name in ItemDates(items) ==>
          DailyTotal(pages[k], false, 0).None?)
      && (s.specifiedIntervalMinutes.Some? ==>
        s.specifiedIntervalMinutes.value == NumSum(SpecifiedList(pages, ItemDates(items))))
  {
    SpecifiedListEmpty(pages, ItemDates(items));
  }

  /** A sum of whole numbers of minutes is a number (not NaN). */
  lemma {:induction false} NumSumOfNumbers(xs: seq<Num>)
    requires forall k :: 0 <= k < |xs| ==> xs[k].N?
    ensures NumSum(xs).N?
  {
    if xs != [] {
      NumSumOfNumbers(xs[..|xs| - 1]);
    }
  }

  /** Start, end and missing minutes are given only for a single page, and
      a missing-minutes figure needs a known wake-up time. */
  lemma OnlyOnePage(items: seq<Item>, pages: seq<TimePage>, now: int)
    ensures var st := Calc(items, pages, now);
      (|pages| != 1 ==> st.minutesStart.None? && st.minutesEnd.None? && st.missingMinutes.None?)
      && (st.missingMinutes.Some? ==> |pages| == 1 && st.minutesStart.Some?)
  {
    if |pages| == 1 {
      TotalMissing(TimeToMinutes(pages[0].wake), TimeToMinutes(pages[0].sleep), true, now);
    }
  }

  lemma CalcOfOnePage(items: seq<Item>, pages: seq<TimePage>, now: int)
    requires |pages| == 1
    ensures var st := Calc(items, pages, now);
      PageTimes(st.minutesStart, st.minutesEnd, st.missingMinutes)
        == OnePageTimes(pages[0], CategoryManager.SumMinutes(items), now)
  {
  }

  lemma TimesOfTimes(s: int, e: int, counted: int, now: int)
    requires 0 <= s < 1440 && 0 <= e < 1440
    ensures TimesOf(Some(N(s)), Some(N(e)), counted, now)
      == PageTimes(Some(N(s)), Some(N(e)), Some(N((if e < s then e + 1440 - s else e - s) - counted)))
  {
    TotalWraps(s, e, true, now);
  }

  lemma TimesOfWakeTime(s: int, counted: int, now: int)
    ensures TimesOf(Some(N(s)), None, counted, now)
      == PageTimes(Some(N(s)), None, Some(N((if now < s then now + 1440 - s else now - s) - counted)))
  {
    TotalUsesNow(s, now);
  }

  /** One page whose two times are minutes of the day: start and end are
      those times, and the missing minutes are the day length (past midnight
      when the bed time is the earlier) less the counted minutes, so they
      lie in [-counted, 1440 - counted). */
  lemma SinglePage(page: TimePage, counted: int, now: int, s: int, e: int)
    requires TimeToMinutes(page.wake) == Some(N(s)) && 0 <= s < 1440
    requires TimeToMinutes(page.sleep) == Some(N(e)) && 0 <= e < 1440
    ensures var r := OnePageTimes(page, counted, now);
      r.start == Some(N(s)) && r.end == Some(N(e))
      && r.missing == Some(N((if e < s then e + 1440 - s else e - s) - counted))
      && -counted <= r.missing.value.v < 1440 - counted
  {
    TimesOfTimes(s, e, counted, now);
  }

  /** One page with a wake-up time and no bed time: the day is measured up
      to the clock `now`, and the end is unknown. */
  lemma SinglePageWithoutBedTime(page: TimePage, counted: int, now: int, s: int)
    requires TimeToMinutes(page.wake) == Some(N(s)) && page.sleep.None?
    requires 0 <= s < 1440 && 0 <= now < 1440
    ensures var r := OnePageTimes(page, counted, now);
      r.start == Some(N(s)) && r.end.None?
      && r.missing == Some(N((if now < s then now + 1440 - s else now - s) - counted))
      && -counted <= r.missing.value.v < 1440 - counted
  {
    TimesOfWakeTime(s, counted, now);
  }
}
