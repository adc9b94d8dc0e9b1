/** The legacy `CategoryCalculator` (features/categories/category_calculator.ts).
    The categories come from the front matter of one configuration page in
    three levels: `common` names, `sub` entries "name: common parent" and
    `certain` entries "name: sub parent". A diary page's log lines (the field
    "Времяучёт") are matched by the legacy entry pattern, whose hour and
    minute units need their dots; each line's certain category books its
    minutes on its sub and on its common category. */
module CategoryCalculator {
  import opened Wrappers
  import opened Js
  import opened EntryGrammar
  import opened Tally
  import opened LegacyCategory
  import opened CategoryInformation
  import ItemManager
  import ItemModel
  import TimeNoteManager

  // ----- the configuration ---------------------------------------------------

  datatype Settings = Settings(skipBase: Option<bool>)

  /** The configuration page's fields; `None` is an absent field. */
  datatype ConfigPage = ConfigPage(
    settings: Option<Settings>,
    common: Option<seq<string>>,
    sub: Option<seq<string>>,
    certain: Option<seq<string>>)

  /** The calculator's fields after `_parseCategories`. */
  datatype Tables = Tables(
    skipBase: Option<bool>,
    common: map<string, Category>,
    sub: map<string, Category>,
    certain: map<string, Category>)

  datatype KeyValue = KeyValue(key: string, value: Option<string>)

  /** `entry.split(":").map((str) => str.trim())`, destructured into
      `[key, value]`; without a ':' the value is `undefined`. */
  function SplitEntry(entry: string): KeyValue {
    var parts := Split(entry, ':');
    KeyValue(Trim(parts[0]), if |parts| > 1 then Some(Trim(parts[1])) else None)
  }

  /** `undefined` in a template literal. */
  function Shown(v: Option<string>): string {
    if v.Some? then v.value else "undefined"
  }

  /** `Родительская категория "<value>" из <level> не найдена в <above>.` */
  function MissingParentMessage(value: Option<string>, level: string, above: string): string {
    "Родительская категория \"" + Shown(value) + "\" из " + level + " не найдена в " + above + "."
  }

  /** The entries of a level, split. */
  function Pairs(entries: seq<string>): seq<KeyValue> {
    seq(|entries|, i requires 0 <= i < |entries| => SplitEntry(entries[i]))
  }

  /** `new Category(key, value, parents)`. */
  function EntryCategory(kv: KeyValue, parents: map<string, Category>): Category {
    Category(kv.key, kv.value, Some(parents))
  }

  /** `if (data.common) for (const name of data.common) common.set(name, new Category(name))`. */
  function CommonLevel(names: seq<string>): map<string, Category> {
    if names == [] then map[]
    else CommonLevel(names[..|names| - 1])[names[|names| - 1] := Category(names[|names| - 1], None, None)]
  }

  /** The `sub` or `certain` loop: each entry's category, keyed by its name,
      must find its parent in the level above, or the loop throws. */
  function Level(entries: seq<KeyValue>, parents: map<string, Category>, level: string, above: string)
    : Result<map<string, Category>>
  {
    if entries == [] then Ok(map[])
    else
      var m :- Level(entries[..|entries| - 1], parents, level, above);
      var c := EntryCategory(entries[|entries| - 1], parents);
      if ParentCategory(c).None? then Err(MissingParentMessage(c.parentName, level, above))
      else Ok(m[c.name := c])
  }

  /** `_parseCategories`: `data.settings.skipBase` is read first, so a
      missing page or a page without settings throws a TypeError; an absent
      level is empty. */
  function ParsedCategories(data: Option<ConfigPage>): Result<Tables> {
    if data.None? || data.value.settings.None? then Err(TypeError)
    else
      var d := data.value;
      var common := if d.common.Some? then CommonLevel(d.common.value) else map[];
      var sub :- if d.sub.Some? then Level(Pairs(d.sub.value), common, "sub", "common") else Ok(map[]);
      var certain :- if d.certain.Some? then Level(Pairs(d.certain.value), sub, "certain", "sub") else Ok(map[]);
      Ok(Tables(d.settings.value.skipBase, common, sub, certain))
  }

  lemma {:induction false} LevelStaysFailed(entries: seq<KeyValue>, parents: map<string, Category>,
                                            level: string, above: string, k: nat)
    requires k <= |entries| && Level(entries[..k], parents, level, above).Err?
    ensures Level(entries, parents, level, above) == Level(entries[..k], parents, level, above)
    decreases |entries| - k
  {
    if k < |entries| {
      var init := entries[..|entries| - 1];
      assert init[..k] == entries[..k];
      LevelStaysFailed(init, parents, level, above, k);
    } else {
      assert entries[..k] == entries;
    }
  }

  /** One level's loop, over the level's entries already split (splitting
      cannot fail, so splitting up front changes nothing). */
  method BuildLevel(kvs: seq<KeyValue>, parents: map<string, Category>, level: string, above: string)
    returns (r: Result<map<string, Category>>)
    ensures r == Level(kvs, parents, level, above)
  {
    var m: map<string, Category> := map[];
    var i := 0;
    while i < |kvs|
      invariant 0 <= i <= |kvs|
      invariant Level(kvs[..i], parents, level, above) == Ok(m)
    {
      assert kvs[..i + 1][..i] == kvs[..i];
      var c := EntryCategory(kvs[i], parents);
      if ParentCategory(c).None? {
        LevelStaysFailed(kvs, parents, level, above, i + 1);
        return Err(MissingParentMessage(c.parentName, level, above));
      }
      m := m[c.name := c];
      i := i + 1;
    }
    assert kvs[..i] == kvs;
    return Ok(m);
  }

  /** `_parseCategories`, level by level. */
  method ParseCategories(data: Option<ConfigPage>) returns (r: Result<Tables>)
    ensures r == ParsedCategories(data)
  {
    if data.None? || data.value.settings.None? {
      return Err(TypeError);
    }
    var d := data.value;
    var common: map<string, Category> := map[];
    if d.common.Some? {
      var names := d.common.value;
      var i := 0;
      while i < |names|
        invariant 0 <= i <= |names|
        invariant common == CommonLevel(names[..i])
      {
        assert names[..i + 1][..i] == names[..i];
        common := common[names[i] := Category(names[i], None, None)];
        i := i + 1;
      }
      assert names[..i] == names;
    }
    var sub: map<string, Category> := map[];
    if d.sub.Some? {
      var s := BuildLevel(Pairs(d.sub.value), common, "sub", "common");
      if s.Err? {
        return Err(s.msg);
      }
      sub := s.value;
    }
    var certain: map<string, Category> := map[];
    if d.certain.Some? {
      var c := BuildLevel(Pairs(d.certain.value), sub, "certain", "sub");
      if c.Err? {
        return Err(c.msg);
      }
      certain := c.value;
    }
    return Ok(Tables(d.settings.value.skipBase, common, sub, certain));
  }

  /** An entry finds its parent exactly when it names one, after a ':', that
      the level above has. */
  predicate ParentFound(kv: KeyValue, parents: map<string, Category>) {
    kv.value.Some? && kv.value.value in parents
  }

  /** A level loads exactly when every entry finds its parent; its names are
      then those of the entries, each mapped to a category of that name whose
      parent is in the level above. */
  lemma {:induction false} LevelSpec(entries: seq<KeyValue>, parents: map<string, Category>,
                                     level: string, above: string)
    ensures Level(entries, parents, level, above).Ok?
        <==> forall i :: 0 <= i < |entries| ==> ParentFound(entries[i], parents)
    ensures Level(entries, parents, level, above).Ok? ==>
      var m := Level(entries, parents, level, above).value;
      forall k :: k in m ==>
        && m[k].name == k && m[k].parents == Some(parents)
        && m[k].parentName.Some? && m[k].parentName.value in parents
    ensures Level(entries, parents, level, above).Ok? ==>
      var m := Level(entries, parents, level, above).value;
      forall k :: k in m <==> exists i :: 0 <= i < |entries| && entries[i].key == k
    decreases |entries|
  {
    if entries != [] {
      var init, e := entries[..|entries| - 1], entries[|entries| - 1];
      LevelSpec(init, parents, level, above);
      assert forall i :: 0 <= i < |init| ==> init[i] == entries[i];
      if Level(entries, parents, level, above).Ok? {
        var m := Level(entries, parents, level, above).value;
        forall k | k in m
          ensures exists i :: 0 <= i < |entries| && entries[i].key == k
        {
          if k != e.key {
            var i :| 0 <= i < |init| && init[i].key == k;
            assert entries[i] == init[i];
          }
        }
      }
    }
  }

  /** A level that fails reports the first entry, in order, whose parent is
      missing, quoting the parent's name. */
  lemma {:induction false} LevelFirstError(entries: seq<KeyValue>, parents: map<string, Category>,
                                           level: string, above: string)
    requires Level(entries, parents, level, above).Err?
    ensures exists i :: (0 <= i < |entries| && !ParentFound(entries[i], parents)
      && (forall j :: 0 <= j < i ==> ParentFound(entries[j], parents))
      && Level(entries, parents, level, above).msg == MissingParentMessage(entries[i].value, level, above))
    decreases |entries|
  {
    var init, e := entries[..|entries| - 1], entries[|entries| - 1];
    assert forall i :: 0 <= i < |init| ==> init[i] == entries[i];
    if Level(init, parents, level, above).Err? {
      LevelFirstError(init, parents, level, above);
      var i :| 0 <= i < |init| && !ParentFound(init[i], parents)
        && (forall j :: 0 <= j < i ==> ParentFound(init[j], parents))
        && Level(init, parents, level, above).msg == MissingParentMessage(init[i].value, level, above);
      assert entries[i] == init[i];
    } else {
      LevelSpec(init, parents, level, above);
      assert !ParentFound(entries[|init|], parents);
    }
  }

  /** The three levels are linked: each category is stored under its name,
      each certain category's parent is a sub category and each sub
      category's parent a common one. */
  predicate Linked(t: Tables) {
    && (forall k :: k in t.common ==> t.common[k].name == k)
    && (forall k :: k in t.sub ==>
          t.sub[k].name == k && t.sub[k].parents == Some(t.common)
          && t.sub[k].parentName.Some? && t.sub[k].parentName.value in t.common)
    && (forall k :: k in t.certain ==>
          t.certain[k].name == k && t.certain[k].parents == Some(t.sub)
          && t.certain[k].parentName.Some? && t.certain[k].parentName.value in t.sub)
  }

  lemma {:induction false} CommonLevelNames(names: seq<string>)
    ensures forall k :: k in CommonLevel(names) ==> CommonLevel(names)[k].name == k
    ensures forall k :: k in CommonLevel(names) <==> k in names
    decreases |names|
  {
    if names != [] {
      var init := names[..|names| - 1];
      CommonLevelNames(init);
      assert names == init + [names[|names| - 1]];
    }
  }

  /** Levels built each from the one above are linked. */
  lemma LevelsLinked(skipBase: Option<bool>, common: map<string, Category>, sub: map<string, Category>,
                     certain: map<string, Category>, subs: seq<KeyValue>, certains: seq<KeyValue>)
    requires forall k :: k in common ==> common[k].name == k
    requires sub == map[] || Level(subs, common, "sub", "common") == Ok(sub)
    requires certain == map[] || Level(certains, sub, "certain", "sub") == Ok(certain)
    ensures Linked(Tables(skipBase, common, sub, certain))
  {
    LevelSpec(subs, common, "sub", "common");
    LevelSpec(certains, sub, "certain", "sub");
  }

  /** What `_parseCategories` loads: the common names, and the sub and
      certain entries, linked level to level. */
  lemma ParsedSpec(data: Option<ConfigPage>)
    requires ParsedCategories(data).Ok?
    ensures Linked(ParsedCategories(data).value)
    ensures var t := ParsedCategories(data).value;
      forall k :: k in t.common <==> data.value.common.Some? && k in data.value.common.value
  {
    var d := data.value;
    var t := ParsedCategories(data).value;
    var subs := if d.sub.Some? then Pairs(d.sub.value) else [];
    var certains := if d.certain.Some? then Pairs(d.certain.value) else [];
    if d.common.Some? { CommonLevelNames(d.common.value); }
    assert t.sub == map[] || Level(subs, t.common, "sub", "common") == Ok(t.sub);
    assert t.certain == map[] || Level(certains, t.sub, "certain", "sub") == Ok(t.certain);
    LevelsLinked(t.skipBase, t.common, t.sub, t.certain, subs, certains);
  }

  /** The configuration is read only when it is there with its settings; a
      level fails with the message of its first entry whose parent is
      missing. */
  lemma ParsedErrors(data: Option<ConfigPage>)
    ensures data.None? ==> ParsedCategories(data) == Err(TypeError)
    ensures data.Some? && data.value.settings.None? ==> ParsedCategories(data) == Err(TypeError)
    ensures data.Some? && data.value.settings.Some? && data.value.sub.Some? ==>
      var common := if data.value.common.Some? then CommonLevel(data.value.common.value) else map[];
      Level(Pairs(data.value.sub.value), common, "sub", "common").Err? ==>
        ParsedCategories(data) == Err(Level(Pairs(data.value.sub.value), common, "sub", "common").msg)
  {
  }

  // ----- one day -------------------------------------------------------------

  /** A day page: its log field and its two times ("Подъём", "Отбой"). */
  datatype DayPage = DayPage(log: Option<ItemManager.FieldValue>, wake: Option<string>, sleep: Option<string>)

  /** `checkCanBuild`: the log is a non-empty array. */
  predicate CheckCanBuild(page: DayPage) {
    page.log.Some? && page.log.value.List? && |page.log.value.entries| != 0
  }

  /** Where one line books its minutes. */
  datatype Booking = Booking(subName: string, comName: string, minutes: int)

  /** One line of the loop: the legacy pattern (dots required) must match,
      the trimmed text must name a certain category, whose parent and
      grandparent receive `parseInt(hours) * 60 + parseInt(minutes)`. */
  function EntryBooking(t: Tables, entry: ItemManager.Entry): Result<Booking> {
    match entry
    case NonText => Err(TypeError)
    case Text(line) =>
      match MatchEntry(line, true)
      case None => Err(ItemManager.MatchErrorMessage(line))
      case Some(shape) =>
        MatchEntrySound(line, true);
        StrictIsLenient(shape);
        var category := Trim(shape.text);
        var minutes := ItemManager.LineMinutes(shape.tail);
        if category !in t.certain then Err(ItemManager.NotFoundMessage(category))
        else
          match ParentCategory(t.certain[category])
          case None => Err(TypeError)
          case Some(s) =>
            match ParentCategory(s)
            case None => Err(TypeError)
            case Some(c) => Ok(Booking(s.name, c.name, minutes))
  }

  /** The loop's body as a value. */
  function Booker(t: Tables): ItemManager.Entry -> Result<Booking> {
    (e: ItemManager.Entry) => EntryBooking(t, e)
  }

  /** The lines in order; the first failing line throws. */
  function Bookings(entries: seq<ItemManager.Entry>, f: ItemManager.Entry -> Result<Booking>): Result<seq<Booking>> {
    if entries == [] then Ok([])
    else
      var init :- Bookings(entries[..|entries| - 1], f);
      var b :- f(entries[|entries| - 1]);
      Ok(init + [b])
  }

  function SubRows(bs: seq<Booking>): (r: seq<Row>)
    ensures |r| == |bs| && forall i :: 0 <= i < |bs| ==> r[i] == Row(bs[i].subName, bs[i].minutes)
  {
    seq(|bs|, i requires 0 <= i < |bs| => Row(bs[i].subName, bs[i].minutes))
  }

  function ComRows(bs: seq<Booking>): (r: seq<Row>)
    ensures |r| == |bs| && forall i :: 0 <= i < |bs| ==> r[i] == Row(bs[i].comName, bs[i].minutes)
  {
    seq(|bs|, i requires 0 <= i < |bs| => Row(bs[i].comName, bs[i].minutes))
  }

  const Base := "Базированный"

  /** `com.map((a) => a[1]).reduce((a, b) => a + b)`: without an initial
      value, an empty array throws. */
  function ReduceSum(rows: seq<Row>): Result<int> {
    if rows == [] then Err(TypeError) else Ok(SumAll(rows))
  }

  /** The legacy `timeToMinutes`: blank is `null`; otherwise both parts go
      through `parseInt`, a missing minutes part giving NaN. */
  function TimeToMinutes(time: Option<string>): (r: Option<Num>)
    ensures r.None? <==> time.None? || Trim(time.value) == []
  {
    if time.None? || Trim(time.value) == [] then None
    else Some(ReadParts(Split(time.value, ':')))
  }

  /** `parseInt(hours) * 60 + parseInt(minutes)`, with `undefined` minutes
      when there is no ':'. */
  function ReadParts(parts: seq<string>): Num
    requires |parts| >= 1
  {
    ParseInt(parts[0]).Times(60).Plus(if |parts| > 1 then ParseInt(parts[1]) else NaN)
  }

  /** `_calcDailyTotalTime`: the bed time minus the wake-up time, past
      midnight when earlier, `null` without both. */
  function DailyTotalTime(page: DayPage): Option<Num> {
    TimeNoteManager.TotalOf(TimeToMinutes(page.wake), TimeToMinutes(page.sleep), false, 0)
  }

  /** The information built from the two tallies once the loop is done. */
  function Summary(sub: seq<Row>, com: seq<Row>, page: DayPage): Result<Info> {
    var subArray := SortDesc(sub);
    var comArray := SortDesc(com);
    var total :- ReduceSum(comArray);
    Ok(Info(subArray, comArray, total, SumExcept(comArray, Base), DailyTotalTime(page)))
  }

  /** `_parseAndSumDailyTimes`. */
  function SumDay(t: Tables, page: DayPage): Result<Info> {
    if !CheckCanBuild(page) then Ok(Empty)
    else
      var bs :- Bookings(page.log.value.entries, Booker(t));
      Summary(Accumulate([], SubRows(bs)), Accumulate([], ComRows(bs)), page)
  }

  lemma {:induction false} BookingsStaysFailed(entries: seq<ItemManager.Entry>,
                                               f: ItemManager.Entry -> Result<Booking>, k: nat)
    requires k <= |entries| && Bookings(entries[..k], f).Err?
    ensures Bookings(entries, f) == Bookings(entries[..k], f)
    decreases |entries| - k
  {
    if k < |entries| {
      var init := entries[..|entries| - 1];
      assert init[..k] == entries[..k];
      BookingsStaysFailed(init, f, k);
    } else {
      assert entries[..k] == entries;
    }
  }

  /** The loop of `_parseAndSumDailyTimes`: each line's booking is added to
      the sub and common tallies; the first failing line throws. */
  method TallyLines(entries: seq<ItemManager.Entry>, f: ItemManager.Entry -> Result<Booking>)
    returns (r: Result<(seq<Row>, seq<Row>)>)
    ensures r.Err? <==> Bookings(entries, f).Err?
    ensures r.Err? ==> r.msg == Bookings(entries, f).msg
    ensures r.Ok? ==> var bs := Bookings(entries, f).value;
      r.value == (Accumulate([], SubRows(bs)), Accumulate([], ComRows(bs)))
  {
    var sub: seq<Row> := [];
    var com: seq<Row> := [];
    ghost var bs: seq<Booking> := [];
    var i := 0;
    while i < |entries|
      invariant 0 <= i <= |entries|
      invariant Bookings(entries[..i], f) == Ok(bs)
      invariant sub == Accumulate([], SubRows(bs)) && com == Accumulate([], ComRows(bs))
    {
      assert entries[..i + 1][..i] == entries[..i];
      var b := f(entries[i]);
      if b.Err? {
        BookingsStaysFailed(entries, f, i + 1);
        return Err(b.msg);
      }
      sub := Bump(sub, Row(b.value.subName, b.value.minutes));
      com := Bump(com, Row(b.value.comName, b.value.minutes));
      assert SubRows(bs + [b.value])[..|bs|] == SubRows(bs);
      assert ComRows(bs + [b.value])[..|bs|] == ComRows(bs);
      bs := bs + [b.value];
      i := i + 1;
    }
    assert entries[..i] == entries;
    return Ok((sub, com));
  }

  /** `_parseAndSumDailyTimes`. */
  method ParseAndSumDailyTimes(t: Tables, page: DayPage) returns (r: Result<Info>)
    ensures r == SumDay(t, page)
  {
    if !CheckCanBuild(page) {
      return Ok(Empty);
    }
    var tallies := TallyLines(page.log.value.entries, Booker(t));
    if tallies.Err? {
      return Err(tallies.msg);
    }
    r := Summary(tallies.value.0, tallies.value.1, page);
  }

  // ----- properties of one day -------------------------------------------------

  /** The loop succeeds exactly when every line does, and then books each
      line in order. */
  lemma {:induction false} BookingsEach(entries: seq<ItemManager.Entry>, f: ItemManager.Entry -> Result<Booking>)
    ensures Bookings(entries, f).Ok? <==> forall i :: 0 <= i < |entries| ==> f(entries[i]).Ok?
    ensures Bookings(entries, f).Ok? ==>
      |Bookings(entries, f).value| == |entries|
      && forall i :: 0 <= i < |entries| ==> Bookings(entries, f).value[i] == f(entries[i]).value
    decreases |entries|
  {
    if entries != [] {
      var init := entries[..|entries| - 1];
      BookingsEach(init, f);
      assert forall i :: 0 <= i < |init| ==> init[i] == entries[i];
    }
  }

  /** A failing loop reports its first failing line. */
  lemma {:induction false} BookingsFirstError(entries: seq<ItemManager.Entry>, f: ItemManager.Entry -> Result<Booking>)
    requires Bookings(entries, f).Err?
    ensures exists i :: (0 <= i < |entries| && f(entries[i]).Err?
      && (forall j :: 0 <= j < i ==> f(entries[j]).Ok?)
      && Bookings(entries, f).msg == f(entries[i]).msg)
    decreases |entries|
  {
    var init := entries[..|entries| - 1];
    assert forall i :: 0 <= i < |init| ==> init[i] == entries[i];
    if Bookings(init, f).Err? {
      BookingsFirstError(init, f);
      var i :| 0 <= i < |init| && f(init[i]).Err?
        && (forall j :: 0 <= j < i ==> f(init[j]).Ok?)
        && Bookings(init, f).msg == f(init[i]).msg;
      assert entries[i] == init[i];
    } else {
      BookingsEach(init, f);
      assert f(entries[|init|]).Err?;
    }
  }

  /** A line books the minutes its time parts designate on the parent of its
      certain category and on that parent's parent. */
  lemma EntryBookingSpec(t: Tables, line: string)
    requires Linked(t)
    requires EntryBooking(t, ItemManager.Text(line)).Ok?
    ensures MatchEntry(line, true).Some?
    ensures var shape := MatchEntry(line, true).value;
      var c := Trim(shape.text);
      var b := EntryBooking(t, ItemManager.Text(line)).value;
      && c in t.certain
      && b.subName == t.certain[c].parentName.value
      && b.comName == t.sub[b.subName].parentName.value
      && b.minutes == ItemManager.TimeValue(shape.tail.hours, shape.tail.mins)
  {
    var shape := MatchEntry(line, true).value;
    MatchEntrySound(line, true);
    StrictIsLenient(shape);
    var c := Trim(shape.text);
    var s := t.certain[c].parentName.value;
    assert ParentCategory(t.certain[c]) == Some(t.sub[s]);
    assert ParentCategory(t.sub[s]) == Some(t.common[t.sub[s].parentName.value]);
  }

  /** The error cases of a line, in the order the loop checks them; with
      linked tables a matched line with a known category never fails. */
  lemma EntryBookingErrors(t: Tables, entry: ItemManager.Entry)
    ensures entry.NonText? ==> EntryBooking(t, entry) == Err(TypeError)
    ensures entry.Text? && MatchEntry(entry.s, true).None? ==>
      EntryBooking(t, entry) == Err(ItemManager.MatchErrorMessage(entry.s))
    ensures entry.Text? && MatchEntry(entry.s, true).Some? ==>
      var c := Trim(MatchEntry(entry.s, true).value.text);
      (c !in t.certain ==> EntryBooking(t, entry) == Err(ItemManager.NotFoundMessage(c)))
      && (c in t.certain && Linked(t) ==> EntryBooking(t, entry).Ok?)
  {
    if entry.Text? && MatchEntry(entry.s, true).Some? {
      var shape := MatchEntry(entry.s, true).value;
      var c := Trim(shape.text);
      if c in t.certain && Linked(t) {
        var s := t.certain[c].parentName.value;
        assert ParentCategory(t.certain[c]) == Some(t.sub[s]);
        assert ParentCategory(t.sub[s]) == Some(t.common[t.sub[s].parentName.value]);
      }
    }
  }

  /** The sum of the booked minutes. */
  function BookedMinutes(bs: seq<Booking>): int {
    if bs == [] then 0 else bs[0].minutes + BookedMinutes(bs[1..])
  }

  lemma {:induction false} RowsSum(bs: seq<Booking>)
    ensures SumAll(SubRows(bs)) == BookedMinutes(bs)
    ensures SumAll(ComRows(bs)) == BookedMinutes(bs)
    decreases |bs|
  {
    if bs != [] {
      RowsSum(bs[1..]);
      assert SubRows(bs)[1..] == SubRows(bs[1..]);
      assert ComRows(bs)[1..] == ComRows(bs[1..]);
    }
  }

  /** Some line was booked, so the common tally is not empty. */
  lemma TallyNotEmpty(rows: seq<Row>)
    requires rows != []
    ensures SortDesc(Accumulate([], rows)) != []
  {
    AccumulateHasKey([], rows, rows[0].name);
    assert HasKey(rows, rows[0].name);
  }

  /** A tally of rows, sorted: one row per name, worth the minutes of the
      rows of that name, from the largest down, summing to all the rows. */
  lemma SortedTally(rows: seq<Row>, n: string)
    ensures var r := SortDesc(Accumulate([], rows));
      && UniqueKeys(r)
      && GetOr0(r, n) == SumFor(rows, n)
      && (forall i, j :: 0 <= i < j < |r| ==> r[i].minutes >= r[j].minutes)
      && SumAll(r) == SumAll(rows)
  {
    var m := Accumulate([], rows);
    AccumulateUnique([], rows);
    SortDescSpec(m, Row(n, 0));
    AccumulateGet([], rows, n);
    AccumulateSum([], rows);
  }

  /** The information of two tallies of the same booked minutes. */
  lemma SummarySpec(subRows: seq<Row>, comRows: seq<Row>, page: DayPage, n: string)
    requires comRows != []
    ensures Summary(Accumulate([], subRows), Accumulate([], comRows), page).Ok?
    ensures var info := Summary(Accumulate([], subRows), Accumulate([], comRows), page).value;
      && info.sub == SortDesc(Accumulate([], subRows))
      && info.com == SortDesc(Accumulate([], comRows))
      && info.total == SumAll(info.com)
      && info.totalWithoutBase == info.total - GetOr0(info.com, Base)
      && info.totalDailyTime == DailyTotalTime(page)
  {
    var com := SortDesc(Accumulate([], comRows));
    TallyNotEmpty(comRows);
    AccumulateUnique([], comRows);
    SortUnique(Accumulate([], comRows));
    SumExceptUnique(com, Base);
  }

  /** A day with a log whose lines all book: the sub and common lists hold
      one row per name, each worth the minutes of the lines booked on it,
      sorted by decreasing minutes; the total is every line's minutes, and
      also the sum of either list; the total without the base category
      leaves out exactly its row; the day length is that of the page. */
  lemma SumDaySpec(t: Tables, page: DayPage, n: string)
    requires CheckCanBuild(page) && Bookings(page.log.value.entries, Booker(t)).Ok?
    ensures var bs := Bookings(page.log.value.entries, Booker(t)).value;
      SumDay(t, page).Ok?
      && var info := SumDay(t, page).value;
      && Valid(info)
      && GetOr0(info.sub, n) == SumFor(SubRows(bs), n)
      && GetOr0(info.com, n) == SumFor(ComRows(bs), n)
      && (forall i, j :: 0 <= i < j < |info.sub| ==> info.sub[i].minutes >= info.sub[j].minutes)
      && (forall i, j :: 0 <= i < j < |info.com| ==> info.com[i].minutes >= info.com[j].minutes)
      && info.total == BookedMinutes(bs)
      && SumAll(info.sub) == info.total && SumAll(info.com) == info.total
      && info.totalWithoutBase == info.total - GetOr0(info.com, Base)
      && info.totalDailyTime == DailyTotalTime(page)
  {
    var bs := Bookings(page.log.value.entries, Booker(t)).value;
    BookingsEach(page.log.value.entries, Booker(t));
    assert SumDay(t, page) == Summary(Accumulate([], SubRows(bs)), Accumulate([], ComRows(bs)), page);
    SummarySpec(SubRows(bs), ComRows(bs), page, n);
    SortedTally(SubRows(bs), n);
    SortedTally(ComRows(bs), n);
    RowsSum(bs);
  }

  /** A day without a non-empty log is empty; otherwise the day fails
      exactly when one of its lines does. */
  lemma SumDayCases(t: Tables, page: DayPage)
    ensures !CheckCanBuild(page) ==> SumDay(t, page) == Ok(Empty)
    ensures CheckCanBuild(page) ==>
      (SumDay(t, page).Ok? <==> Bookings(page.log.value.entries, Booker(t)).Ok?)
  {
    if CheckCanBuild(page) && Bookings(page.log.value.entries, Booker(t)).Ok? {
      var bs := Bookings(page.log.value.entries, Booker(t)).value;
      BookingsEach(page.log.value.entries, Booker(t));
      TallyNotEmpty(ComRows(bs));
    }
  }

  /** A time of two parts is 60 times the first plus the second. */
  lemma TimeOfParts(t: string, h: string, m: string, x: int, y: int)
    requires Trim(t) != [] && Split(t, ':') == [h, m]
    requires ParseInt(h) == N(x) && ParseInt(m) == N(y)
    ensures TimeToMinutes(Some(t)) == Some(N(60 * x + y))
  {
    PartsOfTime(t);
    ReadTwoParts(t, h, m, x, y);
  }

  lemma PartsOfTime(t: string)
    requires Trim(t) != []
    ensures TimeToMinutes(Some(t)) == Some(ReadParts(Split(t, ':')))
  {
  }

  lemma ReadTwoParts(t: string, h: string, m: string, x: int, y: int)
    requires Split(t, ':') == [h, m]
    requires ParseInt(h) == N(x) && ParseInt(m) == N(y)
    ensures ReadParts(Split(t, ':')) == N(60 * x + y)
  {
  }

  /** The legacy reading of "H:M" agrees with the current one on runs of
      digits: 60 H + M minutes. */
  lemma TimeOfDigits(h: string, m: string, x: nat, y: nat)
    requires |h| > 0 && |m| > 0 && AllDigits(h) && AllDigits(m)
    requires x == DigitsValue(h) && y == DigitsValue(m)
    ensures TimeToMinutes(Some(h + ":" + m)) == Some(N(60 * x + y))
    ensures TimeToMinutes(Some(h + ":" + m)) == TimeNoteManager.TimeToMinutes(Some(h + ":" + m))
  {
    var t := h + ":" + m;
    assert t[|h|] == ':';
    TrimKeepsNonSpace(t, |h|);
    TimeNoteManager.DigitsRead(h, x);
    TimeNoteManager.DigitsRead(m, y);
    TimeNoteManager.SplitTime(h, m);
    ParseIntOfDigits(h);
    ParseIntOfDigits(m);
    TimeOfParts(t, h, m, x, y);
    TimeNoteManager.TimeOfDigits(h, m, x, y);
  }

  // ----- `calculate` ------------------------------------------------------------

  /** The per-page step of `calculate` as a value. */
  function DayParser(t: Tables): DayPage -> Result<Info> {
    (page: DayPage) => SumDay(t, page)
  }

  /** What `calculate` returns: the empty information, or, as written, the
      array of the pages' informations. */
  datatype Calculated = One(info: Info) | PerPage(days: seq<Info>)

  /** `calculate` as written: without pages the empty information, otherwise
      `pages.map(parseAndSumDailyTimes)`, the first failing page throwing. */
  function Calculate(t: Tables, pages: seq<DayPage>): Result<Calculated> {
    if pages == [] then Ok(One(Empty))
    else
      var days :- ItemManager.MapAll(pages, DayParser(t));
      Ok(PerPage(days))
  }

  /** As written, pages give one information per page rather than their sum:
      the declared `CategoryInformation` is returned only without pages. */
  lemma CalculatePerPage(t: Tables, pages: seq<DayPage>)
    requires pages != [] && Calculate(t, pages).Ok?
    ensures Calculate(t, pages).value.PerPage?
    ensures var days := Calculate(t, pages).value.days;
      |days| == |pages| && forall i :: 0 <= i < |pages| ==> SumDay(t, pages[i]) == Ok(days[i])
  {
    ItemManager.MapAllEach(pages, DayParser(t));
  }

  /** A single page without a log already shows it: the result is a list
      holding the empty information, not an information. */
  lemma CalculateOnePage(t: Tables, page: DayPage)
    requires !CheckCanBuild(page)
    ensures Calculate(t, [page]) == Ok(PerPage([Empty]))
  {
    SumDayCases(t, page);
    assert DayParser(t)(page) == Ok(Empty);
    assert [page][1..] == [];
    assert ItemManager.MapAll([page][1..], DayParser(t)) == Ok([]);
    assert [page][0] == page && [Empty] + [] == [Empty];
    assert ItemManager.MapAll([page], DayParser(t)) == Ok([Empty]);
  }

  /** `days.reduce((a, b) => a.add(b))`: no initial value, so a single day
      is returned as it is. */
  function Reduce(days: seq<Info>): Info
    requires days != []
  {
    if |days| == 1 then days[0] else AddSpec(Reduce(days[..|days| - 1]), days[|days| - 1])
  }

  /** `calculate` corrected: the pages' informations added up with `add`. */
  function CalculateTotal(t: Tables, pages: seq<DayPage>): Result<Info> {
    if pages == [] then Ok(Empty)
    else
      var days :- ItemManager.MapAll(pages, DayParser(t));
      if days == [] then Ok(Empty) else Ok(Reduce(days))
  }

  /** The sums, over a list of informations, of their totals and of one
      name's minutes. */
  function TotalSum(days: seq<Info>): int {
    if days == [] then 0 else TotalSum(days[..|days| - 1]) + days[|days| - 1].total
  }

  function WithoutBaseSum(days: seq<Info>): int {
    if days == [] then 0 else WithoutBaseSum(days[..|days| - 1]) + days[|days| - 1].totalWithoutBase
  }

  function SubSum(days: seq<Info>, n: string): int {
    if days == [] then 0 else SubSum(days[..|days| - 1], n) + GetOr0(days[|days| - 1].sub, n)
  }

  function ComSum(days: seq<Info>, n: string): int {
    if days == [] then 0 else ComSum(days[..|days| - 1], n) + GetOr0(days[|days| - 1].com, n)
  }

  predicate AllValid(days: seq<Info>) {
    forall i :: 0 <= i < |days| ==> Valid(days[i])
  }

  /** Adding up valid informations keeps one row per name and adds every
      name's minutes and the totals over all of them. */
  lemma {:induction false} ReduceSpec(days: seq<Info>, n: string)
    requires days != [] && AllValid(days)
    ensures Valid(Reduce(days))
    ensures GetOr0(Reduce(days).sub, n) == SubSum(days, n)
    ensures GetOr0(Reduce(days).com, n) == ComSum(days, n)
    ensures Reduce(days).total == TotalSum(days)
    ensures Reduce(days).totalWithoutBase == WithoutBaseSum(days)
    decreases |days|
  {
    var init := days[..|days| - 1];
    if |days| == 1 {
      assert init == [];
    } else {
      assert forall i :: 0 <= i < |init| ==> init[i] == days[i];
      ReduceSpec(init, n);
      assert Valid(days[|days| - 1]);
      AddSums(Reduce(init), days[|days| - 1], n);
    }
  }

  /** The corrected `calculate` over pages that all load: one row per name,
      each name worth its minutes on every page added up, and the totals
      added up over the pages. */
  lemma CalculateTotalSpec(t: Tables, pages: seq<DayPage>, n: string)
    requires pages != [] && CalculateTotal(t, pages).Ok?
    ensures ItemManager.MapAll(pages, DayParser(t)).Ok?
    ensures var days := ItemManager.MapAll(pages, DayParser(t)).value;
      var r := CalculateTotal(t, pages).value;
      && |days| == |pages|
      && (forall i :: 0 <= i < |pages| ==> SumDay(t, pages[i]) == Ok(days[i]))
      && Valid(r)
      && GetOr0(r.sub, n) == SubSum(days, n)
      && GetOr0(r.com, n) == ComSum(days, n)
      && r.total == TotalSum(days)
      && r.totalWithoutBase == WithoutBaseSum(days)
  {
    ItemManager.MapAllEach(pages, DayParser(t));
    var days := ItemManager.MapAll(pages, DayParser(t)).value;
    forall i | 0 <= i < |days|
      ensures Valid(days[i])
    {
      DayValid(t, pages[i]);
    }
    ReduceSpec(days, n);
  }

  /** Every day that loads is valid. */
  lemma DayValid(t: Tables, page: DayPage)
    requires SumDay(t, page).Ok?
    ensures Valid(SumDay(t, page).value)
  {
    if CheckCanBuild(page) {
      SumDayCases(t, page);
      SumDaySpec(t, page, "");
    }
  }

  // ----- `_prettyMinutes` --------------------------------------------------------

  /** `_prettyMinutes`: a value that is not a number prints as nothing;
      otherwise the floored hours unless zero and the JavaScript remainder
      unless zero, joined by a space and trimmed. */
  function PrettyMinutes(total: Option<Num>): string {
    if total.None? then ""
    else if total.value.NaN? then "NaNч. NaNм."
    else
      var v := total.value.v;
      var minutes := JsRem(v, 60);
      Trim(ItemModel.HoursPart(v / 60) + " " + (if minutes != 0 then ItemModel.Piece(minutes, "м.") else ""))
  }

  /** Zero and non-numbers are shown as the empty text. */
  lemma PrettyNothing()
    ensures PrettyMinutes(None) == ""
    ensures PrettyMinutes(Some(N(0))) == ""
  {
    assert ItemModel.HoursPart(0) + " " + "" == " ";
  }

  /** Away from zero, the legacy printing is `formatMinutes`'s. */
  lemma PrettyIsFormat(v: int)
    requires v != 0
    ensures PrettyMinutes(Some(N(v))) == ItemModel.FormatMinutes(v)
  {
    var minutes := JsRem(v, 60);
    if v >= 0 && v / 60 == 0 {
      assert minutes == v;
    }
    assert ItemModel.MinutesPart(v / 60, minutes) == (if minutes != 0 then ItemModel.Piece(minutes, "м.") else "");
  }

  /** Under an hour below zero the hours floor to -1 while the remainder
      keeps the minus sign. */
  lemma PrettyNegative(v: int)
    requires -60 < v < 0
    ensures PrettyMinutes(Some(N(v))) == ItemModel.FormatMinutes(v)
    ensures ItemModel.FormatMinutes(v) == ItemModel.Piece(-1, "ч.") + " " + ItemModel.Piece(v, "м.")
  {
    assert v / 60 == -1;
    assert JsRem(v, 60) == v;
    PrettyIsFormat(v);
    ItemModel.RenderBoth(-1, v);
  }
}
