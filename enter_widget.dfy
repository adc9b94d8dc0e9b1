/** The logic of `EnterCategoryWidget` (ui/enter_category_widget.ts): how the
    minutes field is read, how it adjusts the day's missing minutes into the
    new entry, and when the widget is hidden. The DOM, the autocompletes
    and the timers are not part of this model. */
module EnterCategoryWidget {
  import opened Wrappers
  import opened Js
  import opened CategoryModels
  import TimeNoteManager
  import CategoryManager
  import FrontmatterManager

  /** The `type` of a parsed field: "+" adds, "-" subtracts, "=" replaces. */
  datatype Kind = Add | Subtract | Replace

  datatype Adjustment = Adjustment(minutes: nat, kind: Kind)

  const InvalidField := "Invalid minutes field"
  const NotPositiveMsg := "Missing minutes must be positive"
  const NoCategory := "Category is not selected"

  // ----- the field's pattern -------------------------------------------------
  //
  // The field must match /^([-+]?)(?:(\d+)ч\.?)?\s*(?:(\d+)м?\.?)?$/. Each
  // optional part below is decided by the next character alone, so the
  // pattern is read left to right without backtracking: a sign is the first
  // character; digits are hours only when "ч" follows them; spaces are
  // skipped; what follows must be minutes digits with an optional "м" and
  // an optional "."; then the text must end.

  /** An optional piece of the text and what follows it. */
  datatype Cut = Cut(taken: string, rest: string)

  /** A group of digits with its unit, and what follows them. */
  datatype Group = Group(digits: string, unit: string, rest: string)

  /** The parts the field is read as, and what is left of it. */
  datatype Reading = Reading(sign: string, hours: string, hoursUnit: string, spaces: string,
                             minutes: string, minutesUnit: string, rest: string)

  /** `c?`: the character `c` if the text starts with it. */
  function OptChar(s: string, c: char): (r: Cut)
    ensures s == r.taken + r.rest
    ensures r.taken == [] || r.taken == [c]
  {
    if s != [] && s[0] == c then
      assert s == [c] + s[1..];
      Cut([c], s[1..])
    else Cut([], s)
  }

  /** `([-+]?)`: the sign. */
  function SplitSign(s: string): (r: Cut)
    ensures s == r.taken + r.rest
    ensures r.taken == [] || r.taken == "-" || r.taken == "+"
  {
    if s != [] && (s[0] == '-' || s[0] == '+') then
      assert s == [s[0]] + s[1..];
      Cut([s[0]], s[1..])
    else Cut([], s)
  }

  lemma Regroup(s: string, d: string, after: string, u: string, rest: string)
    requires s == d + after && after == u + rest
    ensures s == d + u + rest
  {
  }

  lemma UnitSplit(after: string, taken: string, rest: string)
    requires after != [] && after[0] == 'ч' && after[1..] == taken + rest
    requires taken == [] || taken == ['.']
    ensures after == "ч" + taken + rest
    ensures "ч" + taken == "ч" || "ч" + taken == "ч."
  {
    assert after == [after[0]] + after[1..];
  }

  /** `(?:(\d+)ч\.?)?`: digits count as hours only when "ч" follows them. */
  function SplitHours(s: string): (r: Group)
    ensures s == r.digits + r.unit + r.rest
    ensures AllDigits(r.digits)
    ensures r.digits == [] ==> r.unit == []
    ensures r.digits != [] ==> r.unit == "ч" || r.unit == "ч."
  {
    var d := DigitPrefix(s);
    var after := s[|d|..];
    assert s == d + after;
    if d != [] && after != [] && after[0] == 'ч' then
      var dot := OptChar(after[1..], '.');
      UnitSplit(after, dot.taken, dot.rest);
      Regroup(s, d, after, "ч" + dot.taken, dot.rest);
      Group(d, "ч" + dot.taken, dot.rest)
    else
      assert s == [] + [] + s;
      Group([], [], s)
  }

  /** `(?:(\d+)м?\.?)?`: the minutes digits and their optional "м" and ".". */
  function SplitMinutes(s: string): (r: Group)
    ensures s == r.digits + r.unit + r.rest
    ensures AllDigits(r.digits)
    ensures r.digits == [] ==> r.unit == []
    ensures r.unit == [] || r.unit == "м" || r.unit == "." || r.unit == "м."
  {
    var d := DigitPrefix(s);
    if d == [] then
      assert s == [] + [] + s;
      Group([], [], s)
    else
      var after := s[|d|..];
      assert s == d + after;
      var mm := OptChar(after, 'м');
      var dot := OptChar(mm.rest, '.');
      MinutesUnitSplit(after, mm.taken, mm.rest, dot.taken, dot.rest);
      Regroup(s, d, after, mm.taken + dot.taken, dot.rest);
      Group(d, mm.taken + dot.taken, dot.rest)
  }

  lemma MinutesUnitSplit(after: string, m: string, mid: string, dot: string, rest: string)
    requires after == m + mid && mid == dot + rest
    requires (m == [] || m == ['м']) && (dot == [] || dot == ['.'])
    ensures after == (m + dot) + rest
    ensures m + dot == [] || m + dot == "м" || m + dot == "." || m + dot == "м."
  {
  }

  /** The field read left to right; `\s*` takes all the white space there
      is. */
  function Read(value: string): (r: Reading)
    ensures AllDigits(r.hours) && AllDigits(r.minutes)
  {
    var s := SplitSign(value);
    var h := SplitHours(s.rest);
    var r3 := TrimStart(h.rest);
    var m := SplitMinutes(r3);
    Reading(s.taken, h.digits, h.unit, h.rest[..|h.rest| - |r3|], m.digits, m.unit, m.rest)
  }

  /** `parseInt(hours ?? "0") * 60 + parseInt(minutes ?? "0")`. */
  function Amount(h: string, m: string): nat
    requires AllDigits(h) && AllDigits(m)
  {
    DigitsValue(h) * 60 + DigitsValue(m)
  }

  function KindOf(sign: string): Kind {
    if sign == "-" then Subtract else if sign == "+" then Add else Replace
  }

  /** `parseMinutesField`: an empty field is no adjustment; a field with
      anything left after the pattern throws; otherwise the amount is 60
      hours + minutes, an absent part counting as 0. */
  function ParseMinutesField(value: string): Result<Option<Adjustment>> {
    if value == [] then Ok(None)
    else
      var r := Read(value);
      if r.rest != [] then Err(InvalidField)
      else Ok(Some(Adjustment(Amount(r.hours, r.minutes), KindOf(r.sign))))
  }

  // ----- the pattern as a set of texts ----------------------------------------

  /** The texts the pattern matches, part by part: a sign, hours with "ч" or
      "ч.", white space, minutes with "", "м", "." or "м."; every part may be
      absent. */
  predicate WellFormed(sign: string, h: string, hu: string, sp: string, m: string, mu: string) {
    (sign == [] || sign == "-" || sign == "+")
    && AllDigits(h) && (h == [] ==> hu == []) && (h != [] ==> hu == "ч" || hu == "ч.")
    && AllSpaces(sp)
    && AllDigits(m) && (m == [] ==> mu == []) && (mu == [] || mu == "м" || mu == "." || mu == "м.")
  }

  function FieldText(sign: string, h: string, hu: string, sp: string, m: string, mu: string): string {
    sign + (h + hu + (sp + (m + mu)))
  }

  /** A reading with nothing left is accepted with its amount. */
  lemma ParseOfReading(value: string, r: Reading)
    requires value != [] && Read(value) == r && r.rest == []
    ensures ParseMinutesField(value) == Ok(Some(Adjustment(Amount(r.hours, r.minutes), KindOf(r.sign))))
  {
  }

  // ----- completeness: every text of the pattern is read as its parts --------

  lemma SignPart(sign: string, rest: string)
    requires sign == [] || sign == "-" || sign == "+"
    requires rest == [] || (rest[0] != '-' && rest[0] != '+')
    ensures SplitSign(sign + rest) == Cut(sign, rest)
  {
    if sign == [] {
      assert sign + rest == rest;
    } else {
      assert (sign + rest)[1..] == rest;
    }
  }

  lemma OptCharPresent(c: char, rest: string)
    ensures OptChar([c] + rest, c) == Cut([c], rest)
  {
    assert ([c] + rest)[1..] == rest;
  }

  lemma OptCharAbsent(c: char, rest: string)
    requires rest == [] || rest[0] != c
    ensures OptChar(rest, c) == Cut([], rest)
  {
  }

  /** Minutes digits are never followed by "ч". */
  lemma MinutesAreNotHours(m: string, mu: string)
    requires AllDigits(m) && (m == [] ==> mu == []) && (mu == [] || mu == "м" || mu == "." || mu == "м.")
    ensures SplitHours(m + mu) == Group([], [], m + mu)
  {
    if m != [] {
      DigitPrefixOf(m, mu);
      assert (m + mu)[|m|..] == mu;
    }
  }

  lemma NoHoursBeforeSpace(s: string)
    requires s != [] && IsSpace(s[0])
    ensures SplitHours(s) == Group([], [], s)
  {
  }

  /** What follows "ч": an optional dot, then the rest. */
  lemma HoursUnitPart(hu: string, rest: string)
    requires hu == "ч" || hu == "ч."
    requires rest == [] || rest[0] != '.'
    ensures (hu + rest)[0] == 'ч'
    ensures OptChar((hu + rest)[1..], '.') == Cut(hu[1..], rest)
  {
    if hu == "ч." {
      assert (hu + rest)[1..] == ['.'] + rest;
      OptCharPresent('.', rest);
    } else {
      assert (hu + rest)[1..] == rest;
      OptCharAbsent('.', rest);
    }
  }

  lemma HoursPart(h: string, hu: string, rest: string)
    requires AllDigits(h) && h != [] && (hu == "ч" || hu == "ч.")
    requires rest == [] || rest[0] != '.'
    ensures SplitHours(h + (hu + rest)) == Group(h, hu, rest)
  {
    var s := h + (hu + rest);
    assert (hu + rest)[0] == 'ч';
    DigitPrefixOf(h, hu + rest);
    assert s[|h|..] == hu + rest;
    HoursUnitPart(hu, rest);
    assert "ч" + hu[1..] == hu;
  }

  lemma SpacesPart(sp: string, rest: string)
    requires AllSpaces(sp) && (rest == [] || !IsSpace(rest[0]))
    ensures TrimStart(sp + rest) == rest
  {
    TrimStartAppend(sp, rest);
    AllSpacesTrimStart(sp);
  }

  /** The unit "м", ".", "м." or nothing, read as the two optional
      characters. */
  lemma MinutesUnitPart(mu: string)
    requires mu == [] || mu == "м" || mu == "." || mu == "м."
    ensures var mm := OptChar(mu, 'м');
      mm.taken + OptChar(mm.rest, '.').taken == mu && OptChar(mm.rest, '.').rest == []
  {
    if mu == "м." {
      assert mu == ['м'] + ".";
      OptCharPresent('м', ".");
      assert "." == ['.'] + [];
      OptCharPresent('.', []);
    } else if mu == "м" {
      assert mu == ['м'] + [];
      OptCharPresent('м', []);
    } else if mu == "." {
      assert mu == ['.'] + [];
      OptCharPresent('.', []);
    }
  }

  lemma MinutesPart(m: string, mu: string)
    requires AllDigits(m) && (m == [] ==> mu == []) && (mu == [] || mu == "м" || mu == "." || mu == "м.")
    ensures SplitMinutes(m + mu) == Group(m, mu, [])
  {
    if m == [] {
      assert m + mu == [];
    } else {
      DigitPrefixOf(m, mu);
      assert (m + mu)[|m|..] == mu;
      MinutesUnitPart(mu);
    }
  }

  /** The part after the hours starts with white space or a digit, or is
      empty. */
  lemma AfterHours(sp: string, m: string, mu: string)
    requires AllSpaces(sp) && AllDigits(m) && (m == [] ==> mu == [])
    ensures var rest := sp + (m + mu);
      rest == [] || IsSpace(rest[0]) || IsDigit(rest[0])
  {
    if sp != [] {
      assert (sp + (m + mu))[0] == sp[0];
    } else if m != [] {
      assert (sp + (m + mu))[0] == m[0];
    }
  }

  /** Reading the hours of `h + (hu + rest)`, or nothing when there are no
      hours. */
  lemma HoursOfText(h: string, hu: string, rest: string, sp: string, m: string, mu: string)
    requires WellFormed([], h, hu, sp, m, mu) && rest == sp + (m + mu)
    ensures SplitHours(h + (hu + rest)) == Group(h, hu, rest)
  {
    AfterHours(sp, m, mu);
    if h != [] {
      HoursPart(h, hu, rest);
    } else {
      assert h + (hu + rest) == rest;
      if sp != [] {
        assert rest[0] == sp[0];
        NoHoursBeforeSpace(rest);
      } else {
        assert rest == m + mu;
        MinutesAreNotHours(m, mu);
      }
    }
  }

  lemma SpacesOfText(sp: string, m: string, mu: string)
    requires AllSpaces(sp) && AllDigits(m) && (m == [] ==> mu == [])
    ensures TrimStart(sp + (m + mu)) == m + mu
  {
    if m != [] {
      assert (m + mu)[0] == m[0];
    }
    SpacesPart(sp, m + mu);
  }

  lemma SignOfText(sign: string, rest: string, h: string, hu: string, sp: string, m: string, mu: string)
    requires WellFormed(sign, h, hu, sp, m, mu) && rest == h + (hu + (sp + (m + mu)))
    ensures SplitSign(sign + rest) == Cut(sign, rest)
  {
    if h != [] {
      assert rest[0] == h[0];
    } else {
      assert rest == sp + (m + mu);
      AfterHours(sp, m, mu);
    }
    SignPart(sign, rest);
  }

  /** The reading, step by step. */
  lemma ReadSteps(value: string, sign: string, r1: string, h: string, hu: string, r2: string,
                  sp: string, r3: string, m: string, mu: string)
    requires SplitSign(value) == Cut(sign, r1)
    requires SplitHours(r1) == Group(h, hu, r2)
    requires r2 == sp + r3 && TrimStart(r2) == r3
    requires SplitMinutes(r3) == Group(m, mu, [])
    ensures Read(value) == Reading(sign, h, hu, sp, m, mu, [])
  {
    assert r2[..|r2| - |r3|] == sp;
  }

  /** Every text of the pattern is read as exactly its parts. */
  lemma ReadWellFormed(sign: string, h: string, hu: string, sp: string, m: string, mu: string)
    requires WellFormed(sign, h, hu, sp, m, mu)
    ensures Read(FieldText(sign, h, hu, sp, m, mu)) == Reading(sign, h, hu, sp, m, mu, [])
  {
    var r3 := m + mu;
    var r2 := sp + r3;
    var r1 := h + (hu + r2);
    assert FieldText(sign, h, hu, sp, m, mu) == sign + r1;
    SignOfText(sign, r1, h, hu, sp, m, mu);
    assert WellFormed([], h, hu, sp, m, mu);
    HoursOfText(h, hu, r2, sp, m, mu);
    SpacesOfText(sp, m, mu);
    MinutesPart(m, mu);
    ReadSteps(sign + r1, sign, r1, h, hu, r2, sp, r3, m, mu);
  }

  /** Every non-empty text of the pattern is accepted: the amount is 60
      times the hours plus the minutes (`Amount`, an absent part counting
      0), the sign gives the kind. */
  lemma ParseWellFormed(sign: string, h: string, hu: string, sp: string, m: string, mu: string)
    requires WellFormed(sign, h, hu, sp, m, mu) && FieldText(sign, h, hu, sp, m, mu) != []
    ensures ParseMinutesField(FieldText(sign, h, hu, sp, m, mu)) == Ok(Some(Adjustment(Amount(h, m), KindOf(sign))))
  {
    ReadWellFormed(sign, h, hu, sp, m, mu);
    ParseOfReading(FieldText(sign, h, hu, sp, m, mu), Reading(sign, h, hu, sp, m, mu, []));
  }

  // ----- soundness: whatever is accepted is a text of the pattern ------------

  /** Whatever is read is a text of the pattern followed by what is left. */
  lemma ReadShape(value: string) returns (r: Reading)
    ensures r == Read(value)
    ensures WellFormed(r.sign, r.hours, r.hoursUnit, r.spaces, r.minutes, r.minutesUnit)
    ensures value == r.sign + (r.hours + r.hoursUnit + (r.spaces + (r.minutes + r.minutesUnit + r.rest)))
  {
    var s := SplitSign(value);
    var h := SplitHours(s.rest);
    var r3 := TrimStart(h.rest);
    var sp := h.rest[..|h.rest| - |r3|];
    SpacesCut(h.rest, sp, r3);
    var m := SplitMinutes(r3);
    r := Reading(s.taken, h.digits, h.unit, sp, m.digits, m.unit, m.rest);
    Rejoin(value, s.taken, s.rest, h.digits, h.unit, h.rest, sp, r3, m.digits, m.unit, m.rest);
  }

  lemma SpacesCut(t: string, sp: string, r3: string)
    requires |r3| <= |t| && r3 == t[|t| - |r3|..] && sp == t[..|t| - |r3|]
    ensures t == sp + r3
  {
  }

  /** The pieces the field is cut into, put back together. */
  lemma Rejoin(value: string, sign: string, s: string, h: string, hu: string, hr: string,
              sp: string, r3: string, m: string, mu: string, rest: string)
    requires value == sign + s && s == h + hu + hr && hr == sp + r3 && r3 == m + mu + rest
    ensures value == sign + (h + hu + (sp + (m + mu + rest)))
  {
  }

  /** An accepted field is the text of the parts it was read as, and the
      amount is theirs. */
  lemma ParsedParts(value: string) returns (sign: string, h: string, hu: string, sp: string, m: string, mu: string)
    requires ParseMinutesField(value).Ok? && ParseMinutesField(value).value.Some?
    ensures WellFormed(sign, h, hu, sp, m, mu) && value == FieldText(sign, h, hu, sp, m, mu)
    ensures ParseMinutesField(value).value.value == Adjustment(Amount(h, m), KindOf(sign))
  {
    var r := ReadShape(value);
    sign, h, hu, sp, m, mu := r.sign, r.hours, r.hoursUnit, r.spaces, r.minutes, r.minutesUnit;
    assert r.rest == [];
    assert m + mu + r.rest == m + mu;
    ParseOfReading(value, r);
  }

  /** The error case: a non-empty field is rejected, with "Invalid minutes
      field", exactly when it is not a text of the pattern. */
  lemma RejectedIffNotWellFormed(value: string)
    requires value != []
    ensures ParseMinutesField(value).Err? ==> ParseMinutesField(value).msg == InvalidField
    ensures ParseMinutesField(value).Err? <==>
      forall sign, h, hu, sp, m, mu :: WellFormed(sign, h, hu, sp, m, mu) ==> value != FieldText(sign, h, hu, sp, m, mu)
  {
    if ParseMinutesField(value).Ok? {
      var sign, h, hu, sp, m, mu := ParsedParts(value);
    } else {
      forall sign, h, hu, sp, m, mu | WellFormed(sign, h, hu, sp, m, mu)
        ensures value != FieldText(sign, h, hu, sp, m, mu)
      {
        if value == FieldText(sign, h, hu, sp, m, mu) {
          ReadWellFormed(sign, h, hu, sp, m, mu);
        }
      }
    }
  }

  // ----- makeTimeEntry ---------------------------------------------------------

  /** The missing minutes after the field's adjustment; `null` missing
      minutes count as 0, as JavaScript's arithmetic reads them. */
  function Adjusted(missing: Option<Num>, adj: Option<Adjustment>): Num {
    var base := OrZero(missing);
    if adj.None? then base
    else match adj.value.kind
      case Add => base.Plus(N(adj.value.minutes))
      case Subtract => base.Minus(N(adj.value.minutes))
      case Replace => N(adj.value.minutes)
  }

  /** `missingMinutes <= 0`, false for NaN. */
  predicate NotPositive(x: Num) {
    x.N? && x.v <= 0
  }

  /** `makeTimeEntry`: the day's missing minutes adjusted by the field, which
      must be positive — checked before the category — and the entry line
      formatted for the selected category and comment. */
  method MakeTimeEntry(missingMinutes: Option<Num>, field: string, category: Option<Category>,
                       comment: Option<string>, format: FrontmatterManager.EntryFormatter)
    returns (r: Result<string>)
    ensures ParseMinutesField(field).Err? ==> r == Err(InvalidField)
    ensures ParseMinutesField(field).Ok? ==>
      var x := Adjusted(missingMinutes, ParseMinutesField(field).value);
      (NotPositive(x) ==> r == Err(NotPositiveMsg))
      && (!NotPositive(x) && category.None? ==> r == Err(NoCategory))
      && (!NotPositive(x) && category.Some? ==> r == Ok(format(category.value.prettyName, x, comment)))
  {
    var missing := OrZero(missingMinutes);
    var minutes := ParseMinutesField(field);
    if minutes.Err? {
      return Err(minutes.msg);
    }
    if minutes.value.Some? {
      var a := minutes.value.value;
      match a.kind {
        case Add => missing := missing.Plus(N(a.minutes));
        case Subtract => missing := missing.Minus(N(a.minutes));
        case Replace => missing := N(a.minutes);
      }
    }
    if missing.N? && missing.v <= 0 {
      return Err(NotPositiveMsg);
    }
    if category.None? {
      return Err(NoCategory);
    }
    return Ok(format(category.value.prettyName, missing, comment));
  }

  /** "=" sets the minutes whatever was missing; "+" and "-" move the
      missing minutes by the amount; an empty field keeps them. */
  lemma AdjustedKinds(missing: Option<Num>, a: nat)
    ensures Adjusted(missing, Some(Adjustment(a, Replace))) == N(a)
    ensures Adjusted(missing, Some(Adjustment(a, Add))) == OrZero(missing).Plus(N(a))
    ensures Adjusted(missing, Some(Adjustment(a, Subtract))) == OrZero(missing).Minus(N(a))
    ensures Adjusted(missing, None) == OrZero(missing)
    ensures missing.Some? && missing.value.N? ==>
      Adjusted(missing, Some(Adjustment(a, Subtract))).v == missing.value.v - a
  {
  }

  // ----- setShownState ---------------------------------------------------------

  /** `setShownState`: the widget is hidden when no day length is known, or
      when nothing is missing and both times are given. */
  predicate Hidden(state: TimeNoteManager.TimeNoteState) {
    state.missingMinutes.None?
    || (state.missingMinutes == Some(N(0)) && state.minutesStart.Some? && state.minutesEnd.Some?)
  }

  /** With other than exactly one page there is nothing to show. */
  lemma HiddenUnlessOnePage(items: seq<Item>, pages: seq<TimeNoteManager.TimePage>, now: int)
    requires |pages| != 1
    ensures Hidden(TimeNoteManager.Calc(items, pages, now))
  {
    TimeNoteManager.OnlyOnePage(items, pages, now);
  }

  /** One page with both times whose day length the entries account for
      exactly: the widget hides; with a minute still missing, it shows. */
  lemma HiddenWhenAccounted(items: seq<Item>, page: TimeNoteManager.TimePage, now: int, s: int, e: int)
    requires TimeNoteManager.TimeToMinutes(page.wake) == Some(N(s)) && 0 <= s < 1440
    requires TimeNoteManager.TimeToMinutes(page.sleep) == Some(N(e)) && 0 <= e < 1440
    ensures var day := if e < s then e + 1440 - s else e - s;
      var st := TimeNoteManager.Calc(items, [page], now);
      Hidden(st) <==> day == CategoryManager.SumMinutes(items)
  {
    TimeNoteManager.CalcOfOnePage(items, [page], now);
    TimeNoteManager.SinglePage(page, CategoryManager.SumMinutes(items), now, s, e);
  }

}
