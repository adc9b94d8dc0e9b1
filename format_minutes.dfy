/** `formatMinutes` (models/item.ts): a minute count written as hours and
    minutes, "2ч. 5м.". Integer counts only: a fractional or NaN count,
    which the JavaScript accepts, is not modelled. The hours are the floored
    quotient by 60 and the minutes JavaScript's `%`, which keeps the sign of
    the count. */
module ItemModel {
  import opened Js

  /** A number followed by its unit, "ч." or "м.". */
  function Piece(n: int, unit: string): string {
    IntToString(n) + unit
  }

  function HoursPart(hours: int): string {
    if hours != 0 then Piece(hours, "ч.") else ""
  }

  function MinutesPart(hours: int, minutes: int): string {
    if minutes != 0 || hours == 0 then Piece(minutes, "м.") else ""
  }

  /** The two parts joined by one space, then trimmed: an absent part leaves
      only the space, which `trim` removes. */
  function Render(hours: int, minutes: int): string {
    Trim(HoursPart(hours) + " " + MinutesPart(hours, minutes))
  }

  function FormatMinutes(totalMinutes: int): string {
    if totalMinutes == 0 then "0"
    else Render(totalMinutes / 60, JsRem(totalMinutes, 60))
  }

  // ----- helpers about the rendered pieces --------------------------------

  lemma DigitsNotSpace(s: string)
    requires AllDigits(s) && s != []
    ensures !IsSpace(s[0]) && !IsSpace(s[|s| - 1])
  {
    assert IsDigit(s[0]) && IsDigit(s[|s| - 1]);
  }

  /** A number followed by a unit neither starts nor ends with white space. */
  lemma PieceNotSpaced(n: int, unit: string)
    requires unit == "ч." || unit == "м."
    ensures var p := Piece(n, unit);
      p != [] && !IsSpace(p[0]) && !IsSpace(p[|p| - 1])
  {
    if n >= 0 {
      DigitsNotSpace(NatToString(n));
    }
  }

  /** Only the hours: the trailing space goes. */
  lemma RenderHoursOnly(h: int)
    requires h != 0
    ensures Render(h, 0) == Piece(h, "ч.")
  {
    var p := Piece(h, "ч.");
    PieceNotSpaced(h, "ч.");
    assert HoursPart(h) + " " + MinutesPart(h, 0) == p + " ";
    TrimAppendSpaces(p, " ");
    TrimOfTrimmed(p);
  }

  /** An empty part, a space and a part that neither starts nor ends with
      white space: trimming leaves the second part. */
  lemma TrimLeadingSpace(a: string, p: string)
    requires a == [] && p != [] && !IsSpace(p[0]) && !IsSpace(p[|p| - 1])
    ensures Trim(a + " " + p) == p
  {
    TrimOfTrimmed(p);
    TrimAfterSpace(p);
    var sp := a + " ";
    assert sp == " ";
  }

  /** Only the minutes: the leading space goes. */
  lemma RenderMinutesOnly(h: int, m: int)
    requires h == 0
    ensures Render(h, m) == Piece(m, "м.")
  {
    PieceNotSpaced(m, "м.");
    TrimLeadingSpace(HoursPart(h), MinutesPart(h, m));
  }

  /** Two pieces that neither start nor end with white space, joined by a
      space: nothing to trim. */
  lemma TrimJoined(a: string, b: string)
    requires a != [] && !IsSpace(a[0]) && !IsSpace(a[|a| - 1])
    requires b != [] && !IsSpace(b[0]) && !IsSpace(b[|b| - 1])
    ensures Trim(a + " " + b) == a + " " + b
  {
    var s := a + " " + b;
    assert s[0] == a[0];
    assert s[|s| - 1] == b[|b| - 1];
    TrimOfTrimmed(s);
  }

  /** Both parts: nothing to trim. */
  lemma RenderBoth(h: int, m: int)
    requires h != 0 && m != 0
    ensures Render(h, m) == Piece(h, "ч.") + " " + Piece(m, "м.")
  {
    PieceNotSpaced(h, "ч.");
    PieceNotSpaced(m, "м.");
    TrimJoined(Piece(h, "ч."), Piece(m, "м."));
  }

  // ----- properties ---------------------------------------------------------

  /** Zero is written "0". */
  lemma FormatZero()
    ensures FormatMinutes(0) == "0"
  {
  }

  /** A count whose floored hours are zero (under an hour): the minutes
      alone. */
  lemma FormatMinutesOnly(n: int)
    requires 0 < n < 60
    ensures FormatMinutes(n) == Piece(n, "м.")
  {
    assert n / 60 == 0 && JsRem(n, 60) == n;
    RenderMinutesOnly(n / 60, n);
  }

  /** Whole hours: the hours alone, with no minutes part. */
  lemma FormatHoursOnly(n: int)
    requires n != 0 && JsRem(n, 60) == 0
    ensures FormatMinutes(n) == Piece(n / 60, "ч.")
  {
    assert n / 60 != 0;
    RenderHoursOnly(n / 60);
  }

  /** Hours and a remainder: hours, one space, minutes. */
  lemma FormatHoursAndMinutes(n: int)
    requires n / 60 != 0 && JsRem(n, 60) != 0
    ensures FormatMinutes(n) == Piece(n / 60, "ч.") + " " + Piece(JsRem(n, 60), "м.")
  {
    assert n != 0;
    var h, m := n / 60, JsRem(n, 60);
    assert FormatMinutes(n) == Render(h, m);
    RenderBoth(h, m);
  }

  /** The three shapes on positive counts: under an hour "<n>м.", whole
      hours "<n/60>ч.", otherwise "<n/60>ч. <n%60>м.". */
  lemma FormatPositive(n: nat)
    requires n > 0
    ensures n < 60 ==> FormatMinutes(n) == Piece(n, "м.")
    ensures n % 60 == 0 ==> FormatMinutes(n) == Piece(n / 60, "ч.")
    ensures n > 60 && n % 60 != 0 ==>
      FormatMinutes(n) == Piece(n / 60, "ч.") + " " + Piece(n % 60, "м.")
  {
    if n < 60 {
      FormatMinutesOnly(n);
    } else {
      var h, m := n / 60, n % 60;
      assert h != 0 && JsRem(n, 60) == m;
      if m == 0 {
        FormatHoursOnly(n);
      } else {
        FormatHoursAndMinutes(n);
      }
    }
  }

  /** The result is never empty, and it never starts or ends with white
      space. */
  lemma FormatNonEmpty(n: int)
    ensures var r := FormatMinutes(n);
      r != [] && !IsSpace(r[0]) && !IsSpace(r[|r| - 1])
  {
    var r := FormatMinutes(n);
    if n != 0 {
      var h, m := n / 60, JsRem(n, 60);
      if h == 0 {
        assert 0 < n < 60;
        FormatMinutesOnly(n);
        PieceNotSpaced(n, "м.");
      } else if m == 0 {
        FormatHoursOnly(n);
        PieceNotSpaced(h, "ч.");
      } else {
        FormatHoursAndMinutes(n);
        var a, b := Piece(h, "ч."), Piece(m, "м.");
        PieceNotSpaced(h, "ч.");
        PieceNotSpaced(m, "м.");
        assert r == a + " " + b;
        assert r[0] == a[0] && r[|r| - 1] == b[|b| - 1];
      }
    }
  }

  /** For a count over an hour with a remainder, the two numbers shown read
      back as the count: sixty times the hours plus the minutes. */
  lemma FormatReadsBack(n: nat)
    requires n > 60 && n % 60 != 0
    ensures exists h: nat, m: nat ::
      0 < m < 60 && 60 * h + m == n && FormatMinutes(n) == Piece(h, "ч.") + " " + Piece(m, "м.")
  {
    FormatPositive(n);
    var h: nat, m: nat := n / 60, n % 60;
    assert 0 < m < 60 && 60 * h + m == n;
    assert FormatMinutes(n) == Piece(h, "ч.") + " " + Piece(m, "м.");
  }

  /** A negative count under an hour shows an hour too many: the floored
      quotient is -1 while the remainder keeps the count's sign, so -30
      comes out as "-1ч. -30м.". The callers only pass non-negative counts. */
  lemma FormatNegativeUnderAnHour(n: int)
    requires -60 < n < 0
    ensures FormatMinutes(n) == Piece(-1, "ч.") + " " + Piece(n, "м.")
  {
    assert n / 60 == -1 && JsRem(n, 60) == n;
    FormatHoursAndMinutes(n);
  }
}
