/** The time-log entry pattern

      ^([^\d()]*)\s*(?:\((.*?)\))?\s*(?:(\d+)ч\.?)?\s*(?:(\d+)м\.?)?$

    as a deterministic matcher. The legacy calculator uses the same pattern
    with the dots after `ч` and `м` required (`dotsRequired`).

    Backtracking never changes the first match: the first group is the
    longest prefix with no digit or parenthesis, the digit runs are whole
    runs, an optional dot is taken whenever present, and the lazy comment
    closes at the first `)` after which the time tail matches, which is the
    last `)` of the line because the tail cannot hold one. */
module EntryGrammar {
  import opened Wrappers
  import opened Js

  const HourMark: char := '\U{0447}'     // 'ч'
  const MinuteMark: char := '\U{043C}'   // 'м'

  /** `[^\d()]`. */
  predicate IsTextChar(c: char) {
    !IsDigit(c) && c != '(' && c != ')'
  }

  predicate AllText(s: string) {
    forall i :: 0 <= i < |s| ==> IsTextChar(s[i])
  }

  /** What `.` matches: anything but a line terminator. */
  predicate NoLineTerminator(s: string) {
    forall i :: 0 <= i < |s| ==> !IsLineTerminator(s[i])
  }

  /** `(\d+)ч\.?` or `(\d+)м\.?`: the digits and whether the dot is present. */
  datatype TimePart = TimePart(digits: string, dot: bool)

  /** `\s*(?:(\d+)ч\.?)?\s*(?:(\d+)м\.?)?`. */
  datatype Tail = Tail(gap2: string, hours: Option<TimePart>, gap3: string, mins: Option<TimePart>)

  /** One way of reading a line: text, white space, optional comment, tail. */
  datatype Shape = Shape(text: string, gap1: string, comment: Option<string>, tail: Tail)

  function UnitText(p: Option<TimePart>, unit: char): string {
    match p
    case None => ""
    case Some(t) => t.digits + [unit] + (if t.dot then "." else "")
  }

  function TailText(t: Tail): string {
    t.gap2 + UnitText(t.hours, HourMark) + t.gap3 + UnitText(t.mins, MinuteMark)
  }

  function CommentText(c: Option<string>): string {
    match c
    case None => ""
    case Some(x) => "(" + x + ")"
  }

  /** The line a reading stands for. */
  function Render(e: Shape): string {
    e.text + e.gap1 + CommentText(e.comment) + TailText(e.tail)
  }

  predicate PartWellFormed(p: Option<TimePart>, dotsRequired: bool) {
    p.Some? ==> |p.value.digits| > 0 && AllDigits(p.value.digits) && (dotsRequired ==> p.value.dot)
  }

  predicate TailWellFormed(t: Tail, dotsRequired: bool) {
    AllSpaces(t.gap2) && AllSpaces(t.gap3)
    && PartWellFormed(t.hours, dotsRequired) && PartWellFormed(t.mins, dotsRequired)
  }

  /** The readings the pattern describes: its language is `Render` of these. */
  predicate WellFormed(e: Shape, dotsRequired: bool) {
    AllText(e.text) && AllSpaces(e.gap1)
    && (e.comment.Some? ==> NoLineTerminator(e.comment.value))
    && TailWellFormed(e.tail, dotsRequired)
  }

  // ----- the matcher ---------------------------------------------------------

  /** End of the longest run of `[^\d()]` from `i`. */
  function TextEnd(s: string, i: nat): (r: nat)
    requires i <= |s|
    ensures i <= r <= |s|
    decreases |s| - i
  {
    if i == |s| || !IsTextChar(s[i]) then i else TextEnd(s, i + 1)
  }

  /** End of the longest run of `\s` from `i`. */
  function SpacesEnd(s: string, i: nat): (r: nat)
    requires i <= |s|
    ensures i <= r <= |s|
    decreases |s| - i
  {
    if i == |s| || !IsSpace(s[i]) then i else SpacesEnd(s, i + 1)
  }

  /** End of the longest run of `\d` from `i`. */
  function DigitsEnd(s: string, i: nat): (r: nat)
    requires i <= |s|
    ensures i <= r <= |s|
    decreases |s| - i
  {
    if i == |s| || !IsDigit(s[i]) then i else DigitsEnd(s, i + 1)
  }

  /** `(?:(\d+)<unit>\.?)?` at `i`: the part, if any, and the position after
      it. */
  function MatchUnit(s: string, i: nat, unit: char, dotsRequired: bool): (r: (Option<TimePart>, nat))
    requires i <= |s|
    ensures i <= r.1 <= |s| && (r.0.None? ==> r.1 == i)
  {
    var d := DigitsEnd(s, i);
    if d == i || d == |s| || s[d] != unit then (None, i)
    else if d + 1 < |s| && s[d + 1] == '.' then (Some(TimePart(s[i..d], true)), d + 2)
    else if dotsRequired then (None, i)
    else (Some(TimePart(s[i..d], false)), d + 1)
  }

  /** The time tail from `i` to the end of the line. */
  function MatchTail(s: string, i: nat, dotsRequired: bool): Option<Tail>
    requires i <= |s|
  {
    var j := SpacesEnd(s, i);
    var h := MatchUnit(s, j, HourMark, dotsRequired);
    var m := SpacesEnd(s, h.1);
    var n := MatchUnit(s, m, MinuteMark, dotsRequired);
    if n.1 != |s| then None else Some(Tail(s[i..j], h.0, s[h.1..m], n.0))
  }

  /** No line terminator in `s[lo..hi]`. */
  predicate NoLineTerminatorIn(s: string, lo: nat, hi: nat)
    requires lo <= hi <= |s|
    decreases hi - lo
  {
    lo == hi || (!IsLineTerminator(s[lo]) && NoLineTerminatorIn(s, lo + 1, hi))
  }

  /** The lazy `(.*?)\)` from `j`: the first `)` after which the tail
      matches, with no line terminator before it. */
  function CloseParen(s: string, j: nat, dotsRequired: bool): (r: Option<nat>)
    requires j <= |s|
    ensures r.Some? ==> j <= r.value < |s|
    decreases |s| - j
  {
    if j == |s| || IsLineTerminator(s[j]) then None
    else if s[j] == ')' && MatchTail(s, j + 1, dotsRequired).Some? then
      Some(j)
    else
      CloseParen(s, j + 1, dotsRequired)
  }

  /** `entry.match(regex)`: the capture groups of the first match, as a
      reading of the line; `None` is a failed match. */
  function MatchEntry(s: string, dotsRequired: bool): Option<Shape>
  {
    var p := TextEnd(s, 0);
    if p < |s| && s[p] == '(' then MatchCommented(s, p, dotsRequired)
    else MatchPlain(s, p, dotsRequired)
  }

  /** A line whose text stops at the `(` at `p`. */
  function MatchCommented(s: string, p: nat, dotsRequired: bool): Option<Shape>
    requires p < |s|
  {
    var c := CloseParen(s, p + 1, dotsRequired);
    if c.Some? then MatchClosed(s, p, c.value, dotsRequired) else None
  }

  /** A line with the comment between `p` and `c`. */
  function MatchClosed(s: string, p: nat, c: nat, dotsRequired: bool): Option<Shape>
    requires p < c < |s|
  {
    var t := MatchTail(s, c + 1, dotsRequired);
    if t.Some? then Some(Shape(s[..p], "", Some(s[p + 1..c]), t.value)) else None
  }

  /** A line without a comment whose text stops at `p`. */
  function MatchPlain(s: string, p: nat, dotsRequired: bool): Option<Shape>
    requires p <= |s|
  {
    var t := MatchTail(s, p, dotsRequired);
    if t.Some? then Some(Shape(s[..p], "", None, t.value)) else None
  }

  // ----- the matcher, one step at a time ---------------------------------------

  lemma EntryCommented(s: string, dotsRequired: bool)
    requires TextEnd(s, 0) < |s| && s[TextEnd(s, 0)] == '('
    ensures MatchEntry(s, dotsRequired) == MatchCommented(s, TextEnd(s, 0), dotsRequired)
  {
  }

  lemma EntryPlain(s: string, dotsRequired: bool)
    requires !(TextEnd(s, 0) < |s| && s[TextEnd(s, 0)] == '(')
    ensures MatchEntry(s, dotsRequired) == MatchPlain(s, TextEnd(s, 0), dotsRequired)
  {
  }

  lemma CommentedClosed(s: string, p: nat, dotsRequired: bool)
    requires p < |s|
    ensures MatchCommented(s, p, dotsRequired).Some? ==> CloseParen(s, p + 1, dotsRequired).Some?
    ensures CloseParen(s, p + 1, dotsRequired).Some? ==>
      MatchCommented(s, p, dotsRequired)
      == MatchClosed(s, p, CloseParen(s, p + 1, dotsRequired).value, dotsRequired)
  {
  }

  lemma ClosedValue(s: string, p: nat, c: nat, dotsRequired: bool)
    requires p < c < |s|
    ensures MatchClosed(s, p, c, dotsRequired).Some? <==> MatchTail(s, c + 1, dotsRequired).Some?
    ensures MatchTail(s, c + 1, dotsRequired).Some? ==>
      MatchClosed(s, p, c, dotsRequired).value
      == Shape(s[..p], "", Some(s[p + 1..c]), MatchTail(s, c + 1, dotsRequired).value)
  {
  }

  lemma PlainValue(s: string, p: nat, dotsRequired: bool)
    requires p <= |s|
    ensures MatchPlain(s, p, dotsRequired).Some? <==> MatchTail(s, p, dotsRequired).Some?
    ensures MatchTail(s, p, dotsRequired).Some? ==>
      MatchPlain(s, p, dotsRequired).value == Shape(s[..p], "", None, MatchTail(s, p, dotsRequired).value)
  {
  }

  // ----- every match is a reading of the line --------------------------------

  lemma {:induction false} TextEndSound(s: string, i: nat)
    requires i <= |s|
    ensures AllText(s[i..TextEnd(s, i)])
    ensures TextEnd(s, i) == |s| || !IsTextChar(s[TextEnd(s, i)])
    decreases |s| - i
  {
    if i < |s| && IsTextChar(s[i]) {
      TextEndSound(s, i + 1);
      assert s[i..TextEnd(s, i)] == [s[i]] + s[i + 1..TextEnd(s, i)];
    }
  }

  lemma {:induction false} SpacesEndSound(s: string, i: nat)
    requires i <= |s|
    ensures AllSpaces(s[i..SpacesEnd(s, i)])
    ensures SpacesEnd(s, i) == |s| || !IsSpace(s[SpacesEnd(s, i)])
    decreases |s| - i
  {
    if i < |s| && IsSpace(s[i]) {
      SpacesEndSound(s, i + 1);
      assert s[i..SpacesEnd(s, i)] == [s[i]] + s[i + 1..SpacesEnd(s, i)];
    }
  }

  lemma {:induction false} DigitsEndSound(s: string, i: nat)
    requires i <= |s|
    ensures AllDigits(s[i..DigitsEnd(s, i)])
    ensures DigitsEnd(s, i) == |s| || !IsDigit(s[DigitsEnd(s, i)])
    decreases |s| - i
  {
    if i < |s| && IsDigit(s[i]) {
      DigitsEndSound(s, i + 1);
      assert s[i..DigitsEnd(s, i)] == [s[i]] + s[i + 1..DigitsEnd(s, i)];
    }
  }

  lemma MatchUnitSound(s: string, i: nat, unit: char, dotsRequired: bool)
    requires i <= |s|
    ensures var r := MatchUnit(s, i, unit, dotsRequired);
      s[i..r.1] == UnitText(r.0, unit) && PartWellFormed(r.0, dotsRequired)
  {
    var d := DigitsEnd(s, i);
    DigitsEndSound(s, i);
    var r := MatchUnit(s, i, unit, dotsRequired);
    if r.0.Some? {
      assert s[i..r.1] == s[i..d] + [unit] + (if r.0.value.dot then "." else "");
    }
  }

  lemma TailPieces(s: string, i: nat, j: nat, k: nat, m: nat,
                   hours: Option<TimePart>, mins: Option<TimePart>)
    requires i <= j <= k <= m <= |s|
    requires UnitText(hours, HourMark) == s[j..k] && UnitText(mins, MinuteMark) == s[m..]
    ensures TailText(Tail(s[i..j], hours, s[k..m], mins)) == s[i..]
  {
    assert s[i..] == s[i..j] + s[j..k] + s[k..m] + s[m..];
  }

  lemma MatchTailSound(s: string, i: nat, dotsRequired: bool)
    requires i <= |s| && MatchTail(s, i, dotsRequired).Some?
    ensures TailText(MatchTail(s, i, dotsRequired).value) == s[i..]
    ensures TailWellFormed(MatchTail(s, i, dotsRequired).value, dotsRequired)
  {
    var j := SpacesEnd(s, i);
    var h := MatchUnit(s, j, HourMark, dotsRequired);
    var m := SpacesEnd(s, h.1);
    var n := MatchUnit(s, m, MinuteMark, dotsRequired);
    SpacesEndSound(s, i);
    SpacesEndSound(s, h.1);
    MatchUnitSound(s, j, HourMark, dotsRequired);
    MatchUnitSound(s, m, MinuteMark, dotsRequired);
    assert s[m..n.1] == s[m..];
    TailPieces(s, i, j, h.1, m, h.0, n.0);
  }

  lemma CloseParenLive(s: string, j: nat, dotsRequired: bool)
    requires j <= |s| && CloseParen(s, j, dotsRequired).Some?
    ensures j < |s| && !IsLineTerminator(s[j])
  {
  }

  lemma CloseParenNext(s: string, j: nat, dotsRequired: bool)
    requires j < |s| && !IsLineTerminator(s[j])
    requires !(s[j] == ')' && MatchTail(s, j + 1, dotsRequired).Some?)
    ensures CloseParen(s, j, dotsRequired) == CloseParen(s, j + 1, dotsRequired)
  {
  }

  lemma CloseParenHere(s: string, c: nat, dotsRequired: bool)
    requires c < |s| && s[c] == ')' && MatchTail(s, c + 1, dotsRequired).Some?
    ensures CloseParen(s, c, dotsRequired) == Some(c)
  {
  }

  lemma {:induction false} CloseParenSound(s: string, j: nat, c: nat, dotsRequired: bool)
    requires j <= |s| && CloseParen(s, j, dotsRequired) == Some(c)
    ensures c < |s| && s[c] == ')' && NoLineTerminatorIn(s, j, c)
    ensures MatchTail(s, c + 1, dotsRequired).Some?
    decreases |s| - j
  {
    CloseParenLive(s, j, dotsRequired);
    if s[j] == ')' && MatchTail(s, j + 1, dotsRequired).Some? {
      CloseParenHere(s, j, dotsRequired);
    } else {
      CloseParenNext(s, j, dotsRequired);
      CloseParenSound(s, j + 1, c, dotsRequired);
    }
  }

  lemma NoCommentPieces(s: string, p: nat, t: Tail)
    requires p <= |s| && TailText(t) == s[p..]
    ensures Render(Shape(s[..p], "", None, t)) == s
  {
    assert s == s[..p] + s[p..];
  }

  lemma CommentPieces(s: string, p: nat, c: nat, t: Tail)
    requires p < c < |s| && s[p] == '(' && s[c] == ')' && TailText(t) == s[c + 1..]
    ensures Render(Shape(s[..p], "", Some(s[p + 1..c]), t)) == s
  {
    assert s == s[..p] + [s[p]] + s[p + 1..c] + [s[c]] + s[c + 1..];
  }

  lemma CommentReading(s: string, p: nat, c: nat, t: Tail, dotsRequired: bool)
    requires p < c < |s| && s[p] == '(' && s[c] == ')'
    requires AllText(s[..p]) && NoLineTerminator(s[p + 1..c])
    requires TailText(t) == s[c + 1..] && TailWellFormed(t, dotsRequired)
    ensures WellFormed(Shape(s[..p], "", Some(s[p + 1..c]), t), dotsRequired)
    ensures Render(Shape(s[..p], "", Some(s[p + 1..c]), t)) == s
  {
    assert AllSpaces("");
    CommentPieces(s, p, c, t);
  }

  lemma PlainReading(s: string, p: nat, t: Tail, dotsRequired: bool)
    requires p <= |s| && AllText(s[..p])
    requires TailText(t) == s[p..] && TailWellFormed(t, dotsRequired)
    ensures WellFormed(Shape(s[..p], "", None, t), dotsRequired)
    ensures Render(Shape(s[..p], "", None, t)) == s
  {
    assert AllSpaces("");
    NoCommentPieces(s, p, t);
  }

  /** What a match with a comment is made of. */
  lemma MatchEntryCommentCase(s: string, dotsRequired: bool) returns (p: nat, c: nat, t: Tail)
    requires MatchEntry(s, dotsRequired).Some?
    requires TextEnd(s, 0) < |s| && s[TextEnd(s, 0)] == '('
    ensures p == TextEnd(s, 0) && p < c < |s|
    ensures CloseParen(s, p + 1, dotsRequired) == Some(c) && MatchTail(s, c + 1, dotsRequired) == Some(t)
    ensures MatchEntry(s, dotsRequired) == Some(Shape(s[..p], "", Some(s[p + 1..c]), t))
  {
    p := TextEnd(s, 0);
    EntryCommented(s, dotsRequired);
    CommentedClosed(s, p, dotsRequired);
    c := CloseParen(s, p + 1, dotsRequired).value;
    ClosedValue(s, p, c, dotsRequired);
    t := MatchTail(s, c + 1, dotsRequired).value;
  }

  /** What a match without a comment is made of. */
  lemma MatchEntryPlainCase(s: string, dotsRequired: bool) returns (p: nat, t: Tail)
    requires MatchEntry(s, dotsRequired).Some?
    requires !(TextEnd(s, 0) < |s| && s[TextEnd(s, 0)] == '(')
    ensures p == TextEnd(s, 0) && MatchTail(s, p, dotsRequired) == Some(t)
    ensures MatchEntry(s, dotsRequired) == Some(Shape(s[..p], "", None, t))
  {
    p := TextEnd(s, 0);
    EntryPlain(s, dotsRequired);
    PlainValue(s, p, dotsRequired);
    t := MatchTail(s, p, dotsRequired).value;
  }

  lemma TextSound(s: string, p: nat)
    requires p == TextEnd(s, 0)
    ensures AllText(s[..p])
  {
    TextEndSound(s, 0);
    assert s[..p] == s[0..p];
  }

  lemma CloseSound(s: string, p: nat, c: nat, dotsRequired: bool)
    requires p < |s| && CloseParen(s, p + 1, dotsRequired) == Some(c)
    ensures p < c < |s| && s[c] == ')' && NoLineTerminator(s[p + 1..c])
  {
    CloseParenSound(s, p + 1, c, dotsRequired);
    NoLineTerminatorInSlice(s, p + 1, c);
  }

  lemma TailSound(s: string, i: nat, t: Tail, dotsRequired: bool)
    requires i <= |s| && MatchTail(s, i, dotsRequired) == Some(t)
    ensures TailText(t) == s[i..] && TailWellFormed(t, dotsRequired)
  {
    MatchTailSound(s, i, dotsRequired);
  }

  lemma CommentedSound(s: string, p: nat, c: nat, t: Tail, dotsRequired: bool)
    requires p == TextEnd(s, 0) && p < c < |s| && s[p] == '('
    requires CloseParen(s, p + 1, dotsRequired) == Some(c) && MatchTail(s, c + 1, dotsRequired) == Some(t)
    ensures WellFormed(Shape(s[..p], "", Some(s[p + 1..c]), t), dotsRequired)
    ensures Render(Shape(s[..p], "", Some(s[p + 1..c]), t)) == s
  {
    TextSound(s, p);
    CloseSound(s, p, c, dotsRequired);
    TailSound(s, c + 1, t, dotsRequired);
    CommentReading(s, p, c, t, dotsRequired);
  }

  lemma PlainSound(s: string, p: nat, t: Tail, dotsRequired: bool)
    requires p == TextEnd(s, 0) && MatchTail(s, p, dotsRequired) == Some(t)
    ensures WellFormed(Shape(s[..p], "", None, t), dotsRequired)
    ensures Render(Shape(s[..p], "", None, t)) == s
  {
    TextSound(s, p);
    TailSound(s, p, t, dotsRequired);
    PlainReading(s, p, t, dotsRequired);
  }

  /** Every match is a reading of the line in the pattern's language. */
  lemma MatchEntrySound(s: string, dotsRequired: bool)
    requires MatchEntry(s, dotsRequired).Some?
    ensures WellFormed(MatchEntry(s, dotsRequired).value, dotsRequired)
    ensures Render(MatchEntry(s, dotsRequired).value) == s
  {
    if TextEnd(s, 0) < |s| && s[TextEnd(s, 0)] == '(' {
      var p, c, t := MatchEntryCommentCase(s, dotsRequired);
      CommentedSound(s, p, c, t, dotsRequired);
    } else {
      var p, t := MatchEntryPlainCase(s, dotsRequired);
      PlainSound(s, p, t, dotsRequired);
    }
  }

  lemma {:induction false} NoLineTerminatorInSlice(s: string, lo: nat, hi: nat)
    requires lo <= hi <= |s|
    ensures NoLineTerminatorIn(s, lo, hi) <==> NoLineTerminator(s[lo..hi])
    decreases hi - lo
  {
    if lo < hi {
      NoLineTerminatorInSlice(s, lo + 1, hi);
      assert s[lo..hi] == [s[lo]] + s[lo + 1..hi];
    }
  }

  // ----- every line of the language is matched, with its own captures --------

  lemma {:induction false} TextEndAt(s: string, i: nat, k: nat)
    requires i <= k <= |s| && AllText(s[i..k]) && (k == |s| || !IsTextChar(s[k]))
    ensures TextEnd(s, i) == k
    decreases k - i
  {
    if i < k {
      assert s[i..k][0] == s[i];
      assert s[i + 1..k] == s[i..k][1..];
      TextEndAt(s, i + 1, k);
    }
  }

  lemma {:induction false} SpacesEndAt(s: string, i: nat, k: nat)
    requires i <= k <= |s| && AllSpaces(s[i..k]) && (k == |s| || !IsSpace(s[k]))
    ensures SpacesEnd(s, i) == k
    decreases k - i
  {
    if i < k {
      assert s[i..k][0] == s[i];
      assert s[i + 1..k] == s[i..k][1..];
      SpacesEndAt(s, i + 1, k);
    }
  }

  lemma {:induction false} DigitsEndAt(s: string, i: nat, k: nat)
    requires i <= k <= |s| && AllDigits(s[i..k]) && (k == |s| || !IsDigit(s[k]))
    ensures DigitsEnd(s, i) == k
    decreases k - i
  {
    if i < k {
      assert s[i..k][0] == s[i];
      assert s[i + 1..k] == s[i..k][1..];
      DigitsEndAt(s, i + 1, k);
    }
  }

  lemma UnitLength(t: TimePart, unit: char)
    ensures |UnitText(Some(t), unit)| == |t.digits| + if t.dot then 2 else 1
  {
  }

  /** Where the digits, the mark and the dot of a rendered unit sit in `s`. */
  lemma UnitSlices(s: string, i: nat, t: TimePart, unit: char)
    requires i + |UnitText(Some(t), unit)| <= |s|
    requires s[i..i + |UnitText(Some(t), unit)|] == UnitText(Some(t), unit)
    ensures i + |t.digits| < |s| && s[i..i + |t.digits|] == t.digits && s[i + |t.digits|] == unit
    ensures t.dot ==> i + |t.digits| + 1 < |s| && s[i + |t.digits| + 1] == '.'
  {
    var d := i + |t.digits|;
    var u := UnitText(Some(t), unit);
    assert s[i..d] == s[i..i + |u|][..|t.digits|] == u[..|t.digits|] == t.digits;
    assert s[d] == u[|t.digits|] == unit;
    if t.dot {
      assert s[d + 1] == u[|t.digits| + 1];
    }
  }

  lemma MatchUnitDot(s: string, i: nat, d: nat, unit: char, dotsRequired: bool)
    requires i < d < |s| && s[d] == unit && d + 1 < |s| && s[d + 1] == '.'
    requires DigitsEnd(s, i) == d
    ensures MatchUnit(s, i, unit, dotsRequired) == (Some(TimePart(s[i..d], true)), d + 2)
  {
  }

  lemma MatchUnitNoDot(s: string, i: nat, d: nat, unit: char)
    requires i < d < |s| && s[d] == unit && (d + 1 == |s| || s[d + 1] != '.')
    requires DigitsEnd(s, i) == d
    ensures MatchUnit(s, i, unit, false) == (Some(TimePart(s[i..d], false)), d + 1)
  {
  }

  /** A rendered unit is matched as itself. */
  lemma MatchUnitAt(s: string, i: nat, t: TimePart, unit: char, dotsRequired: bool)
    requires PartWellFormed(Some(t), dotsRequired) && !IsDigit(unit)
    requires i + |UnitText(Some(t), unit)| <= |s|
    requires s[i..i + |UnitText(Some(t), unit)|] == UnitText(Some(t), unit)
    requires !t.dot ==> i + |UnitText(Some(t), unit)| == |s| || s[i + |UnitText(Some(t), unit)|] != '.'
    ensures MatchUnit(s, i, unit, dotsRequired) == (Some(t), i + |UnitText(Some(t), unit)|)
  {
    var d := i + |t.digits|;
    UnitLength(t, unit);
    UnitSlices(s, i, t, unit);
    DigitsEndAt(s, i, d);
    if t.dot {
      MatchUnitDot(s, i, d, unit, dotsRequired);
    } else {
      MatchUnitNoDot(s, i, d, unit);
    }
  }

  /** A unit whose digits are followed by another mark is not this unit. */
  lemma MatchUnitOther(s: string, i: nat, t: TimePart, other: char, unit: char, dotsRequired: bool)
    requires PartWellFormed(Some(t), false) && !IsDigit(other) && other != unit
    requires i + |UnitText(Some(t), other)| <= |s|
    requires s[i..i + |UnitText(Some(t), other)|] == UnitText(Some(t), other)
    ensures MatchUnit(s, i, unit, dotsRequired) == (None, i)
  {
    UnitSlices(s, i, t, other);
    DigitsEndAt(s, i, i + |t.digits|);
  }

  lemma NoUnitAtEnd(s: string, unit: char, dotsRequired: bool)
    ensures MatchUnit(s, |s|, unit, dotsRequired) == (None, |s|)
  {
  }

  lemma TailChars(t: Tail, dotsRequired: bool)
    requires TailWellFormed(t, dotsRequired)
    ensures forall k :: 0 <= k < |TailText(t)| ==> TailText(t)[k] != ')'
  {
    var a := t.gap2;
    var b := UnitText(t.hours, HourMark);
    var c := t.gap3;
    var d := UnitText(t.mins, MinuteMark);
    assert forall k :: 0 <= k < |b| ==> b[k] != ')';
    assert forall k :: 0 <= k < |d| ==> d[k] != ')';
    assert TailText(t) == a + b + c + d;
  }

  lemma SliceOfSlice(s: string, i: nat, p: nat, q: nat)
    requires i + p <= i + q <= |s|
    ensures s[i..][p..q] == s[i + p..i + q]
  {
  }

  lemma FourPieces(x: string, a: string, b: string, c: string, d: string)
    requires x == a + b + c + d
    ensures x[..|a|] == a && x[|a|..|a| + |b|] == b
    ensures x[|a| + |b|..|a| + |b| + |c|] == c && x[|a| + |b| + |c|..] == d
  {
  }

  /** Where the pieces of a rendered tail sit in `s`. */
  lemma TailSlices(s: string, i: nat, t: Tail) returns (a: nat, b: nat, c: nat)
    requires i <= |s| && s[i..] == TailText(t)
    ensures i <= a <= b <= c <= |s|
    ensures s[i..a] == t.gap2 && s[a..b] == UnitText(t.hours, HourMark)
    ensures s[b..c] == t.gap3 && s[c..] == UnitText(t.mins, MinuteMark)
  {
    var hs, ms := UnitText(t.hours, HourMark), UnitText(t.mins, MinuteMark);
    a := i + |t.gap2|;
    b := a + |hs|;
    c := b + |t.gap3|;
    FourPieces(s[i..], t.gap2, hs, t.gap3, ms);
    SliceOfSlice(s, i, 0, a - i);
    SliceOfSlice(s, i, a - i, b - i);
    SliceOfSlice(s, i, b - i, c - i);
    SliceOfSlice(s, i, c - i, |s| - i);
  }

  /** How `MatchTail` combines its steps. */
  lemma MatchTailSteps(s: string, i: nat, j: nat, k: nat, m: nat,
                       hours: Option<TimePart>, mins: Option<TimePart>, dotsRequired: bool)
    requires i <= j <= k <= m <= |s|
    requires SpacesEnd(s, i) == j && SpacesEnd(s, k) == m
    requires MatchUnit(s, j, HourMark, dotsRequired) == (hours, k)
    requires MatchUnit(s, m, MinuteMark, dotsRequired) == (mins, |s|)
    ensures MatchTail(s, i, dotsRequired).Some?
    ensures MatchTail(s, i, dotsRequired).value.hours == hours
    ensures MatchTail(s, i, dotsRequired).value.mins == mins
  {
  }

  lemma NotDotAfterHours(s: string, b: nat, c: nat, t: Tail, dotsRequired: bool)
    requires TailWellFormed(t, dotsRequired) && b <= c <= |s|
    requires s[b..c] == t.gap3 && s[c..] == UnitText(t.mins, MinuteMark)
    ensures b == |s| || s[b] != '.'
  {
    if b < c {
      assert s[b] == t.gap3[0];
      assert IsSpace(t.gap3[0]);
    } else if c < |s| {
      assert s[c] == UnitText(t.mins, MinuteMark)[0];
      assert t.mins.Some? && UnitText(t.mins, MinuteMark)[0] == t.mins.value.digits[0];
      assert IsDigit(t.mins.value.digits[0]);
    }
  }

  /** The minutes unit at the end of a rendered tail. */
  lemma MinutesStep(s: string, c: nat, t: Tail, dotsRequired: bool)
    requires TailWellFormed(t, dotsRequired) && c <= |s| && s[c..] == UnitText(t.mins, MinuteMark)
    ensures t.mins.Some? ==> MatchUnit(s, c, MinuteMark, dotsRequired) == (t.mins, |s|)
    ensures t.mins.None? ==> c == |s|
    ensures c < |s| ==> IsDigit(s[c])
  {
    if t.mins.Some? {
      var n := t.mins.value;
      UnitLength(n, MinuteMark);
      assert s[c..c + |UnitText(Some(n), MinuteMark)|] == UnitText(Some(n), MinuteMark);
      MatchUnitAt(s, c, n, MinuteMark, dotsRequired);
      assert s[c] == n.digits[0];
    }
  }

  /** The hours unit of a rendered tail. */
  lemma HoursStep(s: string, a: nat, b: nat, c: nat, t: Tail, dotsRequired: bool)
    requires TailWellFormed(t, dotsRequired) && t.hours.Some? && a <= b <= c <= |s|
    requires s[a..b] == UnitText(t.hours, HourMark) && s[b..c] == t.gap3
    requires s[c..] == UnitText(t.mins, MinuteMark)
    ensures MatchUnit(s, a, HourMark, dotsRequired) == (t.hours, b)
  {
    NotDotAfterHours(s, b, c, t, dotsRequired);
    UnitLength(t.hours.value, HourMark);
    MatchUnitAt(s, a, t.hours.value, HourMark, dotsRequired);
  }

  lemma SpacesJoin(s: string, i: nat, a: nat, c: nat)
    requires i <= a <= c <= |s| && AllSpaces(s[i..a]) && AllSpaces(s[a..c])
    ensures AllSpaces(s[i..c])
  {
    assert forall k :: i <= k < c ==> s[k] == (if k < a then s[i..a][k - i] else s[a..c][k - a]);
  }

  lemma MatchTailWithHours(s: string, i: nat, t: Tail, dotsRequired: bool)
    requires TailWellFormed(t, dotsRequired) && i <= |s| && s[i..] == TailText(t)
    requires t.hours.Some?
    ensures MatchTail(s, i, dotsRequired).Some?
    ensures MatchTail(s, i, dotsRequired).value.hours == t.hours
    ensures MatchTail(s, i, dotsRequired).value.mins == t.mins
  {
    var a, b, c := TailSlices(s, i, t);
    HoursStep(s, a, b, c, t, dotsRequired);
    MinutesStep(s, c, t, dotsRequired);
    if t.mins.None? {
      NoUnitAtEnd(s, MinuteMark, dotsRequired);
    }
    SpacesEndAt(s, i, a);
    SpacesEndAt(s, b, c);
    MatchTailSteps(s, i, a, b, c, t.hours, t.mins, dotsRequired);
  }

  lemma MatchTailWithoutHours(s: string, i: nat, t: Tail, dotsRequired: bool)
    requires TailWellFormed(t, dotsRequired) && i <= |s| && s[i..] == TailText(t)
    requires t.hours.None?
    ensures MatchTail(s, i, dotsRequired).Some?
    ensures MatchTail(s, i, dotsRequired).value.hours == t.hours
    ensures MatchTail(s, i, dotsRequired).value.mins == t.mins
  {
    var a, b, c := TailSlices(s, i, t);
    MinutesStep(s, c, t, dotsRequired);
    NoHoursSpaces(s, i, a, b, c, t);
    NoHourAt(s, c, t, dotsRequired);
    MinuteAt(s, c, t, dotsRequired);
    MatchTailSteps(s, i, c, c, c, t.hours, t.mins, dotsRequired);
  }

  /** Without hours, the white space before the minutes runs from `i` to `c`. */
  lemma NoHoursSpaces(s: string, i: nat, a: nat, b: nat, c: nat, t: Tail)
    requires AllSpaces(t.gap2) && AllSpaces(t.gap3) && t.hours.None?
    requires i <= a <= b <= c <= |s| && s[i..a] == t.gap2 && s[a..b] == UnitText(t.hours, HourMark)
    requires s[b..c] == t.gap3 && (c < |s| ==> IsDigit(s[c]))
    ensures SpacesEnd(s, i) == c && SpacesEnd(s, c) == c
  {
    SpacesJoin(s, i, a, c);
    SpacesEndAt(s, i, c);
    SpacesEndAt(s, c, c);
  }

  lemma NoHourAt(s: string, c: nat, t: Tail, dotsRequired: bool)
    requires TailWellFormed(t, dotsRequired) && c <= |s| && s[c..] == UnitText(t.mins, MinuteMark)
    ensures MatchUnit(s, c, HourMark, dotsRequired) == (None, c)
  {
    if t.mins.Some? {
      UnitLength(t.mins.value, MinuteMark);
      assert s[c..c + |UnitText(t.mins, MinuteMark)|] == UnitText(t.mins, MinuteMark);
      MatchUnitOther(s, c, t.mins.value, MinuteMark, HourMark, dotsRequired);
    } else {
      NoUnitAtEnd(s, HourMark, dotsRequired);
    }
  }

  lemma MinuteAt(s: string, c: nat, t: Tail, dotsRequired: bool)
    requires TailWellFormed(t, dotsRequired) && c <= |s| && s[c..] == UnitText(t.mins, MinuteMark)
    ensures MatchUnit(s, c, MinuteMark, dotsRequired) == (t.mins, |s|)
  {
    MinutesStep(s, c, t, dotsRequired);
    if t.mins.None? {
      NoUnitAtEnd(s, MinuteMark, dotsRequired);
    }
  }


  /** The tail of a line of the language is matched, with its own time parts. */
  lemma MatchTailAt(s: string, i: nat, t: Tail, dotsRequired: bool)
    requires TailWellFormed(t, dotsRequired) && i <= |s| && s[i..] == TailText(t)
    ensures MatchTail(s, i, dotsRequired).Some?
    ensures MatchTail(s, i, dotsRequired).value.hours == t.hours
    ensures MatchTail(s, i, dotsRequired).value.mins == t.mins
  {
    if t.hours.Some? {
      MatchTailWithHours(s, i, t, dotsRequired);
    } else {
      MatchTailWithoutHours(s, i, t, dotsRequired);
    }
  }

  /** A tail never holds `)`, so no tail starts before a later `)`. */
  lemma NoTailBefore(s: string, j: nat, c: nat, dotsRequired: bool)
    requires j < c < |s| && s[c] == ')'
    ensures MatchTail(s, j + 1, dotsRequired).None?
  {
    if MatchTail(s, j + 1, dotsRequired).Some? {
      var t := MatchTail(s, j + 1, dotsRequired).value;
      MatchTailSound(s, j + 1, dotsRequired);
      TailChars(t, dotsRequired);
      assert false;
    }
  }

  /** A `)` before the last one of the line does not close the comment. */
  lemma CloseParenSkip(s: string, j: nat, c: nat, dotsRequired: bool)
    requires j < c < |s| && s[c] == ')' && NoLineTerminatorIn(s, j, c)
    requires MatchTail(s, c + 1, dotsRequired).Some?
    requires CloseParen(s, j + 1, dotsRequired) == Some(c)
    ensures CloseParen(s, j, dotsRequired) == Some(c)
  {
    NoTailBefore(s, j, c, dotsRequired);
    CloseParenNext(s, j, dotsRequired);
  }

  lemma NoLineTerminatorInRest(s: string, j: nat, c: nat)
    requires j < c <= |s| && NoLineTerminatorIn(s, j, c)
    ensures NoLineTerminatorIn(s, j + 1, c)
  {
  }

  /** The comment closes at the last `)` of the line. */
  lemma {:induction false} CloseParenAt(s: string, j: nat, c: nat, dotsRequired: bool)
    requires j <= c < |s| && s[c] == ')' && NoLineTerminatorIn(s, j, c)
    requires MatchTail(s, c + 1, dotsRequired).Some?
    ensures CloseParen(s, j, dotsRequired) == Some(c)
    decreases c - j
  {
    if j < c {
      NoLineTerminatorInRest(s, j, c);
      CloseParenAt(s, j + 1, c, dotsRequired);
      CloseParenSkip(s, j, c, dotsRequired);
    } else {
      CloseParenHere(s, c, dotsRequired);
    }
  }

  lemma TextOfSpaces(g: string)
    requires AllSpaces(g)
    ensures AllText(g)
  {
    assert forall k :: 0 <= k < |g| ==> IsSpace(g[k]);
  }

  lemma TextJoin(a: string, b: string)
    requires AllText(a) && AllText(b)
    ensures AllText(a + b)
  {
    assert forall k :: 0 <= k < |a + b| ==> (a + b)[k] == if k < |a| then a[k] else b[k - |a|];
  }

  lemma SpacesJoinText(a: string, b: string)
    requires AllSpaces(a) && AllSpaces(b)
    ensures AllSpaces(a + b)
  {
    assert forall k :: 0 <= k < |a + b| ==> (a + b)[k] == if k < |a| then a[k] else b[k - |a|];
  }

  /** Where the pieces of a line with a comment sit. */
  lemma CommentSlices(e: Shape) returns (b: nat, c: nat)
    requires e.comment.Some?
    ensures b == |e.text| + |e.gap1| && c == b + 1 + |e.comment.value| && c < |Render(e)|
    ensures Render(e)[..b] == e.text + e.gap1 && Render(e)[b] == '('
    ensures Render(e)[b + 1..c] == e.comment.value && Render(e)[c] == ')'
    ensures Render(e)[c + 1..] == TailText(e.tail)
  {
    var s := Render(e);
    var x := e.comment.value;
    b := |e.text| + |e.gap1|;
    c := b + 1 + |x|;
    assert s == (e.text + e.gap1) + ("(" + x + ")") + TailText(e.tail);
    assert s[..b] == e.text + e.gap1;
    assert s[b..c + 1] == "(" + x + ")";
    assert s[b + 1..c] == s[b..c + 1][1..|x| + 1];
  }

  lemma TextAndGap(e: Shape, b: nat)
    requires AllText(e.text) && AllSpaces(e.gap1) && b == |e.text| + |e.gap1|
    ensures AllText(e.text + e.gap1)
    ensures (e.text + e.gap1)[..|e.text|] == e.text && (e.text + e.gap1)[|e.text|..] == e.gap1
  {
    TextOfSpaces(e.gap1);
    TextJoin(e.text, e.gap1);
  }

  lemma MatchEntryCommentForward(s: string, p: nat, c: nat, dotsRequired: bool)
    requires p < |s| && TextEnd(s, 0) == p && s[p] == '('
    requires CloseParen(s, p + 1, dotsRequired) == Some(c) && MatchTail(s, c + 1, dotsRequired).Some?
    ensures p < c < |s|
    ensures MatchEntry(s, dotsRequired)
      == Some(Shape(s[..p], "", Some(s[p + 1..c]), MatchTail(s, c + 1, dotsRequired).value))
  {
    EntryCommented(s, dotsRequired);
    CommentedClosed(s, p, dotsRequired);
    ClosedValue(s, p, c, dotsRequired);
  }

  lemma TextEndBefore(s: string, b: nat)
    requires b <= |s| && AllText(s[..b]) && (b == |s| || !IsTextChar(s[b]))
    ensures TextEnd(s, 0) == b
  {
    assert s[0..b] == s[..b];
    TextEndAt(s, 0, b);
  }

  /** `r` is a reading with the given text, comment and time parts. */
  predicate ReadsAs(r: Option<Shape>, text: string, comment: Option<string>, t: Tail) {
    r.Some? && r.value.text == text && r.value.comment == comment
    && r.value.tail.hours == t.hours && r.value.tail.mins == t.mins
  }

  /** The time tail matches from `i`, with the time parts of `t`. */
  predicate TailMatched(s: string, i: nat, t: Tail, dotsRequired: bool) {
    i <= |s| && MatchTail(s, i, dotsRequired).Some?
    && MatchTail(s, i, dotsRequired).value.hours == t.hours
    && MatchTail(s, i, dotsRequired).value.mins == t.mins
  }

  /** A tail of the language, after anything, is matched with its own parts. */
  lemma TailAfter(p: string, t: Tail, dotsRequired: bool)
    requires TailWellFormed(t, dotsRequired)
    ensures TailMatched(p + TailText(t), |p|, t, dotsRequired)
  {
    var s := p + TailText(t);
    assert s[|p|..] == TailText(t);
    MatchTailAt(s, |p|, t, dotsRequired);
  }

  /** In a rendered line the tail is matched after the text, the gap and
      the comment. */
  lemma TailOfRender(e: Shape, dotsRequired: bool)
    requires TailWellFormed(e.tail, dotsRequired)
    ensures TailMatched(Render(e), |e.text + e.gap1 + CommentText(e.comment)|, e.tail, dotsRequired)
  {
    TailAfter(e.text + e.gap1 + CommentText(e.comment), e.tail, dotsRequired);
  }

  /** The comment closes at `c` when a tail follows it and no line
      terminator comes before it. */
  lemma ClosedReading(s: string, b: nat, c: nat, t: Tail, dotsRequired: bool)
    requires b < c < |s| && s[b] == '(' && s[c] == ')'
    requires TextEnd(s, 0) == b && NoLineTerminatorIn(s, b + 1, c)
    requires TailMatched(s, c + 1, t, dotsRequired)
    ensures ReadsAs(MatchEntry(s, dotsRequired), s[..b], Some(s[b + 1..c]), t)
  {
    CloseParenAt(s, b + 1, c, dotsRequired);
    MatchEntryCommentForward(s, b, c, dotsRequired);
  }

  lemma CommentFree(s: string, b: nat, c: nat, x: string)
    requires b < c <= |s| && s[b + 1..c] == x && NoLineTerminator(x)
    ensures NoLineTerminatorIn(s, b + 1, c)
  {
    NoLineTerminatorInSlice(s, b + 1, c);
  }

  /** Where the pieces of a well-formed line with a comment sit. */
  lemma CommentPlaces(e: Shape, dotsRequired: bool) returns (b: nat, c: nat)
    requires WellFormed(e, dotsRequired) && e.comment.Some?
    ensures b == |e.text| + |e.gap1| && c == b + 1 + |e.comment.value|
    ensures c + 1 == |e.text| + |e.gap1| + |CommentText(e.comment)|
    ensures c < |Render(e)| && Render(e)[b] == '(' && Render(e)[c] == ')'
    ensures NoLineTerminatorIn(Render(e), b + 1, c)
    ensures Render(e)[..b] == e.text + e.gap1 && Render(e)[b + 1..c] == e.comment.value
    ensures AllText(Render(e)[..b])
  {
    b, c := CommentSlices(e);
    TextAndGap(e, b);
    CommentFree(Render(e), b, c, e.comment.value);
  }

  lemma CommentOpen(e: Shape, dotsRequired: bool) returns (b: nat, c: nat)
    requires WellFormed(e, dotsRequired) && e.comment.Some?
    ensures b == |e.text| + |e.gap1| && c == b + 1 + |e.comment.value|
    ensures c + 1 == |e.text| + |e.gap1| + |CommentText(e.comment)|
    ensures c < |Render(e)| && Render(e)[b] == '(' && Render(e)[c] == ')'
    ensures NoLineTerminatorIn(Render(e), b + 1, c) && TextEnd(Render(e), 0) == b
    ensures Render(e)[..b] == e.text + e.gap1 && Render(e)[b + 1..c] == e.comment.value
    ensures c + 1 == |e.text + e.gap1 + CommentText(e.comment)|
  {
    b, c := CommentPlaces(e, dotsRequired);
    TextEndBefore(Render(e), b);
  }

  lemma MatchesLanguageComment(e: Shape, dotsRequired: bool)
    requires WellFormed(e, dotsRequired) && e.comment.Some?
    ensures var r := MatchEntry(Render(e), dotsRequired);
      r.Some? && r.value.comment == e.comment
      && r.value.tail.hours == e.tail.hours && r.value.tail.mins == e.tail.mins
      && |e.text| <= |r.value.text| && r.value.text[..|e.text|] == e.text
      && AllSpaces(r.value.text[|e.text|..])
  {
    var b, c := CommentOpen(e, dotsRequired);
    TailOfRender(e, dotsRequired);
    ClosedReading(Render(e), b, c, e.tail, dotsRequired);
    TextAndGap(e, b);
  }


  /** The white space a tail starts with, up to its first unit. */
  function LeadingGap(t: Tail): string {
    if t.hours.Some? then t.gap2 else t.gap2 + t.gap3
  }

  /** The tail without its leading white space. */
  function Stripped(t: Tail): Tail {
    Tail([], t.hours, if t.hours.Some? then t.gap3 else [], t.mins)
  }

  lemma StrippedParts(t: Tail, dotsRequired: bool)
    requires TailWellFormed(t, dotsRequired)
    ensures TailText(t) == LeadingGap(t) + TailText(Stripped(t))
    ensures AllSpaces(LeadingGap(t)) && TailWellFormed(Stripped(t), dotsRequired)
    ensures TailText(Stripped(t)) == [] || IsDigit(TailText(Stripped(t))[0])
  {
    if t.hours.None? {
      SpacesJoinText(t.gap2, t.gap3);
    }
    assert AllSpaces([]);
    var st := TailText(Stripped(t));
    if t.hours.Some? {
      assert st[0] == t.hours.value.digits[0];
    } else if t.mins.Some? {
      assert st[0] == t.mins.value.digits[0];
    }
  }

  lemma PlainSlices(e: Shape, dotsRequired: bool) returns (k: nat)
    requires WellFormed(e, dotsRequired) && e.comment.None?
    ensures k <= |Render(e)|
    ensures Render(e)[..k] == e.text + (e.gap1 + LeadingGap(e.tail))
    ensures Render(e)[k..] == TailText(Stripped(e.tail))
    ensures AllText(Render(e)[..k]) && (k == |Render(e)| || IsDigit(Render(e)[k]))
    ensures AllSpaces(e.gap1 + LeadingGap(e.tail))
  {
    var s := Render(e);
    var g := e.gap1 + LeadingGap(e.tail);
    StrippedParts(e.tail, dotsRequired);
    SpacesJoinText(e.gap1, LeadingGap(e.tail));
    TextOfSpaces(g);
    TextJoin(e.text, g);
    assert s == (e.text + g) + TailText(Stripped(e.tail));
    k := |e.text| + |g|;
    assert s[..k] == e.text + g;
    assert s[k..] == TailText(Stripped(e.tail));
  }

  /** The text group of a line without a comment ends where its tail's
      first digit is. */
  lemma PlainTextEnd(e: Shape, dotsRequired: bool) returns (k: nat)
    requires WellFormed(e, dotsRequired) && e.comment.None?
    ensures k == |e.text + (e.gap1 + LeadingGap(e.tail))| && k <= |Render(e)|
    ensures TextEnd(Render(e), 0) == k && !(k < |Render(e)| && Render(e)[k] == '(')
    ensures Render(e)[..k] == e.text + (e.gap1 + LeadingGap(e.tail))
    ensures Render(e) == (e.text + (e.gap1 + LeadingGap(e.tail))) + TailText(Stripped(e.tail))
    ensures AllSpaces(e.gap1 + LeadingGap(e.tail)) && TailWellFormed(Stripped(e.tail), dotsRequired)
  {
    k := PlainSlices(e, dotsRequired);
    StrippedParts(e.tail, dotsRequired);
    TextEndOfSplit(Render(e), k);
    JoinSlices(Render(e), k, e.text + (e.gap1 + LeadingGap(e.tail)), TailText(Stripped(e.tail)));
  }

  /** Text characters up to a digit or the end: the text ends there. */
  lemma TextEndOfSplit(s: string, k: nat)
    requires k <= |s| && AllText(s[..k]) && (k == |s| || IsDigit(s[k]))
    ensures TextEnd(s, 0) == k && !(k < |s| && s[k] == '(')
  {
    assert s[0..k] == s[..k];
    TextEndAt(s, 0, k);
  }

  lemma JoinSlices(s: string, k: nat, a: string, b: string)
    requires k <= |s| && s[..k] == a && s[k..] == b
    ensures s == a + b && k == |a|
  {
    assert s == s[..k] + s[k..];
  }


  lemma PlainReadingAt(s: string, k: nat, t: Tail, dotsRequired: bool)
    requires k <= |s| && TextEnd(s, 0) == k && !(k < |s| && s[k] == '(')
    requires TailMatched(s, k, t, dotsRequired)
    ensures ReadsAs(MatchEntry(s, dotsRequired), s[..k], None, t)
  {
    EntryPlain(s, dotsRequired);
    PlainValue(s, k, dotsRequired);
  }

  lemma MatchesLanguagePlain(e: Shape, dotsRequired: bool)
    requires WellFormed(e, dotsRequired) && e.comment.None?
    ensures var r := MatchEntry(Render(e), dotsRequired);
      r.Some? && r.value.comment == e.comment
      && r.value.tail.hours == e.tail.hours && r.value.tail.mins == e.tail.mins
      && |e.text| <= |r.value.text| && r.value.text[..|e.text|] == e.text
      && AllSpaces(r.value.text[|e.text|..])
  {
    var g := e.gap1 + LeadingGap(e.tail);
    var k := PlainTextEnd(e, dotsRequired);
    TailAfter(e.text + g, Stripped(e.tail), dotsRequired);
    PlainReadingAt(Render(e), k, Stripped(e.tail), dotsRequired);
    assert (e.text + g)[..|e.text|] == e.text && (e.text + g)[|e.text|..] == g;
  }

  /** Every line the pattern describes is matched, and the match captures
      the line's own comment and time parts; the captured text is the line's
      text followed only by white space. */
  lemma MatchesLanguage(e: Shape, dotsRequired: bool)
    requires WellFormed(e, dotsRequired)
    ensures var r := MatchEntry(Render(e), dotsRequired);
      r.Some? && r.value.comment == e.comment
      && r.value.tail.hours == e.tail.hours && r.value.tail.mins == e.tail.mins
      && |e.text| <= |r.value.text| && r.value.text[..|e.text|] == e.text
      && AllSpaces(r.value.text[|e.text|..])
  {
    if e.comment.Some? {
      MatchesLanguageComment(e, dotsRequired);
    } else {
      MatchesLanguagePlain(e, dotsRequired);
    }
  }

  /** The category text of a match never holds a digit or a parenthesis. */
  lemma TextHasNoDigitOrParen(s: string, dotsRequired: bool)
    requires MatchEntry(s, dotsRequired).Some?
    ensures forall i :: 0 <= i < |MatchEntry(s, dotsRequired).value.text| ==>
      var c := MatchEntry(s, dotsRequired).value.text[i];
      !IsDigit(c) && c != '(' && c != ')'
  {
    MatchEntrySound(s, dotsRequired);
  }

  lemma StrictIsLenient(e: Shape)
    requires WellFormed(e, true)
    ensures WellFormed(e, false)
  {
  }

  /** The category text is the line up to the first digit or parenthesis. */
  lemma MatchEntryText(s: string, dotsRequired: bool)
    requires MatchEntry(s, dotsRequired).Some?
    ensures MatchEntry(s, dotsRequired).value.text == s[..TextEnd(s, 0)]
  {
    if TextEnd(s, 0) < |s| && s[TextEnd(s, 0)] == '(' {
      var p, c, t := MatchEntryCommentCase(s, dotsRequired);
    } else {
      var p, t := MatchEntryPlainCase(s, dotsRequired);
    }
  }

  /** Every line the strict (legacy) pattern accepts is accepted by the
      lenient one, with the same captures. */
  lemma StrictImpliesLenient(s: string)
    requires MatchEntry(s, true).Some?
    ensures MatchEntry(s, false).Some?
    ensures var e, f := MatchEntry(s, true).value, MatchEntry(s, false).value;
      f.text == e.text && f.comment == e.comment
      && f.tail.hours == e.tail.hours && f.tail.mins == e.tail.mins
  {
    var e := MatchEntry(s, true).value;
    MatchEntrySound(s, true);
    StrictIsLenient(e);
    MatchesLanguage(e, false);
    MatchEntryText(s, true);
    MatchEntryText(s, false);
  }
}
