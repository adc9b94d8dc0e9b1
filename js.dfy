/** The few JavaScript string and number primitives the source relies on:
    `String.prototype.trim`, `split`, `join`, `\s`/`\d` character classes,
    `parseInt`, `Number(string)`, `%` and `Number.prototype.toString`, and
    the code-unit order used by `<`/`>=` on strings. */
module Js {
  import opened Wrappers

  // ----- character classes -----------------------------------------------

  /** JavaScript `\s`, which is also the set `trim` removes:
      WhiteSpace and LineTerminator code points. */
  predicate IsSpace(c: char) {
    c == '\t' || c == '\n' || c == '\U{000B}' || c == '\U{000C}' || c == '\r' || c == ' '
    || c == '\U{00A0}' || c == '\U{1680}' || ('\U{2000}' <= c <= '\U{200A}')
    || c == '\U{2028}' || c == '\U{2029}' || c == '\U{202F}' || c == '\U{205F}'
    || c == '\U{3000}' || c == '\U{FEFF}'
  }

  /** The characters a regular-expression `.` does not match. */
  predicate IsLineTerminator(c: char) {
    c == '\n' || c == '\r' || c == '\U{2028}' || c == '\U{2029}'
  }

  /** JavaScript `\d`: ASCII digits only. */
  predicate IsDigit(c: char) {
    '0' <= c <= '9'
  }

  predicate AllDigits(s: string) {
    forall i :: 0 <= i < |s| ==> IsDigit(s[i])
  }

  predicate AllSpaces(s: string) {
    forall i :: 0 <= i < |s| ==> IsSpace(s[i])
  }

  // ----- trim ------------------------------------------------------------

  function TrimStart(s: string): (r: string)
    ensures |r| <= |s| && r == s[|s| - |r|..]
    ensures r == [] || !IsSpace(r[0])
    ensures AllSpaces(s[..|s| - |r|])
  {
    if s != [] && IsSpace(s[0]) then
      var r := TrimStart(s[1..]);
      assert s[1..][..|s| - 1 - |r|] == s[1..|s| - |r|];
      r
    else s
  }

  function TrimEnd(s: string): (r: string)
    ensures |r| <= |s| && r == s[..|r|]
    ensures r == [] || !IsSpace(r[|r| - 1])
    ensures AllSpaces(s[|r|..])
  {
    if s != [] && IsSpace(s[|s| - 1]) then
      var r := TrimEnd(s[..|s| - 1]);
      assert s[..|s| - 1][|r|..] + [s[|s| - 1]] == s[|r|..];
      r
    else s
  }

  /** `String.prototype.trim`. */
  function Trim(s: string): (r: string)
    ensures r == [] || (!IsSpace(r[0]) && !IsSpace(r[|r| - 1]))
  {
    TrimEnd(TrimStart(s))
  }

  lemma {:induction false} TrimOfTrimmed(s: string)
    requires s == [] || (!IsSpace(s[0]) && !IsSpace(s[|s| - 1]))
    ensures Trim(s) == s
  {
  }

  /** Trimming removes exactly leading and trailing white space: the input is
      the result surrounded by two runs of white space. */
  lemma TrimSurroundedBySpaces(s: string)
    ensures exists i, j :: 0 <= i <= j <= |s| && Trim(s) == s[i..j]
              && AllSpaces(s[..i]) && AllSpaces(s[j..])
  {
    var a := TrimStart(s);
    var b := TrimEnd(a);
    var i := |s| - |a|;
    var j := i + |b|;
    assert a[..|b|] == s[i..j];
    assert a[|b|..] == s[j..];
    assert Trim(s) == s[i..j];
  }

  lemma {:induction false} TrimStartAppend(a: string, b: string)
    ensures TrimStart(a + b) == if TrimStart(a) == [] then TrimStart(b) else TrimStart(a) + b
    decreases |a|
  {
    if a != [] {
      assert (a + b)[0] == a[0];
      if IsSpace(a[0]) {
        assert (a + b)[1..] == a[1..] + b;
        TrimStartAppend(a[1..], b);
      }
    } else {
      assert a + b == b;
    }
  }

  lemma {:induction false} TrimEndAppendSpaces(a: string, sp: string)
    requires AllSpaces(sp)
    ensures TrimEnd(a + sp) == TrimEnd(a)
    decreases |sp|
  {
    if sp == [] {
      assert a + sp == a;
    } else {
      var sp' := sp[..|sp| - 1];
      assert (a + sp)[..|a + sp| - 1] == a + sp';
      TrimEndAppendSpaces(a, sp');
    }
  }

  lemma AllSpacesTrimStart(s: string)
    requires AllSpaces(s)
    ensures TrimStart(s) == []
  {
  }

  /** The trimmed string is a slice of the string. */
  lemma TrimIsSlice(s: string) returns (a: nat, b: nat)
    ensures a <= b <= |s| && Trim(s) == s[a..b]
  {
    TrimSurroundedBySpaces(s);
    a, b :| 0 <= a <= b <= |s| && Trim(s) == s[a..b]
      && AllSpaces(s[..a]) && AllSpaces(s[b..]);
  }

  /** Every character of the trimmed string comes from the string. */
  lemma TrimKeepsChars(s: string, i: int)
    requires 0 <= i < |Trim(s)|
    ensures Trim(s)[i] in s
  {
    var a, b := TrimIsSlice(s);
    assert Trim(s)[i] == s[a + i];
  }

  /** `trim` cannot empty a string with a character that is not white space. */
  lemma TrimKeepsNonSpace(s: string, i: nat)
    requires i < |s| && !IsSpace(s[i])
    ensures Trim(s) != []
  {
    TrimSurroundedBySpaces(s);
    var a, b :| 0 <= a <= b <= |s| && Trim(s) == s[a..b] && AllSpaces(s[..a]) && AllSpaces(s[b..]);
    forall k | 0 <= k < |s| && (k < a || k >= b) ensures IsSpace(s[k]) {
      if k < a {
        assert s[..a][k] == s[k];
      } else {
        assert s[b..][k - b] == s[k];
      }
    }
  }

  /** Trailing white space does not change what `trim` returns. */
  lemma TrimAppendSpaces(a: string, sp: string)
    requires AllSpaces(sp)
    ensures Trim(a + sp) == Trim(a)
  {
    TrimStartAppend(a, sp);
    if TrimStart(a) == [] {
      AllSpacesTrimStart(sp);
    } else {
      TrimEndAppendSpaces(TrimStart(a), sp);
    }
  }

  // ----- split and join --------------------------------------------------

  /** `s.split(sep)` for a one-character separator: always at least one part. */
  function Split(s: string, sep: char): (parts: seq<string>)
    ensures |parts| >= 1
    ensures forall k :: 0 <= k < |parts| ==> sep !in parts[k]
    decreases |s|
  {
    if s == [] then [[]]
    else
      var rest := Split(s[1..], sep);
      if s[0] == sep then [[]] + rest
      else [[s[0]] + rest[0]] + rest[1..]
  }

  /** `parts.join(sep)`; the empty list joins to the empty string. */
  function Join(parts: seq<string>, sep: string): string
  {
    if parts == [] then []
    else if |parts| == 1 then parts[0]
    else parts[0] + sep + Join(parts[1..], sep)
  }

  /** Splitting and joining again with the same separator gives back the input. */
  lemma {:induction false} JoinSplit(s: string, sep: char)
    ensures Join(Split(s, sep), [sep]) == s
    decreases |s|
  {
    if s != [] {
      JoinSplit(s[1..], sep);
      var rest := Split(s[1..], sep);
      if s[0] == sep {
        assert Split(s, sep) == [[]] + rest;
      } else {
        var parts := Split(s, sep);
        assert parts == [[s[0]] + rest[0]] + rest[1..];
        if |rest| == 1 {
          assert parts == [[s[0]] + rest[0]];
        } else {
          assert parts[1..] == rest[1..];
          assert Join(rest, [sep]) == rest[0] + [sep] + Join(rest[1..], [sep]);
        }
      }
    }
  }

  lemma {:induction false} SplitWithoutSeparator(s: string, sep: char)
    requires sep !in s
    ensures Split(s, sep) == [s]
    decreases |s|
  {
    if s != [] {
      assert sep !in s[1..] by {
        forall k | 0 <= k < |s[1..]| ensures s[1..][k] != sep { assert s[1..][k] == s[k + 1]; }
      }
      SplitWithoutSeparator(s[1..], sep);
      assert [s[0]] + s[1..] == s;
    }
  }

  /** Text without the separator glues onto the first part. */
  lemma {:induction false} SplitPrefix(a: string, s: string, sep: char)
    requires sep !in a
    ensures Split(a + s, sep) == [a + Split(s, sep)[0]] + Split(s, sep)[1..]
    decreases |a|
  {
    if a != [] {
      assert (a + s)[1..] == a[1..] + s;
      assert sep !in a[1..] by {
        forall k | 0 <= k < |a[1..]| ensures a[1..][k] != sep { assert a[1..][k] == a[k + 1]; }
      }
      SplitPrefix(a[1..], s, sep);
      assert [a[0]] + (a[1..] + Split(s, sep)[0]) == a + Split(s, sep)[0];
    } else {
      assert a + s == s;
      assert a + Split(s, sep)[0] == Split(s, sep)[0];
      assert Split(s, sep) == [Split(s, sep)[0]] + Split(s, sep)[1..];
    }
  }

  /** Splitting parts joined by `sep + pad` gives the parts back, each but the
      first preceded by `pad`. */
  lemma {:induction false} SplitJoinPadded(ps: seq<string>, sep: char, pad: string)
    requires |ps| >= 1 && (forall k :: 0 <= k < |ps| ==> sep !in ps[k]) && sep !in pad
    ensures var r := Split(Join(ps, [sep] + pad), sep);
      |r| == |ps| && r[0] == ps[0] && forall k :: 1 <= k < |ps| ==> r[k] == pad + ps[k]
  {
    if |ps| == 1 {
      SplitWithoutSeparator(ps[0], sep);
    } else {
      var j := Join(ps[1..], [sep] + pad);
      assert Join(ps, [sep] + pad) == ps[0] + ([sep] + (pad + j));
      SplitGlue(ps[0], j, sep, pad);
      assert forall k :: 0 <= k < |ps[1..]| ==> ps[1..][k] == ps[k + 1];
      SplitJoinPadded(ps[1..], sep, pad);
    }
  }

  /** One glue step: `a`, the separator, `pad`, then the rest. */
  lemma SplitGlue(a: string, j: string, sep: char, pad: string)
    requires sep !in a && sep !in pad
    ensures Split(a + ([sep] + (pad + j)), sep)
      == [a] + ([pad + Split(j, sep)[0]] + Split(j, sep)[1..])
  {
    SplitPrefix(a, [sep] + (pad + j), sep);
    assert Split([sep] + (pad + j), sep) == [[]] + Split(pad + j, sep);
    SplitPrefix(pad, j, sep);
    assert a + [] == a;
  }

  lemma TrimAfterSpace(p: string)
    requires Trim(p) == p
    ensures Trim(" " + p) == p
  {
    assert (" " + p)[1..] == p;
    assert TrimStart(" " + p) == TrimStart(p);
  }

  // ----- decimal digits --------------------------------------------------

  function DigitValue(c: char): nat
    requires IsDigit(c)
  {
    (c as int) - ('0' as int)
  }

  function DigitChar(d: nat): (c: char)
    requires d < 10
    ensures IsDigit(c) && DigitValue(c) == d
  {
    (('0' as int) + d) as char
  }

  /** The value of a run of decimal digits (what `parseInt` gives for it). */
  function DigitsValue(s: string): nat
    requires AllDigits(s)
  {
    if s == [] then 0 else DigitsValue(s[..|s| - 1]) * 10 + DigitValue(s[|s| - 1])
  }

  /** `n.toString()` for a non-negative integer. */
  function NatToString(n: nat): (s: string)
    ensures |s| >= 1 && AllDigits(s)
  {
    if n < 10 then [DigitChar(n)] else NatToString(n / 10) + [DigitChar(n % 10)]
  }

  /** Reading back the decimal form of a number gives the number. */
  lemma {:induction false} NatToStringValue(n: nat)
    ensures DigitsValue(NatToString(n)) == n
  {
    if n >= 10 {
      NatToStringValue(n / 10);
      var s := NatToString(n);
      assert s[..|s| - 1] == NatToString(n / 10);
    }
  }

  /** `n.toString()` for any integer. */
  function IntToString(n: int): (s: string)
    ensures |s| >= 1
  {
    if n < 0 then "-" + NatToString(-n) else NatToString(n)
  }

  /** Longest prefix of decimal digits. */
  function DigitPrefix(s: string): (p: string)
    ensures |p| <= |s| && p == s[..|p|] && AllDigits(p)
    ensures |p| == |s| || !IsDigit(s[|p|])
  {
    if s != [] && IsDigit(s[0]) then
      var p := DigitPrefix(s[1..]);
      assert [s[0]] + p == s[..|p| + 1];
      [s[0]] + p
    else []
  }

  lemma {:induction false} DigitPrefixOf(d: string, rest: string)
    requires AllDigits(d)
    requires rest == [] || !IsDigit(rest[0])
    ensures DigitPrefix(d + rest) == d
    decreases |d|
  {
    if d != [] {
      assert (d + rest)[1..] == d[1..] + rest;
      DigitPrefixOf(d[1..], rest);
    }
  }

  // ----- numbers ---------------------------------------------------------

  /** A JavaScript number restricted to integers, plus NaN. */
  datatype Num = N(v: int) | NaN {
    function Plus(other: Num): Num {
      if N? && other.N? then N(v + other.v) else NaN
    }
    function Minus(other: Num): Num {
      if N? && other.N? then N(v - other.v) else NaN
    }
    function Times(k: int): Num {
      if N? then N(v * k) else NaN
    }
    /** `<`: every comparison with NaN is false. */
    predicate Less(other: Num) {
      N? && other.N? && v < other.v
    }
    /** String conversion, as in a template literal. */
    function ToString(): string {
      if N? then IntToString(v) else "NaN"
    }
  }

  /** `a ?? 0` followed by numeric use: null/undefined counts as zero. */
  function OrZero(x: Option<Num>): Num {
    if x.Some? then x.value else N(0)
  }

  /** `parseInt(s)`: leading white space, an optional sign, then the longest
      run of decimal digits; NaN when there are no digits (the `0x` prefix,
      which switches to hexadecimal, is not modelled). */
  function ParseInt(s: string): Num {
    var t := TrimStart(s);
    if t != [] && (t[0] == '-' || t[0] == '+') then
      var d := DigitPrefix(t[1..]);
      if d == [] then NaN
      else if t[0] == '-' then N(-(DigitsValue(d) as int)) else N(DigitsValue(d))
    else
      var d := DigitPrefix(t);
      if d == [] then NaN else N(DigitsValue(d))
  }

  /** `parseInt` of a non-empty run of digits is its decimal value. */
  lemma ParseIntOfDigits(d: string)
    requires |d| > 0 && AllDigits(d)
    ensures ParseInt(d) == N(DigitsValue(d))
  {
    assert IsDigit(d[0]);
    assert !IsSpace(d[0]);
    assert TrimStart(d) == d;
    assert d[0] != '-' && d[0] != '+';
    DigitPrefixOf(d, []);
    assert d + [] == d;
    assert DigitPrefix(d) == d;
  }

  /** `Number(s)` for a string: surrounding white space is ignored, the empty
      string is 0, an optionally signed run of digits is its value, anything
      else is NaN (decimal fractions, exponents and hexadecimal are not modelled). */
  function ToNumber(s: string): Num {
    var t := Trim(s);
    if t == [] then N(0)
    else if (t[0] == '-' || t[0] == '+') && |t| > 1 && AllDigits(t[1..]) then
      if t[0] == '-' then N(-(DigitsValue(t[1..]) as int)) else N(DigitsValue(t[1..]))
    else if AllDigits(t) then N(DigitsValue(t))
    else NaN
  }

  /** `Number` of a run of digits is its decimal value; the empty run is 0. */
  lemma ToNumberOfDigits(d: string)
    requires AllDigits(d)
    ensures ToNumber(d) == N(DigitsValue(d))
  {
    if d != [] {
      assert IsDigit(d[0]) && IsDigit(d[|d| - 1]);
      TrimOfTrimmed(d);
      assert d[0] != '-' && d[0] != '+';
    }
  }

  /** JavaScript `a % b` for `b > 0`: the remainder takes the sign of `a`. */
  function JsRem(a: int, b: int): (r: int)
    requires b > 0
    ensures -b < r < b
    ensures a >= 0 ==> r == a % b
    ensures a == b * (if a >= 0 then a / b else -((-a) / b)) + r
  {
    if a >= 0 then a % b else -((-a) % b)
  }

  // ----- string order ----------------------------------------------------

  /** `a <= b` on strings: lexicographic comparison of code units. */
  predicate StrLe(a: string, b: string)
    decreases |a|
  {
    a == [] || (b != [] && (a[0] < b[0] || (a[0] == b[0] && StrLe(a[1..], b[1..]))))
  }

  lemma {:induction false} StrLeTotal(a: string, b: string)
    ensures StrLe(a, b) || StrLe(b, a)
    decreases |a|
  {
    if a != [] && b != [] && a[0] == b[0] {
      StrLeTotal(a[1..], b[1..]);
    }
  }

  lemma {:induction false} StrLeTransitive(a: string, b: string, c: string)
    requires StrLe(a, b) && StrLe(b, c)
    ensures StrLe(a, c)
    decreases |a|
  {
    if a != [] && a[0] == b[0] && b[0] == c[0] {
      StrLeTransitive(a[1..], b[1..], c[1..]);
    }
  }

  lemma {:induction false} StrLeAntisymmetric(a: string, b: string)
    requires StrLe(a, b) && StrLe(b, a)
    ensures a == b
    decreases |a|
  {
    if a != [] {
      StrLeAntisymmetric(a[1..], b[1..]);
      assert a == [a[0]] + a[1..] && b == [b[0]] + b[1..];
    }
  }
}
