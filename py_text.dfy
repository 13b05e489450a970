/** The Python string operations the push and front-matter code relies on:
    `str.splitlines`, `str.strip`, `str.replace(pat, "")`, `str.split(sep, 2)`
    and `int(text)`, over code points. */
module PyText {
  import opened Common

  // ---------------------------------------------------------------------------
  // Character classes.

  /** The line boundaries of `str.splitlines`, by code point: LF, VT, FF,
      CR, the file/group/record separators, NEL, LINE SEPARATOR and
      PARAGRAPH SEPARATOR. */
  predicate IsLineBreak(c: char)
  {
    var n := c as int;
    (10 <= n <= 13) || (28 <= n <= 30) || n == 0x85 || n == 0x2028 || n == 0x2029
  }

  /** The characters `str.isspace` accepts, which `str.strip` removes, by
      code point. */
  predicate IsSpace(c: char)
  {
    var n := c as int;
    (9 <= n <= 13) || (28 <= n <= 32) || n == 0x85 || n == 0xA0 || n == 0x1680
    || (0x2000 <= n <= 0x200A) || n == 0x2028 || n == 0x2029 || n == 0x202F || n == 0x205F || n == 0x3000
  }

  predicate NoLineBreak(s: string)
  {
    forall k :: 0 <= k < |s| ==> !IsLineBreak(s[k])
  }

  predicate IsDigit(c: char) { '0' <= c <= '9' }

  // ---------------------------------------------------------------------------
  // splitlines

  /** The first line boundary at or after `i`, or `|s|`. */
  function LineEnd(s: string, i: nat): (r: nat)
    requires i <= |s|
    ensures i <= r <= |s|
    ensures r < |s| ==> IsLineBreak(s[r])
    ensures forall k :: i <= k < r ==> !IsLineBreak(s[k])
    decreases |s| - i
  {
    if i == |s| || IsLineBreak(s[i]) then i else LineEnd(s, i + 1)
  }

  /** `str.splitlines()`: the lines without their boundaries; `\r\n` is one
      boundary, and a boundary at the very end opens no further line. */
  function SplitLines(s: string): (r: seq<string>)
    ensures forall i :: 0 <= i < |r| ==> NoLineBreak(r[i])
    decreases |s|
  {
    if |s| == 0 then []
    else
      var e := LineEnd(s, 0);
      if e == |s| then [s]
      else
        var skip := if s[e] == '\r' && e + 1 < |s| && s[e + 1] == '\n' then 2 else 1;
        [s[..e]] + SplitLines(s[e + skip..])
  }

  /** Lines each followed by a newline. */
  function Terminated(lines: seq<string>): string
  {
    if lines == [] then "" else lines[0] + "\n" + Terminated(lines[1..])
  }

  /** Splitting newline-terminated lines gives them back. */
  lemma {:induction false} SplitTerminated(lines: seq<string>)
    requires forall i :: 0 <= i < |lines| ==> NoLineBreak(lines[i])
    ensures SplitLines(Terminated(lines)) == lines
  {
    if lines != [] {
      var s := Terminated(lines);
      var l := lines[0];
      assert s == l + "\n" + Terminated(lines[1..]);
      assert s[|l|] == '\n';
      assert forall k :: 0 <= k < |l| ==> s[k] == l[k];
      LineEndAt(s, 0, |l|);
      assert s[..|l|] == l;
      assert s[|l| + 1..] == Terminated(lines[1..]);
      SplitTerminated(lines[1..]);
      assert lines == [l] + lines[1..];
    }
  }

  lemma LineEndAt(s: string, i: nat, j: nat)
    requires i <= j < |s| && IsLineBreak(s[j])
    requires forall k :: i <= k < j ==> !IsLineBreak(s[k])
    ensures LineEnd(s, i) == j
  { }

  // ---------------------------------------------------------------------------
  // strip

  function StripStart(s: string): (r: string)
    ensures |r| <= |s| && r == s[|s| - |r|..]
    ensures r == [] || !IsSpace(r[0])
    ensures forall k :: 0 <= k < |s| - |r| ==> IsSpace(s[k])
    decreases |s|
  {
    if |s| > 0 && IsSpace(s[0]) then StripStart(s[1..]) else s
  }

  function StripEnd(s: string): (r: string)
    ensures |r| <= |s| && r == s[..|r|]
    ensures r == [] || !IsSpace(r[|r| - 1])
    ensures forall k :: |r| <= k < |s| ==> IsSpace(s[k])
    decreases |s|
  {
    if |s| > 0 && IsSpace(s[|s| - 1]) then StripEnd(s[..|s| - 1]) else s
  }

  /** `str.strip()`: the text between the leading and the trailing
      whitespace, which begins and ends with a non-space when not empty. */
  function Strip(s: string): (r: string)
    ensures r == [] || (!IsSpace(r[0]) && !IsSpace(r[|r| - 1]))
  {
    StripEnd(StripStart(s))
  }

  predicate Trimmed(s: string)
  {
    s == [] || (!IsSpace(s[0]) && !IsSpace(s[|s| - 1]))
  }

  /** Text with nothing to strip is left as it is. */
  lemma {:induction false} StripTrimmed(s: string)
    requires Trimmed(s)
    ensures Strip(s) == s
  {
    assert StripStart(s) == s;
    assert StripEnd(s) == s;
  }

  /** Stripping twice is stripping once. */
  lemma {:induction false} StripIdempotent(s: string)
    ensures Strip(Strip(s)) == Strip(s)
  {
    StripTrimmed(Strip(s));
  }

  // ---------------------------------------------------------------------------
  // replace(pat, "")

  /** `s.replace(pat, "")`: every occurrence of `pat`, scanning left to right
      without overlap, removed. */
  function RemoveAll(s: string, pat: string): (r: string)
    requires |pat| > 0
    ensures |r| <= |s|
    decreases |s|
  {
    if |s| < |pat| then s
    else if s[..|pat|] == pat then RemoveAll(s[|pat|..], pat)
    else [s[0]] + RemoveAll(s[1..], pat)
  }

  /** A leading occurrence is removed. */
  lemma {:induction false} RemoveAllLeading(pat: string, s: string)
    requires |pat| > 0
    ensures RemoveAll(pat + s, pat) == RemoveAll(s, pat)
  {
    assert (pat + s)[..|pat|] == pat;
    assert (pat + s)[|pat|..] == s;
  }

  /** Text in which the pattern does not occur is left as it is. */
  lemma {:induction false} RemoveAllAbsent(s: string, pat: string)
    requires |pat| > 0
    requires forall k: nat :: !OccursAt(s, pat, k)
    ensures RemoveAll(s, pat) == s
    decreases |s|
  {
    if |s| >= |pat| {
      assert !OccursAt(s, pat, 0);
      assert s[..|pat|] != pat by {
        assert s[0..0 + |pat|] == s[..|pat|];
      }
      forall k: nat
        ensures !OccursAt(s[1..], pat, k)
      {
        assert !OccursAt(s, pat, k + 1);
        if k + |pat| <= |s[1..]| {
          assert s[1..][k..k + |pat|] == s[k + 1..k + 1 + |pat|];
        }
      }
      RemoveAllAbsent(s[1..], pat);
      assert s == [s[0]] + s[1..];
    }
  }

  /** A pattern whose first character never appears in `s` does not occur in it. */
  lemma {:induction false} AbsentByFirst(s: string, pat: string)
    requires |pat| > 0
    requires forall k :: 0 <= k < |s| ==> s[k] != pat[0]
    ensures forall k: nat :: !OccursAt(s, pat, k)
  {
    forall k: nat
      ensures !OccursAt(s, pat, k)
    {
      if k + |pat| <= |s| {
        assert s[k..k + |pat|][0] == s[k];
      }
    }
  }

  // ---------------------------------------------------------------------------
  // split(sep, 2)

  /** `s.split(sep, 2)`: at most three pieces, cut at the first two
      occurrences of `sep`. */
  function SplitTwice(s: string, sep: string): (r: seq<string>)
    requires |sep| > 0
    ensures 1 <= |r| <= 3
    ensures |r| >= 2 ==> Find(s, sep, 0).Some? && r[0] == s[..Find(s, sep, 0).value]
    ensures Find(s, sep, 0).Some? ==> |r| >= 2
  {
    match Find(s, sep, 0)
    case None => [s]
    case Some(i) =>
      var rest := s[i + |sep|..];
      match Find(rest, sep, 0)
      case None => [s[..i], rest]
      case Some(j) => [s[..i], rest[..j], rest[j + |sep|..]]
  }

  /** The pieces of a split rejoined with the separator are the text. */
  lemma {:induction false} SplitTwiceRejoins(s: string, sep: string)
    requires |sep| > 0
    ensures var r := SplitTwice(s, sep);
            (|r| == 1 ==> r[0] == s)
            && (|r| == 2 ==> r[0] + sep + r[1] == s)
            && (|r| == 3 ==> r[0] + sep + r[1] + sep + r[2] == s)
  {
    var r := SplitTwice(s, sep);
    var f := Find(s, sep, 0);
    if f.Some? {
      var i := f.value;
      CutAt(s, sep, i);
      var rest := s[i + |sep|..];
      var g := Find(rest, sep, 0);
      if g.Some? {
        var j := g.value;
        CutAt(rest, sep, j);
        assert r == [s[..i], rest[..j], rest[j + |sep|..]];
        assert r[0] + sep + r[1] + sep + r[2] == s[..i] + sep + (rest[..j] + sep + rest[j + |sep|..]);
      } else {
        assert r == [s[..i], rest];
      }
    } else {
      assert r == [s];
    }
  }

  lemma {:induction false} CutAt(s: string, sep: string, i: nat)
    requires OccursAt(s, sep, i)
    ensures s == s[..i] + sep + s[i + |sep|..]
  {
    assert s == s[..i] + s[i..i + |sep|] + s[i + |sep|..];
  }

  /** The middle piece holds no separator: it runs to the second occurrence. */
  lemma {:induction false} SplitTwiceMiddle(s: string, sep: string)
    requires |sep| > 0
    requires |SplitTwice(s, sep)| == 3
    ensures forall k: nat :: !OccursAt(SplitTwice(s, sep)[1], sep, k)
  {
    var i := Find(s, sep, 0).value;
    var rest := s[i + |sep|..];
    var j := Find(rest, sep, 0).value;
    var mid := rest[..j];
    forall k: nat
      ensures !OccursAt(mid, sep, k)
    {
      if k + |sep| <= |mid| {
        assert mid[k..k + |sep|] == rest[k..k + |sep|];
        assert !OccursAt(rest, sep, k);
      }
    }
  }

  // ---------------------------------------------------------------------------
  // int()

  function DigitValue(c: char): nat
    requires IsDigit(c)
  {
    c as int - '0' as int
  }

  /** The value of a run of decimal digits, read most significant first. */
  function DecimalValue(d: string): nat
    requires forall k :: 0 <= k < |d| ==> IsDigit(d[k])
    decreases |d|
  {
    if |d| == 0 then 0 else DecimalValue(d[..|d| - 1]) * 10 + DigitValue(d[|d| - 1])
  }

  /** Digits with single underscores between them, as `int` accepts. */
  predicate WellGrouped(t: string)
  {
    && |t| > 0 && IsDigit(t[0]) && IsDigit(t[|t| - 1])
    && (forall k :: 0 <= k < |t| ==> IsDigit(t[k]) || t[k] == '_')
    && (forall k :: 0 <= k < |t| - 1 ==> t[k] == '_' ==> t[k + 1] != '_')
  }

  /** The digits of a group, its underscores dropped. */
  function DropUnderscores(t: string): (r: string)
    requires forall k :: 0 <= k < |t| ==> IsDigit(t[k]) || t[k] == '_'
    ensures forall k :: 0 <= k < |r| ==> IsDigit(r[k])
    decreases |t|
  {
    if |t| == 0 then ""
    else if t[0] == '_' then DropUnderscores(t[1..])
    else [t[0]] + DropUnderscores(t[1..])
  }

  /** `int(text)` for ASCII text: surrounding whitespace ignored, an optional
      sign, then well-grouped digits; anything else raises (None). */
  function ParseInt(text: string): (r: Option<int>)
  {
    var t := Strip(text);
    if |t| > 0 && (t[0] == '+' || t[0] == '-') then
      if WellGrouped(t[1..]) then
        var v := DecimalValue(DropUnderscores(t[1..]));
        var signed: int := if t[0] == '-' then -(v as int) else v;
        Some(signed)
      else None
    else if WellGrouped(t) then Some(DecimalValue(DropUnderscores(t)))
    else None
  }

  lemma {:induction false} DecimalValueOfDecimal(n: nat)
    ensures DecimalValue(Decimal(n)) == n
    decreases n
  {
    if n >= 10 {
      var d := Decimal(n);
      assert d[..|d| - 1] == Decimal(n / 10);
      DecimalValueOfDecimal(n / 10);
    }
  }

  lemma {:induction false} DropUnderscoresOfDigits(d: string)
    requires forall k :: 0 <= k < |d| ==> IsDigit(d[k])
    ensures DropUnderscores(d) == d
    decreases |d|
  {
    if |d| > 0 {
      DropUnderscoresOfDigits(d[1..]);
      assert d == [d[0]] + d[1..];
    }
  }

  /** `int(str(n))` is `n`, and a leading minus sign negates it. */
  lemma {:induction false} ParseIntDecimal(n: nat)
    ensures ParseInt(Decimal(n)) == Some(n)
    ensures var negative: int := -(n as int); ParseInt("-" + Decimal(n)) == Some(negative)
  {
    var d := Decimal(n);
    DigitsGroup(d);
    DecimalValueOfDecimal(n);
    ParseIntUnsigned(d, n);
    ParseIntNegated(d, n);
  }

  lemma {:induction false} ParseIntUnsigned(d: string, n: nat)
    requires |d| > 0 && forall k :: 0 <= k < |d| ==> IsDigit(d[k])
    requires WellGrouped(d) && DropUnderscores(d) == d && DecimalValue(d) == n
    ensures ParseInt(d) == Some(n)
  {
    assert IsDigit(d[0]) && IsDigit(d[|d| - 1]);
    StripTrimmed(d);
  }

  lemma {:induction false} ParseIntNegated(d: string, n: nat)
    requires |d| > 0 && forall k :: 0 <= k < |d| ==> IsDigit(d[k])
    requires WellGrouped(d) && DropUnderscores(d) == d && DecimalValue(d) == n
    ensures var negative: int := -(n as int); ParseInt("-" + d) == Some(negative)
  {
    MinusStrips(d);
    ParseMinus("-" + d);
  }

  /** A minus sign before text ending in a digit has nothing to strip. */
  lemma {:induction false} MinusStrips(d: string)
    requires |d| > 0 && IsDigit(d[|d| - 1])
    ensures var m := "-" + d; Strip(m) == m && |m| > 0 && m[0] == '-' && m[1..] == d
  {
    var m := "-" + d;
    assert m[|m| - 1] == d[|d| - 1];
    StripTrimmed(m);
    assert m[1..] == d;
  }

  /** Text that strips to itself and reads `-` then a well-formed group. */
  lemma {:induction false} ParseMinus(t: string)
    requires Strip(t) == t && |t| > 0 && t[0] == '-' && WellGrouped(t[1..])
    ensures var negative: int := -(DecimalValue(DropUnderscores(t[1..])) as int); ParseInt(t) == Some(negative)
  {
  }

  /** A run of digits is a well-formed group whose value is read directly. */
  lemma {:induction false} DigitsGroup(d: string)
    requires |d| > 0 && forall k :: 0 <= k < |d| ==> IsDigit(d[k])
    ensures WellGrouped(d) && DropUnderscores(d) == d
  {
    DropUnderscoresOfDigits(d);
  }

  /** Text with no digit at all is not a number. */
  lemma {:induction false} ParseIntNeedsDigits(text: string)
    requires forall k :: 0 <= k < |text| ==> !IsDigit(text[k])
    ensures ParseInt(text) == None
  {
    var t := Strip(text);
    var p := StripStart(text);
    assert p == text[|text| - |p|..];
    assert t == p[..|t|];
    assert forall k :: 0 <= k < |t| ==> t[k] == text[|text| - |p| + k];
  }
}
