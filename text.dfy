/** The string operations of Python that the parsers rely on: substring search (`in`, `str.find`),
    `str.split`, `str.strip`, `int()` and `str()` on integers, and the ordering `sorted` uses on
    strings. Whitespace is the set of characters `str.isspace()` accepts, which is also what `\s`
    matches in a `str` pattern; digits are the ASCII digits. */
module Text {
  import opened Wrappers

  predicate IsSpace(c: char) {
    || ('\t' <= c <= '\r')
    || ('\U{1C}' <= c <= '\U{1F}')
    || c == ' ' || c == '\U{85}' || c == '\U{A0}' || c == '\U{1680}'
    || ('\U{2000}' <= c <= '\U{200A}')
    || c == '\U{2028}' || c == '\U{2029}' || c == '\U{202F}' || c == '\U{205F}' || c == '\U{3000}'
  }

  predicate IsDigit(c: char) {
    '0' <= c <= '9'
  }

  predicate AllSpace(s: string) {
    forall k | 0 <= k < |s| :: IsSpace(s[k])
  }

  predicate AllDigits(s: string) {
    forall k | 0 <= k < |s| :: IsDigit(s[k])
  }

  // ---------------------------------------------------------------------------------------------
  // Substrings
  // ---------------------------------------------------------------------------------------------

  /** `t` occurs in `s` at position `i`. */
  predicate StartsAt(s: string, i: int, t: string) {
    0 <= i && i + |t| <= |s| && s[i..i + |t|] == t
  }

  /** Python's `t in s`. */
  predicate Contains(s: string, t: string) {
    exists i | 0 <= i <= |s| :: StartsAt(s, i, t)
  }

  /** The leftmost occurrence of `t` at or after `from` (`s.find(t, from)`), if any. */
  function IndexOf(s: string, t: string, from: nat): (r: Option<nat>)
    ensures r.Some? ==> from <= r.value && StartsAt(s, r.value, t)
    ensures r.Some? ==> forall j :: from <= j < r.value ==> !StartsAt(s, j, t)
    ensures r.None? ==> forall j :: from <= j ==> !StartsAt(s, j, t)
    decreases |s| - from
  {
    if from + |t| > |s| then None
    else if s[from..from + |t|] == t then Some(from)
    else IndexOf(s, t, from + 1)
  }

  /** Searching from the start finds something exactly when the string occurs. */
  lemma IndexOfFindsContained(s: string, t: string)
    ensures IndexOf(s, t, 0).Some? <==> Contains(s, t)
  {
    var r := IndexOf(s, t, 0);
    if r.Some? {
      assert StartsAt(s, r.value, t);
    }
  }

  /** The end of the run of characters satisfying `p` that starts at `i`. */
  function SpanEnd(s: string, i: nat, p: char -> bool): (r: nat)
    requires i <= |s|
    ensures i <= r <= |s|
    ensures forall k :: i <= k < r ==> p(s[k])
    ensures r < |s| ==> !p(s[r])
    decreases |s| - i
  {
    if i < |s| && p(s[i]) then SpanEnd(s, i + 1, p) else i
  }

  /** The run is determined by its characters: it ends at the first position that fails `p`. */
  lemma {:induction false} SpanEndIs(s: string, i: nat, p: char -> bool, j: nat)
    requires i <= j <= |s|
    requires forall k | i <= k < j :: p(s[k])
    requires j < |s| ==> !p(s[j])
    ensures SpanEnd(s, i, p) == j
    decreases j - i
  {
    if i < j {
      SpanEndIs(s, i + 1, p, j);
    }
  }

  predicate NotNewline(c: char) {
    c != '\n'
  }

  /** Where the line that contains position `i` ends: the next newline, or the end of `s`. This is
      where a lazy `(.*?)(?:\n|$)` stops, since `.` matches everything but a newline. */
  function LineEnd(s: string, i: nat): (r: nat)
    requires i <= |s|
    ensures i <= r <= |s|
    ensures forall k :: i <= k < r ==> s[k] != '\n'
    ensures r < |s| ==> s[r] == '\n'
  {
    SpanEnd(s, i, NotNewline)
  }

  // ---------------------------------------------------------------------------------------------
  // str.split and its inverse
  // ---------------------------------------------------------------------------------------------

  /** `sep.join(pieces)`. */
  function Join(pieces: seq<string>, sep: string): string {
    if |pieces| == 0 then ""
    else if |pieces| == 1 then pieces[0]
    else pieces[0] + sep + Join(pieces[1..], sep)
  }

  /** No occurrence of `t` in the prefix `s[..i]` when the first one in `s` is at `i`. */
  lemma PrefixBeforeFirstOccurrence(s: string, t: string, i: nat)
    requires |t| > 0 && i <= |s|
    requires forall j :: 0 <= j < i ==> !StartsAt(s, j, t)
    ensures !Contains(s[..i], t)
  {
    if Contains(s[..i], t) {
      var j :| 0 <= j <= i && StartsAt(s[..i], j, t);
      assert s[..i][j..j + |t|] == s[j..j + |t|];
      assert StartsAt(s, j, t);
    }
  }

  /** `s.split(sep)`: the pieces between the non-overlapping occurrences of `sep`, found from the
      left. Joining them again gives back `s`, and no piece contains `sep`. */
  function Split(s: string, sep: string): (r: seq<string>)
    requires |sep| > 0
    ensures |r| >= 1
    ensures forall k | 0 <= k < |r| :: !Contains(r[k], sep)
    ensures Join(r, sep) == s
    decreases |s|
  {
    match IndexOf(s, sep, 0)
    case None => [s]
    case Some(i) =>
      PrefixBeforeFirstOccurrence(s, sep, i);
      var rest := Split(s[i + |sep|..], sep);
      assert s == s[..i] + sep + s[i + |sep|..] by {
        assert s[i..i + |sep|] == sep;
      }
      [s[..i]] + rest
  }

  /** When `sep` does not occur, `split` returns the whole string as its only piece. */
  lemma SplitWithoutSeparator(s: string, sep: string)
    requires |sep| > 0 && !Contains(s, sep)
    ensures Split(s, sep) == [s]
  {
    IndexOfFindsContained(s, sep);
  }

  // ---------------------------------------------------------------------------------------------
  // str.strip
  // ---------------------------------------------------------------------------------------------

  /** The length of `s` without its trailing whitespace. */
  function StripEnd(s: string): (b: nat)
    ensures b <= |s|
    ensures forall k :: b <= k < |s| ==> IsSpace(s[k])
    ensures b > 0 ==> !IsSpace(s[b - 1])
    decreases |s|
  {
    if |s| > 0 && IsSpace(s[|s| - 1]) then StripEnd(s[..|s| - 1]) else |s|
  }

  /** `s.strip()`: the part of `s` left after removing leading and trailing whitespace. */
  function Strip(s: string): (r: string)
    ensures r == [] || (!IsSpace(r[0]) && !IsSpace(r[|r| - 1]))
  {
    var a := SpanEnd(s, 0, IsSpace);
    var t := s[a..];
    t[..StripEnd(t)]
  }

  /** What strip removes is whitespace at both ends, and what it keeps is a piece of `s`. */
  lemma StripRemovesOnlySpace(s: string)
    ensures exists a | 0 <= a <= |s| :: StartsAt(s, a, Strip(s)) && AllSpace(s[..a]) && AllSpace(s[a + |Strip(s)|..])
  {
    var a := SpanEnd(s, 0, IsSpace);
    var t := s[a..];
    var b := StripEnd(t);
    assert StartsAt(s, a, t[..b]);
    assert s[a + b..] == t[b..];
  }

  /** Strip only removes characters: one that `s` does not hold is not in its strip either. */
  lemma StripKeepsAbsent(s: string, c: char)
    requires forall k | 0 <= k < |s| :: s[k] != c
    ensures forall k | 0 <= k < |Strip(s)| :: Strip(s)[k] != c
  {
    var a := SpanEnd(s, 0, IsSpace);
    assert forall k | 0 <= k < |Strip(s)| :: Strip(s)[k] == s[a + k];
  }

  /** Strip leaves alone a string that neither starts nor ends with whitespace. */
  lemma StripWithoutSurroundingSpace(s: string)
    requires |s| > 0 && !IsSpace(s[0]) && !IsSpace(s[|s| - 1])
    ensures Strip(s) == s
  {
    assert s[0..] == s;
  }

  /** A string without whitespace is its own strip. */
  lemma StripWithoutSpace(s: string)
    requires forall k | 0 <= k < |s| :: !IsSpace(s[k])
    ensures Strip(s) == s
  {
    if |s| > 0 {
      StripWithoutSurroundingSpace(s);
    }
  }

  // ---------------------------------------------------------------------------------------------
  // int() and str() on integers
  // ---------------------------------------------------------------------------------------------

  function DigitValue(c: char): nat
    requires IsDigit(c)
  {
    c as int - '0' as int
  }

  function DigitChar(d: nat): (c: char)
    requires d < 10
    ensures IsDigit(c) && DigitValue(c) == d
  {
    ('0' as int + d) as char
  }

  /** The value of a string of decimal digits. */
  function DecimalValue(s: string): nat
    requires AllDigits(s)
    decreases |s|
  {
    if |s| == 0 then 0 else DecimalValue(s[..|s| - 1]) * 10 + DigitValue(s[|s| - 1])
  }

  /** The decimal digits of `n`, without leading zeros. */
  function NatToDecimal(n: nat): (s: string)
    ensures |s| >= 1 && AllDigits(s)
    ensures DecimalValue(s) == n
    ensures s[0] == '0' ==> s == "0"
    decreases n
  {
    if n < 10 then [DigitChar(n)]
    else
      var pre := NatToDecimal(n / 10);
      var s := pre + [DigitChar(n % 10)];
      assert s[..|s| - 1] == pre;
      s
  }

  /** `str(n)` for an integer `n`. */
  function IntToString(n: int): (s: string)
    ensures |s| >= 1
  {
    if n < 0 then "-" + NatToDecimal(-n) else NatToDecimal(n)
  }

  /** Digits with single underscores strictly between them: what int() accepts after the sign. */
  predicate IsDigitGroups(s: string) {
    && |s| > 0
    && IsDigit(s[0]) && IsDigit(s[|s| - 1])
    && (forall k | 0 <= k < |s| :: IsDigit(s[k]) || s[k] == '_')
    && (forall k | 0 <= k < |s| - 1 :: s[k] == '_' ==> s[k + 1] != '_')
  }

  /** The digits of `s` with the underscores left out. */
  function DropUnderscores(s: string): (r: string)
    ensures (forall k | 0 <= k < |s| :: IsDigit(s[k]) || s[k] == '_') ==> AllDigits(r)
    ensures AllDigits(s) ==> r == s
    decreases |s|
  {
    if |s| == 0 then ""
    else if s[0] == '_' then DropUnderscores(s[1..])
    else [s[0]] + DropUnderscores(s[1..])
  }

  /** Python's `int(s)` on a string: surrounding whitespace, an optional sign, then decimal digits
      that may be grouped by single underscores; `None` where int() raises ValueError. */
  function ParseInt(s: string): Option<int> {
    var t := Strip(s);
    if |t| > 0 && (t[0] == '+' || t[0] == '-') then
      if IsDigitGroups(t[1..]) then
        var v: int := DecimalValue(DropUnderscores(t[1..]));
        Some(if t[0] == '-' then -v else v)
      else None
    else if IsDigitGroups(t) then Some(DecimalValue(DropUnderscores(t)))
    else None
  }

  /** int() reads back what str() writes. */
  lemma ParseIntOfIntToString(n: int)
    ensures ParseInt(IntToString(n)) == Some(n)
  {
    if n >= 0 {
      ParseIntOfDigits(NatToDecimal(n));
    } else {
      ParseIntOfNegative(n);
    }
  }

  lemma ParseIntOfNegative(n: int)
    requires n < 0
    ensures ParseInt(IntToString(n)) == Some(n)
  {
    var d := NatToDecimal(-n);
    var s := "-" + d;
    assert s == IntToString(n);
    NoSpaceAfterSign(d);
    StripWithoutSpace(s);
    assert s[1..] == d;
    DigitsAreGroups(d);
    assert IsDigitGroups(s[1..]) && DropUnderscores(s[1..]) == d;
    ParseIntOfSigned(s);
  }

  lemma NoSpaceAfterSign(d: string)
    requires AllDigits(d)
    ensures forall k | 0 <= k < |"-" + d| :: !IsSpace(("-" + d)[k])
  {
    assert forall k | 1 <= k < |"-" + d| :: ("-" + d)[k] == d[k - 1];
  }

  lemma ParseIntOfSigned(s: string)
    requires Strip(s) == s && |s| > 1 && s[0] == '-' && IsDigitGroups(s[1..])
    ensures ParseInt(s) == Some(-(DecimalValue(DropUnderscores(s[1..])) as int))
  {
  }

  /** A non-empty run of digits is a single digit group. */
  lemma DigitsAreGroups(s: string)
    requires |s| > 0 && AllDigits(s)
    ensures IsDigitGroups(s) && DropUnderscores(s) == s
  {
  }

  /** int() accepts a plain run of digits. */
  lemma ParseIntOfDigits(s: string)
    requires |s| > 0 && AllDigits(s)
    ensures ParseInt(s) == Some(DecimalValue(s))
  {
    StripWithoutSpace(s);
    DigitsAreGroups(s);
    assert !(s[0] == '+' || s[0] == '-');
  }

  // ---------------------------------------------------------------------------------------------
  // The order `sorted` uses on strings: code point by code point, a proper prefix first
  // ---------------------------------------------------------------------------------------------

  predicate LexLess(a: string, b: string)
    decreases |a|
  {
    if |a| == 0 then |b| > 0
    else |b| > 0 && (a[0] < b[0] || (a[0] == b[0] && LexLess(a[1..], b[1..])))
  }

  lemma {:induction false} LexLessIrreflexive(a: string)
    ensures !LexLess(a, a)
    decreases |a|
  {
    if |a| > 0 {
      LexLessIrreflexive(a[1..]);
    }
  }

  lemma {:induction false} LexLessTransitive(a: string, b: string, c: string)
    requires LexLess(a, b) && LexLess(b, c)
    ensures LexLess(a, c)
    decreases |a|
  {
    if |a| > 0 && a[0] == b[0] && b[0] == c[0] {
      LexLessTransitive(a[1..], b[1..], c[1..]);
    }
  }

  lemma {:induction false} LexLessTotal(a: string, b: string)
    requires a != b
    ensures LexLess(a, b) || LexLess(b, a)
    decreases |a|
  {
    if |a| > 0 && |b| > 0 && a[0] == b[0] {
      assert a == [a[0]] + a[1..] && b == [b[0]] + b[1..];
      LexLessTotal(a[1..], b[1..]);
    }
  }
}
