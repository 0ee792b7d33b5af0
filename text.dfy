/**
  Python string primitives used by the scraper, stated over `seq<char>`:
  character classes (`str.isspace`, the line breaks of `str.splitlines`,
  ASCII digits and letters), `str.strip`, the "stripped non-empty lines"
  idiom, the digits-only projection of `re.sub(r"\D", "", s)`, substring
  search, `str.replace(pat, "")` and Python's code-point ordering of strings.
*/
module Text {

  /** Characters for which Python's `str.isspace()` holds; `str.strip()` and the regex class `\s` use this set. */
  predicate IsSpace(c: char) {
    c == ' ' || c == '\t' || c == '\n' || c == '\r' || c == '\U{000B}' || c == '\U{000C}'
    || ('\U{001C}' <= c <= '\U{001F}')
    || c == '\U{0085}' || c == '\U{00A0}' || c == '\U{1680}'
    || ('\U{2000}' <= c <= '\U{200A}')
    || c == '\U{2028}' || c == '\U{2029}' || c == '\U{202F}' || c == '\U{205F}' || c == '\U{3000}'
  }

  /** Characters at which Python's `str.splitlines()` breaks a line. */
  predicate IsLineBreak(c: char) {
    c == '\n' || c == '\r' || c == '\U{000B}' || c == '\U{000C}'
    || c == '\U{001C}' || c == '\U{001D}' || c == '\U{001E}'
    || c == '\U{0085}' || c == '\U{2028}' || c == '\U{2029}'
  }

  lemma LineBreakIsSpace(c: char)
    ensures IsLineBreak(c) ==> IsSpace(c)
  {
  }

  predicate IsDigit(c: char) {
    '0' <= c <= '9'
  }

  predicate IsAsciiUpper(c: char) {
    'A' <= c <= 'Z'
  }

  predicate IsAsciiLower(c: char) {
    'a' <= c <= 'z'
  }

  /** The regex class `[a-zA-Z0-9]`. */
  predicate IsAsciiAlnum(c: char) {
    IsDigit(c) || IsAsciiUpper(c) || IsAsciiLower(c)
  }

  predicate AllDigits(s: string) {
    forall i :: 0 <= i < |s| ==> IsDigit(s[i])
  }

  /** `str.lower()` on one character, for the ASCII letters. */
  function LowerChar(c: char): (r: char)
    ensures IsAsciiUpper(c) ==> IsAsciiLower(r)
    ensures !IsAsciiUpper(c) ==> r == c
  {
    if IsAsciiUpper(c) then (c as int + 32) as char else c
  }

  function Lower(s: string): (r: string)
    ensures |r| == |s|
    ensures forall i :: 0 <= i < |s| ==> r[i] == LowerChar(s[i])
  {
    if s == [] then [] else [LowerChar(s[0])] + Lower(s[1..])
  }

  /** `s` with its leading whitespace removed: a suffix of `s` whose first character is not whitespace. */
  function TrimLeft(s: string): (r: string)
    ensures |r| <= |s| && r == s[|s| - |r|..]
    ensures forall k :: 0 <= k < |s| - |r| ==> IsSpace(s[k])
    ensures r == [] || !IsSpace(r[0])
  {
    if s == [] || !IsSpace(s[0]) then s else TrimLeft(s[1..])
  }

  /** `s` with its trailing whitespace removed: a prefix of `s` whose last character is not whitespace. */
  function TrimRight(s: string): (r: string)
    ensures |r| <= |s| && r == s[..|r|]
    ensures forall k :: |r| <= k < |s| ==> IsSpace(s[k])
    ensures r == [] || !IsSpace(r[|r| - 1])
  {
    if s == [] || !IsSpace(s[|s| - 1]) then s else TrimRight(s[..|s| - 1])
  }

  /** Python's `s.strip()`. */
  function Strip(s: string): (r: string)
    ensures r == [] || (!IsSpace(r[0]) && !IsSpace(r[|r| - 1]))
  {
    TrimRight(TrimLeft(s))
  }

  /** A string is stripped when `str.strip()` leaves it unchanged. */
  predicate IsStripped(s: string) {
    s == [] || (!IsSpace(s[0]) && !IsSpace(s[|s| - 1]))
  }

  lemma StripOfStripped(s: string)
    requires IsStripped(s)
    ensures Strip(s) == s
  {
  }

  /** Stripping removes only whitespace, so every non-space character survives. */
  lemma {:induction false} StripKeepsAllDigits(s: string)
    requires AllDigits(s)
    ensures Strip(s) == s
  {
    if s != [] {
      assert !IsSpace(s[0]) && !IsSpace(s[|s| - 1]);
    }
  }

  /**
    The lines of `s` as `str.split` on every line-break character would give
    them; `\r\n` counts as two breaks, which only adds an empty line, and the
    scraper discards empty lines.
  */
  function SplitLines(s: string): (r: seq<string>)
    ensures |r| >= 1
    ensures forall i, k :: 0 <= i < |r| && 0 <= k < |r[i]| ==> !IsLineBreak(r[i][k])
  {
    if s == [] then [[]]
    else if IsLineBreak(s[0]) then [[]] + SplitLines(s[1..])
    else
      var rest := SplitLines(s[1..]);
      [[s[0]] + rest[0]] + rest[1..]
  }

  /** A text without line breaks is one line. */
  lemma {:induction false} SplitLinesPlain(s: string)
    requires forall k :: 0 <= k < |s| ==> !IsLineBreak(s[k])
    ensures SplitLines(s) == [s]
  {
    if s != [] {
      SplitLinesPlain(s[1..]);
      assert [s[0]] + s[1..] == s;
    }
  }

  /** A line break ends the line before it. */
  lemma {:induction false} SplitLinesBreak(a: string, c: char, b: string)
    requires forall k :: 0 <= k < |a| ==> !IsLineBreak(a[k])
    requires IsLineBreak(c)
    ensures SplitLines(a + [c] + b) == [a] + SplitLines(b)
  {
    if a == [] {
      assert a + [c] + b == [c] + b;
      assert ([c] + b)[1..] == b;
    } else {
      SplitLinesBreak(a[1..], c, b);
      assert (a + [c] + b)[1..] == a[1..] + [c] + b;
      assert [a[0]] + a[1..] == a;
    }
  }

  /** Keeps the stripped lines that are not empty: `[l.strip() for l in lines if l.strip()]`. */
  function StrippedNonEmpty(lines: seq<string>): (r: seq<string>)
    ensures |r| <= |lines|
    ensures forall i :: 0 <= i < |r| ==> r[i] != [] && IsStripped(r[i])
  {
    if lines == [] then []
    else
      var l := Strip(lines[0]);
      (if l != [] then [l] else []) + StrippedNonEmpty(lines[1..])
  }

  /** `[l.strip() for l in text.splitlines() if l.strip()]`. */
  function Parts(text: string): (r: seq<string>)
    ensures forall i :: 0 <= i < |r| ==> r[i] != [] && IsStripped(r[i])
  {
    StrippedNonEmpty(SplitLines(text))
  }

  /** Lines that are already stripped and non-empty are kept as they are. */
  lemma {:induction false} StrippedNonEmptyKeeps(lines: seq<string>)
    requires forall i :: 0 <= i < |lines| ==> lines[i] != [] && IsStripped(lines[i])
    ensures StrippedNonEmpty(lines) == lines
  {
    if lines != [] {
      StripOfStripped(lines[0]);
      StrippedNonEmptyKeeps(lines[1..]);
      assert [lines[0]] + lines[1..] == lines;
    }
  }

  /** Two stripped, non-empty lines joined by one line break. */
  lemma PartsTwoLines(a: string, c: char, b: string)
    requires forall k :: 0 <= k < |a| ==> !IsLineBreak(a[k])
    requires forall k :: 0 <= k < |b| ==> !IsLineBreak(b[k])
    requires IsLineBreak(c)
    requires a != [] && IsStripped(a) && b != [] && IsStripped(b)
    ensures Parts(a + [c] + b) == [a, b]
  {
    SplitLinesBreak(a, c, b);
    SplitLinesPlain(b);
    StrippedNonEmptyKeeps([a, b]);
  }

  /** The digits of `s`, in their order: `re.sub(r"\D", "", s)`. */
  function Digits(s: string): (r: string)
    ensures |r| <= |s|
    ensures AllDigits(r)
  {
    if s == [] then []
    else (if IsDigit(s[0]) then [s[0]] else []) + Digits(s[1..])
  }

  /** The projection distributes over concatenation: digits keep their relative order. */
  lemma {:induction false} DigitsAppend(a: string, b: string)
    ensures Digits(a + b) == Digits(a) + Digits(b)
  {
    if a == [] {
      assert a + b == b;
    } else {
      assert (a + b)[1..] == a[1..] + b;
      DigitsAppend(a[1..], b);
    }
  }

  lemma {:induction false} DigitsOfAllDigits(s: string)
    requires AllDigits(s)
    ensures Digits(s) == s
  {
    if s != [] {
      DigitsOfAllDigits(s[1..]);
    }
  }

  /** Removing whitespace from the ends removes no digit. */
  lemma {:induction false} DigitsOfTrimLeft(s: string)
    ensures Digits(TrimLeft(s)) == Digits(s)
  {
    if s != [] && IsSpace(s[0]) {
      DigitsOfTrimLeft(s[1..]);
    }
  }

  lemma {:induction false} DigitsOfTrimRight(s: string)
    ensures Digits(TrimRight(s)) == Digits(s)
  {
    if s != [] && IsSpace(s[|s| - 1]) {
      var init := s[..|s| - 1];
      assert s == init + [s[|s| - 1]];
      DigitsAppend(init, [s[|s| - 1]]);
      assert Digits([s[|s| - 1]]) == [];
      DigitsOfTrimRight(init);
    }
  }

  lemma DigitsOfStrip(s: string)
    ensures Digits(Strip(s)) == Digits(s)
  {
    DigitsOfTrimLeft(s);
    DigitsOfTrimRight(TrimLeft(s));
  }

  predicate StartsWith(s: string, pat: string) {
    |pat| <= |s| && s[..|pat|] == pat
  }

  /** `pat in s` for strings: some suffix of `s` starts with `pat`. */
  predicate Contains(s: string, pat: string)
    decreases |s|
  {
    StartsWith(s, pat) || (s != [] && Contains(s[1..], pat))
  }

  lemma {:induction false} ShorterNotContains(s: string, pat: string)
    requires |s| < |pat|
    ensures !Contains(s, pat)
    decreases |s|
  {
    if s != [] {
      ShorterNotContains(s[1..], pat);
    }
  }

  /** `s.replace(pat, "")`: every non-overlapping occurrence of `pat`, scanned left to right, is removed. */
  function RemoveAll(s: string, pat: string): (r: string)
    requires pat != []
    ensures |r| <= |s|
    decreases |s|
  {
    if |s| < |pat| then s
    else if StartsWith(s, pat) then RemoveAll(s[|pat|..], pat)
    else [s[0]] + RemoveAll(s[1..], pat)
  }

  lemma {:induction false} RemoveAllAbsent(s: string, pat: string)
    requires pat != []
    requires !Contains(s, pat)
    ensures RemoveAll(s, pat) == s
    decreases |s|
  {
    if |s| >= |pat| {
      RemoveAllAbsent(s[1..], pat);
    }
  }

  /** A leading occurrence is removed and the scan resumes after it. */
  lemma RemoveAllLeading(pat: string, s: string)
    requires pat != []
    ensures RemoveAll(pat + s, pat) == RemoveAll(s, pat)
  {
    assert (pat + s)[..|pat|] == pat;
    assert (pat + s)[|pat|..] == s;
  }

  /** Python's `a < b` on `str`: code-point lexicographic order (Dafny's `<` on sequences is "proper prefix"). */
  predicate LexLess(a: string, b: string) {
    if a == [] then b != []
    else if b == [] then false
    else if a[0] != b[0] then a[0] < b[0]
    else LexLess(a[1..], b[1..])
  }

  lemma {:induction false} LexLessIrreflexive(a: string)
    ensures !LexLess(a, a)
  {
    if a != [] {
      LexLessIrreflexive(a[1..]);
    }
  }

  lemma {:induction false} LexLessTransitive(a: string, b: string, c: string)
    requires LexLess(a, b) && LexLess(b, c)
    ensures LexLess(a, c)
  {
    if a != [] && b != [] && c != [] && a[0] == b[0] && b[0] == c[0] {
      LexLessTransitive(a[1..], b[1..], c[1..]);
    }
  }

  lemma {:induction false} LexLessTotal(a: string, b: string)
    requires a != b
    ensures LexLess(a, b) || LexLess(b, a)
  {
    if a != [] && b != [] && a[0] == b[0] {
      assert a == [a[0]] + a[1..] && b == [b[0]] + b[1..];
      LexLessTotal(a[1..], b[1..]);
    }
  }

  lemma {:induction false} LexLessAsymmetric(a: string, b: string)
    requires LexLess(a, b)
    ensures !LexLess(b, a)
  {
    if a != [] && b != [] && a[0] == b[0] {
      LexLessAsymmetric(a[1..], b[1..]);
    }
  }
}
