/**
  `_slug`: turns free text (a city, a street, an area code) into a fragment
  that is safe inside a file name, and the export prefix that joins the
  fragments of the job's city, street and area code with `_`.

  The model starts after Unicode NFKD normalisation: for text already in
  that form, `.encode("ascii", "ignore").decode()` keeps exactly the ASCII
  characters, and that step is modelled.
*/
module Slug {
  import opened Text
  import opened Seqs
  import opened Wrappers

  predicate IsAscii(c: char) {
    c < 128 as char
  }

  predicate IsSlugChar(c: char) {
    IsDigit(c) || IsAsciiLower(c) || c == '_'
  }

  /** Position `i` starts a run of two underscores. */
  predicate DoubleAt(s: string, i: int) {
    0 <= i && i + 1 < |s| && s[i] == '_' && s[i + 1] == '_'
  }

  predicate NoDouble(s: string) {
    forall i | 0 <= i < |s| :: !DoubleAt(s, i)
  }

  /** What a slug looks like: lower-case letters, digits and single underscores, never at either end. */
  predicate IsSlug(s: string) {
    && (forall i :: 0 <= i < |s| ==> IsSlugChar(s[i]))
    && NoDouble(s)
    && (s == [] || (s[0] != '_' && s[|s| - 1] != '_'))
  }

  /** Drops the run of non-alphanumeric characters at the front of `s`. */
  function DropRun(s: string): (r: string)
    ensures |r| <= |s|
    ensures r == [] || IsAsciiAlnum(r[0])
  {
    if s != [] && !IsAsciiAlnum(s[0]) then DropRun(s[1..]) else s
  }

  /** `re.sub(r"[^a-zA-Z0-9]+", "_", s)`: each maximal run of other characters becomes one underscore. */
  function Collapse(s: string): (r: string)
    ensures forall i :: 0 <= i < |r| ==> IsAsciiAlnum(r[i]) || r[i] == '_'
    ensures NoDouble(r)
    ensures r == [] || r[0] == '_' || (s != [] && r[0] == s[0])
    decreases |s|
  {
    if s == [] then []
    else if IsAsciiAlnum(s[0]) then
      var rest := Collapse(s[1..]);
      assert forall i :: DoubleAt([s[0]] + rest, i) ==> DoubleAt(rest, i - 1);
      [s[0]] + rest
    else
      var t := DropRun(s);
      var rest := Collapse(t);
      assert rest == [] || IsAsciiAlnum(rest[0]);
      assert forall i :: DoubleAt("_" + rest, i) ==> DoubleAt(rest, i - 1);
      "_" + rest
  }

  /** `s.strip("_")`. */
  function StripUnderscores(s: string): (r: string)
    decreases |s|
  {
    if s == [] then []
    else if s[0] == '_' then StripUnderscores(s[1..])
    else if s[|s| - 1] == '_' then StripUnderscores(s[..|s| - 1])
    else s
  }

  /** `re.sub(r"_{2,}", "_", s)`: each run of two or more underscores becomes one. */
  function Compact(s: string): (r: string) {
    if s == [] then []
    else if |s| >= 2 && s[0] == '_' && s[1] == '_' then Compact(s[1..])
    else [s[0]] + Compact(s[1..])
  }

  /** `_slug(txt)`. */
  function Slug(txt: string): (r: string) {
    if txt == [] then []
    else Compact(Lower(StripUnderscores(Collapse(Filter(IsAscii, txt)))))
  }

  // ---- the steps ------------------------------------------------------

  lemma NoDoubleSlice(s: string, a: int, b: int)
    requires 0 <= a <= b <= |s| && NoDouble(s)
    ensures NoDouble(s[a..b])
  {
    forall i | 0 <= i < b - a ensures !DoubleAt(s[a..b], i) {
      if DoubleAt(s[a..b], i) {
        assert DoubleAt(s, a + i);
      }
    }
  }

  lemma NoDoubleTail(s: string)
    requires s != [] && NoDouble(s)
    ensures NoDouble(s[1..])
  {
    NoDoubleSlice(s, 1, |s|);
    assert s[1..|s|] == s[1..];
  }

  lemma NoDoubleInit(s: string)
    requires s != [] && NoDouble(s)
    ensures NoDouble(s[..|s| - 1])
  {
    NoDoubleSlice(s, 0, |s| - 1);
    assert s[0..|s| - 1] == s[..|s| - 1];
  }

  /** Stripping the end underscores keeps the character set and the single underscores, and leaves none at either end. */
  lemma {:induction false} StripUnderscoresChars(s: string)
    requires forall i :: 0 <= i < |s| ==> IsAsciiAlnum(s[i]) || s[i] == '_'
    requires NoDouble(s)
    ensures var r := StripUnderscores(s);
      && (forall i :: 0 <= i < |r| ==> IsAsciiAlnum(r[i]) || r[i] == '_')
      && NoDouble(r)
      && (r == [] || (r[0] != '_' && r[|r| - 1] != '_'))
    decreases |s|
  {
    if s == [] {
    } else if s[0] == '_' {
      var tail := s[1..];
      NoDoubleTail(s);
      assert forall i :: 0 <= i < |tail| ==> tail[i] == s[i + 1];
      StripUnderscoresChars(tail);
    } else if s[|s| - 1] == '_' {
      var init := s[..|s| - 1];
      NoDoubleInit(s);
      assert forall i :: 0 <= i < |init| ==> init[i] == s[i];
      StripUnderscoresChars(init);
    }
  }

  /** Stripping the end underscores removes no alphanumeric character. */
  lemma {:induction false} StripUnderscoresFilter(s: string)
    ensures Filter(IsAsciiAlnum, StripUnderscores(s)) == Filter(IsAsciiAlnum, s)
    decreases |s|
  {
    if s == [] {
    } else if s[0] == '_' {
      var tail := s[1..];
      StripUnderscoresFilter(tail);
      assert s == [s[0]] + tail;
      FilterAppend(IsAsciiAlnum, [s[0]], tail);
      FilterSingle(IsAsciiAlnum, s[0]);
    } else if s[|s| - 1] == '_' {
      var init := s[..|s| - 1];
      StripUnderscoresFilter(init);
      assert s == init + [s[|s| - 1]];
      FilterAppend(IsAsciiAlnum, init, [s[|s| - 1]]);
      FilterSingle(IsAsciiAlnum, s[|s| - 1]);
    }
  }

  lemma {:induction false} LowerShape(s: string)
    requires forall i :: 0 <= i < |s| ==> IsAsciiAlnum(s[i]) || s[i] == '_'
    requires NoDouble(s)
    requires s == [] || (s[0] != '_' && s[|s| - 1] != '_')
    ensures IsSlug(Lower(s))
    ensures Filter(IsAsciiAlnum, Lower(s)) == Lower(Filter(IsAsciiAlnum, s))
  {
    var r := Lower(s);
    forall i | 0 <= i < |r| ensures !DoubleAt(r, i) {
      if DoubleAt(r, i) {
        assert DoubleAt(s, i);
      }
    }
    FilterLower(s);
  }

  /** Lower-casing commutes with keeping the alphanumeric characters. */
  lemma {:induction false} FilterLower(s: string)
    ensures Filter(IsAsciiAlnum, Lower(s)) == Lower(Filter(IsAsciiAlnum, s))
  {
    if s != [] {
      FilterLower(s[1..]);
      assert Lower(s)[1..] == Lower(s[1..]);
      var c := s[0];
      assert IsAsciiAlnum(LowerChar(c)) == IsAsciiAlnum(c);
      if IsAsciiAlnum(c) {
        assert Lower(Filter(IsAsciiAlnum, s)) == Lower([c] + Filter(IsAsciiAlnum, s[1..]));
        assert Lower([c] + Filter(IsAsciiAlnum, s[1..]))[1..] == Lower(Filter(IsAsciiAlnum, s[1..]));
      }
    }
  }

  /** On a string without double underscores the compaction changes nothing. */
  lemma {:induction false} CompactNoDouble(s: string)
    requires NoDouble(s)
    ensures Compact(s) == s
  {
    if s != [] {
      assert !DoubleAt(s, 0);
      NoDoubleTail(s);
      CompactNoDouble(s[1..]);
    }
  }

  /** Dropped runs contain no alphanumeric character. */
  lemma {:induction false} FilterDropRun(s: string)
    ensures Filter(IsAsciiAlnum, DropRun(s)) == Filter(IsAsciiAlnum, s)
  {
    if s != [] && !IsAsciiAlnum(s[0]) {
      FilterDropRun(s[1..]);
    }
  }

  /** The collapse keeps every alphanumeric character, in order. */
  lemma {:induction false} FilterCollapse(s: string)
    ensures Filter(IsAsciiAlnum, Collapse(s)) == Filter(IsAsciiAlnum, s)
    decreases |s|
  {
    if s == [] {
    } else if IsAsciiAlnum(s[0]) {
      FilterCollapse(s[1..]);
      assert Collapse(s) == [s[0]] + Collapse(s[1..]);
      FilterAppend(IsAsciiAlnum, [s[0]], Collapse(s[1..]));
    } else {
      var t := DropRun(s);
      FilterCollapse(t);
      FilterDropRun(s);
      assert Collapse(s) == "_" + Collapse(t);
      FilterAppend(IsAsciiAlnum, "_", Collapse(t));
    }
  }

  /** Keeping the ASCII characters first loses no alphanumeric character. */
  lemma {:induction false} FilterAscii(s: string)
    ensures Filter(IsAsciiAlnum, Filter(IsAscii, s)) == Filter(IsAsciiAlnum, s)
  {
    if s != [] {
      FilterAscii(s[1..]);
      if !IsAscii(s[0]) {
        assert !IsAsciiAlnum(s[0]);
        assert Filter(IsAscii, s) == Filter(IsAscii, s[1..]);
      } else {
        assert Filter(IsAscii, s) == [s[0]] + Filter(IsAscii, s[1..]);
        FilterAppend(IsAsciiAlnum, [s[0]], Filter(IsAscii, s[1..]));
      }
    }
  }

  lemma PipelineShape(txt: string)
    requires txt != []
    ensures var u := Lower(StripUnderscores(Collapse(Filter(IsAscii, txt))));
      && IsSlug(u)
      && Slug(txt) == u
      && Filter(IsAsciiAlnum, u) == Lower(Filter(IsAsciiAlnum, txt))
  {
    var a := Filter(IsAscii, txt);
    var c := Collapse(a);
    StripUnderscoresChars(c);
    StripUnderscoresFilter(c);
    var s := StripUnderscores(c);
    LowerShape(s);
    CompactNoDouble(Lower(s));
    FilterCollapse(a);
    FilterAscii(txt);
  }

  // ---- what the source promises ---------------------------------------

  /** Every slug is lower-case letters, digits and single inner underscores. */
  lemma SlugIsSafe(txt: string)
    ensures IsSlug(Slug(txt))
  {
    if txt != [] {
      PipelineShape(txt);
    }
  }

  /** The final `_{2,}` compaction of `_slug` never changes anything: the collapse already left single underscores. */
  lemma SlugCompactionIsNoOp(txt: string)
    requires txt != []
    ensures Slug(txt) == Lower(StripUnderscores(Collapse(Filter(IsAscii, txt))))
  {
    PipelineShape(txt);
  }

  /** The slug keeps every ASCII letter and digit of the text, lower-cased and in order, and nothing else but underscores. */
  lemma SlugKeepsAlnum(txt: string)
    ensures Filter(IsAsciiAlnum, Slug(txt)) == Lower(Filter(IsAsciiAlnum, txt))
  {
    if txt != [] {
      PipelineShape(txt);
    }
  }

  lemma {:induction false} FilterOfSlug(s: string)
    requires forall i :: 0 <= i < |s| ==> IsSlugChar(s[i])
    ensures Filter(IsAscii, s) == s
  {
    if s != [] {
      FilterOfSlug(s[1..]);
    }
  }

  lemma {:induction false} CollapseOfSlugTail(s: string)
    requires forall i :: 0 <= i < |s| ==> IsSlugChar(s[i])
    requires NoDouble(s)
    requires s == [] || s[|s| - 1] != '_'
    ensures Collapse(s) == s
    decreases |s|
  {
    if s != [] {
      NoDoubleTail(s);
      var t := s[1..];
      assert forall i :: 0 <= i < |t| ==> IsSlugChar(t[i]) by {
        forall i | 0 <= i < |t| ensures IsSlugChar(t[i]) { assert t[i] == s[i + 1]; }
      }
      CollapseOfSlugTail(t);
      if s[0] == '_' {
        assert |s| >= 2;
        assert s[1] != '_' by { assert !DoubleAt(s, 0); }
        assert IsAsciiAlnum(s[1]) by { assert IsSlugChar(s[1]); }
        assert DropRun(s) == DropRun(t) == t;
        assert Collapse(s) == "_" + Collapse(t);
      } else {
        assert IsAsciiAlnum(s[0]) by { assert IsSlugChar(s[0]); }
        assert Collapse(s) == [s[0]] + Collapse(t);
      }
    }
  }

  lemma {:induction false} LowerOfSlug(s: string)
    requires forall i :: 0 <= i < |s| ==> IsSlugChar(s[i])
    ensures Lower(s) == s
  {
  }

  /** `_slug` is idempotent: a slug is its own slug. */
  lemma SlugIdempotent(txt: string)
    ensures Slug(Slug(txt)) == Slug(txt)
  {
    var s := Slug(txt);
    SlugIsSafe(txt);
    if s != [] {
      FilterOfSlug(s);
      CollapseOfSlugTail(s);
      assert StripUnderscores(s) == s;
      LowerOfSlug(s);
      CompactNoDouble(s);
    }
  }

  /** The slug is empty exactly when the text has no ASCII letter or digit. */
  lemma SlugEmptyIff(txt: string)
    ensures Slug(txt) == [] <==> Filter(IsAsciiAlnum, txt) == []
  {
    SlugKeepsAlnum(txt);
    SlugIsSafe(txt);
    var s := Slug(txt);
    if s != [] {
      assert IsAsciiAlnum(s[0]) by { assert s[0] != '_' && IsSlugChar(s[0]); }
      assert Filter(IsAsciiAlnum, s) == [s[0]] + Filter(IsAsciiAlnum, s[1..]);
    }
  }

  // ---- export prefix --------------------------------------------------

  /** Python truthiness of an optional string: present and not empty. */
  predicate Given(x: Option<string>) {
    x.Some? && x.value != []
  }

  /** The export file prefix: `"_".join(parts)` where `parts` are the slugs of the city and, when given, the street and the area code. */
  function ExportPrefix(city: string, street: Option<string>, rta: Option<string>): (r: string) {
    Slug(city)
      + (if Given(street) then "_" + Slug(street.value) else [])
      + (if Given(rta) then "_" + Slug(rta.value) else [])
  }

  predicate AllSlugChars(s: string) {
    forall i :: 0 <= i < |s| ==> IsSlugChar(s[i])
  }

  lemma SlugCharsOf(txt: string)
    ensures AllSlugChars(Slug(txt))
  {
    SlugIsSafe(txt);
  }

  lemma AllSlugCharsAppend(a: string, b: string)
    requires AllSlugChars(a) && AllSlugChars(b)
    ensures AllSlugChars(a + b)
  {
    forall i | 0 <= i < |a + b| ensures IsSlugChar((a + b)[i]) {
      if i < |a| { assert (a + b)[i] == a[i]; } else { assert (a + b)[i] == b[i - |a|]; }
    }
  }

  /** A given part, as the prefix appends it: a separator and its slug. */
  lemma PartSlugChars(x: Option<string>)
    ensures AllSlugChars(if Given(x) then "_" + Slug(x.value) else [])
  {
    if Given(x) {
      SlugCharsOf(x.value);
      AllSlugCharsAppend("_", Slug(x.value));
    }
  }

  /** The prefix is made only of slug characters, so it is safe in a file name. */
  lemma ExportPrefixSafeChars(city: string, street: Option<string>, rta: Option<string>)
    ensures forall i :: 0 <= i < |ExportPrefix(city, street, rta)| ==> IsSlugChar(ExportPrefix(city, street, rta)[i])
  {
    var c := Slug(city);
    var s: string := if Given(street) then "_" + Slug(street.value) else [];
    var r: string := if Given(rta) then "_" + Slug(rta.value) else [];
    SlugCharsOf(city);
    PartSlugChars(street);
    PartSlugChars(rta);
    AllSlugCharsAppend(c, s);
    AllSlugCharsAppend(c + s, r);
    assert ExportPrefix(city, street, rta) == c + s + r;
  }
  /** The letters and digits of a given part, as they appear in the prefix: none for an absent or empty part. */
  function PartAlnum(x: Option<string>): string {
    if Given(x) then Lower(Filter(IsAsciiAlnum, x.value)) else []
  }

  /** A given part's piece of the prefix keeps exactly that part's letters and digits, lower-cased and in order. */
  lemma PartKeepsAlnum(x: Option<string>)
    ensures Filter(IsAsciiAlnum, if Given(x) then "_" + Slug(x.value) else []) == PartAlnum(x)
  {
    if Given(x) {
      FilterAppend(IsAsciiAlnum, "_", Slug(x.value));
      FilterSingle(IsAsciiAlnum, '_');
      SlugKeepsAlnum(x.value);
    }
  }

  /**
    The prefix loses no letter or digit and adds none: its letters and
    digits are those of the city, then of the street and of the area code
    when they are given, lower-cased and in order.
  */
  lemma ExportPrefixKeepsAlnum(city: string, street: Option<string>, rta: Option<string>)
    ensures Filter(IsAsciiAlnum, ExportPrefix(city, street, rta))
            == Lower(Filter(IsAsciiAlnum, city)) + PartAlnum(street) + PartAlnum(rta)
  {
    var c := Slug(city);
    var s: string := if Given(street) then "_" + Slug(street.value) else [];
    var r: string := if Given(rta) then "_" + Slug(rta.value) else [];
    assert ExportPrefix(city, street, rta) == c + s + r;
    FilterAppend(IsAsciiAlnum, c + s, r);
    FilterAppend(IsAsciiAlnum, c, s);
    SlugKeepsAlnum(city);
    PartKeepsAlnum(street);
    PartKeepsAlnum(rta);
  }
}
