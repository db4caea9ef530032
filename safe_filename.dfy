/**
 * The filename sanitiser shared by the tools (`get_safe_filename` in common/utils.py):
 * trim outer whitespace, turn each illegal character into `_`, trim dots and spaces
 * from both ends, cut over-long names to `max_length - 3` characters plus "...",
 * and fall back to a placeholder when nothing is left.
 */
module SafeFilename {
  import opened PyStrings

  /** The placeholder used for a name that sanitises to nothing. */
  const Untitled: string := "未命名"

  /**
   * The characters `re.sub` replaces by `_`: backslash, slash, star, question mark, colon,
   * double quote, less-than, greater-than and bar, plus CR, LF and TAB in the current
   * sanitiser (common/utils.py line 61) but not in the older one.
   */
  datatype Replaced = WithControls | WithoutControls

  predicate IsReplaced(set_: Replaced, c: char) {
    c == '\\' || c == '/' || c == '*' || c == '?' || c == ':' || c == '"' ||
    c == '<' || c == '>' || c == '|' ||
    (set_ == WithControls && (c == '\r' || c == '\n' || c == '\t'))
  }

  /** The characters the current sanitiser never lets through. */
  predicate IsIllegal(c: char) {
    IsReplaced(WithControls, c)
  }

  predicate IsDotOrSpace(c: char) {
    InSet(DotsAndSpaces, c)
  }

  /** `re.sub(cls, "_", s)` for a one-character class: a one-for-one replacement. */
  function ReplaceWhere(s: string, set_: Replaced): (r: string)
  {
    seq(|s|, i requires 0 <= i < |s| => if IsReplaced(set_, s[i]) then '_' else s[i])
  }

  /** Python's `s[:k]`, where a negative `k` counts from the end. */
  function PyPrefix(s: string, k: int): (r: string)
    ensures |r| <= |s| && r == s[..|r|]
    ensures 0 <= k <= |s| ==> |r| == k
  {
    if k >= 0 then s[..if k <= |s| then k else |s|]
    else s[..if |s| + k >= 0 then |s| + k else 0]
  }

  /** The name after lines 61 and 63 of `get_safe_filename`, before the length cut. */
  function CleanedName(name: string): string {
    Strip(ReplaceWhere(PyStrip(name), WithControls), DotsAndSpaces)
  }

  /**
   * The cleaned name is what is left of the trimmed input, with every illegal character
   * turned into `_`, once the dots and spaces at its two ends are removed: only dots and
   * spaces precede and follow it, and every other character is kept in place.
   */
  lemma CleanedNameIsReplacedPiece(name: string)
    ensures var t := PyStrip(name);
            var u := ReplaceWhere(t, WithControls);
            |u| == |t| &&
            (forall k :: 0 <= k < |t| ==> u[k] == if IsIllegal(t[k]) then '_' else t[k]) &&
            exists a, b :: 0 <= a <= b <= |u| && CleanedName(name) == u[a..b] &&
                           (forall k :: 0 <= k < a ==> IsDotOrSpace(u[k])) &&
                           (forall k :: b <= k < |u| ==> IsDotOrSpace(u[k]))
  {
    var u := ReplaceWhere(PyStrip(name), WithControls);
    var a := LeadingCount(u, DotsAndSpaces);
    var b := a + |CleanedName(name)|;
    assert CleanedName(name) == u[a..b];
    assert forall k :: b <= k < |u| ==> IsDotOrSpace(u[k]);
  }

  /** Replacing the illegal characters leaves none. */
  lemma ReplacedLegal(s: string)
    ensures forall i :: 0 <= i < |ReplaceWhere(s, WithControls)| ==> !IsIllegal(ReplaceWhere(s, WithControls)[i])
  {
    assert !IsIllegal('_');
  }

  /** A piece of a string without illegal characters has none. */
  lemma PieceLegal(t: string, a: nat, r: string)
    requires a + |r| <= |t| && r == t[a..a + |r|]
    requires forall i :: 0 <= i < |t| ==> !IsIllegal(t[i])
    ensures forall i :: 0 <= i < |r| ==> !IsIllegal(r[i])
  {
    forall i | 0 <= i < |r| ensures !IsIllegal(r[i]) {
      assert r[i] == t[a + i];
    }
  }

  lemma CleanedNameLegal(name: string)
    ensures forall i :: 0 <= i < |CleanedName(name)| ==> !IsIllegal(CleanedName(name)[i])
  {
    var t := ReplaceWhere(PyStrip(name), WithControls);
    ReplacedLegal(PyStrip(name));
    PieceLegal(t, LeadingCount(t, DotsAndSpaces), CleanedName(name));
  }

  /** The placeholder neither starts nor ends with a dot or a space. */
  lemma UntitledEnds()
    ensures !IsDotOrSpace(Untitled[0]) && !IsDotOrSpace(Untitled[|Untitled| - 1])
  {
    assert Untitled[0] == '未' && Untitled[|Untitled| - 1] == '名';
  }

  lemma CleanedNameEnds(name: string)
    ensures var r := CleanedName(name); r != [] ==> !IsDotOrSpace(r[0]) && !IsDotOrSpace(r[|r| - 1])
  {
  }

  /** `get_safe_filename(name, max_length)`. */
  function GetSafeFilename(name: string, maxLength: int): (r: string)
    // never empty
    ensures r != []
    // no illegal character survives
    ensures forall i :: 0 <= i < |r| ==> !IsIllegal(r[i])
    // the length bound
    ensures maxLength >= 3 ==> |r| <= maxLength
    // an over-long name keeps its first max_length - 3 characters and gains "..."
    ensures |CleanedName(name)| > maxLength >= 3 ==>
              r == CleanedName(name)[..maxLength - 3] + "..." && |r| == maxLength
    // a name that fits is the cleaned name, or the placeholder when that is empty
    ensures |CleanedName(name)| <= maxLength ==>
              r == (if CleanedName(name) == [] then Untitled else CleanedName(name))
    // an untruncated name neither starts nor ends with a dot or a space
    ensures |CleanedName(name)| <= maxLength ==> !IsDotOrSpace(r[0]) && !IsDotOrSpace(r[|r| - 1])
  {
    CleanedNameLegal(name);
    CleanedNameEnds(name);
    UntitledEnds();
    CutToLength(CleanedName(name), maxLength)
  }

  /** Lines 64-66 of `get_safe_filename`: the length cut and the placeholder. */
  function CutToLength(c: string, maxLength: int): (r: string)
    ensures r != []
    ensures (forall i :: 0 <= i < |c| ==> !IsIllegal(c[i])) ==> forall i :: 0 <= i < |r| ==> !IsIllegal(r[i])
    ensures maxLength >= 3 ==> |r| <= maxLength
    ensures |c| > maxLength >= 3 ==> r == c[..maxLength - 3] + "..." && |r| == maxLength
    ensures |c| <= maxLength ==> r == (if c == [] then Untitled else c)
  {
    var t := if |c| > maxLength then PyPrefix(c, maxLength - 3) + "..." else c;
    if t == [] then Untitled else t
  }

  /**
   * The outer trim happens before the replacement, so whitespace (including TAB, CR and
   * LF) at either end disappears instead of becoming `_`.
   */
  lemma {:induction false} OuterWhitespaceVanishes(c: char, s: string, d: char, maxLength: int)
    requires IsPySpace(c) && IsPySpace(d)
    ensures GetSafeFilename([c] + s + [d], maxLength) == GetSafeFilename(s, maxLength)
  {
    assert [c] + s + [d] == [c] + (s + [d]);
    StripDropsLeading(c, s + [d], Whitespace);
    StripDropsTrailing(s, d, Whitespace);
  }

  /** A TAB inside the name is an illegal character and becomes `_`. */
  lemma InnerTabBecomesUnderscore()
    ensures GetSafeFilename("a\tb", 100) == "a_b"
  {
    var s := "a\tb";
    assert LeadingCount(s, Whitespace) == 0 && TrailingCount(s, Whitespace) == 0;
    assert PyStrip(s) == s;
    var t := ReplaceWhere(s, WithControls);
    assert t == "a_b";
    assert LeadingCount(t, DotsAndSpaces) == 0 && TrailingCount(t, DotsAndSpaces) == 0;
    assert CleanedName(s) == t;
  }

  /**
   * The sanitiser is not idempotent: a truncated result ends in "...", and a second pass
   * trims those dots.
   */
  lemma NotIdempotent()
    ensures GetSafeFilename("aaaaa", 4) == "a..."
    ensures GetSafeFilename(GetSafeFilename("aaaaa", 4), 4) == "a"
  {
    CleanedPlain();
    CleanedDots();
    assert "aaaaa"[..1] + "..." == "a...";
  }

  lemma CleanedPlain()
    ensures CleanedName("aaaaa") == "aaaaa"
  {
    var s := "aaaaa";
    assert LeadingCount(s, Whitespace) == 0 && TrailingCount(s, Whitespace) == 0;
    assert PyStrip(s) == s;
    assert ReplaceWhere(s, WithControls) == s;
    assert LeadingCount(s, DotsAndSpaces) == 0 && TrailingCount(s, DotsAndSpaces) == 0;
  }

  lemma CleanedDots()
    ensures CleanedName("a...") == "a"
  {
    var u := "a...";
    assert LeadingCount(u, Whitespace) == 0 && TrailingCount(u, Whitespace) == 0;
    assert PyStrip(u) == u;
    assert ReplaceWhere(u, WithControls) == u;
    assert LeadingCount(u, DotsAndSpaces) == 0;
    assert u[..3] == "a.." && u[..2] == "a." && u[..1] == "a";
    assert TrailingCount(u, DotsAndSpaces) == 3;
  }
}
