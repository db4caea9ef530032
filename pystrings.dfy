/**
 * The few pieces of Python's `str` behaviour that the extraction tool relies on:
 * `strip()` over Python's whitespace set, `strip(chars)`, ASCII `lower()`,
 * `startswith`, `in` on strings and `str(n)` / `int(digits)` for naturals.
 * Strings are sequences of Unicode code points, as Python's are.
 */
module PyStrings {

  datatype Option<T> = None | Some(value: T)

  /** The characters for which Python's `str.isspace()` holds, which `str.strip()` removes. */
  predicate IsPySpace(c: char) {
    var n := c as int;
    (0x09 <= n <= 0x0D) || (0x1C <= n <= 0x20) || n == 0x85 || n == 0xA0 ||
    n == 0x1680 || (0x2000 <= n <= 0x200A) || n == 0x2028 || n == 0x2029 ||
    n == 0x202F || n == 0x205F || n == 0x3000
  }

  /**
   * The character sets the tool strips: Python's whitespace for `strip()`, and the
   * two characters of `strip(". ")`.
   */
  datatype StripSet = Whitespace | DotsAndSpaces

  predicate InSet(p: StripSet, c: char) {
    match p
    case Whitespace => IsPySpace(c)
    case DotsAndSpaces => c == '.' || c == ' '
  }

  /** How many leading characters of `s` belong to `p`. */
  function LeadingCount(s: string, p: StripSet): (n: nat)
    ensures n <= |s|
    ensures forall k :: 0 <= k < n ==> InSet(p, s[k])
    ensures n < |s| ==> !InSet(p, s[n])
  {
    if s == [] || !InSet(p, s[0]) then 0 else 1 + LeadingCount(s[1..], p)
  }

  /** How many trailing characters of `s` belong to `p`. */
  function TrailingCount(s: string, p: StripSet): (n: nat)
    ensures n <= |s|
    ensures forall k :: |s| - n <= k < |s| ==> InSet(p, s[k])
    ensures n < |s| ==> !InSet(p, s[|s| - n - 1])
  {
    if s == [] || !InSet(p, s[|s| - 1]) then 0 else 1 + TrailingCount(s[..|s| - 1], p)
  }

  /** `lstrip(chars)`. */
  function LStrip(s: string, p: StripSet): string {
    s[LeadingCount(s, p)..]
  }

  /** `rstrip(chars)`. */
  function RStrip(s: string, p: StripSet): string {
    s[..|s| - TrailingCount(s, p)]
  }

  /**
   * `strip(chars)`: the piece of `s` left once the run of `p` characters at each end is
   * removed; it neither starts nor ends in `p`.
   */
  function Strip(s: string, p: StripSet): (r: string)
    ensures var a := LeadingCount(s, p); a + |r| <= |s| && r == s[a..a + |r|]
    ensures var a := LeadingCount(s, p); forall k :: a + |r| <= k < |s| ==> InSet(p, s[k])
    ensures r != [] ==> !InSet(p, r[0]) && !InSet(p, r[|r| - 1])
  {
    var a := LeadingCount(s, p);
    var x := s[a..];
    assert forall k :: a <= k < |s| ==> s[k] == x[k - a];
    RStrip(x, p)
  }

  /** Python's argument-less `str.strip()`. */
  function PyStrip(s: string): string {
    Strip(s, Whitespace)
  }

  /** Leading characters satisfying `p` never survive `Strip`. */
  lemma StripDropsLeading(c: char, s: string, p: StripSet)
    requires InSet(p, c)
    ensures Strip([c] + s, p) == Strip(s, p)
  {
    assert ([c] + s)[1..] == s;
    assert LeadingCount([c] + s, p) == 1 + LeadingCount(s, p);
    assert LStrip([c] + s, p) == LStrip(s, p);
  }

  /** Trailing characters satisfying `p` never survive `Strip`. */
  lemma StripDropsTrailing(s: string, c: char, p: StripSet)
    requires InSet(p, c)
    ensures Strip(s + [c], p) == Strip(s, p)
  {
    var n := LeadingCount(s, p);
    var t := s + [c];
    if n == |s| {
      assert forall k :: 0 <= k < |t| ==> InSet(p, t[k]) by {
        forall k | 0 <= k < |t| ensures InSet(p, t[k]) {
          if k < |s| { assert t[k] == s[k]; }
        }
      }
      LeadingCountIs(t, p, |t|);
      assert LStrip(t, p) == [];
      assert LStrip(s, p) == [];
    } else {
      LeadingAppend(s, c, p);
      var x := LStrip(s, p);
      assert LStrip(t, p) == x + [c];
      RStripDropsTrailing(x, c, p);
    }
  }

  lemma LeadingAppend(s: string, c: char, p: StripSet)
    requires LeadingCount(s, p) < |s|
    ensures LeadingCount(s + [c], p) == LeadingCount(s, p)
    ensures LStrip(s + [c], p) == LStrip(s, p) + [c]
  {
    var n := LeadingCount(s, p);
    var t := s + [c];
    assert forall k :: 0 <= k <= n ==> t[k] == s[k];
    LeadingCountIs(t, p, n);
    assert t[n..] == s[n..] + [c];
  }

  lemma RStripDropsTrailing(x: string, c: char, p: StripSet)
    requires InSet(p, c)
    ensures RStrip(x + [c], p) == RStrip(x, p)
  {
    var t := x + [c];
    assert t[..|t| - 1] == x;
    assert TrailingCount(t, p) == 1 + TrailingCount(x, p);
    assert t[..|t| - TrailingCount(t, p)] == x[..|x| - TrailingCount(x, p)];
  }

  /** A string that neither starts nor ends in `p` is left as it is. */
  lemma StripUnchanged(s: string, p: StripSet)
    requires s != [] ==> !InSet(p, s[0]) && !InSet(p, s[|s| - 1])
    ensures Strip(s, p) == s
  {
    assert LeadingCount(s, p) == 0;
    assert TrailingCount(s, p) == 0;
  }

  /** One character of `p` on each side of an already stripped string is removed. */
  lemma StripSurrounded(c: char, s: string, d: char, p: StripSet)
    requires InSet(p, c) && InSet(p, d)
    requires s != [] ==> !InSet(p, s[0]) && !InSet(p, s[|s| - 1])
    ensures Strip([c] + s + [d], p) == s
  {
    assert [c] + s + [d] == [c] + (s + [d]);
    StripDropsLeading(c, s + [d], p);
    StripDropsTrailing(s, d, p);
    StripUnchanged(s, p);
  }

  /** The leading count is the one index that the characterisation allows. */
  lemma LeadingCountIs(s: string, p: StripSet, n: nat)
    requires n <= |s|
    requires forall k :: 0 <= k < n ==> InSet(p, s[k])
    requires n < |s| ==> !InSet(p, s[n])
    ensures LeadingCount(s, p) == n
  {
  }

  /** Python's `str.lower()` on ASCII letters; other characters are left alone. */
  function Lower(s: string): (r: string)
    ensures |r| == |s|
    ensures forall i :: 0 <= i < |s| ==> r[i] == LowerChar(s[i])
  {
    seq(|s|, i requires 0 <= i < |s| => LowerChar(s[i]))
  }

  function LowerChar(c: char): char {
    if 'A' <= c <= 'Z' then (c as int + 32) as char else c
  }

  predicate StartsWith(s: string, prefix: string) {
    |prefix| <= |s| && s[..|prefix|] == prefix
  }

  predicate EndsWith(s: string, suffix: string) {
    |suffix| <= |s| && s[|s| - |suffix|..] == suffix
  }

  /** Python's `needle in s` for strings. */
  predicate Contains(s: string, needle: string) {
    exists i :: 0 <= i <= |s| && StartsWith(s[i..], needle)
  }

  /** `s.startswith(('http://', 'https://'))`, the URL test used throughout the tool. */
  predicate IsHttpUrl(s: string) {
    StartsWith(s, "http://") || StartsWith(s, "https://")
  }

  predicate IsDigit(c: char) {
    '0' <= c <= '9'
  }

  predicate AllDigits(s: string) {
    forall i :: 0 <= i < |s| ==> IsDigit(s[i])
  }

  /** A decimal numeral as `str` writes it: digits only, and no leading zero unless it is "0". */
  predicate Canonical(s: string) {
    s != [] && AllDigits(s) && (s[0] == '0' ==> |s| == 1)
  }

  /** `str(n)` for a natural number: decimal, no padding. */
  function NatToString(n: nat): (r: string)
    ensures Canonical(r)
    ensures n > 0 ==> r[0] != '0'
    ensures n >= 10 ==> |r| >= 2
  {
    if n < 10 then [DigitChar(n)] else NatToString(n / 10) + [DigitChar(n % 10)]
  }

  function DigitChar(d: nat): (c: char)
    requires d < 10
    ensures IsDigit(c)
  {
    ('0' as int + d) as char
  }

  /** `int(s)` for a string of ASCII digits (leading zeros allowed, as in Python). */
  function ParseDigits(s: string): nat
    requires AllDigits(s)
  {
    if s == [] then 0 else 10 * ParseDigits(s[..|s| - 1]) + (s[|s| - 1] as int - '0' as int)
  }

  /** `int(str(n)) == n`. */
  lemma {:induction false} ParseNatToString(n: nat)
    ensures ParseDigits(NatToString(n)) == n
  {
    var r := NatToString(n);
    if n >= 10 {
      assert r[..|r| - 1] == NatToString(n / 10);
      ParseNatToString(n / 10);
    }
  }

  /** Different numbers print differently. */
  lemma NatToStringInjective(m: nat, n: nat)
    ensures NatToString(m) == NatToString(n) ==> m == n
  {
    if NatToString(m) == NatToString(n) {
      ParseNatToString(m);
      ParseNatToString(n);
    }
  }

  /** A nonzero leading digit makes a nonzero value. */
  lemma {:induction false} LeadingDigitPositive(s: string)
    requires s != [] && AllDigits(s) && s[0] != '0'
    ensures ParseDigits(s) > 0
    decreases |s|
  {
    if |s| > 1 {
      LeadingDigitPositive(s[..|s| - 1]);
    }
  }

  /**
   * A canonical numeral is `str` of its value: together with `ParseNatToString`, `str(n)` is
   * the one canonical numeral that reads back as `n`.
   */
  lemma {:induction false} CanonicalIsNatToString(s: string)
    requires Canonical(s)
    ensures NatToString(ParseDigits(s)) == s
    decreases |s|
  {
    var init := s[..|s| - 1];
    var n := ParseDigits(s);
    if |s| == 1 {
      assert init == [] && ParseDigits(init) == 0;
      assert n == s[0] as int - '0' as int < 10;
      assert DigitChar(n) == s[0];
    } else {
      assert init[0] == s[0];
      LeadingDigitPositive(init);
      CanonicalIsNatToString(init);
      assert n / 10 == ParseDigits(init) && n % 10 == s[|s| - 1] as int - '0' as int;
      assert s == init + [s[|s| - 1]];
    }
  }
}
