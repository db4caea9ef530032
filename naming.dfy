/**
 * How the extraction tool names a saved image (main.py): the four naming policies of
 * `_make_name`, the start number of `_get_start_number`, and the column-mode choice of
 * `_resolve_column_name` between the name column, the link text and the policy.
 */
module Naming {
  import opened PyStrings
  import opened SafeFilename
  import opened Cells

  /** The naming policies: sequence number, prefix + number, link text, template. */
  datatype NamingMode = Seq | Prefix | Link | Regex

  /**
   * The values the form supplies: the prefix and separator of the prefix policy, the
   * template of the template policy, and the start number of each numbered policy.
   */
  datatype NamingInputs = NamingInputs(
    prefix: string, sep: string, template: string,
    seqStart: nat, prefixStart: nat, regexStart: nat)

  /** The placeholder that a template's counter replaces. */
  const Placeholder: string := "{n}"

  /** The prefix used when the prefix field is empty. */
  const DefaultPrefix: string := "Image"

  /** The template used when the template field is empty. */
  const DefaultTemplate: string := "img_{n}"

  /** The length limit passed to the sanitiser (its default). */
  const NameLimit: int := 100

  /** Whether `s` has the placeholder at position `i`. */
  predicate PlaceholderAt(s: string, i: int) {
    0 <= i && i + 3 <= |s| && s[i] == '{' && s[i + 1] == 'n' && s[i + 2] == '}'
  }

  /** Python's `"{n}" in s`. */
  predicate HasPlaceholder(s: string) {
    exists i :: 0 <= i < |s| && PlaceholderAt(s, i)
  }

  /** `s.replace("{n}", rep)`: every occurrence, scanning left to right without overlap. */
  function ReplacePlaceholder(s: string, rep: string): (r: string)
    decreases |s|
  {
    if |s| < 3 then s
    else if PlaceholderAt(s, 0) then rep + ReplacePlaceholder(s[3..], rep)
    else [s[0]] + ReplacePlaceholder(s[1..], rep)
  }

  /** A template without the placeholder is returned unchanged. */
  lemma {:induction false} ReplaceWithoutPlaceholder(s: string, rep: string)
    requires !HasPlaceholder(s)
    ensures ReplacePlaceholder(s, rep) == s
    decreases |s|
  {
    if |s| >= 3 {
      assert !PlaceholderAt(s, 0);
      assert !HasPlaceholder(s[1..]) by {
        forall i | PlaceholderAt(s[1..], i) ensures false {
          assert PlaceholderAt(s, i + 1);
        }
      }
      ReplaceWithoutPlaceholder(s[1..], rep);
    }
  }

  /** A non-empty template stays non-empty when the replacement is non-empty. */
  lemma ReplaceKeepsNonEmpty(s: string, rep: string)
    requires s != [] && rep != []
    ensures ReplacePlaceholder(s, rep) != []
  {
  }

  /** The first character of a replacement result that is not a digit comes from the template. */
  lemma {:induction false} ReplaceHead(s: string, rep: string)
    requires rep != [] && AllDigits(rep)
    requires ReplacePlaceholder(s, rep) != [] && !IsDigit(ReplacePlaceholder(s, rep)[0])
    ensures s != [] && !PlaceholderAt(s, 0)
    ensures ReplacePlaceholder(s, rep)[0] == s[0]
    ensures |s| >= 3 ==> ReplacePlaceholder(s, rep) == [s[0]] + ReplacePlaceholder(s[1..], rep)
    ensures |s| < 3 ==> ReplacePlaceholder(s, rep) == s
  {
  }

  /** Replacing by a non-empty string of digits leaves no placeholder behind. */
  lemma {:induction false} ReplaceRemovesPlaceholder(s: string, rep: string)
    requires rep != [] && AllDigits(rep)
    ensures !HasPlaceholder(ReplacePlaceholder(s, rep))
    decreases |s|
  {
    var r := ReplacePlaceholder(s, rep);
    if |s| < 3 {
    } else if PlaceholderAt(s, 0) {
      var t := ReplacePlaceholder(s[3..], rep);
      ReplaceRemovesPlaceholder(s[3..], rep);
      forall i | 0 <= i < |r| ensures !PlaceholderAt(r, i) {
        if i < |rep| {
          assert r[i] == rep[i];
        } else {
          assert !PlaceholderAt(t, i - |rep|);
        }
      }
    } else {
      var t := ReplacePlaceholder(s[1..], rep);
      ReplaceRemovesPlaceholder(s[1..], rep);
      forall i | 0 <= i < |r| ensures !PlaceholderAt(r, i) {
        if i == 0 {
          NoPlaceholderAtHead(s, rep);
        } else {
          assert !PlaceholderAt(t, i - 1);
        }
      }
    }
  }

  /**
   * A template that does not start with the placeholder does not produce one at the head:
   * the "n}" that would follow its "{" would have to come from the template too.
   */
  lemma NoPlaceholderAtHead(s: string, rep: string)
    requires rep != [] && AllDigits(rep)
    requires |s| >= 3 && !PlaceholderAt(s, 0)
    ensures !PlaceholderAt(ReplacePlaceholder(s, rep), 0)
  {
    var r := ReplacePlaceholder(s, rep);
    var t := ReplacePlaceholder(s[1..], rep);
    assert r == [s[0]] + t;
    if s[0] == '{' && |t| >= 2 && t[0] == 'n' {
      ReplaceHead(s[1..], rep);
      var u := s[1..];
      if |u| >= 3 {
        var v := ReplacePlaceholder(u[1..], rep);
        assert t == ['n'] + v;
        if v[0] == '}' {
          ReplaceHead(u[1..], rep);
        }
      }
    }
  }

  /** `_make_name(mode, counter, link_text)`. */
  function MakeName(mode: NamingMode, w: NamingInputs, counter: nat, linkText: Option<string>): (r: string)
    ensures r != []
  {
    match mode
    case Seq => NatToString(counter)
    case Prefix => (if w.prefix != [] then w.prefix else DefaultPrefix) + w.sep + NatToString(counter)
    case Link =>
      if linkText.Some? && linkText.value != [] && PyStrip(linkText.value) != []
      then GetSafeFilename(linkText.value, NameLimit)
      else NatToString(counter)
    case Regex =>
      var tpl := if w.template != [] then w.template else DefaultTemplate;
      ReplaceKeepsNonEmpty(tpl, NatToString(counter));
      ReplacePlaceholder(tpl, NatToString(counter))
  }

  /**
   * The sequence policy writes the counter in decimal without padding: a canonical numeral
   * that reads back as the counter, which `CanonicalIsNatToString` shows is `str(counter)`.
   */
  lemma SeqNameIsCounter(w: NamingInputs, counter: nat, linkText: Option<string>)
    ensures var r := MakeName(Seq, w, counter, linkText);
            Canonical(r) && ParseDigits(r) == counter
  {
    ParseNatToString(counter);
  }

  /**
   * The prefix policy: the prefix (or "Image"), the separator, then the counter as an
   * unpadded decimal numeral.
   */
  lemma PrefixNameShape(w: NamingInputs, counter: nat, linkText: Option<string>)
    ensures var r := MakeName(Prefix, w, counter, linkText);
            var p := if w.prefix == [] then DefaultPrefix else w.prefix;
            StartsWith(r, p + w.sep) && Canonical(r[|p + w.sep|..]) &&
            ParseDigits(r[|p + w.sep|..]) == counter
  {
    var p := if w.prefix == [] then DefaultPrefix else w.prefix;
    var r := MakeName(Prefix, w, counter, linkText);
    assert r == (p + w.sep) + NatToString(counter);
    assert r[|p + w.sep|..] == NatToString(counter);
    ParseNatToString(counter);
  }

  /**
   * The link policy: non-blank link text is sanitised; blank or missing text falls back to
   * the counter.
   */
  lemma LinkNameChoice(w: NamingInputs, counter: nat, linkText: Option<string>)
    ensures var r := MakeName(Link, w, counter, linkText);
            (linkText.Some? && PyStrip(linkText.value) != [] ==> r == GetSafeFilename(linkText.value, NameLimit)) &&
            (linkText.None? || PyStrip(linkText.value) == [] ==> r == NatToString(counter))
  {
  }

  /** Link-policy names never hold a character that a file name cannot. */
  lemma LinkNameLegal(w: NamingInputs, counter: nat, linkText: Option<string>)
    ensures var r := MakeName(Link, w, counter, linkText);
            forall i :: 0 <= i < |r| ==> !IsIllegal(r[i])
  {
    var r := MakeName(Link, w, counter, linkText);
    if !(linkText.Some? && linkText.value != [] && PyStrip(linkText.value) != []) {
      forall i | 0 <= i < |r| ensures !IsIllegal(r[i]) {
        assert IsDigit(r[i]);
      }
    }
  }

  /**
   * The template policy leaves no placeholder behind, and a template without one is the
   * name for every counter; `RegexNameAtPlaceholder` says what each placeholder becomes.
   */
  lemma RegexNameReplaces(w: NamingInputs, counter: nat, linkText: Option<string>)
    ensures var tpl := if w.template == [] then DefaultTemplate else w.template;
            var r := MakeName(Regex, w, counter, linkText);
            !HasPlaceholder(r) && (!HasPlaceholder(tpl) ==> r == tpl)
  {
    var tpl := if w.template == [] then DefaultTemplate else w.template;
    ReplaceRemovesPlaceholder(tpl, NatToString(counter));
    if !HasPlaceholder(tpl) {
      ReplaceWithoutPlaceholder(tpl, NatToString(counter));
    }
  }

  /**
   * `str.replace` replaces the placeholder wherever it stands: the text before and after an
   * occurrence is replaced on its own, whatever it ends or starts with, because no proper
   * end of "{n}" is also a start of it.
   */
  lemma {:induction false} ReplaceSplitsAtPlaceholder(a: string, b: string, rep: string)
    ensures ReplacePlaceholder(a + Placeholder + b, rep) ==
            ReplacePlaceholder(a, rep) + rep + ReplacePlaceholder(b, rep)
    decreases |a|
  {
    var s := a + Placeholder + b;
    if a == [] {
      assert PlaceholderAt(s, 0) && s[3..] == b;
    } else if PlaceholderAt(a, 0) {
      assert PlaceholderAt(s, 0) && s[3..] == a[3..] + Placeholder + b;
      ReplaceSplitsAtPlaceholder(a[3..], b, rep);
    } else {
      assert !PlaceholderAt(s, 0);
      assert s[1..] == a[1..] + Placeholder + b;
      ReplaceSplitsAtPlaceholder(a[1..], b, rep);
      if |a| < 3 {
        assert ReplacePlaceholder(a[1..], rep) == a[1..];
        assert a == [a[0]] + a[1..];
      }
    }
  }

  /**
   * The template policy puts the counter, as `str` writes it, at each placeholder: the
   * name of a template `a + "{n}" + b` is the name of `a`, the counter, then the name of `b`.
   */
  lemma RegexNameAtPlaceholder(w: NamingInputs, counter: nat, linkText: Option<string>, a: string, b: string)
    requires (if w.template == [] then DefaultTemplate else w.template) == a + Placeholder + b
    ensures var d := NatToString(counter);
            MakeName(Regex, w, counter, linkText) == ReplacePlaceholder(a, d) + d + ReplacePlaceholder(b, d)
  {
    ReplaceSplitsAtPlaceholder(a, b, NatToString(counter));
  }

  /** The default template names the seventh image "img_7". */
  lemma DefaultTemplateExample(w: NamingInputs)
    requires w.template == []
    ensures MakeName(Regex, w, 7, None) == "img_7"
  {
    var s := DefaultTemplate;
    var n := NatToString(7);
    assert n == "7";
    assert ReplacePlaceholder(s[4..], n) == "7" by {
      assert PlaceholderAt(s[4..], 0) && s[4..][3..] == [];
    }
    assert ReplacePlaceholder(s[3..], n) == "_7" by {
      assert !PlaceholderAt(s[3..], 0) && s[3..][1..] == s[4..];
    }
    assert ReplacePlaceholder(s[2..], n) == "g_7" by {
      assert !PlaceholderAt(s[2..], 0) && s[2..][1..] == s[3..];
    }
    assert ReplacePlaceholder(s[1..], n) == "mg_7" by {
      assert !PlaceholderAt(s[1..], 0) && s[1..][1..] == s[2..];
    }
    assert !PlaceholderAt(s, 0);
  }

  /** The sequence and prefix policies give different counters different names. */
  lemma NumberedNamesInjective(mode: NamingMode, w: NamingInputs, m: nat, n: nat)
    requires mode == Seq || mode == Prefix
    requires MakeName(mode, w, m, None) == MakeName(mode, w, n, None)
    ensures m == n
  {
    var p := if w.prefix == [] then DefaultPrefix else w.prefix;
    if mode == Prefix {
      var q := p + w.sep;
      assert (q + NatToString(m))[|q|..] == NatToString(m);
      assert (q + NatToString(n))[|q|..] == NatToString(n);
    }
    NatToStringInjective(m, n);
  }

  /** `_get_start_number(mode)`: the policy's start field; the link policy always starts at 1. */
  function StartNumber(mode: NamingMode, w: NamingInputs): (r: nat)
    ensures mode == Link ==> r == 1
    ensures mode == Seq ==> r == w.seqStart
    ensures mode == Prefix ==> r == w.prefixStart
    ensures mode == Regex ==> r == w.regexStart
  {
    match mode
    case Seq => w.seqStart
    case Prefix => w.prefixStart
    case Regex => w.regexStart
    case Link => 1
  }

  /** Trimmed text that may serve as a name: non-blank and not an http(s) URL. */
  function NameText(t: string): Option<string> {
    var s := PyStrip(t);
    if s != [] && !IsHttpUrl(s) then Some(s) else None
  }

  /** The name column's contribution: set, not empty, not blank, not a URL. */
  function FromNameColumn(nameCell: Option<CellValue>): Option<string> {
    if nameCell.Some? && !nameCell.value.Blank? then NameText(Str(nameCell.value)) else None
  }

  /** The image cell's own value, in the link policy: truthy, not blank, not a URL. */
  function FromCellText(c: Cell): Option<string> {
    if Truthy(c.value) then NameText(Str(c.value)) else None
  }

  /** The hyperlink's display text, in the link policy: present, not blank, not a URL. */
  function FromDisplay(c: Cell): Option<string> {
    if c.hyperlink.Some? && c.hyperlink.value.display.Some? && c.hyperlink.value.display.value != []
    then NameText(c.hyperlink.value.display.value)
    else None
  }

  /**
   * `_resolve_column_name`: the name column wins; in the link policy the image cell's text
   * and then the hyperlink's display text come next; otherwise the policy names the image
   * from the counter. `nameCell` is `None` when no name column is configured.
   */
  function ResolveColumnName(nameCell: Option<CellValue>, image: Cell, mode: NamingMode,
                             w: NamingInputs, counter: nat): (r: string)
    ensures r != []
    ensures FromNameColumn(nameCell).Some? ==> r == GetSafeFilename(FromNameColumn(nameCell).value, NameLimit)
    ensures FromNameColumn(nameCell).None? && mode != Link ==> r == MakeName(mode, w, counter, None)
    ensures FromNameColumn(nameCell).None? && mode == Link ==>
              r == (if FromCellText(image).Some? then GetSafeFilename(FromCellText(image).value, NameLimit)
                    else if FromDisplay(image).Some? then GetSafeFilename(FromDisplay(image).value, NameLimit)
                    else NatToString(counter))
  {
    var fromColumn := FromNameColumn(nameCell);
    if fromColumn.Some? then GetSafeFilename(fromColumn.value, NameLimit)
    else if mode == Link && FromCellText(image).Some? then GetSafeFilename(FromCellText(image).value, NameLimit)
    else if mode == Link && FromDisplay(image).Some? then GetSafeFilename(FromDisplay(image).value, NameLimit)
    else MakeName(mode, w, counter, None)
  }

  /** When the name column supplies the name, the counter plays no part. */
  lemma NameColumnIgnoresCounter(nameCell: Option<CellValue>, image: Cell, mode: NamingMode,
                                 w: NamingInputs, m: nat, n: nat)
    requires FromNameColumn(nameCell).Some?
    ensures ResolveColumnName(nameCell, image, mode, w, m) == ResolveColumnName(nameCell, image, mode, w, n)
  {
  }

  /** A URL in the name column is never used as the name. */
  lemma UrlNameCellFallsThrough(v: CellValue, image: Cell, mode: NamingMode, w: NamingInputs, counter: nat)
    requires IsHttpUrl(PyStrip(Str(v)))
    ensures ResolveColumnName(Some(v), image, mode, w, counter) == ResolveColumnName(None, image, mode, w, counter)
  {
  }

  /** Outside the link policy the image cell never influences the name. */
  lemma ImageCellIrrelevantOutsideLink(nameCell: Option<CellValue>, a: Cell, b: Cell, mode: NamingMode,
                                       w: NamingInputs, counter: nat)
    requires mode != Link
    ensures ResolveColumnName(nameCell, a, mode, w, counter) == ResolveColumnName(nameCell, b, mode, w, counter)
  {
  }

  /** Under the sequence and link policies a column-mode name is always a legal file name. */
  lemma ResolvedNameLegal(nameCell: Option<CellValue>, image: Cell, mode: NamingMode,
                          w: NamingInputs, counter: nat)
    requires mode == Seq || mode == Link
    ensures var r := ResolveColumnName(nameCell, image, mode, w, counter);
            forall i :: 0 <= i < |r| ==> !IsIllegal(r[i])
  {
    var r := ResolveColumnName(nameCell, image, mode, w, counter);
    if r == NatToString(counter) {
      forall i | 0 <= i < |r| ensures !IsIllegal(r[i]) {
        assert IsDigit(r[i]);
      }
    }
  }
}
