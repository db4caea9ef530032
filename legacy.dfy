/**
 * The older command-line tool (refs/1.py): its filename sanitiser, its URL test, the check
 * of its configuration, the classification of a sheet by what its first rows hold, its
 * custom naming, and the row loop of `main` that names, saves and counts each row.
 */
module Legacy {
  import opened PyStrings
  import opened SafeFilename
  import opened Cells
  import opened UniquePaths
  import opened Runs

  // ------------------------------------------------------------------------------------
  // get_safe_filename (older version)

  /** The default `max_length`. */
  const LegacyNameLimit: int := 100

  /** Cutting a name without replaced characters leaves none. */
  lemma CutKeepsLegacyLegal(c: string, maxLength: int)
    requires forall i :: 0 <= i < |c| ==> !IsReplaced(WithoutControls, c[i])
    ensures var r := CutToLength(c, maxLength);
            forall i :: 0 <= i < |r| ==> !IsReplaced(WithoutControls, r[i])
  {
    if |c| > maxLength {
      var p := PyPrefix(c, maxLength - 3);
      var t := p + "...";
      forall i | 0 <= i < |t| ensures !IsReplaced(WithoutControls, t[i]) {
        if i < |p| {
          assert t[i] == c[i];
        } else {
          assert t[i] == '.';
        }
      }
    } else if c == [] {
      assert Untitled == ['未', '命', '名'];
    }
  }

  /**
   * `get_safe_filename(name, max_length)` of the older tool, on `str(name)`: trim the outer
   * whitespace, replace the nine path characters by `_` (CR, LF and TAB are kept, and dots
   * are not trimmed), cut an over-long name, and fall back to the placeholder.
   */
  function LegacySafeFilename(name: string, maxLength: int): (r: string)
    ensures r != []
    ensures maxLength >= 3 ==> |r| <= maxLength
    ensures forall i :: 0 <= i < |r| ==> !IsReplaced(WithoutControls, r[i])
  {
    var t := ReplaceWhere(PyStrip(name), WithoutControls);
    assert forall i :: 0 <= i < |t| ==> !IsReplaced(WithoutControls, t[i]);
    CutKeepsLegacyLegal(t, maxLength);
    CutToLength(t, maxLength)
  }

  /**
   * A trimmed name that fits keeps its length, every character in place, and each of the
   * nine path characters becomes `_`.
   */
  lemma LegacyShortName(name: string, maxLength: int)
    requires PyStrip(name) != [] && |PyStrip(name)| <= maxLength
    ensures var t, r := PyStrip(name), LegacySafeFilename(name, maxLength);
            |r| == |t| && forall i :: 0 <= i < |t| ==> r[i] == if IsReplaced(WithoutControls, t[i]) then '_' else t[i]
  {
  }

  /** A trimmed name that is too long keeps its first `max_length - 3` characters and gains "...". */
  lemma LegacyLongName(name: string, maxLength: int)
    requires 3 <= maxLength < |PyStrip(name)|
    ensures LegacySafeFilename(name, maxLength) == ReplaceWhere(PyStrip(name), WithoutControls)[..maxLength - 3] + "..."
  {
  }

  /** Unlike the current sanitiser, the older one keeps the dots at the end of a name. */
  lemma LegacyKeepsDots()
    ensures LegacySafeFilename("a...", 100) == "a..."
    ensures GetSafeFilename("a...", 100) == "a"
  {
    var u := "a...";
    assert LeadingCount(u, Whitespace) == 0 && TrailingCount(u, Whitespace) == 0;
    assert PyStrip(u) == u;
    assert ReplaceWhere(u, WithoutControls) == u;
    CleanedDots();
  }

  /** Unlike the current sanitiser, the older one keeps an inner TAB. */
  lemma LegacyKeepsTab()
    ensures LegacySafeFilename("a\tb", 100) == "a\tb"
    ensures GetSafeFilename("a\tb", 100) == "a_b"
  {
    var s := "a\tb";
    assert LeadingCount(s, Whitespace) == 0 && TrailingCount(s, Whitespace) == 0;
    assert PyStrip(s) == s;
    assert ReplaceWhere(s, WithoutControls) == s;
    InnerTabBecomesUnderscore();
  }

  // ------------------------------------------------------------------------------------
  // is_valid_image_url

  /** What an image URL contains, after lower-casing. */
  const ImageIndicators: seq<string> := [".jpg", ".jpeg", ".png", ".gif", ".bmp", ".webp", "/image", "/img", "images"]

  /**
   * `is_valid_image_url(url)` on a cell value: a non-empty string whose trimmed, lower-cased
   * text starts with `http://` or `https://` and contains one of the indicators.
   */
  predicate IsValidImageUrl(url: CellValue) {
    && url.Text? && url.s != []
    && var u := Lower(PyStrip(url.s));
       IsHttpUrl(u) && exists k :: 0 <= k < |ImageIndicators| && Contains(u, ImageIndicators[k])
  }

  /** Lower-casing neither adds nor removes a character of a strip set. */
  lemma InSetLower(p: StripSet, c: char)
    ensures InSet(p, LowerChar(c)) <==> InSet(p, c)
  {
  }

  lemma LowerSlice(s: string, a: nat, b: nat)
    requires a <= b <= |s|
    ensures Lower(s)[a..b] == Lower(s[a..b])
  {
    var x, y := Lower(s)[a..b], Lower(s[a..b]);
    assert |x| == |y|;
    forall i | 0 <= i < |x| ensures x[i] == y[i] {
      assert x[i] == Lower(s)[a + i];
    }
  }

  /** A string without upper-case letters is its own lower case. */
  lemma LowerUnchanged(s: string)
    requires forall i :: 0 <= i < |s| ==> !('A' <= s[i] <= 'Z')
    ensures Lower(s) == s
  {
  }

  lemma LowerTwice(s: string)
    ensures Lower(Lower(s)) == Lower(s)
  {
  }

  lemma LeadingCountLower(s: string, p: StripSet)
    ensures LeadingCount(Lower(s), p) == LeadingCount(s, p)
  {
    var n := LeadingCount(s, p);
    forall k | 0 <= k < n ensures InSet(p, Lower(s)[k]) {
      InSetLower(p, s[k]);
    }
    if n < |s| {
      InSetLower(p, s[n]);
    }
    LeadingCountIs(Lower(s), p, n);
  }

  /** The trailing count is the one index that the characterisation allows. */
  lemma {:induction false} TrailingCountIs(s: string, p: StripSet, n: nat)
    requires n <= |s|
    requires forall k :: |s| - n <= k < |s| ==> InSet(p, s[k])
    requires n < |s| ==> !InSet(p, s[|s| - n - 1])
    ensures TrailingCount(s, p) == n
    decreases |s|
  {
    if n > 0 {
      var init := s[..|s| - 1];
      assert forall k :: |init| - (n - 1) <= k < |init| ==> init[k] == s[k];
      TrailingCountIs(init, p, n - 1);
    }
  }

  lemma TrailingCountLower(s: string, p: StripSet)
    ensures TrailingCount(Lower(s), p) == TrailingCount(s, p)
  {
    var n := TrailingCount(s, p);
    forall k | |s| - n <= k < |s| ensures InSet(p, Lower(s)[k]) {
      InSetLower(p, s[k]);
    }
    if n < |s| {
      InSetLower(p, s[|s| - n - 1]);
    }
    TrailingCountIs(Lower(s), p, n);
  }

  /** Trimming and lower-casing commute. */
  lemma StripLower(s: string)
    ensures PyStrip(Lower(s)) == Lower(PyStrip(s))
  {
    var a := LeadingCount(s, Whitespace);
    LeadingCountLower(s, Whitespace);
    var x := s[a..];
    assert Lower(s)[a..] == Lower(x) by {
      LowerSlice(s, a, |s|);
    }
    var m := |x| - TrailingCount(x, Whitespace);
    TrailingCountLower(x, Whitespace);
    assert Lower(x)[..m] == Lower(x[..m]) by {
      LowerSlice(x, 0, m);
    }
  }

  /** The URL test ignores case. */
  lemma ValidUrlIgnoresCase(s: string)
    ensures IsValidImageUrl(Text(Lower(s))) <==> IsValidImageUrl(Text(s))
  {
    StripLower(s);
    LowerTwice(PyStrip(s));
  }

  /**
   * A lower-case URL that passes the older test also passes the link test of the current
   * tool's column mode.
   */
  lemma ValidLowerUrlIsCellUrl(s: string)
    requires Lower(s) == s && IsValidImageUrl(Text(s))
    ensures GetUrlFromCell(Cell(Text(s), None)) == Some(PyStrip(s))
  {
    StripLower(s);
    assert TextIsUrl(Cell(Text(s), None));
  }

  lemma UpperCaseLowered()
    ensures Lower("HTTP://A.PNG") == "http://a.png"
  {
    var s, t := "HTTP://A.PNG", "http://a.png";
    forall i | 0 <= i < |s| ensures Lower(s)[i] == t[i] {
      assert Lower(s)[i] == LowerChar(s[i]);
    }
  }

  /** A text passes the URL test when its trimmed lower case is a web address with indicator `k` at `i`. */
  lemma ValidByIndicator(s: string, u: string, k: nat, i: nat)
    requires s != [] && Lower(PyStrip(s)) == u && IsHttpUrl(u)
    requires k < |ImageIndicators| && i <= |u| && StartsWith(u[i..], ImageIndicators[k])
    ensures IsValidImageUrl(Text(s))
  {
  }

  lemma LowerCaseExample()
    ensures IsHttpUrl("http://a.png") && StartsWith("http://a.png"[8..], ImageIndicators[2])
  {
    var t := "http://a.png";
    assert t[..7] == "http://";
    assert t[8..] == ".png";
  }

  /** The older test accepts an upper-case address: it lower-cases first. */
  lemma UpperCaseUrlValid()
    ensures IsValidImageUrl(Text("HTTP://A.PNG"))
  {
    StripUnchanged("HTTP://A.PNG", Whitespace);
    UpperCaseLowered();
    LowerCaseExample();
    ValidByIndicator("HTTP://A.PNG", "http://a.png", 2, 8);
  }

  /** The link test of the current tool's column mode refuses it: it does not lower-case. */
  lemma UpperCaseUrlNotCellUrl()
    ensures GetUrlFromCell(Cell(Text("HTTP://A.PNG"), None)).None?
  {
    var s := "HTTP://A.PNG";
    StripUnchanged(s, Whitespace);
    assert !IsHttpUrl(s) by {
      assert s[0] == 'H';
    }
  }

  /** Every indicator is at least four characters long and starts with '.', '/' or 'i'. */
  lemma IndicatorShape(k: nat)
    requires k < |ImageIndicators|
    ensures |ImageIndicators[k]| >= 4
    ensures ImageIndicators[k][0] == '.' || ImageIndicators[k][0] == '/' || ImageIndicators[k][0] == 'i'
  {
  }

  /** No indicator starts at any position of "http://a". */
  lemma PageNoIndicatorAt(k: nat, i: nat)
    requires k < |ImageIndicators| && i <= |"http://a"|
    ensures !StartsWith("http://a"[i..], ImageIndicators[k])
  {
    IndicatorShape(k);
    var s := "http://a";
    if i + 4 <= |s| {
      assert s[i..][0] == s[i];
    }
  }

  /** A web address without an indicator is refused. */
  lemma PageUrlRefused()
    ensures !IsValidImageUrl(Text("http://a"))
  {
    var s := "http://a";
    StripUnchanged(s, Whitespace);
    LowerUnchanged(s);
    forall k, i | 0 <= k < |ImageIndicators| && 0 <= i <= |s| ensures !StartsWith(s[i..], ImageIndicators[k]) {
      PageNoIndicatorAt(k, i);
    }
  }

  // ------------------------------------------------------------------------------------
  // validate_config

  /** The settings of the older tool. */
  datatype NamingMethod = ByNameColumn | Custom

  datatype LegacyConfig = LegacyConfig(sheetName: string, nameColumn: string, imageColumn: string, startRow: int,
                                       fmt: string, naming: NamingMethod,
                                       prefix: string, suffix: string, connector: string)

  /** The errors `validate_config` reports. */
  datatype ConfigError =
    | SheetMissing(sheet: string)     // the sheet is not in the workbook
    | BadNameColumn(column: string)   // the name column is not letters
    | BadImageColumn(column: string)  // the image column is not letters
    | BadStartRow                     // the start row is below 1

  /** One or more of the letters A to Z, nothing else. */
  predicate ColumnLetters(s: string) {
    s != [] && forall i :: 0 <= i < |s| ==> 'A' <= s[i] <= 'Z'
  }

  /** `re.match(r'^[A-Z]+$', s)`: Python's `$` also matches just before a final newline. */
  predicate MatchesColumnPattern(s: string) {
    ColumnLetters(s) || (s != [] && s[|s| - 1] == '\n' && ColumnLetters(s[..|s| - 1]))
  }

  /** The pattern accepts a column name followed by one newline, but not by two. */
  lemma ColumnPatternNewline()
    ensures MatchesColumnPattern("AB\n") && !ColumnLetters("AB\n")
    ensures !MatchesColumnPattern("AB\n\n")
  {
    assert "AB\n"[..2] == "AB";
    assert "AB\n\n"[..3] == "AB\n";
    assert "AB\n\n"[2] == '\n';
  }

  /** The position of an error's check in `validate_config`. */
  function CheckOrder(e: ConfigError): nat {
    match e
    case SheetMissing(_) => 0
    case BadNameColumn(_) => 1
    case BadImageColumn(_) => 2
    case BadStartRow => 3
  }

  /** An error about the settings `cfg`. */
  predicate About(cfg: LegacyConfig, e: ConfigError) {
    e == SheetMissing(cfg.sheetName) || e == BadNameColumn(cfg.nameColumn) ||
    e == BadImageColumn(cfg.imageColumn) || e == BadStartRow
  }

  /** The error `e` if its check fails, else nothing. */
  function Report(fails: bool, e: ConfigError): seq<ConfigError> {
    if fails then [e] else []
  }

  /** The errors of the four checks, reported in turn. */
  function Reports(cfg: LegacyConfig, f0: bool, f1: bool, f2: bool, f3: bool): seq<ConfigError> {
    [] + Report(f0, SheetMissing(cfg.sheetName)) + Report(f1, BadNameColumn(cfg.nameColumn)) +
    Report(f2, BadImageColumn(cfg.imageColumn)) + Report(f3, BadStartRow)
  }

  /** An error is reported when its check fails, and only one of the four. */
  lemma InReports(cfg: LegacyConfig, f0: bool, f1: bool, f2: bool, f3: bool, e: ConfigError)
    ensures e in Reports(cfg, f0, f1, f2, f3) <==>
              || (f0 && e == SheetMissing(cfg.sheetName)) || (f1 && e == BadNameColumn(cfg.nameColumn))
              || (f2 && e == BadImageColumn(cfg.imageColumn)) || (f3 && e == BadStartRow)
  {
  }

  /** Each error is reported exactly when its check fails. */
  lemma ReportsMembers(cfg: LegacyConfig, f0: bool, f1: bool, f2: bool, f3: bool)
    ensures var es := Reports(cfg, f0, f1, f2, f3);
            && (SheetMissing(cfg.sheetName) in es <==> f0)
            && (BadNameColumn(cfg.nameColumn) in es <==> f1)
            && (BadImageColumn(cfg.imageColumn) in es <==> f2)
            && (BadStartRow in es <==> f3)
  {
    InReports(cfg, f0, f1, f2, f3, SheetMissing(cfg.sheetName));
    InReports(cfg, f0, f1, f2, f3, BadNameColumn(cfg.nameColumn));
    InReports(cfg, f0, f1, f2, f3, BadImageColumn(cfg.imageColumn));
    InReports(cfg, f0, f1, f2, f3, BadStartRow);
  }

  /** Nothing is reported exactly when no check fails. */
  lemma ReportsEmpty(cfg: LegacyConfig, f0: bool, f1: bool, f2: bool, f3: bool)
    ensures Reports(cfg, f0, f1, f2, f3) == [] <==> !f0 && !f1 && !f2 && !f3
  {
  }

  /** The errors in `es` are about `cfg`, come from the checks before `stage`, and are in check order. */
  predicate ReportedBefore(cfg: LegacyConfig, es: seq<ConfigError>, stage: nat) {
    && (forall j :: 0 <= j < |es| ==> About(cfg, es[j]) && CheckOrder(es[j]) < stage)
    && (forall i, j :: 0 <= i < j < |es| ==> CheckOrder(es[i]) < CheckOrder(es[j]))
  }

  /** Reporting check `stage` after the earlier ones keeps the errors in check order. */
  lemma ReportNext(cfg: LegacyConfig, es: seq<ConfigError>, stage: nat, f: bool, e: ConfigError)
    requires ReportedBefore(cfg, es, stage) && About(cfg, e) && CheckOrder(e) == stage
    ensures ReportedBefore(cfg, es + Report(f, e), stage + 1)
  {
  }

  lemma ReportsFirstTwo(cfg: LegacyConfig, f0: bool, f1: bool)
    ensures ReportedBefore(cfg, [] + Report(f0, SheetMissing(cfg.sheetName)) + Report(f1, BadNameColumn(cfg.nameColumn)), 2)
  {
    var es: seq<ConfigError> := [];
    ReportNext(cfg, es, 0, f0, SheetMissing(cfg.sheetName));
    es := es + Report(f0, SheetMissing(cfg.sheetName));
    ReportNext(cfg, es, 1, f1, BadNameColumn(cfg.nameColumn));
  }

  /** Every reported error is about the settings, and the errors come in check order. */
  lemma ReportsOrdered(cfg: LegacyConfig, f0: bool, f1: bool, f2: bool, f3: bool)
    ensures ReportedBefore(cfg, Reports(cfg, f0, f1, f2, f3), 4)
  {
    ReportsFirstTwo(cfg, f0, f1);
    var es := [] + Report(f0, SheetMissing(cfg.sheetName)) + Report(f1, BadNameColumn(cfg.nameColumn));
    ReportNext(cfg, es, 2, f2, BadImageColumn(cfg.imageColumn));
    es := es + Report(f2, BadImageColumn(cfg.imageColumn));
    ReportNext(cfg, es, 3, f3, BadStartRow);
  }

  /**
   * `validate_config(wb, config)`: one error per failed check, in the order of the checks;
   * no error exactly when every check passes.
   */
  method ValidateConfig(sheetNames: seq<string>, cfg: LegacyConfig) returns (errors: seq<ConfigError>)
    ensures SheetMissing(cfg.sheetName) in errors <==> cfg.sheetName !in sheetNames
    ensures BadNameColumn(cfg.nameColumn) in errors <==> !MatchesColumnPattern(cfg.nameColumn)
    ensures BadImageColumn(cfg.imageColumn) in errors <==> !MatchesColumnPattern(cfg.imageColumn)
    ensures BadStartRow in errors <==> cfg.startRow < 1
    ensures forall j :: 0 <= j < |errors| ==> About(cfg, errors[j])
    ensures forall i, j :: 0 <= i < j < |errors| ==> CheckOrder(errors[i]) < CheckOrder(errors[j])
    ensures errors == [] <==>
              cfg.sheetName in sheetNames && MatchesColumnPattern(cfg.nameColumn) &&
              MatchesColumnPattern(cfg.imageColumn) && cfg.startRow >= 1
  {
    var f0 := cfg.sheetName !in sheetNames;
    var f1 := !MatchesColumnPattern(cfg.nameColumn);
    var f2 := !MatchesColumnPattern(cfg.imageColumn);
    var f3 := cfg.startRow < 1;
    errors := [];
    errors := errors + Report(f0, SheetMissing(cfg.sheetName));
    errors := errors + Report(f1, BadNameColumn(cfg.nameColumn));
    errors := errors + Report(f2, BadImageColumn(cfg.imageColumn));
    errors := errors + Report(f3, BadStartRow);
    ReportsMembers(cfg, f0, f1, f2, f3);
    ReportsEmpty(cfg, f0, f1, f2, f3);
    ReportsOrdered(cfg, f0, f1, f2, f3);
  }

  // ------------------------------------------------------------------------------------
  // detect_excel_type

  /** What a sheet holds, by its first rows. */
  datatype ExcelType = Mixed | Images | Urls | Unknown

  /** The end of `detect_excel_type`: the sheet type from what the first rows showed. */
  function Classify(hasImages: bool, hasUrls: bool): (t: ExcelType)
    ensures t == Mixed <==> hasImages && hasUrls
    ensures t == Images <==> hasImages && !hasUrls
    ensures t == Urls <==> !hasImages && hasUrls
    ensures t == Unknown <==> !hasImages && !hasUrls
  {
    if hasImages && hasUrls then Mixed
    else if hasImages then Images
    else if hasUrls then Urls
    else Unknown
  }

  /** The row loop tries the embedded picture for these types... */
  predicate TriesEmbedded(t: ExcelType) {
    t == Images || t == Mixed
  }

  /** ... and the link for these. */
  predicate TriesLinks(t: ExcelType) {
    t == Urls || t == Mixed
  }

  /** The row loop tries exactly the kinds of image that the detection found. */
  lemma ClassifyTries(hasImages: bool, hasUrls: bool)
    ensures TriesEmbedded(Classify(hasImages, hasUrls)) <==> hasImages
    ensures TriesLinks(Classify(hasImages, hasUrls)) <==> hasUrls
  {
  }

  // ------------------------------------------------------------------------------------
  // Custom naming

  /** `sep.join(parts)`. */
  function Join(sep: string, parts: seq<string>): string
    decreases |parts|
  {
    if parts == [] then [] else if |parts| == 1 then parts[0] else parts[0] + sep + Join(sep, parts[1..])
  }

  /**
   * The custom name of the row loop, with `processed` images saved so far: the number of the
   * next image when only a suffix is set, else the prefix and the suffix that are set,
   * joined by the connector.
   */
  function CustomName(prefix: string, suffix: string, connector: string, processed: nat): (r: string)
    ensures prefix != [] && suffix != [] ==> r == prefix + connector + suffix
    ensures prefix != [] && suffix == [] ==> r == prefix
    ensures prefix == [] && suffix != [] && connector != [] ==> r == suffix
    ensures prefix == [] && suffix != [] && connector == [] ==> r == NatToString(processed + 1)
    ensures prefix == [] && suffix == [] ==> r == []
  {
    if prefix == [] && connector == [] && suffix != [] then NatToString(processed + 1)
    else
      var parts := (if prefix != [] then [prefix] else []) + (if suffix != [] then [suffix] else []);
      assert prefix != [] && suffix != [] ==>
        parts == [prefix, suffix] && parts[1..] == [suffix] && Join(connector, [suffix]) == suffix;
      Join(connector, parts)
  }

  /** Only the numbered case depends on the count, and it gives each count its own name. */
  lemma CustomNameCount(prefix: string, suffix: string, connector: string, m: nat, n: nat)
    ensures CustomName(prefix, suffix, connector, m) == CustomName(prefix, suffix, connector, n) <==>
              m == n || !(prefix == [] && connector == [] && suffix != [])
  {
    if prefix == [] && connector == [] && suffix != [] && NatToString(m + 1) == NatToString(n + 1) {
      NatToStringInjective(m + 1, n + 1);
    }
  }

  // ------------------------------------------------------------------------------------
  // The row loop of main

  /** What the embedded-image loader gives for a row's image cell. */
  datatype Picture = NoPicture | PictureSaves | PictureFails

  /**
   * What following a row's link gives: `download_image` fails, or it writes the temporary
   * file, which then is or is not opened and saved as the image.
   */
  datatype LinkFetch = FetchFails | FetchedUnsaved | FetchedSaved

  /**
   * One row: the name cell's value, the embedded picture, the image cell's value, what
   * following its link gives, and whether reading the row's cells raises.
   */
  datatype LegacyRow = LegacyRow(nameValue: CellValue, picture: Picture, imageValue: CellValue,
                                 link: LinkFetch, raises: bool)

  /** How the loop ends a row: skipped, counted as processed, or counted as failed. */
  datatype RowResult = Skipped | Succeeded | Failed

  /** Whether a row's image is saved, by the embedded picture or else by its link. */
  predicate RowSaves(kind: ExcelType, row: LegacyRow) {
    || (TriesEmbedded(kind) && row.picture == PictureSaves)
    || (TriesLinks(kind) && TextIsUrl(Cell(row.imageValue, None)) && row.link == FetchedSaved)
  }

  /** How the loop ends row `row`. */
  function ResultOf(cfg: LegacyConfig, kind: ExcelType, row: LegacyRow): RowResult {
    if row.raises then Failed
    else if cfg.naming == ByNameColumn && !Truthy(row.nameValue) then Skipped
    else if RowSaves(kind, row) then Succeeded
    else Failed
  }

  /** The name of a row's image, with `processed` images saved before it. */
  function LegacyName(cfg: LegacyConfig, row: LegacyRow, processed: nat): string {
    if cfg.naming == ByNameColumn then LegacySafeFilename(Str(row.nameValue), LegacyNameLimit)
    else CustomName(cfg.prefix, cfg.suffix, cfg.connector, processed)
  }

  /** How many rows of `s` end with `res`. */
  function CountResult(cfg: LegacyConfig, kind: ExcelType, s: seq<LegacyRow>, res: RowResult): (n: nat)
    ensures n <= |s|
  {
    if s == [] then 0
    else CountResult(cfg, kind, s[..|s| - 1], res) + (if ResultOf(cfg, kind, s[|s| - 1]) == res then 1 else 0)
  }

  /** Every row is skipped, processed or failed, and exactly one of them. */
  lemma {:induction false} ResultsPartition(cfg: LegacyConfig, kind: ExcelType, s: seq<LegacyRow>)
    ensures CountResult(cfg, kind, s, Succeeded) + CountResult(cfg, kind, s, Failed) +
            CountResult(cfg, kind, s, Skipped) == |s|
  {
    if s != [] {
      ResultsPartition(cfg, kind, s[..|s| - 1]);
    }
  }

  /** With custom naming no row is skipped. */
  lemma {:induction false} CustomNeverSkips(cfg: LegacyConfig, kind: ExcelType, s: seq<LegacyRow>)
    requires cfg.naming == Custom
    ensures CountResult(cfg, kind, s, Skipped) == 0
  {
    if s != [] {
      CustomNeverSkips(cfg, kind, s[..|s| - 1]);
    }
  }

  /** The temporary file a link is downloaded to before it is saved as the image. */
  function TempPath(name: string, fmt: string): string {
    "temp_" + name + "." + fmt
  }

  /**
   * The directory after a link's download through the temporary file `temp`: when the
   * download succeeds, `temp` is written (whatever was there before), the image is saved at
   * `path` if that works, and `temp` is unlinked. A `temp` that is a fresh name leaves the
   * directory as it was plus the saved image; one that names a file already there loses it.
   */
  function AfterTempDownload(files: set<string>, temp: string, path: string, fetch: LinkFetch): (r: set<string>)
    ensures temp !in files && temp != path ==> r == if fetch == FetchedSaved then files + {path} else files
    ensures fetch != FetchFails ==> temp !in r
  {
    if fetch == FetchFails then files
    else ((files + {temp}) + (if fetch == FetchedSaved then {path} else {})) - {temp}
  }

  /** The link step as the older tool writes it: the temporary file is `temp_<name>.<fmt>`. */
  function TempDownloadAsWritten(files: set<string>, name: string, fmt: string, path: string,
                                 fetch: LinkFetch): (r: set<string>)
    ensures fetch != FetchFails ==> TempPath(name, fmt) !in r
  {
    AfterTempDownload(files, TempPath(name, fmt), path, fetch)
  }

  /**
   * A file "temp_A.png" already in the directory, whether an original or the image of an
   * earlier row named "temp_A", is overwritten and deleted when a row named "A" downloads.
   */
  lemma TempDownloadDeletesFile()
    ensures var files := {"temp_A.png"};
            var r := TempDownloadAsWritten(files, "A", "png", "A.png", FetchedSaved);
            "temp_A.png" in files && "temp_A.png" !in r && r == {"A.png"}
  {
    assert TempPath("A", "png") == "temp_A.png";
  }

  /**
   * The link step with the temporary file at a free name (`temp_<name>.<fmt>` when no file
   * has it, else the next free name after it): the directory gains the saved image, if any,
   * and keeps every file it had.
   */
  method TempDownload(files: set<string>, name: string, fmt: string, path: string, fetch: LinkFetch)
    returns (dir: set<string>)
    ensures dir == if fetch == FetchedSaved then files + {path} else files
  {
    var temp := GetUniquePath(files + {path}, "temp_" + name, fmt);
    dir := AfterTempDownload(files, temp, path, fetch);
  }

  /**
   * The body of the row loop: read the name cell (a row with an empty one is skipped under
   * the name-column method), build the name, try the embedded picture, then the link, and
   * give the directory afterwards.
   */
  method HandleLegacyRow(cfg: LegacyConfig, kind: ExcelType, row: LegacyRow, processed: nat, files: set<string>)
    returns (result: RowResult, name: string, path: string, dir: set<string>)
    ensures result == ResultOf(cfg, kind, row)
    ensures result == Succeeded ==> name == LegacyName(cfg, row, processed) && IsUniquePath(files, name, cfg.fmt, path)
    ensures dir == if result == Succeeded then files + {path} else files
  {
    name, path, dir := "", "", files;
    if row.raises {
      return Failed, name, path, dir;
    }
    if cfg.naming == ByNameColumn {
      if !Truthy(row.nameValue) {
        return Skipped, name, path, dir;
      }
      name := LegacySafeFilename(Str(row.nameValue), LegacyNameLimit);
    } else {
      name := CustomName(cfg.prefix, cfg.suffix, cfg.connector, processed);
    }
    var success := false;
    if TriesEmbedded(kind) && row.picture != NoPicture {
      path := GetUniquePath(files, name, cfg.fmt);
      success := row.picture == PictureSaves;
      if success {
        dir := files + {path};
      }
    }
    if !success && TriesLinks(kind) && row.imageValue.Text? && row.imageValue.s != [] {
      var url := PyStrip(row.imageValue.s);
      if IsHttpUrl(url) {
        path := GetUniquePath(files, name, cfg.fmt);
        dir := TempDownload(files, name, cfg.fmt, path, row.link);
        success := row.link == FetchedSaved;
      }
    }
    result := if success then Succeeded else Failed;
  }

  /** The rows that are processed. */
  function SucceedsIn(cfg: LegacyConfig, kind: ExcelType, rows: seq<LegacyRow>): nat -> bool {
    (k: nat) => k < |rows| && ResultOf(cfg, kind, rows[k]) == Succeeded
  }

  /** Counting the processed rows as chosen items. */
  lemma {:induction false} CountSucceedsIn(cfg: LegacyConfig, kind: ExcelType, rows: seq<LegacyRow>, i: nat)
    requires i <= |rows|
    ensures CountChosen(SucceedsIn(cfg, kind, rows), i) == CountResult(cfg, kind, rows[..i], Succeeded)
  {
    if i > 0 {
      CountSucceedsIn(cfg, kind, rows, i - 1);
      assert rows[..i][..i - 1] == rows[..i - 1];
    }
  }

  /** Each saved image is named for its row, the count being its position. */
  ghost predicate LegacyNamed(cfg: LegacyConfig, rows: seq<LegacyRow>, saves: seq<Saved>)
    decreases |saves|
  {
    saves == [] ||
    var s := saves[|saves| - 1];
    LegacyNamed(cfg, rows, saves[..|saves| - 1]) && s.item < |rows| &&
    s.name == LegacyName(cfg, rows[s.item], |saves| - 1)
  }

  /** What `LegacyNamed` says about the image at position `j`. */
  lemma {:induction false} LegacyNamedAt(cfg: LegacyConfig, rows: seq<LegacyRow>, saves: seq<Saved>, j: nat)
    requires LegacyNamed(cfg, rows, saves) && j < |saves|
    ensures saves[j].item < |rows| && saves[j].name == LegacyName(cfg, rows[saves[j].item], j)
    decreases |saves|
  {
    if j < |saves| - 1 {
      var init := saves[..|saves| - 1];
      LegacyNamedAt(cfg, rows, init, j);
      assert saves[j] == init[j];
    }
  }

  /** The loop after its first `i` rows. */
  ghost predicate LegacyProgress(cfg: LegacyConfig, kind: ExcelType, rows: seq<LegacyRow>, existing: set<string>,
                                 i: nat, processed: nat, failed: nat, saves: seq<Saved>, files: set<string>)
  {
    && i <= |rows| && failed == CountResult(cfg, kind, rows[..i], Failed)
    && Tallied(existing, cfg.fmt, SucceedsIn(cfg, kind, rows), 0, i, processed, saves, files)
    && LegacyNamed(cfg, rows, saves)
  }

  /** Row `i` handled with the result `res`, the name and, for a processed row, the path. */
  lemma LegacyAdvance(cfg: LegacyConfig, kind: ExcelType, rows: seq<LegacyRow>, existing: set<string>,
                      i: nat, processed: nat, failed: nat, saves: seq<Saved>, files: set<string>,
                      res: RowResult, name: string, path: string)
    requires LegacyProgress(cfg, kind, rows, existing, i, processed, failed, saves, files)
    requires i < |rows| && res == ResultOf(cfg, kind, rows[i])
    requires res == Succeeded ==> name == LegacyName(cfg, rows[i], processed) && IsUniquePath(files, name, cfg.fmt, path)
    ensures res == Succeeded ==>
              LegacyProgress(cfg, kind, rows, existing, i + 1, processed + 1, failed,
                             saves + [Saved(name, path, i)], files + {path})
    ensures res != Succeeded ==>
              LegacyProgress(cfg, kind, rows, existing, i + 1, processed, if res == Failed then failed + 1 else failed,
                             saves, files)
  {
    assert rows[..i + 1][..i] == rows[..i];
    var chosen := SucceedsIn(cfg, kind, rows);
    if res == Succeeded {
      TallySaved(existing, cfg.fmt, chosen, 0, i, processed, saves, files, name, path);
      assert (saves + [Saved(name, path, i)])[..|saves|] == saves;
    } else {
      TallySkipped(existing, cfg.fmt, chosen, 0, i, processed, saves, files);
    }
  }

  /**
   * The row loop of `main` over the rows from the start row to the sheet's last row, for a
   * sheet of type `kind` and an output directory holding `existing`.
   */
  method LegacyExtract(cfg: LegacyConfig, kind: ExcelType, rows: seq<LegacyRow>, existing: set<string>)
    returns (processed: nat, failed: nat, saves: seq<Saved>, files: set<string>)
    ensures LegacyProgress(cfg, kind, rows, existing, |rows|, processed, failed, saves, files)
    ensures processed == CountResult(cfg, kind, rows, Succeeded) && |saves| == processed
    ensures failed == CountResult(cfg, kind, rows, Failed)
    ensures forall j :: 0 <= j < |saves| ==>
              saves[j].item < |rows| && ResultOf(cfg, kind, rows[saves[j].item]) == Succeeded &&
              saves[j].name == LegacyName(cfg, rows[saves[j].item], j)
  {
    processed, failed, saves, files := 0, 0, [], existing;
    var i := 0;
    while i < |rows|
      invariant LegacyProgress(cfg, kind, rows, existing, i, processed, failed, saves, files)
    {
      var res, name, path, dir := HandleLegacyRow(cfg, kind, rows[i], processed, files);
      LegacyAdvance(cfg, kind, rows, existing, i, processed, failed, saves, files, res, name, path);
      if res == Succeeded {
        processed, saves := processed + 1, saves + [Saved(name, path, i)];
      } else if res == Failed {
        failed := failed + 1;
      }
      files := dir;
      i := i + 1;
    }
    LegacyCounts(cfg, kind, rows, existing, processed, failed, saves, files);
    LegacyNames(cfg, kind, rows, existing, processed, failed, saves, files);
  }

  /** The counts of a finished loop: one per processed row and one per failed row. */
  lemma LegacyCounts(cfg: LegacyConfig, kind: ExcelType, rows: seq<LegacyRow>, existing: set<string>,
                     processed: nat, failed: nat, saves: seq<Saved>, files: set<string>)
    requires LegacyProgress(cfg, kind, rows, existing, |rows|, processed, failed, saves, files)
    ensures processed == CountResult(cfg, kind, rows, Succeeded) && |saves| == processed
    ensures failed == CountResult(cfg, kind, rows, Failed)
  {
    assert rows[..|rows|] == rows;
    CountSucceedsIn(cfg, kind, rows, |rows|);
  }

  /** Each saved image comes from a processed row and carries that row's name. */
  lemma LegacyNames(cfg: LegacyConfig, kind: ExcelType, rows: seq<LegacyRow>, existing: set<string>,
                    processed: nat, failed: nat, saves: seq<Saved>, files: set<string>)
    requires LegacyProgress(cfg, kind, rows, existing, |rows|, processed, failed, saves, files)
    ensures forall j :: 0 <= j < |saves| ==>
              saves[j].item < |rows| && ResultOf(cfg, kind, rows[saves[j].item]) == Succeeded &&
              saves[j].name == LegacyName(cfg, rows[saves[j].item], j)
  {
    FitsChosen(existing, cfg.fmt, SucceedsIn(cfg, kind, rows), saves);
    forall j | 0 <= j < |saves|
      ensures saves[j].item < |rows| && ResultOf(cfg, kind, rows[saves[j].item]) == Succeeded &&
              saves[j].name == LegacyName(cfg, rows[saves[j].item], j)
    {
      LegacyNamedAt(cfg, rows, saves, j);
      assert SucceedsIn(cfg, kind, rows)(saves[j].item);
    }
  }

  /** The images of a finished loop were saved in row order, each at a freshly allocated path. */
  lemma LegacyAllocated(cfg: LegacyConfig, kind: ExcelType, rows: seq<LegacyRow>, existing: set<string>,
                        processed: nat, failed: nat, saves: seq<Saved>, files: set<string>)
    requires LegacyProgress(cfg, kind, rows, existing, |rows|, processed, failed, saves, files)
    ensures forall a, b :: 0 <= a < b < |saves| ==> saves[a].item < saves[b].item
    ensures Allocated(existing, cfg.fmt, saves) && files == existing + PathSet(saves)
  {
    FitsOrdered(existing, cfg.fmt, SucceedsIn(cfg, kind, rows), saves);
    FitsAllocated(existing, cfg.fmt, SucceedsIn(cfg, kind, rows), saves);
  }
}
