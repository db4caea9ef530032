/**
 * What the extraction tool sees of a worksheet cell: its value, as openpyxl returns it,
 * and its optional hyperlink, and the URL test main.py applies to a cell
 * (`_get_url_from_cell`).
 */
module Cells {
  import opened PyStrings

  /**
   * A cell value: empty (`None`), a string, or any other value (a number, a date, a
   * boolean), of which the tool only uses `str(value)` and its truth value.
   */
  datatype CellValue = Blank | Text(s: string) | Other(shown: string, truthy: bool)

  /** `str(value)`; an empty cell prints as "None". */
  function Str(v: CellValue): string {
    match v
    case Blank => "None"
    case Text(s) => s
    case Other(shown, _) => shown
  }

  /** Python's truth value of the cell value. */
  predicate Truthy(v: CellValue) {
    match v
    case Blank => false
    case Text(s) => s != []
    case Other(_, t) => t
  }

  /** A hyperlink: its target and its display text, either possibly absent. */
  datatype Hyperlink = Hyperlink(target: Option<string>, display: Option<string>)

  datatype Cell = Cell(value: CellValue, hyperlink: Option<Hyperlink>)

  /** The trimmed hyperlink target, when there is a non-empty one that is an http(s) URL. */
  predicate TargetIsUrl(c: Cell) {
    c.hyperlink.Some? && c.hyperlink.value.target.Some? &&
    c.hyperlink.value.target.value != [] && IsHttpUrl(PyStrip(c.hyperlink.value.target.value))
  }

  /** The trimmed string value, when the value is a non-empty string that is an http(s) URL. */
  predicate TextIsUrl(c: Cell) {
    c.value.Text? && c.value.s != [] && IsHttpUrl(PyStrip(c.value.s))
  }

  /**
   * `_get_url_from_cell`: the hyperlink target wins over the string value, each is trimmed
   * and accepted only when it starts with `http://` or `https://`, and a cell with neither
   * gives no URL.
   */
  function GetUrlFromCell(c: Cell): (r: Option<string>)
    ensures r.Some? ==> IsHttpUrl(r.value)
    ensures r.Some? ==> r.value != [] && !IsPySpace(r.value[0]) && !IsPySpace(r.value[|r.value| - 1])
    ensures TargetIsUrl(c) ==> r == Some(PyStrip(c.hyperlink.value.target.value))
    ensures !TargetIsUrl(c) && TextIsUrl(c) ==> r == Some(PyStrip(c.value.s))
    ensures r.None? <==> !TargetIsUrl(c) && !TextIsUrl(c)
  {
    if c.hyperlink.Some? && c.hyperlink.value.target.Some? && c.hyperlink.value.target.value != [] &&
       IsHttpUrl(PyStrip(c.hyperlink.value.target.value))
    then Some(PyStrip(c.hyperlink.value.target.value))
    else if c.value.Text? && c.value.s != [] && IsHttpUrl(PyStrip(c.value.s))
    then Some(PyStrip(c.value.s))
    else None
  }

  /** A cell that holds no string and no hyperlink never yields a URL. */
  lemma NonTextWithoutLinkHasNoUrl(c: Cell)
    requires !c.value.Text? && c.hyperlink.None?
    ensures GetUrlFromCell(c).None?
  {
  }

  /** Whitespace around a URL in the cell text is dropped. */
  lemma TrimmedTextUrl()
    ensures GetUrlFromCell(Cell(Text(" https://example.com/a.jpg\n"), None)) == Some("https://example.com/a.jpg")
  {
    var u := "https://example.com/a.jpg";
    TrimmedExample();
    assert IsHttpUrl(u) by {
      assert u[..8] == "https://";
    }
    assert TextIsUrl(Cell(Text(" https://example.com/a.jpg\n"), None));
  }

  lemma TrimmedExample()
    ensures PyStrip(" https://example.com/a.jpg\n") == "https://example.com/a.jpg"
  {
    var u := "https://example.com/a.jpg";
    assert " https://example.com/a.jpg\n" == [' '] + u + ['\n'];
    StripSurrounded(' ', u, '\n', Whitespace);
  }

  /** Text without a scheme is not a URL. */
  lemma SchemelessTextRefused()
    ensures GetUrlFromCell(Cell(Text("example.com/a.jpg"), None)).None?
  {
    StripUnchanged("example.com/a.jpg", Whitespace);
    assert "example.com/a.jpg"[0] == 'e';
  }

  /** Text with another scheme is not a URL. */
  lemma FtpTextRefused()
    ensures GetUrlFromCell(Cell(Text("ftp://x/a.jpg"), None)).None?
  {
    StripUnchanged("ftp://x/a.jpg", Whitespace);
    assert "ftp://x/a.jpg"[0] == 'f';
  }

  /** A URL hyperlink target is preferred even when the cell text is a URL too. */
  lemma TargetBeatsText()
    ensures GetUrlFromCell(Cell(Text("https://b"), Some(Hyperlink(Some("http://a"), None)))) == Some("http://a")
  {
    StripUnchanged("http://a", Whitespace);
    assert "http://a"[..7] == "http://";
  }
}
