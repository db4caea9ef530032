# Excel image extractor — a Dafny model

This project models the core of a desktop tool that extracts images from `.xlsx` workbooks
and proves properties of that model. It also models the logic of the tool's older command-line
version. The tool has two modes:

- **Extract all embedded images.** It lists the workbook's `xl/media/` members and orders
  them by the last number in their names. Each one that Pillow can open, or that is an
  EMF/WMF picture the converter turns into one, is saved under the next name of the naming
  rule.
- **Extract by column.** For each row from the start row to the sheet's last row, it picks a
  file name: from the name column, from the link text, or from the naming rule. It then
  saves the picture embedded in the image cell or, failing that, downloads the cell's link.

Both modes keep a counter that only advances on success. Both stop at the next check of the
stop flag. Neither overwrites a file: `_get_unique_path` adds `_1`, `_2`, … before the
extension until the name is free.

The modules follow the program:

- `PyStrings`: the Python string operations the code relies on.
- `SafeFilename`: `get_safe_filename`.
- `Cells`: cell values, hyperlinks and `_get_url_from_cell`.
- `Naming`: the four naming modes, start numbers and `_resolve_column_name`.
- `UniquePaths`: the free-name loop.
- `Media`: the member filter, the numeric sort key, the sort and `_open_image_data`.
- `Download`: the retrying download and its stop checks.
- `Runs`: what a run leaves behind, shared by both loops.
- `ExtractAll` and `ExtractColumn`: the two modes.
- `Legacy`: the older tool.

Loops become `method`s. Each is proved against a recursive specification function or a
run invariant. The output directory is a set of file names. The stop flag is an index: the
first check that sees it set.

Things no computation here decides are inputs to the model:

- Pillow decoding;
- the vector converter;
- the image loader;
- the outcome of each HTTP attempt;
- whether reading a cell or saving a file raises.

Behaviours of the code that the model keeps on purpose:

- In column mode, a row whose download fails counts both as failed and as skipped.
- The current sanitiser is not idempotent: "aaaaa" cut to 4 gives "a...", which the
  sanitiser then reduces to "a".
- The older tool's column check uses Python's `$`, which also accepts one trailing newline.
- The older URL test lower-cases before testing, and the current link test does not. So
  "HTTP://A.PNG" passes the first and fails the second.
- The older tool defines `is_valid_image_url` but its row loop never calls it. The model
  states the function on its own, and the loop tests links with `startswith` as the code does.
- With custom naming and neither prefix nor suffix, the older tool's file name is empty.

## Model

| member | source | states |
|---|---|---|
| PyStrings.Strip | common/utils.py:61 | the result is the piece of the input after the leading characters of the set, every character after it is in the set, and it neither starts nor ends with one |
| PyStrings.Lower | 0001-extract-images-from-excel/main.py:758 | lower-casing keeps the length and maps each character by ASCII lower case |
| PyStrings.NatToString | 0001-extract-images-from-excel/main.py:398 | `str(n)` is a canonical numeral: a non-empty run of digits with no leading zero unless it is "0" |
| PyStrings.CanonicalIsNatToString | 0001-extract-images-from-excel/main.py:398 | every canonical numeral is `str` of its value, so `str(n)` is the only canonical numeral that reads back as `n` |
| PyStrings.ParseNatToString | 0001-extract-images-from-excel/main.py:398 | reading back the digits of `str(n)` gives `n` |
| PyStrings.NatToStringInjective | 0001-extract-images-from-excel/main.py:398 | different numbers give different strings |
| SafeFilename.GetSafeFilename | common/utils.py:54-66 | never empty; none of `\ / * ? : " < > \|`, CR, LF, TAB survive; at most `max_length` long when that is at least 3; a cleaned name that is too long becomes its first `max_length - 3` characters plus "..."; one that fits is kept, or becomes "未命名" if empty, and does not start or end with a dot or space |
| SafeFilename.CutToLength | common/utils.py:64-66 | the length limit and the fallback name: never empty, keeps legality, respects the limit, and leaves a fitting name as it is |
| SafeFilename.CleanedNameIsReplacedPiece | common/utils.py:61-63 | replacement turns each illegal character of the trimmed name into `_` and keeps every other one in place; the cleaned name is a contiguous piece of that, and only dots and spaces come before and after it |
| SafeFilename.CleanedNameLegal | common/utils.py:61-63 | the cleaned name holds no replaced character |
| SafeFilename.CleanedNameEnds | common/utils.py:63 | the cleaned name neither starts nor ends with a dot or a space |
| SafeFilename.OuterWhitespaceVanishes | common/utils.py:61 | whitespace around a name does not change the result |
| SafeFilename.InnerTabBecomesUnderscore | common/utils.py:61 | an inner TAB becomes `_` |
| SafeFilename.NotIdempotent | common/utils.py:63-66 | the sanitiser applied twice can differ from once: "aaaaa" gives "a..." and then "a" |
| SafeFilename.CleanedDots | common/utils.py:63 | trailing dots are removed |
| Cells.GetUrlFromCell | 0001-extract-images-from-excel/main.py:774-786 | the hyperlink target wins when its trimmed form is a web address; else the trimmed string value when it is one; else none; a result is always a trimmed web address |
| Cells.NonTextWithoutLinkHasNoUrl | 0001-extract-images-from-excel/main.py:781-786 | a cell without a link and without a string value gives no URL |
| Cells.TrimmedTextUrl | 0001-extract-images-from-excel/main.py:781-784 | a text value with outer whitespace gives the trimmed address |
| Cells.SchemelessTextRefused | 0001-extract-images-from-excel/main.py:783 | an address without its scheme is refused |
| Cells.FtpTextRefused | 0001-extract-images-from-excel/main.py:783 | an `ftp://` address is refused |
| Cells.TargetBeatsText | 0001-extract-images-from-excel/main.py:776-779 | a web hyperlink target is used before the cell text |
| Naming.MakeName | 0001-extract-images-from-excel/main.py:388-415 | names are never empty |
| Naming.SeqNameIsCounter | 0001-extract-images-from-excel/main.py:397-398 | the sequential name is a canonical numeral that reads back as the counter, which is `str(counter)` and nothing else |
| Naming.PrefixNameShape | 0001-extract-images-from-excel/main.py:400-403 | prefix mode gives the prefix (default "Image"), the separator, then a canonical numeral that reads back as the counter |
| Naming.LinkNameChoice | 0001-extract-images-from-excel/main.py:405-409 | link mode uses the sanitised link text when its trimmed form is non-empty, else the counter |
| Naming.LinkNameLegal | 0001-extract-images-from-excel/main.py:405-409 | a link-mode name holds no illegal character |
| Naming.ReplacePlaceholder | 0001-extract-images-from-excel/main.py:413 | `str.replace` of `{n}`, scanning left to right without overlap; no contract of its own, see the lemmas below |
| Naming.RegexNameReplaces | 0001-extract-images-from-excel/main.py:411-413 | template mode leaves no `{n}` behind, and a template without one is used as it is |
| Naming.ReplaceSplitsAtPlaceholder | 0001-extract-images-from-excel/main.py:413 | replacing in `a + "{n}" + b` gives the result for `a`, the replacement, then the result for `b`, whatever `a` and `b` are |
| Naming.RegexNameAtPlaceholder | 0001-extract-images-from-excel/main.py:411-413 | for a template `a + "{n}" + b`, the name is the name of `a`, `str(counter)`, then the name of `b`: each placeholder becomes the counter |
| Naming.ReplaceRemovesPlaceholder | 0001-extract-images-from-excel/main.py:413 | replacing `{n}` by digits leaves no `{n}` |
| Naming.ReplaceWithoutPlaceholder | 0001-extract-images-from-excel/main.py:413 | a string without `{n}` is unchanged |
| Naming.DefaultTemplateExample | 0001-extract-images-from-excel/main.py:411-413 | the default template with counter 7 gives "img_7" |
| Naming.NumberedNamesInjective | 0001-extract-images-from-excel/main.py:397-403 | sequential and prefix names of different counters differ |
| Naming.StartNumber | 0001-extract-images-from-excel/main.py:417-425 | each mode's start number is its spin box, and link mode starts at 1 |
| Naming.ResolveColumnName | 0001-extract-images-from-excel/main.py:710-742 | a non-empty, non-URL name-column value gives its sanitised text; else, in link mode, the non-URL cell text, then the hyperlink display; else the naming rule |
| Naming.NameColumnIgnoresCounter | 0001-extract-images-from-excel/main.py:715-721 | a name taken from the name column does not depend on the counter |
| Naming.UrlNameCellFallsThrough | 0001-extract-images-from-excel/main.py:718-721 | a name cell holding a web address is treated as absent |
| Naming.ImageCellIrrelevantOutsideLink | 0001-extract-images-from-excel/main.py:723-742 | outside link mode the image cell does not affect the name |
| Naming.ResolvedNameLegal | 0001-extract-images-from-excel/main.py:710-742 | in sequential and link modes the resolved name holds no illegal character |
| UniquePaths.GetUniquePath | 0001-extract-images-from-excel/main.py:789-796 | the path is not in the directory, and it is the first free one among `name.fmt`, `name_1.fmt`, `name_2.fmt`, … |
| UniquePaths.CandidateInjective | 0001-extract-images-from-excel/main.py:791-795 | different suffix numbers give different paths |
| UniquePaths.UniquePathDeterministic | 0001-extract-images-from-excel/main.py:789-796 | the free path is unique |
| UniquePaths.EmptyDirectoryKeepsName | 0001-extract-images-from-excel/main.py:791-793 | in an empty directory the name is used without a suffix |
| UniquePaths.ThirdCopyExample | 0001-extract-images-from-excel/main.py:791-795 | with `foo.png` and `foo_1.png` present the path is `foo_2.png` |
| Media.CollectMedia | 0001-extract-images-from-excel/main.py:505-512 | keeps, in order, exactly the members under `xl/media/` that are not directories |
| Media.MediaMembersExact | 0001-extract-images-from-excel/main.py:509-511 | a member is kept if and only if it is listed and is a media file |
| Media.SortKey | 0001-extract-images-from-excel/main.py:519-521 | the value of the last digit run, or 0; no contract of its own, see the lemmas below |
| Media.SortKeyOfNumbered | 0001-extract-images-from-excel/main.py:519-521 | a name whose last digit run is `d`, leading zeros included, has the value of `d` as its key |
| Media.SortKeyWithoutDigits | 0001-extract-images-from-excel/main.py:519-521 | a name without digits has key 0 |
| Media.LastDigitRunSkipsTail | 0001-extract-images-from-excel/main.py:519-521 | text without digits after the last number does not change it |
| Media.SortByKey | 0001-extract-images-from-excel/main.py:523 | a stable insertion sort by key; no contract of its own, see the two lemmas below |
| Media.SortByKeySorted | 0001-extract-images-from-excel/main.py:523 | the sort orders by key and is a permutation |
| Media.SortByKeyStable | 0001-extract-images-from-excel/main.py:523 | members with equal keys keep their order |
| Media.ExampleKeys | 0001-extract-images-from-excel/main.py:519-521 | `image3.png`, `image10.png` and `image1.png` have keys 3, 10 and 1 |
| Media.SortExample | 0001-extract-images-from-excel/main.py:523 | those three sort as 1, 3, 10, not as text |
| Media.OpenImageData | 0001-extract-images-from-excel/main.py:745-771 | decoded when Pillow opens it; else converted when the converter succeeds on a `.emf`/`.wmf` suffix or on an EMF or WMF header; else unsupported |
| Media.BaseNameAfterSlash | 0001-extract-images-from-excel/main.py:758 | the file name of a path is the part after its last `/` |
| Media.PathSuffixOf | 0001-extract-images-from-excel/main.py:758 | the suffix of `dir/stem.ext` is `.ext` |
| Media.HiddenFileHasNoSuffix | 0001-extract-images-from-excel/main.py:758 | a name like `.emf` has no suffix |
| Media.VectorExtensionIgnoresCase | 0001-extract-images-from-excel/main.py:758-759 | `.EMF`, `.Wmf`, … count as vector extensions |
| Media.OtherExtensionUnsupported | 0001-extract-images-from-excel/main.py:757-768 | an undecodable member with another extension and no vector header is unsupported |
| Media.HiddenEmfUnsupported | 0001-extract-images-from-excel/main.py:758-768 | an undecodable member called `.emf` without a vector header is unsupported |
| Media.EmfHeaderConverted | 0001-extract-images-from-excel/main.py:762-771 | an undecodable member whose data starts with the EMF signature is converted when the converter succeeds |
| Download.DownloadAndSave | 0001-extract-images-from-excel/main.py:813-849 | the result, the stop checks made and the waits equal the attempt specification |
| Download.FetchFrom | 0001-extract-images-from-excel/main.py:825-849 | the attempt specification: a stop check before each attempt, a success ends it, a failure other than the last waits `k + 1` seconds; no contract of its own, see the lemmas below |
| Download.FetchOkIff | 0001-extract-images-from-excel/main.py:825-849 | a download saves if and only if one of the three attempts succeeds before a stop is seen |
| Download.FetchPollsBounded | 0001-extract-images-from-excel/main.py:825-827 | a download checks the stop flag at least once and at most once per attempt |
| Download.AllAttemptsFail | 0001-extract-images-from-excel/main.py:839-849 | three failures make three checks, wait 1 s and 2 s, and fail |
| Download.StopBeforeDownload | 0001-extract-images-from-excel/main.py:826-827 | a stop already requested gives up before any attempt |
| Download.FirstAttemptSucceeds | 0001-extract-images-from-excel/main.py:828-837 | a first attempt that succeeds needs no wait |
| ExtractAll.Reached | 0001-extract-images-from-excel/main.py:540-543 | the loop reaches every entry unless the stop is seen before the last one |
| ExtractAll.ProcessEntry | 0001-extract-images-from-excel/main.py:544-566 | an entry is saved if and only if it is read, opened and saved, and under the naming rule's name at a free path |
| ExtractAll.Step | 0001-extract-images-from-excel/main.py:540-579 | one pass of the loop keeps the run invariant |
| ExtractAll.RunEntries | 0001-extract-images-from-excel/main.py:540-579 | the loop handles the reached entries and keeps the run invariant |
| ExtractAll.ExtractAllImages | 0001-extract-images-from-excel/main.py:503-581 | unreadable, no media, finished or cancelled exactly as the source decides; successes count the saved entries; successes plus failures are the entries handled; the counter is the start number plus the successes; the j-th image has the naming rule's name for `start + j`; images come in entry order, each at a free path, and none overwrites |
| ExtractAll.ProgressCounts | 0001-extract-images-from-excel/main.py:533-579 | the successes are the saving entries handled so far |
| ExtractAll.ProgressNames | 0001-extract-images-from-excel/main.py:559-566 | the j-th image is named for counter `start + j` |
| ExtractAll.ProgressItems | 0001-extract-images-from-excel/main.py:544-566 | each image comes from a saving entry already handled |
| ExtractAll.PolicyNamedEach | 0001-extract-images-from-excel/main.py:559-566 | the recursive naming invariant, index by index |
| ExtractAll.CountSavingAll | 0001-extract-images-from-excel/main.py:533-579 | every entry succeeds if and only if the successes equal the entries |
| ExtractAll.CountSavingNone | 0001-extract-images-from-excel/main.py:533-579 | no entry succeeds if and only if the successes are zero |
| ExtractColumn.RowsAccounted | 0001-extract-images-from-excel/main.py:643-696 | each handled row is saved, skipped or errored, exactly one of them; the failures are the failed downloads plus the errors |
| ExtractColumn.HandleRow | 0001-extract-images-from-excel/main.py:637-696 | one row makes at least one and at most four stop checks |
| ExtractColumn.ProcessRow | 0001-extract-images-from-excel/main.py:637-696 | the row's event and stop checks equal the row specification, and a saved image is at a free path |
| ExtractColumn.WalkFrom | 0001-extract-images-from-excel/main.py:630-702 | the loop specification: a stop check before each row, and each row handled in turn; no contract of its own, see the lemmas below |
| ExtractColumn.WalkLength | 0001-extract-images-from-excel/main.py:630-633 | the loop handles at most the rows left, and all of them unless cancelled |
| ExtractColumn.UnstoppedWalkFinishes | 0001-extract-images-from-excel/main.py:630-633 | without a stop request the loop is never cancelled |
| ExtractColumn.CancelledWalkStopped | 0001-extract-images-from-excel/main.py:631-633 | a cancelled loop had a stop request |
| ExtractColumn.UnstoppedLinkSaved | 0001-extract-images-from-excel/main.py:668-683 | without a stop, a row saves its link if and only if it does not raise, has no saved embedded picture, has a URL, and one attempt succeeds |
| ExtractColumn.EmbeddedNeedsLoader | 0001-extract-images-from-excel/main.py:646 | without the loader no embedded picture is saved |
| ExtractColumn.RowsNamedAt | 0001-extract-images-from-excel/main.py:639-641 | the j-th image is named for its row and counter `start + j` |
| ExtractColumn.RowsNamedEach | 0001-extract-images-from-excel/main.py:639-641 | the same for every image |
| ExtractColumn.StepProgress | 0001-extract-images-from-excel/main.py:630-702 | handling one row keeps the run invariant |
| ExtractColumn.Step | 0001-extract-images-from-excel/main.py:630-702 | one pass of the loop body keeps the run invariant |
| ExtractColumn.RunRows | 0001-extract-images-from-excel/main.py:630-702 | the loop's events and cancellation equal the loop specification |
| ExtractColumn.ProgressEnd | 0001-extract-images-from-excel/main.py:630-633 | where the loop stops, its events are the whole specification, and it is cancelled exactly when rows remain |
| ExtractColumn.ProgressItems | 0001-extract-images-from-excel/main.py:643-683 | each image comes from a row whose event saves |
| ExtractColumn.ProgressOrdered | 0001-extract-images-from-excel/main.py:630-702 | images come in row order |
| ExtractColumn.ProgressAllocated | 0001-extract-images-from-excel/main.py:651-675 | each image got the free path of the directory as it then was |
| ExtractColumn.ExtractByColumn | 0001-extract-images-from-excel/main.py:587-704 | no rows exactly when there is no last row or it is before the start row; otherwise the events follow the specification, a finished loop handles every row and only a stop request cancels; the success, failure and skip counts, the counter, the names, the order and the allocation of the saved images |
| Legacy.LegacySafeFilename | 0001-extract-images-from-excel/refs/1.py:282-289 | never empty, within `max_length` when that is at least 3, and none of the nine path characters survive |
| Legacy.LegacyShortName | 0001-extract-images-from-excel/refs/1.py:284-289 | a trimmed name that fits keeps its length, each path character becomes `_`, and all else is kept |
| Legacy.LegacyLongName | 0001-extract-images-from-excel/refs/1.py:286-287 | a name that is too long keeps `max_length - 3` characters and gains "..." |
| Legacy.LegacyKeepsDots | 0001-extract-images-from-excel/refs/1.py:284-289 | the older sanitiser keeps trailing dots, and the current one removes them |
| Legacy.LegacyKeepsTab | 0001-extract-images-from-excel/refs/1.py:284 | the older sanitiser keeps an inner TAB, and the current one replaces it |
| Legacy.IsValidImageUrl | 0001-extract-images-from-excel/refs/1.py:325-338 | a non-empty string whose trimmed lower case starts with `http://` or `https://` and contains one of the nine image indicators; no contract of its own, see the lemmas below |
| Legacy.ValidUrlIgnoresCase | 0001-extract-images-from-excel/refs/1.py:325-338 | the URL test gives the same verdict for a text and its lower case |
| Legacy.ValidLowerUrlIsCellUrl | 0001-extract-images-from-excel/refs/1.py:325-335 | a lower-case text that passes also passes the current tool's link test |
| Legacy.UpperCaseUrlValid | 0001-extract-images-from-excel/refs/1.py:330-338 | "HTTP://A.PNG" passes the older test |
| Legacy.UpperCaseUrlNotCellUrl | 0001-extract-images-from-excel/main.py:781-786 | "HTTP://A.PNG" fails the current link test |
| Legacy.PageUrlRefused | 0001-extract-images-from-excel/refs/1.py:336-338 | a web address without an image indicator is refused |
| Legacy.ColumnPatternNewline | 0001-extract-images-from-excel/refs/1.py:260-264 | the column pattern accepts "AB" plus one newline but not two |
| Legacy.ValidateConfig | 0001-extract-images-from-excel/refs/1.py:251-271 | each error is present if and only if its check fails, all errors are about the settings, they come in check order, and there are none if and only if every check passes |
| Legacy.InReports | 0001-extract-images-from-excel/refs/1.py:251-271 | an error is reported if and only if it is one of the failed checks' errors |
| Legacy.ReportsMembers | 0001-extract-images-from-excel/refs/1.py:251-271 | each check's error is reported if and only if the check fails |
| Legacy.ReportsEmpty | 0001-extract-images-from-excel/refs/1.py:251-271 | nothing is reported if and only if no check fails |
| Legacy.ReportsOrdered | 0001-extract-images-from-excel/refs/1.py:251-271 | reported errors are about the settings and in check order |
| Legacy.Classify | 0001-extract-images-from-excel/refs/1.py:404-411 | mixed for both, images or URLs for one, unknown for neither, each if and only if |
| Legacy.ClassifyTries | 0001-extract-images-from-excel/refs/1.py:404-411 | the row loop tries embedded pictures exactly when some were found, and links exactly when some were found |
| Legacy.CustomName | 0001-extract-images-from-excel/refs/1.py:669-677 | prefix, connector and suffix when both parts are set; the set part alone otherwise; the next image number when only a suffix and no connector is set; empty when neither part is set |
| Legacy.CustomNameCount | 0001-extract-images-from-excel/refs/1.py:669-677 | the name depends on the count only in the numbered case, where different counts give different names |
| Legacy.ResultsPartition | 0001-extract-images-from-excel/refs/1.py:658-738 | every row is skipped, processed or failed, exactly one |
| Legacy.CustomNeverSkips | 0001-extract-images-from-excel/refs/1.py:663-677 | with custom naming no row is skipped |
| Legacy.AfterTempDownload | 0001-extract-images-from-excel/refs/1.py:709-722 | a download through a temporary file that names no file and not the image leaves the directory plus the saved image; a successful download never leaves the temporary file behind |
| Legacy.TempDownloadAsWritten | 0001-extract-images-from-excel/refs/1.py:709-717 | with `temp_<name>.<fmt>` as the temporary file, no file of that name is left after a successful download |
| Legacy.TempDownloadDeletesFile | 0001-extract-images-from-excel/refs/1.py:709-717 | a directory holding `temp_A.png` loses it when a row named `A` downloads |
| Legacy.TempDownload | 0001-extract-images-from-excel/refs/1.py:709-722 | with the temporary file at a free name, the directory gains exactly the saved image, if any |
| Legacy.HandleLegacyRow | 0001-extract-images-from-excel/refs/1.py:659-736 | the row's result follows the specification; a processed row is named for the current count and saved at a free path; the directory afterwards is the old one plus the saved image |
| Legacy.CountSucceedsIn | 0001-extract-images-from-excel/refs/1.py:724-729 | the processed count is the number of processed rows |
| Legacy.LegacyNamedAt | 0001-extract-images-from-excel/refs/1.py:663-677 | the j-th image carries its row's name for count j |
| Legacy.LegacyAdvance | 0001-extract-images-from-excel/refs/1.py:724-736 | a processed row adds one to `processed` and one image, a failed row one to `failed`, and a skipped row nothing |
| Legacy.LegacyExtract | 0001-extract-images-from-excel/refs/1.py:652-736 | after all rows, the loop invariant holds; `processed` counts the processed rows and equals the images saved; `failed` counts the failed rows; each image comes from a processed row and carries that row's name |
| Legacy.LegacyCounts | 0001-extract-images-from-excel/refs/1.py:724-736 | `processed` counts the processed rows and `failed` the failed rows |
| Legacy.LegacyNames | 0001-extract-images-from-excel/refs/1.py:663-677 | each image comes from a processed row and carries that row's name |
| Legacy.LegacyAllocated | 0001-extract-images-from-excel/refs/1.py:683-722 | images come in row order, each at the free path of the directory as it then was, and the directory is the original files plus the images (with the temporary file at a free name) |
| Runs.AllocatedFresh | 0001-extract-images-from-excel/main.py:789-796 | no image of a run lands on an original file or on another image's file |
| Runs.FitsOrdered | 0001-extract-images-from-excel/main.py:630-702 | the images of a run come from strictly increasing items |

## Left out

- The Qt window is not part of this model: widgets, progress bars, message boxes and the
  log. So are the summary printing and the timing, which are I/O.
- The checks in `validate` are not modelled, except that column mode's start row is at least
  1, which main.py:461-462 ensure. `ExtractColumn.ExtractByColumn` requires it.
- Reading the zip archive and the cells, Pillow, the image loader and the HTTP request are
  boolean inputs per entry or per row. Decoding and saving image data are not modelled.
- `_convert_vector_to_image` (the `sips`/`magick` converter) is one boolean per member.
- `_save_image`'s choice of format and colour mode is not modelled. Only whether saving
  succeeds or raises is.
- `time.sleep` is modelled only as the list of wait times.
- The stop button's handler is not part of this model. The flag is taken to be set once and
  never cleared during a run.
- Python's `str.lower()` is modelled on ASCII letters only. `str.strip()` uses the ASCII and
  Unicode whitespace characters written out in `PyStrings.IsPySpace`. Case folding beyond
  ASCII is not modelled.
- Paths are `/`-separated strings. The directory is a flat set of file names, compared
  exactly. On Windows and macOS, the targets main.py:11 names, `Path.exists()` matches
  names without regard to case, so with `Red.png` present the tool picks `red_1.png` where
  `UniquePaths.GetUniquePath` gives `red.png`. pathlib's normalisation of paths is not
  modelled either.
- `Media.SortKey` reads ASCII digits only. Python's `\d` and `int()` also accept other
  Unicode decimal digits: `image١٢.png` has key 12 in the tool and key 0 here.
- LegacyAllocated (Legacy): the directory it states is that of the corrected temporary
  file, at a free name (see Findings). As written, the older tool writes `temp_<name>.<fmt>`
  with `'wb'` and then unlinks it, so an existing file of that name, an original or an
  image saved earlier in the run, is overwritten and deleted. `Legacy.TempDownloadAsWritten`
  states that behaviour and `Legacy.TempDownloadDeletesFile` exhibits it.
- `Legacy.LegacyExtract`: a download that fails after `download_image` has opened the
  temporary file leaves a partial file behind; the model treats every failed download as
  writing nothing.
- `detect_excel_type`'s scan of its first rows is not modelled. Only the classification at
  its end is, with the two flags as inputs.
- `Legacy.LegacyExtract` takes the rows from the start row to the last row as a sequence. The
  older tool's naming-method prompt, configuration file and WPS re-save are I/O.
- In the older tool, the `raises` flag of a row stands for any exception while reading its
  cells or building its name. Exceptions raised while saving are caught inside the row, and
  the model treats such a save as failed.

## Findings

| source | as written | input that shows it | evidently intended | confidence | as-written member | corrected member |
|---|---|---|---|---|---|---|
| 0001-extract-images-from-excel/refs/1.py:709-717 | the link is downloaded to `temp_<name>.<fmt>`, written with `'wb'` and then unlinked, whatever file had that name | a directory holding `temp_A.png` and a row named `A` whose link downloads: `temp_A.png` is overwritten and then deleted | the temporary file lives at a name no file has, so the directory keeps every file and gains only the image | not executed | Legacy.TempDownloadDeletesFile | Legacy.TempDownload |
