/**
 * The "extract by column" mode (`_extract_by_column` in main.py): for each row from the
 * start row to the sheet's last row, name the image, then save the picture embedded in the
 * image cell or, failing that, download the cell's link; count successes, failures and
 * skipped rows, until the rows end or the stop request is seen.
 */
module ExtractColumn {
  import opened PyStrings
  import opened Cells
  import opened Naming
  import opened UniquePaths
  import opened Download
  import opened Runs

  /**
   * What the embedded-image loader finds in a row's image cell: no picture, a picture that
   * is fetched and saved, or a picture whose fetching or saving raises.
   */
  datatype Embedded = NoEmbedded | EmbeddedSaves | EmbeddedFails

  /**
   * One row as the loop sees it: the name column's value, the image cell, the embedded
   * picture, the outcome of each download attempt, and whether handling the row raises
   * before any image is saved.
   */
  datatype Row = Row(nameValue: CellValue, image: Cell, embedded: Embedded, attempts: seq<bool>, raises: bool)

  /** The row a sheet has where it holds nothing. */
  const EmptyRow: Row := Row(Blank, Cell(Blank, None), NoEmbedded, [], false)

  /** Row `r` (counted from 1) of the sheet; rows beyond the stored ones are empty. */
  function RowAt(sheet: seq<Row>, r: nat): Row {
    if 1 <= r <= |sheet| then sheet[r - 1] else EmptyRow
  }

  /** The name column's cell for a row, or `None` when no name column is configured. */
  function NameCell(row: Row, hasNameColumn: bool): Option<CellValue> {
    if hasNameColumn then Some(row.nameValue) else None
  }

  /** What the loop logs for a handled row. */
  datatype RowEvent =
    | EmbeddedSaved   // the embedded picture was saved
    | LinkSaved       // the linked picture was downloaded and saved
    | DownloadFailed  // the link's download failed (a failure, and the row is skipped)
    | NoImage         // neither a picture nor a link (the row is skipped)
    | Errored         // handling the row raised (a failure)

  const SaveEvents: set<RowEvent> := {EmbeddedSaved, LinkSaved}
  const FailEvents: set<RowEvent> := {DownloadFailed, Errored}
  const SkipEvents: set<RowEvent> := {DownloadFailed, NoImage}

  /** How many of `es` are among `kinds`. */
  function CountOf(es: seq<RowEvent>, kinds: set<RowEvent>): (n: nat)
    ensures n <= |es|
  {
    if es == [] then 0 else CountOf(es[..|es| - 1], kinds) + (if es[|es| - 1] in kinds then 1 else 0)
  }

  /**
   * Each handled row is saved, skipped or errored, and exactly one of them; the failures are
   * the failed downloads and the errors.
   */
  lemma {:induction false} RowsAccounted(es: seq<RowEvent>)
    ensures CountOf(es, SaveEvents) + CountOf(es, SkipEvents) + CountOf(es, {Errored}) == |es|
    ensures CountOf(es, FailEvents) == CountOf(es, {DownloadFailed}) + CountOf(es, {Errored})
  {
    if es != [] {
      RowsAccounted(es[..|es| - 1]);
      match es[|es| - 1]
      case EmbeddedSaved =>
      case LinkSaved =>
      case DownloadFailed =>
      case NoImage =>
      case Errored =>
    }
  }

  /** A handled row: what it logs and how many stop polls it made. */
  datatype Outcome = Outcome(event: RowEvent, polls: nat)

  /**
   * Handling one row whose stop poll (number `poll`) read false: an error, else the embedded
   * picture when the loader is ready and the picture saves, else the link's download, whose
   * polls follow the row's.
   */
  function HandleRow(row: Row, loaderReady: bool, stopAt: Option<nat>, poll: nat): (o: Outcome)
    ensures 1 <= o.polls <= 1 + MaxRetries
  {
    if row.raises then Outcome(Errored, 1)
    else if loaderReady && row.embedded == EmbeddedSaves then Outcome(EmbeddedSaved, 1)
    else if GetUrlFromCell(row.image).None? then Outcome(NoImage, 1)
    else
      var f := FetchFrom(row.attempts, stopAt, poll + 1, 0);
      FetchPollsBounded(row.attempts, stopAt, poll + 1, 0);
      Outcome(if f.ok then LinkSaved else DownloadFailed, 1 + f.polls)
  }

  /** The rows handled from row `r` on, and whether a stop poll ended the loop. */
  datatype Walk = Walk(events: seq<RowEvent>, cancelled: bool)

  /**
   * The loop from row `r` to `maxRow`, with its next stop poll numbered `poll`; `handle(r, p)`
   * handles row `r` after its stop poll `p` read false.
   */
  function WalkFrom(handle: (nat, nat) -> Outcome, stopAt: Option<nat>, r: nat, maxRow: nat, poll: nat): Walk
    decreases maxRow + 1 - r
  {
    if r > maxRow then Walk([], false)
    else if Stopped(stopAt, poll) then Walk([], true)
    else
      var o := handle(r, poll);
      var rest := WalkFrom(handle, stopAt, r + 1, maxRow, poll + o.polls);
      Walk([o.event] + rest.events, rest.cancelled)
  }

  /** The loop handles at most the rows left, and all of them unless it is cancelled. */
  lemma {:induction false} WalkLength(handle: (nat, nat) -> Outcome, stopAt: Option<nat>, r: nat, maxRow: nat, poll: nat)
    requires r <= maxRow + 1
    ensures var wk := WalkFrom(handle, stopAt, r, maxRow, poll);
            |wk.events| <= maxRow + 1 - r && (!wk.cancelled ==> |wk.events| == maxRow + 1 - r)
    decreases maxRow + 1 - r
  {
    if r <= maxRow && !Stopped(stopAt, poll) {
      WalkLength(handle, stopAt, r + 1, maxRow, poll + handle(r, poll).polls);
    }
  }

  /** Without a stop request the loop is never cancelled. */
  lemma {:induction false} UnstoppedWalkFinishes(handle: (nat, nat) -> Outcome, r: nat, maxRow: nat, poll: nat)
    ensures !WalkFrom(handle, None, r, maxRow, poll).cancelled
    decreases maxRow + 1 - r
  {
    if r <= maxRow {
      UnstoppedWalkFinishes(handle, r + 1, maxRow, poll + handle(r, poll).polls);
    }
  }

  /** A cancelled loop ended at a stop poll: its stop request is set. */
  lemma {:induction false} CancelledWalkStopped(handle: (nat, nat) -> Outcome, stopAt: Option<nat>, r: nat, maxRow: nat, poll: nat)
    requires WalkFrom(handle, stopAt, r, maxRow, poll).cancelled
    ensures stopAt.Some?
    decreases maxRow + 1 - r
  {
    if r <= maxRow && !Stopped(stopAt, poll) {
      CancelledWalkStopped(handle, stopAt, r + 1, maxRow, poll + handle(r, poll).polls);
    }
  }

  /**
   * Without a stop request a row's link is saved exactly when the row neither raises nor
   * has its embedded picture saved, the cell yields a URL, and one of the three attempts
   * succeeds.
   */
  lemma UnstoppedLinkSaved(row: Row, loaderReady: bool, poll: nat)
    ensures HandleRow(row, loaderReady, None, poll).event == LinkSaved <==>
              !row.raises && !(loaderReady && row.embedded == EmbeddedSaves) &&
              GetUrlFromCell(row.image).Some? &&
              exists k :: 0 <= k < MaxRetries && Attempt(row.attempts, k)
  {
    FetchOkIff(row.attempts, None, poll + 1, 0);
  }

  /** The embedded picture is used only when the loader is ready. */
  lemma EmbeddedNeedsLoader(row: Row, stopAt: Option<nat>, poll: nat)
    ensures HandleRow(row, false, stopAt, poll).event != EmbeddedSaved
  {
  }

  /** The row offsets whose event is a save. */
  function SavedIn(events: seq<RowEvent>): nat -> bool {
    (k: nat) => k < |events| && events[k] in SaveEvents
  }

  /** Counting the saving events as chosen items. */
  lemma {:induction false} CountSavedIn(events: seq<RowEvent>, i: nat)
    requires i <= |events|
    ensures CountChosen(SavedIn(events), i) == CountOf(events[..i], SaveEvents)
  {
    if i > 0 {
      CountSavedIn(events, i - 1);
      assert events[..i][..i - 1] == events[..i - 1];
    }
  }

  /** The configuration of a column run. */
  datatype Setup = Setup(sheet: seq<Row>, startRow: nat, hasNameColumn: bool, loaderReady: bool,
                         existing: set<string>, fmt: string, mode: NamingMode, w: NamingInputs, stopAt: Option<nat>)

  /** `_resolve_column_name` for the row at offset `item`, with the counter at `counter`. */
  function ColumnName(c: Setup, item: nat, counter: nat): string {
    var row := RowAt(c.sheet, c.startRow + item);
    ResolveColumnName(NameCell(row, c.hasNameColumn), row.image, c.mode, c.w, counter)
  }

  /**
   * Each saved image is named by `_resolve_column_name` for its row, with the counter at the
   * start number plus its position.
   */
  ghost predicate RowsNamed(c: Setup, saves: seq<Saved>)
    decreases |saves|
  {
    saves == [] ||
    var s := saves[|saves| - 1];
    RowsNamed(c, saves[..|saves| - 1]) && s.name == ColumnName(c, s.item, StartNumber(c.mode, c.w) + |saves| - 1)
  }

  /** What `RowsNamed` says about the image at position `j`. */
  lemma {:induction false} RowsNamedAt(c: Setup, saves: seq<Saved>, j: nat)
    requires RowsNamed(c, saves) && j < |saves|
    ensures saves[j].name == ColumnName(c, saves[j].item, StartNumber(c.mode, c.w) + j)
    decreases |saves|
  {
    if j < |saves| - 1 {
      var init := saves[..|saves| - 1];
      RowsNamedAt(c, init, j);
      assert saves[j] == init[j];
    }
  }

  /** What `RowsNamed` says about each image. */
  lemma RowsNamedEach(c: Setup, saves: seq<Saved>)
    requires RowsNamed(c, saves)
    ensures forall j :: 0 <= j < |saves| ==> saves[j].name == ColumnName(c, saves[j].item, StartNumber(c.mode, c.w) + j)
  {
    forall j | 0 <= j < |saves|
      ensures saves[j].name == ColumnName(c, saves[j].item, StartNumber(c.mode, c.w) + j)
    {
      RowsNamedAt(c, saves, j);
    }
  }

  /** Naming the image of the row at offset `item`, saved after the images `saves`. */
  lemma RowsNamedAfter(c: Setup, saves: seq<Saved>, s: Saved, counter: nat)
    requires RowsNamed(c, saves) && counter == StartNumber(c.mode, c.w) + |saves|
    requires s.name == ColumnName(c, s.item, counter)
    ensures RowsNamed(c, saves + [s])
  {
    assert (saves + [s])[..|saves|] == saves;
  }

  /** How a run handles row `r` after stop poll `p`. */
  function Handler(c: Setup): (nat, nat) -> Outcome {
    (r: nat, p: nat) => HandleRow(RowAt(c.sheet, r), c.loaderReady, c.stopAt, p)
  }

  lemma HandlerAt(c: Setup, r: nat, p: nat)
    ensures Handler(c)(r, p) == HandleRow(RowAt(c.sheet, r), c.loaderReady, c.stopAt, p)
  {
  }

  /** The whole loop of a run. */
  function RunWalk(c: Setup, maxRow: nat): Walk {
    WalkFrom(Handler(c), c.stopAt, c.startRow, maxRow, 0)
  }

  /**
   * The loop's variables: the number of its next stop poll, the events it logged, its three
   * counts, the counter, the images saved and the files in the output directory.
   */
  datatype Tally = Tally(poll: nat, events: seq<RowEvent>, success: nat, failed: nat, skipped: nat,
                         counter: nat, saves: seq<Saved>, files: set<string>)

  /** The loop's variables before the first row. */
  function Initial(start: nat, existing: set<string>): Tally {
    Tally(0, [], 0, 0, 0, start, [], existing)
  }

  /**
   * The loop's variables after a row that logged `e` and made `n` stop polls; a saved image
   * is named `nm` and written to `path`, the row being at offset `i`.
   */
  function AfterRow(t: Tally, e: RowEvent, n: nat, nm: string, path: string, i: nat): Tally {
    var saved := e in SaveEvents;
    Tally(t.poll + n, t.events + [e],
          if saved then t.success + 1 else t.success,
          if e in FailEvents then t.failed + 1 else t.failed,
          if e in SkipEvents then t.skipped + 1 else t.skipped,
          if saved then t.counter + 1 else t.counter,
          if saved then t.saves + [Saved(nm, path, i)] else t.saves,
          if saved then t.files + {path} else t.files)
  }

  /**
   * The log of the loop after `i` rows, for a whole loop `wk` from row `startRow`: the rows
   * logged are the first `i` of `wk`, the rest of the loop is what remains of `wk` from row
   * `startRow + i` on, and the counts follow the log.
   */
  ghost predicate Logged(handle: (nat, nat) -> Outcome, stopAt: Option<nat>, startRow: nat, maxRow: nat,
                         wk: Walk, i: nat, t: Tally)
  {
    && i <= |wk.events| && t.events == wk.events[..i]
    && WalkFrom(handle, stopAt, startRow + i, maxRow, t.poll) == Walk(wk.events[i..], wk.cancelled)
    && t.success == CountOf(t.events, SaveEvents) && t.failed == CountOf(t.events, FailEvents)
    && t.skipped == CountOf(t.events, SkipEvents)
  }

  /** The loop after `i` rows: its log, and the run tallied with a save for each saving row. */
  ghost predicate WalkProgress(handle: (nat, nat) -> Outcome, stopAt: Option<nat>, startRow: nat, maxRow: nat,
                               wk: Walk, existing: set<string>, fmt: string, start: nat, i: nat, t: Tally)
  {
    && Logged(handle, stopAt, startRow, maxRow, wk, i, t)
    && t.success == |t.saves|
    && Tallied(existing, fmt, SavedIn(wk.events), start, i, t.counter, t.saves, t.files)
  }

  /** Logging one more event. */
  lemma CountOfAppend(es: seq<RowEvent>, e: RowEvent, kinds: set<RowEvent>)
    ensures CountOf(es + [e], kinds) == CountOf(es, kinds) + (if e in kinds then 1 else 0)
  {
    assert (es + [e])[..|es|] == es;
  }

  /** Handling row `startRow + i`, whose stop poll read false, logs its event `e`. */
  lemma LoggedAdvance(handle: (nat, nat) -> Outcome, stopAt: Option<nat>, startRow: nat, maxRow: nat,
                      wk: Walk, i: nat, t: Tally, e: RowEvent, n: nat, nm: string, path: string)
    requires Logged(handle, stopAt, startRow, maxRow, wk, i, t)
    requires startRow + i <= maxRow && !Stopped(stopAt, t.poll) && handle(startRow + i, t.poll) == Outcome(e, n)
    ensures i < |wk.events| && wk.events[i] == e
    ensures Logged(handle, stopAt, startRow, maxRow, wk, i + 1, AfterRow(t, e, n, nm, path, i))
  {
    var rest := WalkFrom(handle, stopAt, startRow + i + 1, maxRow, t.poll + n);
    assert wk.events[i..] == [e] + rest.events;
    assert wk.events[i..][1..] == wk.events[i + 1..];
    assert wk.events[..i + 1] == t.events + [e];
    CountOfAppend(t.events, e, SaveEvents);
    CountOfAppend(t.events, e, FailEvents);
    CountOfAppend(t.events, e, SkipEvents);
  }

  /**
   * Handling row `startRow + i`, whose stop poll read false, with the outcome `(e, n)` and,
   * for a save, the name and the path allocated for it.
   */
  lemma WalkAdvance(handle: (nat, nat) -> Outcome, stopAt: Option<nat>, startRow: nat, maxRow: nat,
                    wk: Walk, existing: set<string>, fmt: string,
                    start: nat, i: nat, t: Tally, e: RowEvent, n: nat, nm: string, path: string)
    requires WalkProgress(handle, stopAt, startRow, maxRow, wk, existing, fmt, start, i, t)
    requires startRow + i <= maxRow && !Stopped(stopAt, t.poll) && handle(startRow + i, t.poll) == Outcome(e, n)
    requires e in SaveEvents ==> IsUniquePath(t.files, nm, fmt, path)
    ensures WalkProgress(handle, stopAt, startRow, maxRow, wk, existing, fmt, start, i + 1,
                         AfterRow(t, e, n, nm, path, i))
  {
    LoggedAdvance(handle, stopAt, startRow, maxRow, wk, i, t, e, n, nm, path);
    if e in SaveEvents {
      TallySaved(existing, fmt, SavedIn(wk.events), start, i, t.counter, t.saves, t.files, nm, path);
    } else {
      TallySkipped(existing, fmt, SavedIn(wk.events), start, i, t.counter, t.saves, t.files);
    }
  }

  /** The loop of a run after `i` rows. */
  ghost predicate Progress(c: Setup, maxRow: nat, i: nat, t: Tally) {
    && WalkProgress(Handler(c), c.stopAt, c.startRow, maxRow, RunWalk(c, maxRow), c.existing, c.fmt,
                    StartNumber(c.mode, c.w), i, t)
    && RowsNamed(c, t.saves)
  }

  /**
   * The body of the row loop for a row whose stop poll (number `poll`) read false: resolve
   * the name, try the embedded picture, then the link.
   */
  method ProcessRow(row: Row, loaderReady: bool, stopAt: Option<nat>, poll: nat, files: set<string>,
                    fmt: string, name: string)
    returns (event: RowEvent, polls: nat, path: string)
    ensures Outcome(event, polls) == HandleRow(row, loaderReady, stopAt, poll)
    ensures event in SaveEvents ==> IsUniquePath(files, name, fmt, path)
  {
    path := "";
    polls := 1;
    if row.raises {
      return Errored, polls, path;
    }
    if loaderReady && row.embedded == EmbeddedSaves {
      path := GetUniquePath(files, name, fmt);
      return EmbeddedSaved, polls, path;
    }
    var url := GetUrlFromCell(row.image);
    if url.None? {
      return NoImage, polls, path;
    }
    path := GetUniquePath(files, name, fmt);
    var ok, n, sleeps := DownloadAndSave(row.attempts, stopAt, poll + 1);
    FetchPollsBounded(row.attempts, stopAt, poll + 1, 0);
    event := if ok then LinkSaved else DownloadFailed;
    polls := 1 + n;
  }

  /**
   * Row `c.startRow + i`, whose stop poll read false, handled with the outcome `(e, n)`, the
   * name resolved with the counter as it was, and for a save the path allocated for it.
   */
  lemma StepProgress(c: Setup, maxRow: nat, i: nat, t: Tally, e: RowEvent, n: nat, nm: string, path: string)
    requires c.startRow + i <= maxRow && !Stopped(c.stopAt, t.poll)
    requires Progress(c, maxRow, i, t)
    requires Outcome(e, n) == HandleRow(RowAt(c.sheet, c.startRow + i), c.loaderReady, c.stopAt, t.poll)
    requires nm == ColumnName(c, i, t.counter)
    requires e in SaveEvents ==> IsUniquePath(t.files, nm, c.fmt, path)
    ensures Progress(c, maxRow, i + 1, AfterRow(t, e, n, nm, path, i))
  {
    HandlerAt(c, c.startRow + i, t.poll);
    WalkAdvance(Handler(c), c.stopAt, c.startRow, maxRow, RunWalk(c, maxRow), c.existing, c.fmt,
                StartNumber(c.mode, c.w), i, t, e, n, nm, path);
    if e in SaveEvents {
      RowsNamedAfter(c, t.saves, Saved(nm, path, i), t.counter);
    }
  }

  /** One pass of the row loop, once the row's stop poll has read false. */
  method Step(c: Setup, maxRow: nat, i: nat, t: Tally) returns (t': Tally)
    requires c.startRow + i <= maxRow && !Stopped(c.stopAt, t.poll)
    requires Progress(c, maxRow, i, t)
    ensures Progress(c, maxRow, i + 1, t')
  {
    var name := ColumnName(c, i, t.counter);
    var event, n, path := ProcessRow(RowAt(c.sheet, c.startRow + i), c.loaderReady, c.stopAt, t.poll, t.files, c.fmt, name);
    StepProgress(c, maxRow, i, t, event, n, name, path);
    t' := AfterRow(t, event, n, name, path, i);
  }

  /** How a column run ends. */
  datatype ColumnStatus =
    | NoRows     // the sheet has no row from the start row on
    | Finished   // every row was handled
    | Cancelled  // the stop request ended the loop

  /** The saved images of a run come from logged rows whose event is a save. */
  lemma ProgressItems(c: Setup, maxRow: nat, i: nat, t: Tally)
    requires Progress(c, maxRow, i, t)
    ensures forall j :: 0 <= j < |t.saves| ==> t.saves[j].item < |t.events| && t.events[t.saves[j].item] in SaveEvents
  {
    var wk := RunWalk(c, maxRow);
    FitsChosen(c.existing, c.fmt, SavedIn(wk.events), t.saves);
    TalliedBelow(c.existing, c.fmt, SavedIn(wk.events), StartNumber(c.mode, c.w), i, t.counter, t.saves, t.files);
    forall j | 0 <= j < |t.saves|
      ensures t.saves[j].item < |t.events| && t.events[t.saves[j].item] in SaveEvents
    {
      assert SavedIn(wk.events)(t.saves[j].item);
    }
  }

  /** The images of a run come from strictly increasing rows. */
  lemma ProgressOrdered(c: Setup, maxRow: nat, i: nat, t: Tally)
    requires Progress(c, maxRow, i, t)
    ensures forall a, b :: 0 <= a < b < |t.saves| ==> t.saves[a].item < t.saves[b].item
  {
    FitsOrdered(c.existing, c.fmt, SavedIn(RunWalk(c, maxRow).events), t.saves);
  }

  /** A run allocated each of its paths in turn, and its directory holds them. */
  lemma ProgressAllocated(c: Setup, maxRow: nat, i: nat, t: Tally)
    requires Progress(c, maxRow, i, t)
    ensures Allocated(c.existing, c.fmt, t.saves) && t.files == c.existing + PathSet(t.saves)
  {
    FitsAllocated(c.existing, c.fmt, SavedIn(RunWalk(c, maxRow).events), t.saves);
  }

  /** Before the first row. */
  lemma ProgressStart(c: Setup, last: nat)
    ensures Progress(c, last, 0, Initial(StartNumber(c.mode, c.w), c.existing))
  {
    assert RunWalk(c, last).events[0..] == RunWalk(c, last).events;
  }

  /** The loop ends when the rows run out or a stop poll reads true; it is cancelled in the second case. */
  lemma ProgressEnd(c: Setup, last: nat, i: nat, t: Tally)
    requires Progress(c, last, i, t)
    requires c.startRow + i > last || Stopped(c.stopAt, t.poll)
    ensures t.events == RunWalk(c, last).events
    ensures RunWalk(c, last).cancelled <==> c.startRow + i <= last
  {
    var wk := RunWalk(c, last);
    assert wk.events[i..] == [];
    assert wk.events[..i] == wk.events;
  }

  /** The row loop of a run from its start row to row `last`. */
  method RunRows(c: Setup, last: nat) returns (cancelled: bool, i: nat, t: Tally)
    ensures Progress(c, last, i, t)
    ensures t.events == RunWalk(c, last).events && cancelled == RunWalk(c, last).cancelled
  {
    t := Initial(StartNumber(c.mode, c.w), c.existing);
    i := 0;
    cancelled := false;
    ProgressStart(c, last);
    while c.startRow + i <= last
      invariant Progress(c, last, i, t)
      decreases last + 1 - (c.startRow + i)
    {
      if Stopped(c.stopAt, t.poll) {
        cancelled := true;
        break;
      }
      t := Step(c, last, i, t);
      i := i + 1;
    }
    ProgressEnd(c, last, i, t);
  }

  /**
   * `_extract_by_column`. `c` holds the form's settings, the sheet, the output directory's
   * files, whether the embedded-image loader is ready and the stop request; `maxRow` is the
   * sheet's last row (`None` when the sheet cannot say). `events` is the row log.
   */
  method ExtractByColumn(c: Setup, maxRow: Option<nat>)
    returns (status: ColumnStatus, events: seq<RowEvent>, success: nat, failed: nat, skipped: nat,
             counter: nat, saves: seq<Saved>, files: set<string>)
    requires c.startRow >= 1
    ensures status == NoRows <==> maxRow.None? || maxRow.value < c.startRow
    ensures status == NoRows ==> events == [] && saves == [] && files == c.existing
    ensures status != NoRows ==> events == RunWalk(c, maxRow.value).events &&
                                 (status == Cancelled <==> RunWalk(c, maxRow.value).cancelled)
    ensures status == Finished ==> |events| == maxRow.value + 1 - c.startRow
    ensures c.stopAt.None? ==> status != Cancelled
    ensures success == CountOf(events, SaveEvents) && failed == CountOf(events, FailEvents)
    ensures skipped == CountOf(events, SkipEvents)
    ensures counter == StartNumber(c.mode, c.w) + success && |saves| == success
    ensures RowsNamed(c, saves)
    ensures forall j :: 0 <= j < |saves| ==> saves[j].item < |events| && events[saves[j].item] in SaveEvents
    ensures forall i, j :: 0 <= i < j < |saves| ==> saves[i].item < saves[j].item
    ensures Allocated(c.existing, c.fmt, saves)
    ensures files == c.existing + PathSet(saves)
  {
    if maxRow.None? || maxRow.value < c.startRow {
      return NoRows, [], 0, 0, 0, StartNumber(c.mode, c.w), [], c.existing;
    }
    var last := maxRow.value;
    var cancelled, i, t := RunRows(c, last);
    status := if cancelled then Cancelled else Finished;
    WalkLength(Handler(c), c.stopAt, c.startRow, last, 0);
    if c.stopAt.None? {
      UnstoppedWalkFinishes(Handler(c), c.startRow, last, 0);
    }
    ProgressItems(c, last, i, t);
    ProgressOrdered(c, last, i, t);
    ProgressAllocated(c, last, i, t);
    events, success, failed, skipped, counter, saves, files :=
      t.events, t.success, t.failed, t.skipped, t.counter, t.saves, t.files;
  }
}
