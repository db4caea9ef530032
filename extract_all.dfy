/**
 * The "extract all embedded images" mode (`_extract_all_images` in main.py): list the
 * archive's media, sort them by their number, then save each decodable one under the
 * next name of the naming policy, counting successes and failures, until the list ends or
 * the stop request is seen.
 */
module ExtractAll {
  import opened PyStrings
  import opened Media
  import opened Naming
  import opened UniquePaths
  import opened Download
  import opened Runs

  datatype AllStatus =
    | Unreadable  // the archive could not be opened or listed
    | NoMedia     // it holds no media file
    | Finished    // every media file was handled
    | Cancelled   // the stop request ended the loop

  /** Whether the loop saves an entry it reaches: read, opened (directly or converted), saved. */
  predicate EntrySaves(m: Member) {
    m.readable && OpenImageData(m) != Unsupported && m.saves
  }

  /** How many of `s` are saved. */
  function CountSaving(s: seq<Member>): (n: nat)
    ensures n <= |s|
  {
    if s == [] then 0 else CountSaving(s[..|s| - 1]) + (if EntrySaves(s[|s| - 1]) then 1 else 0)
  }

  /** The entries in processing order. */
  function Entries(listing: seq<Member>): seq<Member> {
    SortByKey(MediaMembers(listing))
  }

  /** How many of `total` entries the loop reaches: those before the poll that sees a stop. */
  function Reached(total: nat, stopAt: Option<nat>): (n: nat)
    ensures n <= total
    ensures n < total <==> stopAt.Some? && stopAt.value < total
  {
    if stopAt.Some? && stopAt.value < total then stopAt.value else total
  }

  /**
   * One pass of the loop body on a reached entry: read it, open it, and when that gives an
   * image, name it from the counter, allocate its path and save it.
   */
  method ProcessEntry(m: Member, files: set<string>, fmt: string, mode: NamingMode, w: NamingInputs, counter: nat)
    returns (saved: bool, name: string, path: string)
    ensures saved == EntrySaves(m)
    ensures saved ==> name == MakeName(mode, w, counter, None) && IsUniquePath(files, name, fmt, path)
  {
    name, path := "", "";
    if !m.readable {
      return false, name, path;
    }
    var image := OpenImageData(m);
    if image == Unsupported {
      return false, name, path;
    }
    name := MakeName(mode, w, counter, None);
    path := GetUniquePath(files, name, fmt);
    saved := m.saves;
  }

  /** Each saved image is named by the naming policy at its counter value: the start number plus its position. */
  ghost predicate PolicyNamed(mode: NamingMode, w: NamingInputs, saves: seq<Saved>)
    decreases |saves|
  {
    saves == [] ||
    (PolicyNamed(mode, w, saves[..|saves| - 1]) &&
     saves[|saves| - 1].name == MakeName(mode, w, StartNumber(mode, w) + |saves| - 1, None))
  }

  /** What `PolicyNamed` says about each image. */
  lemma {:induction false} PolicyNamedEach(mode: NamingMode, w: NamingInputs, saves: seq<Saved>)
    requires PolicyNamed(mode, w, saves)
    ensures forall j :: 0 <= j < |saves| ==> saves[j].name == MakeName(mode, w, StartNumber(mode, w) + j, None)
    decreases |saves|
  {
    if saves != [] {
      var init := saves[..|saves| - 1];
      PolicyNamedEach(mode, w, init);
      assert forall j :: 0 <= j < |init| ==> saves[j] == init[j];
    }
  }

  /** The entries of `media` that save when reached. */
  function SavingIn(media: seq<Member>): nat -> bool {
    (k: nat) => k < |media| && EntrySaves(media[k])
  }

  /** Counting the saving entries of `media` as chosen items. */
  lemma {:induction false} CountSavingIn(media: seq<Member>, i: nat)
    requires i <= |media|
    ensures CountChosen(SavingIn(media), i) == CountSaving(media[..i])
  {
    if i > 0 {
      CountSavingIn(media, i - 1);
      assert media[..i][..i - 1] == media[..i - 1];
    }
  }

  /**
   * What the loop has done after handling the first `i` entries of `media`: one success or
   * failure per entry, and the run tallied with a success for each entry that saves.
   */
  ghost predicate Progress(media: seq<Member>, existing: set<string>, fmt: string, mode: NamingMode,
                           w: NamingInputs, i: nat, success: nat, failed: nat, counter: nat,
                           saves: seq<Saved>, files: set<string>)
  {
    && i <= |media| && success + failed == i && success == |saves|
    && Tallied(existing, fmt, SavingIn(media), StartNumber(mode, w), i, counter, saves, files)
    && PolicyNamed(mode, w, saves)
  }

  /** The loop body for entry `i`, once the stop poll before it has read false. */
  method Step(media: seq<Member>, existing: set<string>, fmt: string, mode: NamingMode, w: NamingInputs,
              i: nat, success: nat, failed: nat, counter: nat, saves: seq<Saved>, files: set<string>)
    returns (success': nat, failed': nat, counter': nat, saves': seq<Saved>, files': set<string>)
    requires i < |media|
    requires Progress(media, existing, fmt, mode, w, i, success, failed, counter, saves, files)
    ensures Progress(media, existing, fmt, mode, w, i + 1, success', failed', counter', saves', files')
  {
    var saved, name, path := ProcessEntry(media[i], files, fmt, mode, w, counter);
    if saved {
      TallySaved(existing, fmt, SavingIn(media), StartNumber(mode, w), i, counter, saves, files, name, path);
      saves' := saves + [Saved(name, path, i)];
      assert saves'[..|saves|] == saves;
      files' := files + {path};
      success', failed', counter' := success + 1, failed, counter + 1;
    } else {
      TallySkipped(existing, fmt, SavingIn(media), StartNumber(mode, w), i, counter, saves, files);
      success', failed', counter', saves', files' := success, failed + 1, counter, saves, files;
    }
  }

  /** Counts of a run's progress through `processed` entries. */
  lemma ProgressCounts(media: seq<Member>, existing: set<string>, fmt: string, mode: NamingMode,
                       w: NamingInputs, processed: nat, success: nat, failed: nat, counter: nat,
                       saves: seq<Saved>, files: set<string>)
    requires Progress(media, existing, fmt, mode, w, processed, success, failed, counter, saves, files)
    ensures success == CountSaving(media[..processed])
  {
    CountSavingIn(media, processed);
  }

  /** The names of a run's saved images: consecutive counters from the start number. */
  lemma ProgressNames(media: seq<Member>, existing: set<string>, fmt: string, mode: NamingMode,
                      w: NamingInputs, processed: nat, success: nat, failed: nat, counter: nat,
                      saves: seq<Saved>, files: set<string>)
    requires Progress(media, existing, fmt, mode, w, processed, success, failed, counter, saves, files)
    ensures forall j :: 0 <= j < |saves| ==> saves[j].name == MakeName(mode, w, StartNumber(mode, w) + j, None)
  {
    PolicyNamedEach(mode, w, saves);
  }

  /** A run's saved images come from reached entries that save. */
  lemma ProgressItems(media: seq<Member>, existing: set<string>, fmt: string, mode: NamingMode,
                      w: NamingInputs, processed: nat, success: nat, failed: nat, counter: nat,
                      saves: seq<Saved>, files: set<string>)
    requires Progress(media, existing, fmt, mode, w, processed, success, failed, counter, saves, files)
    ensures forall j :: 0 <= j < |saves| ==> saves[j].item < processed && EntrySaves(media[saves[j].item])
  {
    FitsChosen(existing, fmt, SavingIn(media), saves);
    TalliedBelow(existing, fmt, SavingIn(media), StartNumber(mode, w), processed, counter, saves, files);
  }

  /**
   * The loop of `_extract_all_images` over the sorted entries: poll `i` is made before entry
   * `i`, and the first poll that sees the stop request ends the loop.
   */
  method RunEntries(media: seq<Member>, existing: set<string>, fmt: string, mode: NamingMode,
                    w: NamingInputs, stopAt: Option<nat>)
    returns (processed: nat, success: nat, failed: nat, counter: nat, saves: seq<Saved>, files: set<string>)
    ensures processed == Reached(|media|, stopAt)
    ensures Progress(media, existing, fmt, mode, w, processed, success, failed, counter, saves, files)
  {
    success, failed, counter, saves, files := 0, 0, StartNumber(mode, w), [], existing;
    processed := 0;
    while processed < |media|
      invariant stopAt.None? || processed <= stopAt.value
      invariant Progress(media, existing, fmt, mode, w, processed, success, failed, counter, saves, files)
    {
      if Stopped(stopAt, processed) {
        break;
      }
      success, failed, counter, saves, files :=
        Step(media, existing, fmt, mode, w, processed, success, failed, counter, saves, files);
      processed := processed + 1;
    }
  }

  /**
   * `_extract_all_images`. `listing` is the archive's member list (`None` when it cannot be
   * read), `existing` the files already in the output directory, and `stopAt` the stop
   * request. The counter is the start number plus the images saved so far.
   */
  method ExtractAllImages(listing: Option<seq<Member>>, existing: set<string>, fmt: string,
                          mode: NamingMode, w: NamingInputs, stopAt: Option<nat>)
    returns (status: AllStatus, processed: nat, success: nat, failed: nat, counter: nat,
             saves: seq<Saved>, files: set<string>)
    ensures status == Unreadable <==> listing.None?
    ensures listing.Some? ==> (status == NoMedia <==> MediaMembers(listing.value) == [])
    ensures listing.Some? ==>
              (status == Cancelled <==>
                 MediaMembers(listing.value) != [] && stopAt.Some? && stopAt.value < |Entries(listing.value)|)
    ensures listing.None? ==> processed == 0
    ensures listing.Some? ==> processed == Reached(|Entries(listing.value)|, stopAt) &&
                              success == CountSaving(Entries(listing.value)[..processed])
    ensures success + failed == processed
    ensures counter == StartNumber(mode, w) + success
    ensures |saves| == success
    ensures forall j :: 0 <= j < |saves| ==> saves[j].name == MakeName(mode, w, StartNumber(mode, w) + j, None)
    ensures forall i, j :: 0 <= i < j < |saves| ==> saves[i].item < saves[j].item
    ensures listing.Some? ==> forall j :: 0 <= j < |saves| ==>
              saves[j].item < processed && EntrySaves(Entries(listing.value)[saves[j].item])
    ensures Allocated(existing, fmt, saves)
    ensures files == existing + PathSet(saves)
  {
    processed, success, failed, counter, saves, files := 0, 0, 0, StartNumber(mode, w), [], existing;
    if listing.None? {
      return Unreadable, processed, success, failed, counter, saves, files;
    }
    var media := CollectMedia(listing.value);
    media := SortByKey(media);
    ghost var entries := Entries(listing.value);
    assert media == entries;
    assert MediaMembers(listing.value) == [] <==> media == [] by {
      SortByKeySorted(MediaMembers(listing.value));
      assert |multiset(media)| == |multiset(MediaMembers(listing.value))|;
    }
    if |media| == 0 {
      return NoMedia, processed, success, failed, counter, saves, files;
    }
    processed, success, failed, counter, saves, files := RunEntries(media, existing, fmt, mode, w, stopAt);
    status := if processed < |media| then Cancelled else Finished;
    ProgressCounts(media, existing, fmt, mode, w, processed, success, failed, counter, saves, files);
    ProgressNames(media, existing, fmt, mode, w, processed, success, failed, counter, saves, files);
    ProgressItems(media, existing, fmt, mode, w, processed, success, failed, counter, saves, files);
    FitsOrdered(existing, fmt, SavingIn(media), saves);
    FitsAllocated(existing, fmt, SavingIn(media), saves);
  }

  /** Every entry of `s` is saved exactly when the count of saved entries is the length of `s`. */
  lemma {:induction false} CountSavingAll(s: seq<Member>)
    ensures CountSaving(s) == |s| <==> forall k :: 0 <= k < |s| ==> EntrySaves(s[k])
  {
    if s != [] {
      var init := s[..|s| - 1];
      CountSavingAll(init);
      assert forall k :: 0 <= k < |init| ==> s[k] == init[k];
    }
  }

  /** No entry of `s` is saved exactly when the count of saved entries is zero. */
  lemma {:induction false} CountSavingNone(s: seq<Member>)
    ensures CountSaving(s) == 0 <==> forall k :: 0 <= k < |s| ==> !EntrySaves(s[k])
  {
    if s != [] {
      var init := s[..|s| - 1];
      CountSavingNone(init);
      assert forall k :: 0 <= k < |init| ==> s[k] == init[k];
    }
  }
}
