/**
 * What the extraction runs leave behind: the images they saved, each under the name the
 * naming policy chose and the path `_get_unique_path` allocated in the output directory.
 */
module Runs {
  import opened UniquePaths

  /** One saved image: its chosen name, the file it was written to, and the entry or row it came from. */
  datatype Saved = Saved(name: string, path: string, item: nat)

  /** The files written by `saves`. */
  function PathSet(saves: seq<Saved>): set<string> {
    if saves == [] then {} else PathSet(saves[..|saves| - 1]) + {saves[|saves| - 1].path}
  }

  /**
   * Every saved image got the path `_get_unique_path` returns for the directory as it was
   * at that moment: the original files plus the images saved before it.
   */
  ghost predicate Allocated(existing: set<string>, fmt: string, saves: seq<Saved>) {
    forall j :: 0 <= j < |saves| ==>
      IsUniquePath(existing + PathSet(saves[..j]), saves[j].name, fmt, saves[j].path)
  }

  lemma PathSetMember(saves: seq<Saved>, j: int)
    requires 0 <= j < |saves|
    ensures saves[j].path in PathSet(saves)
    decreases |saves|
  {
    if j < |saves| - 1 {
      PathSetMember(saves[..|saves| - 1], j);
    }
  }

  /** Recording one more image keeps the allocation property. */
  lemma AllocatedAppend(existing: set<string>, fmt: string, saves: seq<Saved>, s: Saved)
    requires Allocated(existing, fmt, saves)
    requires IsUniquePath(existing + PathSet(saves), s.name, fmt, s.path)
    ensures Allocated(existing, fmt, saves + [s])
    ensures PathSet(saves + [s]) == PathSet(saves) + {s.path}
  {
    var t := saves + [s];
    assert t[..|saves|] == saves;
    assert t[..|t| - 1] == saves;
    forall j | 0 <= j < |t|
      ensures IsUniquePath(existing + PathSet(t[..j]), t[j].name, fmt, t[j].path)
    {
      if j < |saves| {
        assert t[..j] == saves[..j];
      }
    }
  }

  /**
   * A run never overwrites: no saved image lands on an original file, and no two saved
   * images share a file.
   */
  lemma AllocatedFresh(existing: set<string>, fmt: string, saves: seq<Saved>)
    requires Allocated(existing, fmt, saves)
    ensures forall j :: 0 <= j < |saves| ==> saves[j].path !in existing
    ensures forall i, j :: 0 <= i < j < |saves| ==> saves[i].path != saves[j].path
  {
    forall j | 0 <= j < |saves| ensures saves[j].path !in existing + PathSet(saves[..j]) {
      var p := saves[j].path;
      var k: nat :| p == Candidate(saves[j].name, fmt, k) && p !in existing + PathSet(saves[..j]) &&
                    forall i: nat :: i < k ==> Candidate(saves[j].name, fmt, i) in existing + PathSet(saves[..j]);
    }
    forall i, j | 0 <= i < j < |saves| ensures saves[i].path != saves[j].path {
      assert saves[..j][i] == saves[i];
      PathSetMember(saves[..j], i);
    }
  }
  /**
   * The saved images of a run, each in turn: taken from a chosen item later than the item of
   * the image before it, at the path allocated for its name in the directory as it then was.
   */
  ghost predicate Fits(existing: set<string>, fmt: string, chosen: nat -> bool,
                       saves: seq<Saved>)
    decreases |saves|
  {
    saves == [] ||
    var init, s := saves[..|saves| - 1], saves[|saves| - 1];
    && Fits(existing, fmt, chosen, init)
    && chosen(s.item)
    && (init != [] ==> init[|init| - 1].item < s.item)
    && IsUniquePath(existing + PathSet(init), s.name, fmt, s.path)
  }

  /** Recording the next image of a run. */
  lemma FitsAppend(existing: set<string>, fmt: string, chosen: nat -> bool,
                   saves: seq<Saved>, s: Saved)
    requires Fits(existing, fmt, chosen, saves)
    requires chosen(s.item)
    requires saves != [] ==> saves[|saves| - 1].item < s.item
    requires IsUniquePath(existing + PathSet(saves), s.name, fmt, s.path)
    ensures Fits(existing, fmt, chosen, saves + [s])
    ensures PathSet(saves + [s]) == PathSet(saves) + {s.path}
  {
    assert (saves + [s])[..|saves|] == saves;
  }

  /** Each image of a run comes from a chosen item. */
  lemma {:induction false} FitsChosen(existing: set<string>, fmt: string, chosen: nat -> bool, saves: seq<Saved>)
    requires Fits(existing, fmt, chosen, saves)
    ensures forall j :: 0 <= j < |saves| ==> chosen(saves[j].item)
    decreases |saves|
  {
    if saves != [] {
      var init := saves[..|saves| - 1];
      FitsChosen(existing, fmt, chosen, init);
      assert forall j :: 0 <= j < |init| ==> saves[j] == init[j];
    }
  }

  /** The images of a run come from strictly increasing items. */
  lemma {:induction false} FitsOrdered(existing: set<string>, fmt: string, chosen: nat -> bool, saves: seq<Saved>)
    requires Fits(existing, fmt, chosen, saves)
    ensures forall a, b :: 0 <= a < b < |saves| ==> saves[a].item < saves[b].item
    decreases |saves|
  {
    if saves != [] {
      var init := saves[..|saves| - 1];
      FitsOrdered(existing, fmt, chosen, init);
      assert forall j :: 0 <= j < |init| ==> saves[j] == init[j];
    }
  }

  /** A run allocated each of its paths in turn. */
  lemma {:induction false} FitsAllocated(existing: set<string>, fmt: string, chosen: nat -> bool, saves: seq<Saved>)
    requires Fits(existing, fmt, chosen, saves)
    ensures Allocated(existing, fmt, saves)
    decreases |saves|
  {
    if saves != [] {
      var init := saves[..|saves| - 1];
      FitsAllocated(existing, fmt, chosen, init);
      AllocatedAppend(existing, fmt, init, saves[|saves| - 1]);
      assert init + [saves[|saves| - 1]] == saves;
    }
  }

  /** How many of the items before `i` are chosen. */
  function CountChosen(chosen: nat -> bool, i: nat): (n: nat)
    ensures n <= i
  {
    if i == 0 then 0 else CountChosen(chosen, i - 1) + (if chosen(i - 1) then 1 else 0)
  }

  /**
   * A run after its items before `i`: one image saved per chosen item, the counter at
   * `start` plus the images saved, the images fitting the run, and the directory holding the
   * original files and the saved images.
   */
  ghost predicate Tallied(existing: set<string>, fmt: string, chosen: nat -> bool,
                          start: nat, i: nat, counter: nat, saves: seq<Saved>, files: set<string>)
  {
    && |saves| == CountChosen(chosen, i) && counter == start + |saves|
    && (saves != [] ==> saves[|saves| - 1].item < i)
    && Fits(existing, fmt, chosen, saves) && files == existing + PathSet(saves)
  }

  /** Item `i` is chosen and saved at the path allocated for it. */
  lemma TallySaved(existing: set<string>, fmt: string, chosen: nat -> bool,
                   start: nat, i: nat, counter: nat, saves: seq<Saved>, files: set<string>, nm: string, path: string)
    requires Tallied(existing, fmt, chosen, start, i, counter, saves, files)
    requires chosen(i) && IsUniquePath(files, nm, fmt, path)
    ensures Tallied(existing, fmt, chosen, start, i + 1, counter + 1, saves + [Saved(nm, path, i)], files + {path})
  {
    FitsAppend(existing, fmt, chosen, saves, Saved(nm, path, i));
  }

  /** Item `i` is not chosen, and nothing changes. */
  lemma TallySkipped(existing: set<string>, fmt: string, chosen: nat -> bool,
                     start: nat, i: nat, counter: nat, saves: seq<Saved>, files: set<string>)
    requires Tallied(existing, fmt, chosen, start, i, counter, saves, files)
    requires !chosen(i)
    ensures Tallied(existing, fmt, chosen, start, i + 1, counter, saves, files)
  {
  }

  /** The images of a tallied run come from items before `i`. */
  lemma TalliedBelow(existing: set<string>, fmt: string, chosen: nat -> bool,
                     start: nat, i: nat, counter: nat, saves: seq<Saved>, files: set<string>)
    requires Tallied(existing, fmt, chosen, start, i, counter, saves, files)
    ensures forall j :: 0 <= j < |saves| ==> saves[j].item < i
  {
    FitsOrdered(existing, fmt, chosen, saves);
    if saves != [] {
      assert forall j :: 0 <= j < |saves| - 1 ==> saves[j].item < saves[|saves| - 1].item;
    }
  }
}
