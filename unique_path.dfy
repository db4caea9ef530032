/**
 * Choosing a free file name in the output directory (`_get_unique_path` in main.py, and the
 * same loop inlined twice in the older tool): try `name.fmt`, then `name_1.fmt`,
 * `name_2.fmt`, ... until one does not exist. The directory is the finite set of the
 * file names in it.
 */
module UniquePaths {
  import opened PyStrings

  /** The `k`-th name tried: `name.fmt` first, then `name_k.fmt`. */
  function Candidate(name: string, fmt: string, k: nat): string {
    if k == 0 then name + "." + fmt else name + "_" + NatToString(k) + "." + fmt
  }

  /** `path` is what the loop returns for `existing`: the first candidate not present. */
  ghost predicate IsUniquePath(existing: set<string>, name: string, fmt: string, path: string) {
    exists k: nat :: path == Candidate(name, fmt, k) && path !in existing &&
                     forall j: nat :: j < k ==> Candidate(name, fmt, j) in existing
  }

  /** Digit strings followed by the same ".fmt" are equal only if the digits are. */
  lemma DigitsBeforeDot(a: string, b: string, fmt: string)
    requires AllDigits(a) && AllDigits(b)
    requires a + "." + fmt == b + "." + fmt
    ensures a == b
  {
    assert |a| == |b|;
    assert (a + "." + fmt)[..|a|] == a;
    assert (b + "." + fmt)[..|b|] == b;
  }

  /** Different attempts try different names. */
  lemma CandidateInjective(name: string, fmt: string, j: nat, k: nat)
    requires Candidate(name, fmt, j) == Candidate(name, fmt, k)
    ensures j == k
  {
    var cj := Candidate(name, fmt, j);
    if j != 0 && k != 0 {
      var n1 := |name| + 1;
      assert cj == (name + "_") + (NatToString(j) + "." + fmt);
      assert Candidate(name, fmt, k) == (name + "_") + (NatToString(k) + "." + fmt);
      assert cj[n1..] == NatToString(j) + "." + fmt;
      assert Candidate(name, fmt, k)[n1..] == NatToString(k) + "." + fmt;
      DigitsBeforeDot(NatToString(j), NatToString(k), fmt);
      NatToStringInjective(j, k);
    }
  }

  /** A subset has no more elements than its superset. */
  lemma {:induction false} SubsetCard<T>(a: set<T>, b: set<T>)
    requires a <= b
    ensures |a| <= |b|
    decreases |a|
  {
    if a != {} {
      var x :| x in a;
      SubsetCard(a - {x}, b - {x});
    }
  }

  /**
   * `_get_unique_path(directory, name, fmt)`. The loop ends for every finite directory: the
   * candidates it has rejected are distinct members of the directory, so there are at most
   * as many of them as files.
   */
  method GetUniquePath(existing: set<string>, name: string, fmt: string) returns (path: string)
    ensures path !in existing
    ensures IsUniquePath(existing, name, fmt, path)
  {
    path := Candidate(name, fmt, 0);
    var counter: nat := 1;
    ghost var tried: set<string> := {};
    while path in existing
      invariant path == Candidate(name, fmt, counter - 1)
      invariant forall j: nat :: j < counter - 1 ==> Candidate(name, fmt, j) in tried
      invariant tried <= existing && |tried| == counter - 1
      invariant forall x :: x in tried ==> exists j: nat :: j < counter - 1 && x == Candidate(name, fmt, j)
      decreases |existing| - |tried|
    {
      assert path !in tried by {
        if path in tried {
          var j: nat :| j < counter - 1 && path == Candidate(name, fmt, j);
          CandidateInjective(name, fmt, j, counter - 1);
        }
      }
      tried := tried + {path};
      SubsetCard(tried, existing);
      path := Candidate(name, fmt, counter);
      counter := counter + 1;
    }
  }

  /** The loop's answer is determined by the directory: only one candidate qualifies. */
  lemma UniquePathDeterministic(existing: set<string>, name: string, fmt: string, p: string, q: string)
    requires IsUniquePath(existing, name, fmt, p) && IsUniquePath(existing, name, fmt, q)
    ensures p == q
  {
    var j: nat :| p == Candidate(name, fmt, j) && p !in existing &&
                  forall i: nat :: i < j ==> Candidate(name, fmt, i) in existing;
    var k: nat :| q == Candidate(name, fmt, k) && q !in existing &&
                  forall i: nat :: i < k ==> Candidate(name, fmt, i) in existing;
  }

  /** In an empty directory the plain name is used. */
  lemma EmptyDirectoryKeepsName(name: string, fmt: string, path: string)
    requires IsUniquePath({}, name, fmt, path)
    ensures path == name + "." + fmt
  {
    assert IsUniquePath({}, name, fmt, Candidate(name, fmt, 0));
    UniquePathDeterministic({}, name, fmt, path, Candidate(name, fmt, 0));
  }

  /** With "foo.png" and "foo_1.png" taken, the next image is "foo_2.png". */
  lemma ThirdCopyExample()
    ensures IsUniquePath({"foo.png", "foo_1.png"}, "foo", "png", "foo_2.png")
  {
    assert Candidate("foo", "png", 0) == "foo.png";
    assert Candidate("foo", "png", 1) == "foo_1.png";
    assert Candidate("foo", "png", 2) == "foo_2.png";
    assert forall j: nat :: j < 2 ==> Candidate("foo", "png", j) in {"foo.png", "foo_1.png"};
  }
}
