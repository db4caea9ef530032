/**
 * The members of an .xlsx archive that the "extract all" mode handles (main.py): which
 * members are media, the order they are processed in, and whether an undecodable member
 * is a vector image (EMF/WMF) worth converting.
 */
module Media {
  import opened PyStrings

  newtype byte = x: int | 0 <= x < 256

  /**
   * An archive member: its name and contents, and what the libraries make of it: whether
   * the archive can read it, whether Pillow decodes it, whether the external converter turns
   * it into an image, and whether saving the image succeeds.
   */
  datatype Member = Member(name: string, readable: bool, data: seq<byte>,
                           decodes: bool, converts: bool, saves: bool)

  /** The directory of the archive that holds a workbook's embedded media. */
  const MediaDir: string := "xl/media/"

  /** A media file: under `xl/media/` and not a directory entry. */
  predicate IsMediaName(name: string) {
    StartsWith(name, MediaDir) && !EndsWith(name, "/")
  }

  /** The media members of a listing, in listing order. */
  function MediaMembers(listing: seq<Member>): seq<Member> {
    if listing == [] then []
    else MediaMembers(listing[..|listing| - 1]) +
         (if IsMediaName(listing[|listing| - 1].name) then [listing[|listing| - 1]] else [])
  }

  /** Exactly the media members are kept, and only those. */
  lemma {:induction false} MediaMembersExact(listing: seq<Member>)
    ensures forall m :: m in MediaMembers(listing) <==> m in listing && IsMediaName(m.name)
  {
    if listing != [] {
      var init := listing[..|listing| - 1];
      MediaMembersExact(init);
      assert listing == init + [listing[|listing| - 1]];
    }
  }

  /** The collecting loop of `_extract_all_images`: append every media member. */
  method CollectMedia(listing: seq<Member>) returns (media: seq<Member>)
    ensures media == MediaMembers(listing)
    ensures forall m :: m in media <==> m in listing && IsMediaName(m.name)
  {
    media := [];
    var i := 0;
    while i < |listing|
      invariant 0 <= i <= |listing|
      invariant media == MediaMembers(listing[..i])
    {
      assert listing[..i + 1][..i] == listing[..i];
      if IsMediaName(listing[i].name) {
        media := media + [listing[i]];
      }
      i := i + 1;
    }
    assert listing[..i] == listing;
    MediaMembersExact(listing);
  }

  /** How many characters at the end of `s` are ASCII digits. */
  function TrailingDigitCount(s: string): (n: nat)
    ensures n <= |s|
    ensures forall k :: |s| - n <= k < |s| ==> IsDigit(s[k])
    ensures n < |s| ==> !IsDigit(s[|s| - n - 1])
  {
    if s == [] || !IsDigit(s[|s| - 1]) then 0 else 1 + TrailingDigitCount(s[..|s| - 1])
  }

  /** The last maximal run of digits in `s`, empty when `s` has none. */
  function LastDigitRun(s: string): (r: string)
    ensures AllDigits(r)
  {
    if s == [] then []
    else if IsDigit(s[|s| - 1]) then s[|s| - TrailingDigitCount(s)..]
    else LastDigitRun(s[..|s| - 1])
  }

  /** `_sort_key`: the value of the last digit run in the name, or 0 when there is none. */
  function SortKey(name: string): nat {
    var run := LastDigitRun(name);
    if run == [] then 0 else ParseDigits(run)
  }

  predicate NoDigits(s: string) {
    forall i :: 0 <= i < |s| ==> !IsDigit(s[i])
  }

  /** Characters after the last digit do not change the last run. */
  lemma {:induction false} LastDigitRunSkipsTail(x: string, b: string)
    requires NoDigits(b)
    ensures LastDigitRun(x + b) == LastDigitRun(x)
    decreases |b|
  {
    if b != [] {
      var xb := x + b;
      var b' := b[..|b| - 1];
      assert xb[..|xb| - 1] == x + b';
      assert xb[|xb| - 1] == b[|b| - 1];
      assert !IsDigit(xb[|xb| - 1]);
      assert LastDigitRun(xb) == LastDigitRun(x + b');
      assert NoDigits(b') by {
        forall i | 0 <= i < |b'| ensures !IsDigit(b'[i]) {
          assert b'[i] == b[i];
        }
      }
      LastDigitRunSkipsTail(x, b');
    } else {
      assert x + b == x;
    }
  }

  /** A trailing digit run is counted to its start and no further. */
  lemma {:induction false} TrailingDigitsOf(a: string, d: string)
    requires d != [] && AllDigits(d)
    requires a == [] || !IsDigit(a[|a| - 1])
    ensures TrailingDigitCount(a + d) == |d|
    decreases |d|
  {
    var ad := a + d;
    assert ad[..|ad| - 1] == a + d[..|d| - 1];
    if |d| == 1 {
      assert ad[..|ad| - 1] == a;
    } else {
      TrailingDigitsOf(a, d[..|d| - 1]);
    }
  }

  /**
   * A name whose last run of digits is `d` is keyed by the value of `d`, leading zeros and
   * all, as `int` reads it: "xl/media/image10.png" by 10, "image007.png" by 7.
   */
  lemma SortKeyOfNumbered(a: string, d: string, b: string)
    requires d != [] && AllDigits(d)
    requires a == [] || !IsDigit(a[|a| - 1])
    requires NoDigits(b)
    ensures SortKey(a + d + b) == ParseDigits(d)
  {
    LastDigitRunSkipsTail(a + d, b);
    TrailingDigitsOf(a, d);
    var ad := a + d;
    assert ad[|ad| - |d|..] == d;
  }

  /** A name without digits is keyed 0. */
  lemma {:induction false} SortKeyWithoutDigits(s: string)
    requires NoDigits(s)
    ensures SortKey(s) == 0
  {
    assert s == [] + s;
    LastDigitRunSkipsTail([], s);
  }

  function Key(m: Member): nat {
    SortKey(m.name)
  }

  /** Insert `m` before the first member whose key is not smaller. */
  function Insert(m: Member, s: seq<Member>): seq<Member> {
    if s == [] || Key(m) <= Key(s[0]) then [m] + s else [s[0]] + Insert(m, s[1..])
  }

  /** `media_files.sort(key=_sort_key)`: a stable sort, written as an insertion sort. */
  function SortByKey(l: seq<Member>): seq<Member> {
    if l == [] then [] else Insert(l[0], SortByKey(l[1..]))
  }

  predicate SortedByKey(s: seq<Member>) {
    forall i, j :: 0 <= i < j < |s| ==> Key(s[i]) <= Key(s[j])
  }

  /** The members with key `k`, in order. */
  function WithKey(s: seq<Member>, k: nat): seq<Member> {
    if s == [] then [] else (if Key(s[0]) == k then [s[0]] else []) + WithKey(s[1..], k)
  }

  /** Inserting keeps every element, and adds `m` once. */
  lemma {:induction false} InsertMultiset(m: Member, s: seq<Member>)
    ensures multiset(Insert(m, s)) == multiset{m} + multiset(s)
  {
    if s != [] && Key(m) > Key(s[0]) {
      InsertMultiset(m, s[1..]);
      assert s == [s[0]] + s[1..];
    }
  }

  /** A lower bound on the keys of `m` and of `s` bounds the keys after insertion. */
  lemma {:induction false} InsertLowerBound(m: Member, s: seq<Member>, lo: nat)
    requires lo <= Key(m)
    requires forall j :: 0 <= j < |s| ==> lo <= Key(s[j])
    ensures forall j :: 0 <= j < |Insert(m, s)| ==> lo <= Key(Insert(m, s)[j])
  {
    if s != [] && Key(m) > Key(s[0]) {
      InsertLowerBound(m, s[1..], lo);
    }
  }

  lemma {:induction false} InsertSorted(m: Member, s: seq<Member>)
    requires SortedByKey(s)
    ensures SortedByKey(Insert(m, s))
  {
    if s != [] && Key(m) > Key(s[0]) {
      InsertSorted(m, s[1..]);
      InsertLowerBound(m, s[1..], Key(s[0]));
    }
  }

  /** The sorted members come in key order. */
  lemma {:induction false} SortByKeySorted(l: seq<Member>)
    ensures SortedByKey(SortByKey(l))
    ensures multiset(SortByKey(l)) == multiset(l)
  {
    if l != [] {
      SortByKeySorted(l[1..]);
      InsertSorted(l[0], SortByKey(l[1..]));
      InsertMultiset(l[0], SortByKey(l[1..]));
      assert l == [l[0]] + l[1..];
    }
  }

  lemma {:induction false} InsertWithKey(m: Member, s: seq<Member>, k: nat)
    ensures WithKey(Insert(m, s), k) == (if Key(m) == k then [m] else []) + WithKey(s, k)
  {
    var b := if Key(m) == k then [m] else [];
    if s == [] || Key(m) <= Key(s[0]) {
      var t := [m] + s;
      assert t[0] == m && t[1..] == s;
    } else {
      var r := Insert(m, s[1..]);
      InsertWithKey(m, s[1..], k);
      var t := [s[0]] + r;
      assert t[0] == s[0] && t[1..] == r;
      var a := if Key(s[0]) == k then [s[0]] else [];
      var rest := WithKey(s[1..], k);
      assert a == [] || b == [];
      assert WithKey(t, k) == a + (b + rest);
      assert WithKey(s, k) == a + rest;
      if a == [] {
        assert a + rest == rest && a + (b + rest) == b + rest;
      } else {
        assert b + rest == rest && b + (a + rest) == a + rest;
      }
    }
  }

  /** The sort is stable: members with equal keys keep their relative order. */
  lemma {:induction false} SortByKeyStable(l: seq<Member>, k: nat)
    ensures WithKey(SortByKey(l), k) == WithKey(l, k)
  {
    if l != [] {
      SortByKeyStable(l[1..], k);
      InsertWithKey(l[0], SortByKey(l[1..]), k);
    }
  }

  function Named(name: string): Member {
    Member(name, true, [], true, false, true)
  }

  lemma ExampleKeys()
    ensures Key(Named("xl/media/image3.png")) == 3
    ensures Key(Named("xl/media/image10.png")) == 10
    ensures Key(Named("xl/media/image1.png")) == 1
  {
    var a, b := "xl/media/image", ".png";
    assert "xl/media/image3.png" == a + "3" + b;
    assert "xl/media/image10.png" == a + "10" + b;
    assert "xl/media/image1.png" == a + "1" + b;
    SortKeyOfNumbered(a, "3", b);
    SortKeyOfNumbered(a, "10", b);
    SortKeyOfNumbered(a, "1", b);
    assert ParseDigits("1") == 1 && ParseDigits("3") == 3;
    assert "10"[..1] == "1";
  }

  /** image3, image10, image1 are processed as image1, image3, image10. */
  lemma SortExample()
    ensures SortByKey([Named("xl/media/image3.png"), Named("xl/media/image10.png"), Named("xl/media/image1.png")])
         == [Named("xl/media/image1.png"), Named("xl/media/image3.png"), Named("xl/media/image10.png")]
  {
    ExampleKeys();
    var m3, m10, m1 := Named("xl/media/image3.png"), Named("xl/media/image10.png"), Named("xl/media/image1.png");
    assert SortByKey([m1]) == [m1];
    assert [m3, m10, m1][1..] == [m10, m1];
    assert [m10, m1][1..] == [m1];
    assert Insert(m10, [m1]) == [m1, m10];
    assert Insert(m3, [m1, m10]) == [m1, m3, m10];
  }

  /** The final path component: what follows the last `/`. */
  function BaseName(s: string): (r: string)
    ensures EndsWith(s, r)
    ensures forall i :: 0 <= i < |r| ==> r[i] != '/'
    ensures r == s || s[|s| - |r| - 1] == '/'
  {
    if s == [] || s[|s| - 1] == '/' then [] else BaseName(s[..|s| - 1]) + [s[|s| - 1]]
  }

  /** `s.rfind('.')`: the index of the last dot, or -1. */
  function LastDot(s: string): (i: int)
    ensures -1 <= i < |s|
    ensures i >= 0 ==> s[i] == '.'
    ensures forall k :: i < k < |s| ==> s[k] != '.'
  {
    if s == [] then -1 else if s[|s| - 1] == '.' then |s| - 1 else LastDot(s[..|s| - 1])
  }

  /**
   * `Path(name).suffix`: from the last dot of the final component, provided that dot is
   * neither its first nor its last character.
   */
  function Suffix(name: string): string {
    BaseSuffix(BaseName(name))
  }

  /** The suffix of a final component. */
  function BaseSuffix(base: string): (r: string)
    ensures r != [] ==> r[0] == '.' && |r| >= 2
  {
    var i := LastDot(base);
    if 0 < i < |base| - 1 then base[i..] else []
  }

  const EmfSignature: seq<byte> := [0x01, 0x00, 0x00, 0x00]
  const WmfAldusSignature: seq<byte> := [0xD7, 0xCD, 0xC6, 0x9A]
  const WmfSignature: seq<byte> := [0x01, 0x00, 0x09, 0x00]

  /** The lower-cased extension is ".emf" or ".wmf". */
  predicate HasVectorExtension(name: string) {
    var ext := Lower(Suffix(name));
    ext == ".emf" || ext == ".wmf"
  }

  /** The first four bytes are an EMF or WMF file header. */
  predicate HasVectorHeader(data: seq<byte>) {
    |data| >= 4 &&
    (data[..4] == EmfSignature || data[..4] == WmfAldusSignature || data[..4] == WmfSignature)
  }

  /** The outcome of `_open_image_data`. */
  datatype Opened = Decoded | Converted | Unsupported

  /**
   * `_open_image_data`: what Pillow decodes is used as is; otherwise only a vector image
   * (by extension or by header) goes to the converter, and anything else is unsupported.
   */
  function OpenImageData(m: Member): (r: Opened)
    ensures r == Decoded <==> m.decodes
    ensures r == Converted <==> !m.decodes && m.converts && (HasVectorExtension(m.name) || HasVectorHeader(m.data))
    ensures !m.decodes && !HasVectorExtension(m.name) && !HasVectorHeader(m.data) ==> r == Unsupported
  {
    if m.decodes then Decoded
    else
      var isVector := HasVectorExtension(m.name) || HasVectorHeader(m.data);
      if !isVector then Unsupported
      else if m.converts then Converted
      else Unsupported
  }

  /** The last component after a slash is the base name. */
  lemma {:induction false} BaseNameAfterSlash(dir: string, base: string)
    requires forall i :: 0 <= i < |base| ==> base[i] != '/'
    ensures BaseName(dir + "/" + base) == base
    decreases |base|
  {
    var s := dir + "/" + base;
    if base == [] {
      assert s[|s| - 1] == '/';
    } else {
      assert s[..|s| - 1] == dir + "/" + base[..|base| - 1];
      BaseNameAfterSlash(dir, base[..|base| - 1]);
    }
  }

  /** The last dot of `stem.ext`, when `ext` has none, is the one after `stem`. */
  lemma {:induction false} LastDotBeforeExt(stem: string, ext: string)
    requires forall i :: 0 <= i < |ext| ==> ext[i] != '.'
    ensures LastDot(stem + "." + ext) == |stem|
    decreases |ext|
  {
    var s := stem + "." + ext;
    if ext == [] {
      assert s[|s| - 1] == '.';
    } else {
      assert s[..|s| - 1] == stem + "." + ext[..|ext| - 1];
      LastDotBeforeExt(stem, ext[..|ext| - 1]);
    }
  }

  predicate NoDotOrSlash(s: string) {
    forall i :: 0 <= i < |s| ==> s[i] != '.' && s[i] != '/'
  }

  /** The suffix of `stem.ext` with a non-empty stem and extension is ".ext". */
  lemma BaseSuffixOf(base: string, stem: string, ext: string)
    requires base == stem + "." + ext
    requires stem != [] && ext != [] && NoDotOrSlash(ext)
    ensures BaseSuffix(base) == "." + ext
  {
    LastDotBeforeExt(stem, ext);
    assert base[|stem|..] == "." + ext;
  }

  /** A hidden file `.ext` has no suffix: its only dot is its first character. */
  lemma HiddenFileHasNoSuffix(base: string, ext: string)
    requires base == "." + ext && NoDotOrSlash(ext)
    ensures BaseSuffix(base) == []
  {
    assert base == [] + "." + ext;
    LastDotBeforeExt([], ext);
  }

  /** The suffix of `dir/stem.ext` with a non-empty stem and extension is ".ext". */
  lemma PathSuffixOf(name: string, dir: string, stem: string, ext: string)
    requires name == dir + "/" + (stem + "." + ext)
    requires stem != [] && forall i :: 0 <= i < |stem| ==> stem[i] != '/'
    requires ext != [] && NoDotOrSlash(ext)
    ensures Suffix(name) == "." + ext
  {
    var base := stem + "." + ext;
    BaseNameAfterSlash(dir, base);
    BaseSuffixOf(base, stem, ext);
  }

  /** The extension test ignores case: "image1.EMF" is a vector image like "image1.emf". */
  lemma VectorExtensionIgnoresCase(name: string, dir: string, stem: string, ext: string)
    requires name == dir + "/" + (stem + "." + ext)
    requires stem != [] && forall i :: 0 <= i < |stem| ==> stem[i] != '/'
    requires NoDotOrSlash(ext) && (Lower(ext) == "emf" || Lower(ext) == "wmf")
    ensures HasVectorExtension(name)
  {
    assert |ext| == 3;
    PathSuffixOf(name, dir, stem, ext);
    VectorDotExt(ext);
  }

  lemma LowerDotExt(ext: string)
    ensures Lower("." + ext) == "." + Lower(ext)
  {
    assert ("." + ext)[1..] == ext;
  }

  lemma VectorDotExt(ext: string)
    requires Lower(ext) == "emf" || Lower(ext) == "wmf"
    ensures Lower("." + ext) == ".emf" || Lower("." + ext) == ".wmf"
  {
    LowerDotExt(ext);
  }

  lemma OtherDotExt(ext: string)
    requires Lower(ext) != "emf" && Lower(ext) != "wmf"
    ensures Lower("." + ext) != ".emf" && Lower("." + ext) != ".wmf"
  {
    LowerDotExt(ext);
    assert (("." + Lower(ext)))[1..] == Lower(ext);
  }

  /** An undecodable member named with another extension is unsupported unless its header says otherwise. */
  lemma OtherExtensionUnsupported(m: Member, dir: string, stem: string, ext: string)
    requires m.name == dir + "/" + (stem + "." + ext)
    requires stem != [] && forall i :: 0 <= i < |stem| ==> stem[i] != '/'
    requires ext != [] && NoDotOrSlash(ext) && Lower(ext) != "emf" && Lower(ext) != "wmf"
    requires !m.decodes && !HasVectorHeader(m.data)
    ensures OpenImageData(m) == Unsupported
  {
    PathSuffixOf(m.name, dir, stem, ext);
    OtherDotExt(ext);
    assert !HasVectorExtension(m.name);
  }

  /** A hidden ".emf" file is not a vector image by name. */
  lemma HiddenEmfUnsupported(m: Member, dir: string)
    requires m.name == dir + "/" + ".emf"
    requires !m.decodes && !HasVectorHeader(m.data)
    ensures OpenImageData(m) == Unsupported
  {
    assert Suffix(m.name) == [] by {
      BaseNameAfterSlash(dir, ".emf");
      HiddenFileHasNoSuffix(".emf", "emf");
    }
  }

  /** An undecodable member with an EMF header goes to the converter whatever its name. */
  lemma EmfHeaderConverted(name: string, rest: seq<byte>, saves: bool)
    ensures OpenImageData(Member(name, true, EmfSignature + rest, false, true, saves)) == Converted
  {
    assert (EmfSignature + rest)[..4] == EmfSignature;
  }
}
