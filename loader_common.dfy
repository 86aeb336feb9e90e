/**
 * What the two texture loaders (src/ui/main/export/preview/process.rs and
 * src/ui/main/export/export_settings/process.rs) have in common: the
 * messages the loading thread sends, and the file-name test that decides
 * which files are loaded at all.
 *
 * A path is given by its last component, the file name, which is `None`
 * for a path that has none (the root, or one ending in `..`).
 */
module LoaderCommon {
  import opened Wrappers

  /** `LoaderMsg`: the loading thread's messages; `T` is the decoded texture. */
  datatype LoaderMsg<T> =
    | Progress(loaded: nat, total: nat, current: string)
    | Image(texture: T)
    | Done
    | Error(message: string)

  /** The status bar's fraction `loaded / total`, kept as the two counts. */
  datatype Frac = Frac(loaded: nat, total: nat)

  /** The counts of the `Progress` messages in `msgs`, added up. */
  function ProgressSum<T>(msgs: seq<LoaderMsg<T>>): nat
  {
    if msgs == [] then 0
    else (if msgs[0].Progress? then msgs[0].loaded else 0) + ProgressSum(msgs[1..])
  }

  /** The textures of the `Image` messages in `msgs`, in order. */
  function Images<T>(msgs: seq<LoaderMsg<T>>): seq<T>
  {
    if msgs == [] then []
    else (if msgs[0].Image? then [msgs[0].texture] else []) + Images(msgs[1..])
  }

  /** Index of the last '.' in `s`, or -1 when there is none. */
  function LastDot(s: string): (k: int)
    ensures -1 <= k < |s|
    ensures k >= 0 ==> s[k] == '.'
    ensures forall j | k < j < |s| :: s[j] != '.'
  {
    if s == [] then -1
    else if s[|s| - 1] == '.' then |s| - 1
    else LastDot(s[..|s| - 1])
  }

  /**
   * `Path::extension` of a file name: the text after the last '.', unless
   * there is no '.' or the only one starts the name.
   */
  function Extension(name: string): Option<string>
  {
    var k := LastDot(name);
    if k <= 0 then None else Some(name[k + 1..])
  }

  /** `to_lowercase` on one character, for the ASCII letters. */
  function LowerChar(c: char): char
  {
    if 'A' <= c <= 'Z' then (c as int - 'A' as int + 'a' as int) as char else c
  }

  /** `to_lowercase` of a string, character by character. */
  function Lower(s: string): (r: string)
    ensures |r| == |s|
    ensures forall i | 0 <= i < |s| :: r[i] == LowerChar(s[i])
  {
    seq(|s|, i requires 0 <= i < |s| => LowerChar(s[i]))
  }

  /** The fifteen extensions the loaders accept, in lower case. */
  const ImageExtensions: seq<string> :=
    ["png", "jpg", "jpeg", "gif", "bmp", "ico", "tiff", "tif", "webp", "pnm", "tga", "dds", "farbfeld", "exr", "hdr"]

  /** `is_likely_image_file`: the lower-cased extension is one of the fifteen; no extension is not an image. */
  function IsLikelyImageFile(name: Option<string>): bool
  {
    match name
    case None => false
    case Some(n) =>
      match Extension(n)
      case None => false
      case Some(ext) => Lower(ext) in ImageExtensions
  }

  /** A name with a non-empty stem has as its extension exactly the text after the added '.'. */
  lemma ExtensionOf(stem: string, ext: string)
    requires stem != [] && '.' !in ext
    ensures Extension(stem + ['.'] + ext) == Some(ext)
  {
    var n := stem + ['.'] + ext;
    assert n[|stem|] == '.';
    assert LastDot(n) == |stem|;
    assert n[|stem| + 1..] == ext;
  }

  /** A name with no '.' after its first character has no extension. */
  lemma NoExtension(name: string)
    requires forall j | 0 < j < |name| :: name[j] != '.'
    ensures Extension(name) == None
  {
  }

  /**
   * A file `stem.ext` is likely an image exactly when `ext`, in lower
   * case, is one of the fifteen; a path without a file name never is.
   */
  lemma IsLikelyImageFileSpec(stem: string, ext: string)
    requires stem != [] && '.' !in ext
    ensures IsLikelyImageFile(Some(stem + ['.'] + ext)) <==> Lower(ext) in ImageExtensions
    ensures !IsLikelyImageFile(None)
  {
    ExtensionOf(stem, ext);
  }

  lemma {:induction false} LowerLastDot(s: string)
    ensures LastDot(Lower(s)) == LastDot(s)
  {
    if s != [] {
      LowerLastDot(s[..|s| - 1]);
      assert Lower(s)[..|s| - 1] == Lower(s[..|s| - 1]);
    }
  }

  lemma LowerCharTwice(c: char)
    ensures LowerChar(LowerChar(c)) == LowerChar(c)
  {
    if 'A' <= c <= 'Z' {
      var d := (c as int - 'A' as int + 'a' as int) as char;
      assert 'a' as int <= d as int <= 'z' as int;
      assert !('A' <= d <= 'Z');
    }
  }

  lemma LowerTwice(s: string, k: nat)
    requires k <= |s|
    ensures Lower(Lower(s)[k..]) == Lower(s[k..])
  {
    var a := Lower(Lower(s)[k..]);
    var b := Lower(s[k..]);
    forall i | 0 <= i < |a|
      ensures a[i] == b[i]
    {
      var c := s[k + i];
      LowerCharTwice(c);
    }
  }

  /** The test ignores case: a name and its lower-cased form get the same answer. */
  lemma CaseInsensitive(name: string)
    ensures IsLikelyImageFile(Some(Lower(name))) == IsLikelyImageFile(Some(name))
  {
    LowerLastDot(name);
    var k := LastDot(name);
    if k > 0 {
      assert Extension(Lower(name)) == Some(Lower(name)[k + 1..]);
      LowerTwice(name, k + 1);
    }
  }
}
