/**
 * The export page's folder chooser (src/ui/main/export/select_folder.rs):
 * a most-recently-used list of folders kept in the save data.
 *
 * Picking a folder through the dialog moves it (or adds it) to the front
 * and keeps at most ten entries; clicking a row of the list moves that
 * folder to the front.  Either way the folder becomes the selected export
 * path and the export settings are marked as changed this frame.
 *
 * The folder dialog is an input (`picked`: what the dialog returned, if it
 * was opened), and so is the screen width the rows are laid out with.
 */
module SelectFolder {
  import opened Wrappers
  import opened Geometry
  import opened UserInput
  import opened Helpers
  import opened SaveFile

  // ---------------------------------------------------------------------
  // The list operations
  // ---------------------------------------------------------------------

  /** The most entries a pick leaves in the list. */
  const MaxCached := 10

  /** `retain(|d| *d != f)`: the entries other than `f`, in order. */
  function Without(dirs: seq<Path>, f: Path): seq<Path>
  {
    if dirs == [] then []
    else (if dirs[0] == f then [] else [dirs[0]]) + Without(dirs[1..], f)
  }

  /** Picking `f`: drop it from the list, push it to the front, then drop the last entry if more than ten remain. */
  function Pick(dirs: seq<Path>, f: Path): seq<Path>
  {
    var pushed := [f] + Without(dirs, f);
    if |pushed| > MaxCached then pushed[..|pushed| - 1] else pushed
  }

  /** `VecDeque::remove(i)`: the entry at `i` taken out; an index past the end removes nothing. */
  function Remove(dirs: seq<Path>, i: nat): seq<Path>
  {
    if i < |dirs| then dirs[..i] + dirs[i + 1..] else dirs
  }

  /** Clicking row `i`: remove it, then push the same folder to the front. */
  function MoveToFront(dirs: seq<Path>, i: nat): seq<Path>
    requires i < |dirs|
  {
    [dirs[i]] + Remove(dirs, i)
  }

  /** `a` is `b` with some entries left out, the rest in their original order. */
  predicate Subseq(a: seq<Path>, b: seq<Path>)
  {
    a == [] || (b != [] && ((a[0] == b[0] && Subseq(a[1..], b[1..])) || Subseq(a, b[1..])))
  }

  /** No folder is listed twice. */
  ghost predicate NoDup(dirs: seq<Path>)
  {
    forall x :: multiset(dirs)[x] <= 1
  }

  lemma {:induction false} SubseqRefl(a: seq<Path>)
    ensures Subseq(a, a)
  {
    if a != [] {
      SubseqRefl(a[1..]);
    }
  }

  lemma {:induction false} SubseqPrefix(a: seq<Path>, b: seq<Path>, k: nat)
    requires Subseq(a, b) && k <= |a|
    ensures Subseq(a[..k], b)
  {
    if k > 0 {
      if a[0] == b[0] && Subseq(a[1..], b[1..]) {
        SubseqPrefix(a[1..], b[1..], k - 1);
        assert a[..k][1..] == a[1..][..k - 1];
      } else {
        SubseqPrefix(a, b[1..], k);
      }
    }
  }

  lemma {:induction false} SubseqRemove(d: seq<Path>, i: nat)
    requires i < |d|
    ensures Subseq(Remove(d, i), d)
  {
    var r := Remove(d, i);
    if i == 0 {
      assert r == d[1..];
      SubseqRefl(d[1..]);
    } else {
      SubseqRemove(d[1..], i - 1);
      assert r[0] == d[0];
      assert r[1..] == Remove(d[1..], i - 1);
    }
  }

  /** `retain` keeps every other folder with its multiplicity and drops every copy of `f`. */
  lemma {:induction false} WithoutCount(dirs: seq<Path>, f: Path, x: Path)
    ensures multiset(Without(dirs, f))[x] == if x == f then 0 else multiset(dirs)[x]
  {
    if dirs != [] {
      WithoutCount(dirs[1..], f, x);
      assert dirs == [dirs[0]] + dirs[1..];
      assert multiset(dirs) == multiset([dirs[0]]) + multiset(dirs[1..]);
    }
  }

  /** `retain` keeps the other folders in their original order. */
  lemma {:induction false} WithoutSubseq(dirs: seq<Path>, f: Path)
    ensures Subseq(Without(dirs, f), dirs)
  {
    if dirs != [] {
      WithoutSubseq(dirs[1..], f);
      var w := Without(dirs, f);
      if dirs[0] != f {
        assert w[0] == dirs[0] && w[1..] == Without(dirs[1..], f);
      } else {
        assert w == Without(dirs[1..], f);
      }
    }
  }

  /** `retain` never makes the list longer. */
  lemma {:induction false} WithoutLength(dirs: seq<Path>, f: Path)
    ensures |Without(dirs, f)| <= |dirs|
  {
    if dirs != [] {
      WithoutLength(dirs[1..], f);
    }
  }

  /** A prefix holds no more copies of anything than the whole. */
  lemma PrefixCount(s: seq<Path>, k: nat, x: Path)
    requires k <= |s|
    ensures multiset(s[..k])[x] <= multiset(s)[x]
  {
    assert s == s[..k] + s[k..];
    assert multiset(s) == multiset(s[..k]) + multiset(s[k..]);
  }

  /** A pick holds `f` once and no more copies of any other folder than before. */
  lemma PickCount(dirs: seq<Path>, f: Path, x: Path)
    ensures multiset(Pick(dirs, f))[x] <= if x == f then 1 else multiset(dirs)[x]
    ensures multiset(Pick(dirs, f))[f] == 1
  {
    var w := Without(dirs, f);
    var r := Pick(dirs, f);
    var k := |r| - 1;
    assert r == [f] + w[..k];
    assert multiset(r) == multiset([f]) + multiset(w[..k]);
    WithoutCount(dirs, f, x);
    WithoutCount(dirs, f, f);
    PrefixCount(w, k, x);
    PrefixCount(w, k, f);
  }

  /**
   * After a pick `f` is at the front and listed exactly once; the others
   * follow in their original order; only the last of them can have been
   * dropped, and only when ten others remain; a list of at most ten stays
   * at most ten; and a list without duplicates stays without.
   */
  lemma PickSpec(dirs: seq<Path>, f: Path)
    ensures var r := Pick(dirs, f);
      && r[0] == f
      && multiset(r)[f] == 1
      && (r[1..] == Without(dirs, f) || (|Without(dirs, f)| >= MaxCached && r[1..] == Without(dirs, f)[..|Without(dirs, f)| - 1]))
      && Subseq(r[1..], dirs)
      && (forall x | x != f :: multiset(r)[x] <= multiset(dirs)[x])
      && (|dirs| <= MaxCached ==> |r| <= MaxCached)
      && (NoDup(dirs) ==> NoDup(r))
  {
    PickOrder(dirs, f);
    PickCounts(dirs, f);
  }

  lemma PickOrder(dirs: seq<Path>, f: Path)
    ensures var r := Pick(dirs, f);
      && r[0] == f
      && (r[1..] == Without(dirs, f) || (|Without(dirs, f)| >= MaxCached && r[1..] == Without(dirs, f)[..|Without(dirs, f)| - 1]))
      && Subseq(r[1..], dirs)
      && (|dirs| <= MaxCached ==> |r| <= MaxCached)
  {
    var w := Without(dirs, f);
    var r := Pick(dirs, f);
    assert r[1..] == w[..|r| - 1];
    WithoutSubseq(dirs, f);
    SubseqPrefix(w, dirs, |r| - 1);
    WithoutLength(dirs, f);
  }

  lemma PickCounts(dirs: seq<Path>, f: Path)
    ensures var r := Pick(dirs, f);
      && multiset(r)[f] == 1
      && (forall x | x != f :: multiset(r)[x] <= multiset(dirs)[x])
      && (NoDup(dirs) ==> NoDup(r))
  {
    var r := Pick(dirs, f);
    PickCount(dirs, f, f);
    forall x
      ensures multiset(r)[x] <= if x == f then 1 else multiset(dirs)[x]
    {
      PickCount(dirs, f, x);
    }
  }

  /**
   * Clicking row `i` puts that folder at the front, keeps the length and
   * the entries, and leaves the others in their original order.
   */
  lemma MoveToFrontSpec(dirs: seq<Path>, i: nat)
    requires i < |dirs|
    ensures var r := MoveToFront(dirs, i);
      && r[0] == dirs[i]
      && |r| == |dirs|
      && multiset(r) == multiset(dirs)
      && Subseq(r[1..], dirs)
      && (NoDup(dirs) ==> NoDup(r))
  {
    SubseqRemove(dirs, i);
    assert MoveToFront(dirs, i)[1..] == Remove(dirs, i);
    MoveToFrontCounts(dirs, i);
  }

  lemma MoveToFrontCounts(dirs: seq<Path>, i: nat)
    requires i < |dirs|
    ensures multiset(MoveToFront(dirs, i)) == multiset(dirs)
  {
    var r := MoveToFront(dirs, i);
    assert dirs == dirs[..i] + [dirs[i]] + dirs[i + 1..];
    assert r == [dirs[i]] + dirs[..i] + dirs[i + 1..];
    calc {
      multiset(r);
      multiset([dirs[i]]) + multiset(dirs[..i]) + multiset(dirs[i + 1..]);
      multiset(dirs[..i]) + multiset([dirs[i]]) + multiset(dirs[i + 1..]);
      multiset(dirs);
    }
  }

  // ---------------------------------------------------------------------
  // One frame of the node
  // ---------------------------------------------------------------------

  /** The "Select new folder" button. */
  const PickRect := Rect(28.0, 100.0, 150.0, 38.0)

  /** Row `i` of the folder list, as wide as the screen less 200. */
  function RowRect(i: nat, screenWidth: real): Rect
  {
    Rect(28.0, 150.0 + 38.0 * i as real, screenWidth - 200.0, 28.0)
  }

  /** The folder list together with the export path and its changed flag. */
  datatype Choice = Choice(dirs: seq<Path>, path: Option<Path>, changed: bool)

  /** The pick button: only a click that the dialog answers with a folder changes anything. */
  function AfterPick(c: Choice, f: Focus, id: nat, picked: Option<Path>): Choice
  {
    if SubUiButton(f, id, PickRect) && picked.Some? then
      var dirs := Pick(c.dirs, picked.value);
      Choice(dirs, Some(dirs[0]), true)
    else c
  }

  /** Rows `0..n` of the list as it was when the loop began (`snap`). */
  function AfterRows(c: Choice, snap: seq<Path>, n: nat, f: Focus, id: nat, screenWidth: real): Choice
    requires n <= |snap|
  {
    if n == 0 then c
    else
      var prev := AfterRows(c, snap, n - 1, f, id, screenWidth);
      if SubUiButton(f, id, RowRect(n - 1, screenWidth)) then
        Choice([snap[n - 1]] + Remove(prev.dirs, n - 1), Some(snap[n - 1]), true)
      else prev
  }

  /** The whole frame: the pick button, then the rows. */
  function Frame(c: Choice, f: Focus, id: nat, screenWidth: real, picked: Option<Path>): Choice
  {
    var p := AfterPick(c, f, id, picked);
    AfterRows(p, p.dirs, |p.dirs|, f, id, screenWidth)
  }

  /** The pick button and the rows do not overlap, and neither do two rows. */
  lemma RectsApart(i: nat, j: nat, w: real, p: Vec2)
    ensures !(Contains(PickRect, p) && Contains(RowRect(i, w), p))
    ensures Contains(RowRect(i, w), p) && Contains(RowRect(j, w), p) ==> i == j
  {
  }

  /** The rows change the list only by one move-to-front, on the one row under the mouse. */
  lemma {:induction false} AfterRowsSpec(c: Choice, n: nat, f: Focus, id: nat, w: real)
    requires n <= |c.dirs|
    ensures var r := AfterRows(c, c.dirs, n, f, id, w);
      || (r == c && forall i: nat | i < n :: !SubUiButton(f, id, RowRect(i, w)))
      || exists i: nat | i < n :: SubUiButton(f, id, RowRect(i, w))
           && r == Choice(MoveToFront(c.dirs, i), Some(c.dirs[i]), true)
  {
    if n > 0 {
      AfterRowsSpec(c, n - 1, f, id, w);
    }
  }

  /**
   * A frame does nothing, or picks a folder, or moves one listed folder to
   * the front; after either operation the export path is the new front
   * entry and the changed flag is set.
   */
  lemma FrameSpec(c: Choice, f: Focus, id: nat, w: real, picked: Option<Path>)
    ensures var r := Frame(c, f, id, w, picked);
      || r == c
      || (picked.Some? && r == Choice(Pick(c.dirs, picked.value), Some(picked.value), true))
      || exists i: nat | i < |c.dirs| :: r == Choice(MoveToFront(c.dirs, i), Some(c.dirs[i]), true)
    ensures var r := Frame(c, f, id, w, picked);
      r != c ==> r.dirs != [] && r.path == Some(r.dirs[0]) && r.changed
  {
    var p := AfterPick(c, f, id, picked);
    AfterRowsSpec(p, |p.dirs|, f, id, w);
  }

  /** The export settings fields this node writes. */
  class ExportSettings {
    var path: Option<Path>
    var changedThisFrame: bool

    constructor (path: Option<Path>)
      ensures this.path == path && !changedThisFrame
    {
      this.path := path;
      changedThisFrame := false;
    }
  }

  /** The pick branch of `update`: the list operations in place, then the path and the flag. */
  method PickFolder(folder: Path, save: SaveData, settings: ExportSettings)
    modifies save, settings
    ensures save.cachedDirs == Pick(old(save.cachedDirs), folder)
    ensures settings.path == Some(folder) && settings.changedThisFrame
    ensures save.table == old(save.table)
  {
    save.cachedDirs := Without(save.cachedDirs, folder);
    save.cachedDirs := [folder] + save.cachedDirs;
    if |save.cachedDirs| > MaxCached {
      save.cachedDirs := save.cachedDirs[..|save.cachedDirs| - 1];
    }
    settings.path := Some(save.cachedDirs[0]);
    settings.changedThisFrame := true;
  }

  /** `SelectFolder::update`, with the list in the save data and the path in the export settings. */
  method Update(f: Focus, id: nat, screenWidth: real, picked: Option<Path>, save: SaveData, settings: ExportSettings)
    modifies save, settings
    ensures Choice(save.cachedDirs, settings.path, settings.changedThisFrame)
      == Frame(old(Choice(save.cachedDirs, settings.path, settings.changedThisFrame)), f, id, screenWidth, picked)
    ensures save.table == old(save.table)
  {
    if SubUiButton(f, id, PickRect) && picked.Some? {
      PickFolder(picked.value, save, settings);
    }
    ghost var start := Choice(save.cachedDirs, settings.path, settings.changedThisFrame);
    assert start == AfterPick(old(Choice(save.cachedDirs, settings.path, settings.changedThisFrame)), f, id, picked);
    var snap := save.cachedDirs;
    var index := 0;
    while index < |snap|
      invariant index <= |snap|
      invariant save.table == old(save.table)
      invariant Choice(save.cachedDirs, settings.path, settings.changedThisFrame)
        == AfterRows(start, snap, index, f, id, screenWidth)
    {
      if SubUiButton(f, id, RowRect(index, screenWidth)) {
        save.cachedDirs := Remove(save.cachedDirs, index);
        save.cachedDirs := [snap[index]] + save.cachedDirs;
        settings.path := Some(snap[index]);
        settings.changedThisFrame := true;
      }
      index := index + 1;
    }
  }
}
