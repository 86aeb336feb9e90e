/**
 * The sidebar's "Save colour" button (src/ui/main/draw/sidebar/save.rs).
 * It stores nothing itself: each frame it records in two store flags
 * whether it holds the last touch and whether it held the one before, and
 * the saved-colour grid reads those flags.
 */
module Save {
  import opened Geometry
  import opened Instructions
  import opened UserInput
  import opened Entries
  import NodeTree

  /** The button's rectangle. */
  const SaveRect := Rect(10.0, 380.0, 100.0, 28.0)

  /** `Save`. */
  class Save {
    const rect: Rect

    constructor ()
      ensures rect == SaveRect
    {
      rect := SaveRect;
    }

    /** `update`: `LastTouch` and `PrevTouch` (two different store entries) become this node's last-touch and previous last-touch tests. */
    method Update(f: Focus, id: nat, lastTouch: Entry<bool>, prevTouch: Entry<bool>)
      requires lastTouch != prevTouch
      modifies lastTouch, prevTouch
      ensures lastTouch.value == NodeTree.ContainsSelf(id, f.lasttouchFocus)
      ensures prevTouch.value == NodeTree.ContainsSelf(id, f.prevLasttouchFocus)
    {
      var lasttouch := NodeTree.ContainsSelf(id, f.lasttouchFocus);
      lastTouch.value := lasttouch;
      prevTouch.value := NodeTree.ContainsSelf(id, f.prevLasttouchFocus);
    }

    /** `hit_detect`: the button alone when the point is inside its rectangle, nothing otherwise. */
    function HitDetect(pos: Vec2, id: nat): (path: seq<nat>)
      ensures path == [] || path == [id]
      ensures path != [] <==> Contains(rect, pos)
    {
      if Contains(rect, pos) then [id] else []
    }
  }

  /** `Save::new`: the button, and its two store flags registered as false. */
  method New() returns (save: Save, lastTouch: Entry<bool>, prevTouch: Entry<bool>)
    ensures fresh(save) && fresh(lastTouch) && fresh(prevTouch)
    ensures save.rect == SaveRect
    ensures lastTouch != prevTouch && !lastTouch.value && !prevTouch.value
  {
    lastTouch := new Entry(false);
    prevTouch := new Entry(false);
    save := new Save();
  }

  /**
   * What the flags mean across frames: on a frame that starts a left
   * press, `PrevTouch` becomes what `LastTouch` was on the frame before,
   * and `LastTouch` says whether the press landed on the button; on any
   * other frame both keep their values.  So right after pressing elsewhere,
   * `PrevTouch` tells whether the press before was on the button.
   */
  lemma FlagsAcrossFrames(f: Focus, snap: Snapshot, hit: seq<nat>, resolved: Instruction, id: nat)
    ensures var g := Step(f, snap, hit, resolved);
      var press := Refreshes(snap) && snap.buttons.leftPressed;
      && (press ==> NodeTree.ContainsSelf(id, g.prevLasttouchFocus) == NodeTree.ContainsSelf(id, f.lasttouchFocus))
      && (press ==> NodeTree.ContainsSelf(id, g.lasttouchFocus) == NodeTree.ContainsSelf(id, hit))
      && (!press ==> NodeTree.ContainsSelf(id, g.prevLasttouchFocus) == NodeTree.ContainsSelf(id, f.prevLasttouchFocus))
      && (!press ==> NodeTree.ContainsSelf(id, g.lasttouchFocus) == NodeTree.ContainsSelf(id, f.lasttouchFocus))
  {
  }
}
