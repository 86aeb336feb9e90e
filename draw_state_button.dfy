/**
 * A sidebar button that selects a drawing tool
 * (src/ui/main/draw/sidebar/draw_state_button.rs).  Clicking it selects its
 * tool, or goes back to plain drawing when its tool is already selected.
 */
module DrawStateButton {
  import opened Geometry
  import opened Instructions
  import opened UserInput
  import opened Entries
  import NodeTree

  /**
   * The tool after asking for `requested`: plain drawing when `requested`
   * is already the tool, `requested` otherwise.  The draw-area shortcut
   * uses the same rule.
   */
  function Toggled(current: DrawState, requested: DrawState): (next: DrawState)
    ensures next == DrawState.Draw || next == requested
    ensures next == requested <==> current != requested || requested == DrawState.Draw
    ensures current == requested ==> next == DrawState.Draw
  {
    if current == requested then DrawState.Draw else requested
  }

  /** Asking for the same tool twice in a row comes back to where it started, unless it started at `Draw`. */
  lemma ToggledTwice(current: DrawState, requested: DrawState)
    requires current == requested || current == DrawState.Draw
    ensures Toggled(Toggled(current, requested), requested) == current
  {
  }

  /** The click this button acts on: the node was last touched and is hovered, and the left button was released. */
  predicate Clicked(f: Focus, id: nat)
  {
    NodeTree.ContainsSelf(id, f.lasttouchFocus) && NodeTree.ContainsSelf(id, f.hoverFocus) && f.buttons.leftLetGo
  }

  /** `DrawStateButton`: its label, rectangle and tool. */
  class DrawStateButton {
    const name: string
    const rect: Rect
    const newState: DrawState

    constructor (name: string, rect: Rect, newState: DrawState)
      ensures this.name == name && this.rect == rect && this.newState == newState
    {
      this.name := name;
      this.rect := rect;
      this.newState := newState;
    }

    /** `update`: on a click, toggle the stored tool against this button's tool; otherwise leave it. */
    method Update(f: Focus, id: nat, drawState: Entry<DrawState>)
      modifies drawState
      ensures Clicked(f, id) ==> drawState.value == Toggled(old(drawState.value), newState)
      ensures !Clicked(f, id) ==> drawState.value == old(drawState.value)
    {
      var hovered := NodeTree.ContainsSelf(id, f.hoverFocus);
      var lasttouch := NodeTree.ContainsSelf(id, f.lasttouchFocus);
      var active := drawState.value == newState;
      if lasttouch && hovered && f.buttons.leftLetGo {
        if active {
          drawState.value := DrawState.Draw;
        } else {
          drawState.value := newState;
        }
      }
    }

    /** `hit_detect`: the button alone when the point is inside its rectangle, nothing otherwise. */
    function HitDetect(pos: Vec2, id: nat): (path: seq<nat>)
      ensures path == [] || path == [id]
      ensures path != [] <==> Contains(rect, pos)
    {
      if Contains(rect, pos) then [id] else []
    }
  }
}
