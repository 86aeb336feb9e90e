/**
 * The click predicates every button node uses, and the array-to-colour
 * copy.  Drawing is left out: a button here is only its answer to "was I
 * clicked this frame?".
 */
module Helpers {
  import opened Geometry
  import opened NodeTree
  import opened UserInput

  /** `raw_ui_button`: the hover and release flags combined. */
  function RawUiButton(hovered: bool, letGo: bool): (clicked: bool)
    ensures clicked ==> hovered && letGo
    ensures hovered && letGo ==> clicked
  {
    hovered && letGo
  }

  /** `col_button`: the same answer as `raw_ui_button`. */
  function ColButton(hovered: bool, letGo: bool): (clicked: bool)
    ensures clicked == RawUiButton(hovered, letGo)
  {
    hovered && letGo
  }

  /**
   * `ui_button` for node `id`: a click is a left release this frame while
   * the node is on the hover path and was on the path of the last left
   * press.
   */
  function UiButton(f: Focus, id: nat): (clicked: bool)
    ensures clicked <==> ContainsSelf(id, f.hoverFocus) && f.buttons.leftLetGo && ContainsSelf(id, f.lasttouchFocus)
  {
    var hovered := ContainsSelf(id, f.hoverFocus);
    var letGo := hovered && f.buttons.leftLetGo && ContainsSelf(id, f.lasttouchFocus);
    RawUiButton(hovered, letGo)
  }

  /** `sub_ui_button`: as `ui_button`, and the mouse must also be inside `rect`. */
  function SubUiButton(f: Focus, id: nat, rect: Rect): (clicked: bool)
    ensures clicked ==> Contains(rect, f.mouse)
    ensures clicked <==> UiButton(f, id) && Contains(rect, f.mouse)
  {
    var hovered := ContainsSelf(id, f.hoverFocus) && Contains(rect, f.mouse);
    var letGo := hovered && f.buttons.leftLetGo && ContainsSelf(id, f.lasttouchFocus);
    RawUiButton(hovered, letGo)
  }

  /**
   * Starting from a state in which the node was never touched, a click on
   * it needs a left press whose hit path held the node, and a release on
   * the current frame whose hit path holds it too: press and release both
   * land on the node.
   */
  lemma ClickNeedsPressAndRelease(f: Focus, ins: seq<Input>, id: nat)
    requires !ContainsSelf(id, f.lasttouchFocus)
    requires UiButton(Run(f, ins), id)
    ensures ins != []
    ensures LastPress(ins) >= 0 && ContainsSelf(id, ins[LastPress(ins)].hit)
    ensures ContainsSelf(id, ins[|ins| - 1].hit) && ins[|ins| - 1].snap.buttons.leftLetGo
  {
    RunLastTouch(f, ins);
    assert ins != [];
    RunHover(f, ins);
  }

  /** A colour with four float channels (macroquad's `Color`). */
  datatype Color = Color(r: real, g: real, b: real, a: real)

  /** `arr_to_macroquad`: components 0..3 become r, g, b, a. */
  function ArrToMacroquad(arr: seq<real>): (c: Color)
    requires |arr| == 4
  {
    Color(arr[0], arr[1], arr[2], arr[3])
  }

  /** The channels of a colour, in order. */
  function Channels(c: Color): (arr: seq<real>)
    ensures |arr| == 4
  {
    [c.r, c.g, c.b, c.a]
  }

  /** The copy keeps every component in its place, in both directions. */
  lemma ArrToMacroquadRoundTrip(arr: seq<real>, c: Color)
    requires |arr| == 4
    ensures Channels(ArrToMacroquad(arr)) == arr
    ensures ArrToMacroquad(Channels(c)) == c
  {
  }
}
