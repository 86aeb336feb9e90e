/**
 * The per-frame input and focus state (`UserInputs`).  The frame loop
 * that refreshes it before the node tree updates is module Frames.
 *
 * Paths are sequences of node ids, innermost first, as `hit_detect`
 * returns them.  The macroquad queries become a `Snapshot`; the origin's
 * hit path at the new mouse position is passed in.
 */
module UserInput {
  import opened Geometry
  import opened Instructions
  import opened ShortcutTable
  import NodeTree

  /**
   * The six mouse-button flags `update` copies from macroquad
   * (`left_mouse_pressed`, ..., `right_let_go`), kept together.
   */
  datatype Buttons = Buttons(
    leftPressed: bool, rightPressed: bool,
    leftDown: bool, rightDown: bool,
    leftLetGo: bool, rightLetGo: bool)

  /** What macroquad reports for one frame. */
  datatype Snapshot = Snapshot(mouse: Vec2, buttons: Buttons, keysDown: Chord)

  /** Every field of `UserInputs` except the shortcut table and the origin. */
  datatype Focus = Focus(
    hoverholdFocus: seq<nat>, prevHoverholdFocus: seq<nat>, hoverholdMouse: Vec2,
    hoverFocus: seq<nat>, prevHoverFocus: seq<nat>,
    lasttouchFocus: seq<nat>, lasttouchMouse: Vec2,
    prevLasttouchFocus: seq<nat>, prevLasttouchMouse: Vec2,
    mouse: Vec2, prevMouse: Vec2,
    buttons: Buttons,
    pressedShortcut: Instruction, heldShortcut: Instruction)

  /** The state `UserInputs::new` starts from. */
  function Initial(): (f: Focus)
    ensures f.hoverFocus == [] && f.hoverholdFocus == [] && f.lasttouchFocus == []
    ensures f.pressedShortcut == NoInstruction && f.heldShortcut == NoInstruction
    ensures !f.buttons.leftPressed && !f.buttons.leftDown && !f.buttons.leftLetGo
  {
    var o := Vec2(0.0, 0.0);
    Focus([], [], o, [], [], [], o, [], o, o, o, Buttons(false, false, false, false, false, false),
          NoInstruction, NoInstruction)
  }

  /** Does the left button refresh the hover-hold path this frame? */
  predicate Refreshes(snap: Snapshot)
  {
    snap.buttons.leftPressed || !snap.buttons.leftDown
  }

  /**
   * One call of `update`, as a function of the old state, the snapshot,
   * the origin's hit path at the new mouse position and the instruction
   * the shortcut table gives for the held keys.
   */
  function Step(f: Focus, snap: Snapshot, hit: seq<nat>, resolved: Instruction): Focus
  {
    var refresh := Refreshes(snap);
    var press := refresh && snap.buttons.leftPressed;
    Focus(
      hoverholdFocus := if refresh then hit else f.hoverholdFocus,
      prevHoverholdFocus := if refresh then f.hoverholdFocus else f.prevHoverholdFocus,
      hoverholdMouse := if refresh then snap.mouse else f.hoverholdMouse,
      hoverFocus := hit,
      prevHoverFocus := f.hoverFocus,
      lasttouchFocus := if press then hit else f.lasttouchFocus,
      lasttouchMouse := if press then snap.mouse else f.lasttouchMouse,
      prevLasttouchFocus := if press then f.lasttouchFocus else f.prevLasttouchFocus,
      prevLasttouchMouse := if press then f.lasttouchMouse else f.prevLasttouchMouse,
      mouse := snap.mouse,
      prevMouse := f.mouse,
      buttons := snap.buttons,
      pressedShortcut := if resolved != f.heldShortcut then resolved else NoInstruction,
      heldShortcut := resolved)
  }

  /** The pressed instruction is edge-triggered: it is `x` exactly on the frame the held instruction becomes `x`. */
  lemma PressedIsEdge(f: Focus, snap: Snapshot, hit: seq<nat>, resolved: Instruction, x: Instruction)
    requires x != NoInstruction
    ensures Step(f, snap, hit, resolved).heldShortcut == resolved
    ensures Step(f, snap, hit, resolved).pressedShortcut == x <==> resolved == x && f.heldShortcut != x
    ensures resolved == f.heldShortcut ==> Step(f, snap, hit, resolved).pressedShortcut == NoInstruction
  {
  }

  /** One frame's inputs: the snapshot, the hit path and the resolved instruction. */
  datatype Input = Input(snap: Snapshot, hit: seq<nat>, resolved: Instruction)

  /** The state after a sequence of frames. */
  function Run(f: Focus, ins: seq<Input>): Focus
  {
    if ins == [] then f
    else
      var last := ins[|ins| - 1];
      Step(Run(f, ins[..|ins| - 1]), last.snap, last.hit, last.resolved)
  }

  /** The last frame that pressed the left button, or -1. */
  function LastPress(ins: seq<Input>): (k: int)
    ensures -1 <= k < |ins|
    ensures k >= 0 ==> ins[k].snap.buttons.leftPressed
    ensures forall j | k < j < |ins| :: !ins[j].snap.buttons.leftPressed
  {
    if ins == [] then -1
    else if ins[|ins| - 1].snap.buttons.leftPressed then |ins| - 1
    else LastPress(ins[..|ins| - 1])
  }

  /** The last frame that refreshed the hover-hold path, or -1. */
  function LastRefresh(ins: seq<Input>): (k: int)
    ensures -1 <= k < |ins|
    ensures k >= 0 ==> Refreshes(ins[k].snap)
    ensures forall j | k < j < |ins| :: !Refreshes(ins[j].snap)
  {
    if ins == [] then -1
    else if Refreshes(ins[|ins| - 1].snap) then |ins| - 1
    else LastRefresh(ins[..|ins| - 1])
  }

  /** Frames `k..` of `ins` extend the run of `ins[..k]` by their own steps. */
  lemma {:induction false} RunPrefix(f: Focus, ins: seq<Input>, k: nat)
    requires k < |ins|
    ensures Run(f, ins[..k + 1]) ==
      Step(Run(f, ins[..k]), ins[k].snap, ins[k].hit, ins[k].resolved)
  {
    assert ins[..k + 1][..k] == ins[..k];
  }

  /**
   * The last-touch path and mouse are those of the most recent left-press
   * frame, and the `prev_` copies are what last-touch held just before
   * that press; with no press they are unchanged.
   */
  lemma {:induction false} RunLastTouch(f: Focus, ins: seq<Input>)
    ensures var r := Run(f, ins); var k := LastPress(ins);
      if k < 0 then
        && r.lasttouchFocus == f.lasttouchFocus && r.lasttouchMouse == f.lasttouchMouse
        && r.prevLasttouchFocus == f.prevLasttouchFocus && r.prevLasttouchMouse == f.prevLasttouchMouse
      else
        && r.lasttouchFocus == ins[k].hit && r.lasttouchMouse == ins[k].snap.mouse
        && r.prevLasttouchFocus == Run(f, ins[..k]).lasttouchFocus
        && r.prevLasttouchMouse == Run(f, ins[..k]).lasttouchMouse
    decreases |ins|
  {
    if ins != [] {
      var init := ins[..|ins| - 1];
      RunLastTouch(f, init);
      if !ins[|ins| - 1].snap.buttons.leftPressed {
        var k := LastPress(init);
        if k >= 0 {
          assert init[..k] == ins[..k];
        }
      } else {
        assert ins[..|ins| - 1] == init;
      }
    }
  }

  /**
   * The hover-hold path and mouse are those of the most recent frame that
   * pressed the left button or had it up, and the `prev_` copy is the
   * hover-hold path from just before that frame; with no such frame they
   * are unchanged.
   */
  lemma {:induction false} RunHoverHold(f: Focus, ins: seq<Input>)
    ensures var r := Run(f, ins); var k := LastRefresh(ins);
      if k < 0 then
        && r.hoverholdFocus == f.hoverholdFocus && r.hoverholdMouse == f.hoverholdMouse
        && r.prevHoverholdFocus == f.prevHoverholdFocus
      else
        && r.hoverholdFocus == ins[k].hit && r.hoverholdMouse == ins[k].snap.mouse
        && r.prevHoverholdFocus == Run(f, ins[..k]).hoverholdFocus
    decreases |ins|
  {
    if ins != [] {
      var init := ins[..|ins| - 1];
      RunHoverHold(f, init);
      if !Refreshes(ins[|ins| - 1].snap) {
        var k := LastRefresh(init);
        if k >= 0 {
          assert init[..k] == ins[..k];
        }
      }
    }
  }

  /** While the left button stays held (no new press), hover-hold does not move. */
  lemma HoldFreezes(f: Focus, ins: seq<Input>)
    requires forall j | 0 <= j < |ins| :: ins[j].snap.buttons.leftDown && !ins[j].snap.buttons.leftPressed
    ensures Run(f, ins).hoverholdFocus == f.hoverholdFocus
    ensures Run(f, ins).hoverholdMouse == f.hoverholdMouse
  {
    RunHoverHold(f, ins);
  }

  /**
   * The hover path is the latest hit path and `prev_hover_focus` the one
   * before it; the held instruction is the latest resolved one.
   */
  lemma {:induction false} RunHover(f: Focus, ins: seq<Input>)
    requires |ins| >= 1
    ensures Run(f, ins).hoverFocus == ins[|ins| - 1].hit
    ensures Run(f, ins).heldShortcut == ins[|ins| - 1].resolved
    ensures |ins| >= 2 ==> Run(f, ins).prevHoverFocus == ins[|ins| - 2].hit
    ensures |ins| == 1 ==> Run(f, ins).prevHoverFocus == f.hoverFocus
  {
    if |ins| >= 2 {
      var init := ins[..|ins| - 1];
      assert init[|init| - 1] == ins[|ins| - 2];
      assert Run(f, init) == Step(Run(f, init[..|init| - 1]), init[|init| - 1].snap, init[|init| - 1].hit, init[|init| - 1].resolved);
    } else {
      assert ins[..0] == [];
    }
  }

  /**
   * An instruction held over consecutive frames is pressed only on the
   * first of them.
   */
  lemma {:induction false} PressedOncePerHold(f: Focus, ins: seq<Input>, x: Instruction)
    requires |ins| >= 2 && x != NoInstruction
    requires ins[|ins| - 2].resolved == x
    ensures Run(f, ins).pressedShortcut != x
  {
    var init := ins[..|ins| - 1];
    RunHover(f, init);
    assert init[|init| - 1] == ins[|ins| - 2];
  }

  /** The `UserInputs` object. */
  class UserInputs {
    var hoverholdFocus: seq<nat>
    var prevHoverholdFocus: seq<nat>
    var hoverholdMouse: Vec2
    var hoverFocus: seq<nat>
    var prevHoverFocus: seq<nat>
    var lasttouchFocus: seq<nat>
    var lasttouchMouse: Vec2
    var prevLasttouchFocus: seq<nat>
    var prevLasttouchMouse: Vec2
    var mouse: Vec2
    var prevMouse: Vec2
    var buttons: Buttons
    var pressedShortcut: Instruction
    var heldShortcut: Instruction
    const shortcuts: Shortcuts

    function State(): Focus
      reads this
    {
      Focus(hoverholdFocus, prevHoverholdFocus, hoverholdMouse, hoverFocus, prevHoverFocus,
            lasttouchFocus, lasttouchMouse, prevLasttouchFocus, prevLasttouchMouse,
            mouse, prevMouse, buttons, pressedShortcut, heldShortcut)
    }

    /** Empty paths, zero positions, no instruction, the default shortcut table. */
    constructor ()
      ensures State() == Initial()
      ensures fresh(shortcuts) && shortcuts.Valid() && shortcuts.table == DefaultTable()
    {
      var o := Vec2(0.0, 0.0);
      hoverholdFocus, prevHoverholdFocus, hoverholdMouse := [], [], o;
      hoverFocus, prevHoverFocus := [], [];
      lasttouchFocus, lasttouchMouse, prevLasttouchFocus, prevLasttouchMouse := [], o, [], o;
      mouse, prevMouse := o, o;
      buttons := Buttons(false, false, false, false, false, false);
      pressedShortcut, heldShortcut := NoInstruction, NoInstruction;
      shortcuts := new Shortcuts.Default();
    }

    /**
     * `update`: read the snapshot, move hover to prev-hover and take the
     * new hit path, resolve the held keys, then refresh hover-hold (and,
     * on a press, last-touch).
     */
    method Update(snap: Snapshot, hit: seq<nat>)
      modifies this
      ensures State() == Step(old(State()), snap, hit, shortcuts.GetOutput(snap.keysDown))
    {
      ReadSnapshot(snap);
      TakeHover(hit);
      var resolved := shortcuts.GetOutput(snap.keysDown);
      Resolve(resolved);
      if buttons.leftPressed || !buttons.leftDown {
        RefreshHold();
        if buttons.leftPressed {
          TakeTouch();
        }
      }
    }

    /** Copy the mouse position and button flags of the snapshot. */
    method ReadSnapshot(snap: Snapshot)
      modifies this
      ensures State() == old(State()).(prevMouse := old(mouse), mouse := snap.mouse, buttons := snap.buttons)
    {
      prevMouse := mouse;
      mouse := snap.mouse;
      buttons := snap.buttons;
    }

    /** The hover path moves to `prev_hover_focus`; the new hit path becomes the hover path. */
    method TakeHover(hit: seq<nat>)
      modifies this
      ensures State() == old(State()).(prevHoverFocus := old(hoverFocus), hoverFocus := hit)
    {
      prevHoverFocus := hoverFocus;
      hoverFocus := hit;
    }

    /** Edge-triggered pressed instruction, then the held one. */
    method Resolve(resolved: Instruction)
      modifies this
      ensures State() == old(State()).(
        pressedShortcut := if resolved != old(heldShortcut) then resolved else NoInstruction,
        heldShortcut := resolved)
    {
      if resolved != heldShortcut {
        pressedShortcut := resolved;
      } else {
        pressedShortcut := NoInstruction;
      }
      heldShortcut := resolved;
    }

    /** Hover-hold takes the hover path and mouse; its old path moves to `prev_hoverhold_focus`. */
    method RefreshHold()
      modifies this
      ensures State() == old(State()).(
        prevHoverholdFocus := old(hoverholdFocus), hoverholdFocus := old(hoverFocus),
        hoverholdMouse := old(mouse))
    {
      prevHoverholdFocus := hoverholdFocus;
      hoverholdFocus := hoverFocus;
      hoverholdMouse := mouse;
    }

    /** Last-touch takes the hover path and mouse; the old ones move to the `prev_` fields. */
    method TakeTouch()
      modifies this
      ensures State() == old(State()).(
        prevLasttouchFocus := old(lasttouchFocus), prevLasttouchMouse := old(lasttouchMouse),
        lasttouchFocus := old(hoverFocus), lasttouchMouse := old(mouse))
    {
      prevLasttouchFocus := lasttouchFocus;
      prevLasttouchMouse := lasttouchMouse;
      lasttouchFocus := hoverFocus;
      lasttouchMouse := mouse;
    }

    /** `hoverhold_test` and its siblings: is the node in the given focus path? */
    predicate HoverholdTest(id: nat) reads this { NodeTree.ContainsSelf(id, hoverholdFocus) }
    predicate PrevHoverholdTest(id: nat) reads this { NodeTree.ContainsSelf(id, prevHoverholdFocus) }
    predicate HoverTest(id: nat) reads this { NodeTree.ContainsSelf(id, hoverFocus) }
    predicate PrevHoverTest(id: nat) reads this { NodeTree.ContainsSelf(id, prevHoverFocus) }
    predicate LastTouchTest(id: nat) reads this { NodeTree.ContainsSelf(id, lasttouchFocus) }
    predicate PrevLastTouchTest(id: nat) reads this { NodeTree.ContainsSelf(id, prevLasttouchFocus) }
    predicate InstructionPressed(x: Instruction) reads this { pressedShortcut == x }
    predicate InstructionActive(x: Instruction) reads this { heldShortcut == x }
  }
}
