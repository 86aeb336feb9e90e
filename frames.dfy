/**
 * The frame loop of src/node/mod.rs (`Frame::update`): refresh the inputs
 * with the origin's hit path at the new mouse position, then run the
 * origin's update, which starts the node updates of the whole tree.
 */
module Frames {
  import opened Instructions
  import opened UserInput
  import NodeTree
  import TabContainers

  /** What one frame does, in order. */
  datatype Event = InputsUpdated | NodeUpdated(id: nat)

  function NodeEvents(ids: seq<nat>): (es: seq<Event>)
    ensures |es| == |ids|
    ensures forall i | 0 <= i < |ids| :: es[i] == NodeUpdated(ids[i])
  {
    if ids == [] then [] else [NodeUpdated(ids[0])] + NodeEvents(ids[1..])
  }

  /**
   * The tab statuses the node updates of a frame see: `Main` applies a
   * pressed `GoTo` to slot 0 before it dispatches, every other slot is as
   * stored.
   */
  function Dispatched(status: nat -> nat, pressed: Instruction): (d: nat -> nat)
  {
    s => if s == TabContainers.MainSlot then TabContainers.ActiveTab(pressed, status(s)) else status(s)
  }

  /**
   * `Frame::update`: refresh the inputs (hover path = the origin's hit
   * path at the new mouse position, with the stored tab statuses), then run
   * the origin's update, which starts the nodes in `Schedule` order with
   * the statuses after this frame's `GoTo`.  Every node update therefore
   * sees this frame's focus.  With `Main` at the origin, the tab it updates
   * is the one a pressed `GoTo` names, otherwise the stored one.
   */
  method FrameUpdate(inputs: UserInputs, arena: NodeTree.Arena, origin: nat, status: nat -> nat, snap: Snapshot)
    returns (log: seq<Event>)
    requires NodeTree.Tree(arena) && origin in arena && NodeTree.Dispatchable(arena, status)
    requires var pressed := Step(inputs.State(), snap, NodeTree.HitDetect(arena, origin, snap.mouse, status),
                                 inputs.shortcuts.GetOutput(snap.keysDown)).pressedShortcut;
      NodeTree.Dispatchable(arena, Dispatched(status, pressed))
    modifies inputs
    ensures inputs.State() == Step(old(inputs.State()), snap,
      NodeTree.HitDetect(arena, origin, snap.mouse, status), inputs.shortcuts.GetOutput(snap.keysDown))
    ensures inputs.hoverFocus == NodeTree.HitDetect(arena, origin, snap.mouse, status)
    ensures NodeTree.Dispatchable(arena, Dispatched(status, inputs.pressedShortcut))
    ensures log == [InputsUpdated] + NodeEvents(NodeTree.Schedule(arena, origin, Dispatched(status, inputs.pressedShortcut)))
    ensures log[1] == NodeUpdated(origin)
    ensures TabContainers.IsMain(arena, origin) ==>
      var d := Dispatched(status, inputs.pressedShortcut);
      var c := arena[origin].children;
      var tab := TabContainers.ActiveTab(inputs.pressedShortcut, status(TabContainers.MainSlot));
      && tab < 4
      && NodeTree.Schedule(arena, origin, d)
         == [origin] + NodeTree.Schedule(arena, c[tab], d) + NodeTree.Schedule(arena, c[TabContainers.MainTopbar], d)
  {
    var hit := NodeTree.HitDetect(arena, origin, snap.mouse, status);
    inputs.Update(snap, hit);
    log := [InputsUpdated];
    var d := Dispatched(status, inputs.pressedShortcut);
    var order := NodeTree.Schedule(arena, origin, d);
    NodeTree.ScheduleWithinSubtree(arena, origin, d);
    log := log + NodeEvents(order);
    if TabContainers.IsMain(arena, origin) {
      TabContainers.MainSchedule(arena, origin, d, inputs.pressedShortcut, status(TabContainers.MainSlot));
    }
  }
}
