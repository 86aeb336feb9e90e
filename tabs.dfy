/**
 * The three tab containers: `Main` (src/ui/main/mod.rs) with the Draw,
 * Settings and Export tabs and its topbar, and the sub-tab containers
 * `Settings` (src/ui/main/settings/mod.rs) and `Export`
 * (src/ui/main/export/mod.rs), each with one page and a topbar.
 *
 * In the node tree they are `Tabs(topbar, slot)` nodes: the topbar child
 * is hit-tested first, and each frame only the child named by the tab
 * status in store slot `slot` and then the topbar are updated.  `Main`
 * reads slot 0; `Settings` and `Export` both read slot 1.  The status
 * store itself is not part of this model: a slot's value is `status(slot)`
 * in the node tree and an `Entry<nat>` where `Main` changes it.  The
 * topbar's own update, which changes the status on a tab click, is not
 * modelled.
 */
module TabContainers {
  import opened Geometry
  import opened Instructions
  import opened Entries
  import opened NodeTree

  /** Main's children: the three tabs, in `Tab` order, then the topbar. */
  const MainTopbar := 3
  const MainSlot := 0

  /** Settings' children: the shortcuts page, then the topbar. */
  const SettingsTopbar := 1
  /** Export's children: the folder picker, then the topbar. */
  const ExportTopbar := 1
  /** The status slot `Settings` and `Export` share. */
  const SubSlot := 1

  /** `Main::new`: a tab container with four children, the topbar last. */
  predicate IsMain(arena: Arena, id: nat)
  {
    id in arena && arena[id].kind == Tabs(MainTopbar, MainSlot) && |arena[id].children| == 4
  }

  /** `Settings::new`: the shortcuts page and the topbar. */
  predicate IsSettings(arena: Arena, id: nat)
  {
    id in arena && arena[id].kind == Tabs(SettingsTopbar, SubSlot) && |arena[id].children| == 2
  }

  /** `Export::new`: the folder picker and the topbar. */
  predicate IsExport(arena: Arena, id: nat)
  {
    id in arena && arena[id].kind == Tabs(ExportTopbar, SubSlot) && |arena[id].children| == 2
  }

  /**
   * The tab `Main` dispatches to this frame: the one a `GoTo` shortcut
   * names, otherwise the stored status.
   */
  function ActiveTab(pressed: Instruction, status: nat): nat
  {
    if pressed.GoTo? then TabIndex(pressed.tab) else status
  }

  /**
   * The status `Main` leaves: the Export tab (2) is reset to Draw (0)
   * after one frame, any other tab stays.
   */
  function StatusAfter(active: nat): (s: nat)
    ensures s != 2
    ensures s == 0 <==> active == 0 || active == 2
  {
    if active == 2 then 0 else active
  }

  /**
   * `Main::update`: apply a `GoTo` shortcut, dispatch to the active tab,
   * reset the Export tab.  It returns the active tab's index, the child
   * updated before the topbar; an index past the four children is fatal.
   */
  method MainUpdate(pressed: Instruction, status: Entry<nat>) returns (active: nat)
    requires pressed.GoTo? || status.value < 4
    modifies status
    ensures active == ActiveTab(pressed, old(status.value)) && active < 4
    ensures status.value == StatusAfter(active)
  {
    if pressed.GoTo? {
      status.value := TabIndex(pressed.tab);
    }
    active := status.value;
    if active == 2 {
      status.value := 0;
    }
  }

  /**
   * The Export tab is shown for one frame at a time: it is updated exactly
   * when the frame starts at it or a `GoTo(Export)` is pressed, and the
   * next frame starts from Draw unless the topbar changes the status.
   * Statuses below 3 stay below 3, so the dispatch never goes out of range.
   */
  lemma ExportForOneFrame(pressed: Instruction, status: nat)
    ensures ActiveTab(pressed, status) == 2 <==> pressed == GoTo(Tab.Export) || (!pressed.GoTo? && status == 2)
    ensures StatusAfter(ActiveTab(pressed, status)) != 2
    ensures ActiveTab(pressed, status) == 2 ==> StatusAfter(ActiveTab(pressed, status)) == 0
    ensures status < 3 ==> StatusAfter(ActiveTab(pressed, status)) < 3
    ensures pressed.GoTo? ==> ActiveTab(pressed, status) == TabIndex(pressed.tab)
  {
    if pressed.GoTo? {
      TabIndexInjective(pressed.tab, Tab.Export);
    }
  }

  /**
   * A tab container's hit path: never empty, ending with the container; the
   * topbar's path when the topbar is hit; otherwise the active child's
   * path.  The node just below the container is the topbar or the active
   * child, never an inactive one, and the path is the container alone
   * exactly when both of those miss.
   */
  lemma TabsHitDetect(arena: Arena, id: nat, pos: Vec2, status: nat -> nat)
    requires Tree(arena) && id in arena && Dispatchable(arena, status) && arena[id].kind.Tabs?
    ensures var n := arena[id];
      var top := HitDetect(arena, n.children[n.kind.topbar], pos, status);
      var act := HitDetect(arena, n.children[status(n.kind.slot)], pos, status);
      var r := HitDetect(arena, id, pos, status);
      && r != [] && r[|r| - 1] == id
      && r == (if top != [] then top else act) + [id]
      && (|r| >= 2 ==> r[|r| - 2] == n.children[n.kind.topbar] || r[|r| - 2] == n.children[status(n.kind.slot)])
      && (r == [id] <==> top == [] && act == [])
  {
    var n := arena[id];
    HitIsPath(arena, n.children[n.kind.topbar], pos, status);
    HitIsPath(arena, n.children[status(n.kind.slot)], pos, status);
  }

  /** `Main::hit_detect`: the topbar first, then the tab named by slot 0, then `Main` itself. */
  lemma MainHitDetect(arena: Arena, id: nat, pos: Vec2, status: nat -> nat)
    requires Tree(arena) && IsMain(arena, id) && Dispatchable(arena, status)
    ensures var c := arena[id].children;
      var top := HitDetect(arena, c[MainTopbar], pos, status);
      var r := HitDetect(arena, id, pos, status);
      && status(MainSlot) < 4
      && r == (if top != [] then top else HitDetect(arena, c[status(MainSlot)], pos, status)) + [id]
      && (|r| >= 2 ==> r[|r| - 2] == c[MainTopbar] || r[|r| - 2] == c[status(MainSlot)])
  {
    TabsHitDetect(arena, id, pos, status);
  }

  /** `Settings::hit_detect`: the topbar (child 1) first, then the child named by slot 1, then `Settings`. */
  lemma SettingsHitDetect(arena: Arena, id: nat, pos: Vec2, status: nat -> nat)
    requires Tree(arena) && IsSettings(arena, id) && Dispatchable(arena, status)
    ensures var c := arena[id].children;
      var top := HitDetect(arena, c[SettingsTopbar], pos, status);
      var r := HitDetect(arena, id, pos, status);
      && status(SubSlot) < 2
      && r == (if top != [] then top else HitDetect(arena, c[status(SubSlot)], pos, status)) + [id]
      && (|r| >= 2 ==> r[|r| - 2] in c)
  {
    TabsHitDetect(arena, id, pos, status);
  }

  /** `Export::hit_detect`: the topbar (child 1) first, then the child named by slot 1, then `Export`. */
  lemma ExportHitDetect(arena: Arena, id: nat, pos: Vec2, status: nat -> nat)
    requires Tree(arena) && IsExport(arena, id) && Dispatchable(arena, status)
    ensures var c := arena[id].children;
      var top := HitDetect(arena, c[ExportTopbar], pos, status);
      var r := HitDetect(arena, id, pos, status);
      && status(SubSlot) < 2
      && r == (if top != [] then top else HitDetect(arena, c[status(SubSlot)], pos, status)) + [id]
      && (|r| >= 2 ==> r[|r| - 2] in c)
  {
    TabsHitDetect(arena, id, pos, status);
  }

  /**
   * `Main::update` in the update order: with slot 0 holding the tab the
   * frame dispatches to, `Main` is followed by that tab's updates and then
   * the topbar's, and by nothing of the other tabs.
   */
  lemma MainSchedule(arena: Arena, id: nat, status: nat -> nat, pressed: Instruction, stored: nat)
    requires Tree(arena) && IsMain(arena, id) && Dispatchable(arena, status)
    requires status(MainSlot) == ActiveTab(pressed, stored)
    ensures var c := arena[id].children;
      Schedule(arena, id, status) ==
        [id] + Schedule(arena, c[ActiveTab(pressed, stored)], status) + Schedule(arena, c[MainTopbar], status)
  {
  }

  /**
   * `Settings::update` and `Export::update` in the update order: the child
   * named by slot 1, then the topbar.  Since the two share the slot, a
   * status of 1 makes either of them update its topbar twice.
   */
  lemma SubSchedule(arena: Arena, id: nat, status: nat -> nat)
    requires Tree(arena) && (IsSettings(arena, id) || IsExport(arena, id)) && Dispatchable(arena, status)
    ensures var c := arena[id].children;
      && Schedule(arena, id, status) == [id] + Schedule(arena, c[status(SubSlot)], status) + Schedule(arena, c[1], status)
      && (status(SubSlot) == 1 ==> Schedule(arena, id, status) == [id] + Schedule(arena, c[1], status) + Schedule(arena, c[1], status))
  {
  }
}
