/**
 * The node tree of src/node/mod.rs (and its earlier copy src/node.rs):
 * construction, hit-testing and the per-frame update order.
 *
 * Nodes live in an arena keyed by integer ids; an id is the node's identity
 * token (the `Weak<NodeStore>` the source compares with `Rc::ptr_eq`).  Ids
 * are handed out in creation order, and since `NodeStore::new` builds a
 * node's children before the node itself, every child has a smaller id than
 * its parent.  The tree lives for the whole program, so no id is ever dead.
 *
 * A node's behaviour under `hit_detect` and `update` is given by its kind:
 *   Button(r)      [self] inside r, [] outside (DrawStateButton, Save,
 *                  SaveGrid, HexInput, ...); no children updated
 *   Canvas         always [self] (DrawSection)
 *   Stack          `hit_detect_children_and_self`; children updated last to
 *                  first (Draw)
 *   Panel(r)       `hit_detect_children_and_self` inside r, [] outside;
 *                  `update_children` (Sidebar)
 *   Tabs(t, slot)  topbar child t first, else the child named by the tab
 *                  status stored in `slot`, then self; only those two
 *                  children are updated (Main, Settings, Export)
 */
module NodeTree {
  import opened Wrappers
  import opened Geometry
  import opened TypeStore

  datatype Kind =
    | Button(rect: Rect)
    | Canvas
    | Stack
    | Panel(rect: Rect)
    | Tabs(topbar: nat, slot: nat)

  /** An arena entry: the node's kind and its children, in the order they were pushed. */
  datatype Node = Node(kind: Kind, children: seq<nat>)

  type Arena = map<nat, Node>

  /** Every child of a node is itself a node, created before its parent. */
  ghost predicate Tree(arena: Arena)
  {
    forall id, i | id in arena && 0 <= i < |arena[id].children| ::
      arena[id].children[i] < id && arena[id].children[i] in arena
  }

  /**
   * Indexing `children[status]` and `children[TOPBAR]` panics when out of
   * range; with the tab statuses given by `status`, every tab container's
   * indices are in range.
   */
  ghost predicate Dispatchable(arena: Arena, status: nat -> nat)
  {
    forall id | id in arena && arena[id].kind.Tabs? ::
      arena[id].kind.topbar < |arena[id].children| &&
      status(arena[id].kind.slot) < |arena[id].children|
  }

  // ---------------------------------------------------------------------
  // Construction
  // ---------------------------------------------------------------------

  /**
   * What a node's `New::new` does with its `GenHandler`, in order: push a
   * child (`push_child_io`, which builds that child's whole subtree at once)
   * or register a value in the store (`push_data`).
   */
  datatype Decl<K, V> = Decl(kind: Kind, steps: seq<Step<K, V>>)

  datatype Step<K, V> = Child(decl: Decl<K, V>) | Data(tag: K, value: V)

  /** The state construction threads along: the arena, the next free id and the store. */
  datatype Built<K, V> = Built(arena: Arena, next: nat, store: map<K, V>)

  /** No id at or above `next` is taken yet. */
  ghost predicate Fresh<K, V>(b: Built<K, V>)
  {
    forall id | id in b.arena :: id < b.next
  }

  /**
   * `NodeStore::new` as a function: build the declared steps in order, then
   * create the node with the collected children under the next id.  A
   * second registration of a type is fatal in the source; here it gives
   * `Err` with that type.
   */
  function Build<K, V>(d: Decl<K, V>, b: Built<K, V>): Result<(Built<K, V>, nat), K>
    decreases d, 1
  {
    match BuildSteps(d, 0, b, [])
    case Err(k) => Err(k)
    case Ok((b', kids)) =>
      Ok((Built(b'.arena[b'.next := Node(d.kind, kids)], b'.next + 1, b'.store), b'.next))
  }

  /** Steps `i..` of `d`, with the ids of the children built so far in `kids`. */
  function BuildSteps<K, V>(d: Decl<K, V>, i: nat, b: Built<K, V>, kids: seq<nat>): Result<(Built<K, V>, seq<nat>), K>
    requires i <= |d.steps|
    decreases d, 0, |d.steps| - i
  {
    if i == |d.steps| then Ok((b, kids))
    else
      match d.steps[i]
      case Data(k, v) =>
        if k in b.store then Err(k)
        else BuildSteps(d, i + 1, b.(store := b.store[k := v]), kids)
      case Child(c) =>
        match Build(c, b)
        case Err(k) => Err(k)
        case Ok((b1, id)) => BuildSteps(d, i + 1, b1, kids + [id])
  }

  /** The number of nodes a declaration creates. */
  function Size<K, V>(d: Decl<K, V>): nat
    decreases d, 1
  {
    1 + StepsSize(d, 0)
  }

  function StepsSize<K, V>(d: Decl<K, V>, i: nat): nat
    requires i <= |d.steps|
    decreases d, 0, |d.steps| - i
  {
    if i == |d.steps| then 0
    else (match d.steps[i] case Data(_, _) => 0 case Child(c) => Size(c)) + StepsSize(d, i + 1)
  }

  /** The store registrations of a declaration, depth first, in declared order. */
  function Regs<K, V>(d: Decl<K, V>): seq<(K, V)>
    decreases d, 1
  {
    StepsRegs(d, 0)
  }

  function StepsRegs<K, V>(d: Decl<K, V>, i: nat): seq<(K, V)>
    requires i <= |d.steps|
    decreases d, 0, |d.steps| - i
  {
    if i == |d.steps| then []
    else (match d.steps[i] case Data(k, v) => [(k, v)] case Child(c) => Regs(c)) + StepsRegs(d, i + 1)
  }

  /** Registering `regs` one at a time into `store` never meets a type that is already there. */
  predicate Registrable<K, V>(regs: seq<(K, V)>, store: map<K, V>)
    decreases |regs|
  {
    regs == [] || (regs[0].0 !in store && Registrable(regs[1..], store[regs[0].0 := regs[0].1]))
  }

  /** The store after registering `regs` one at a time. */
  function Register<K, V>(regs: seq<(K, V)>, store: map<K, V>): map<K, V>
    decreases |regs|
  {
    if regs == [] then store else Register(regs[1..], store[regs[0].0 := regs[0].1])
  }

  /**
   * The ids of the children declared in steps `i..` when their subtrees
   * start at id `start`: each child's subtree occupies the ids right after
   * the previous sibling's, and its root comes last.
   */
  function ChildRoots<K, V>(d: Decl<K, V>, i: nat, start: nat): seq<nat>
    requires i <= |d.steps|
    decreases |d.steps| - i
  {
    if i == |d.steps| then []
    else
      match d.steps[i]
      case Data(_, _) => ChildRoots(d, i + 1, start)
      case Child(c) => [start + Size(c) - 1] + ChildRoots(d, i + 1, start + Size(c))
  }

  lemma {:induction false} RegistrableAppend<K, V>(a: seq<(K, V)>, c: seq<(K, V)>, store: map<K, V>)
    ensures Registrable(a + c, store) <==> Registrable(a, store) && Registrable(c, Register(a, store))
    ensures Register(a + c, store) == Register(c, Register(a, store))
    decreases |a|
  {
    if a != [] {
      assert (a + c)[0] == a[0];
      assert (a + c)[1..] == a[1..] + c;
      RegistrableAppend(a[1..], c, store[a[0].0 := a[0].1]);
    } else {
      assert a + c == c;
    }
  }

  /**
   * Construction succeeds exactly when no registration meets a type already
   * in the store, and then adds exactly the declared registrations.
   */
  lemma {:induction false} BuildRegisters<K, V>(d: Decl<K, V>, b: Built<K, V>)
    ensures Build(d, b).Ok? <==> Registrable(Regs(d), b.store)
    ensures Build(d, b).Ok? ==> Build(d, b).value.0.store == Register(Regs(d), b.store)
    decreases d, 1
  {
    BuildStepsRegister(d, 0, b, []);
  }

  lemma {:induction false} BuildStepsRegister<K, V>(d: Decl<K, V>, i: nat, b: Built<K, V>, kids: seq<nat>)
    requires i <= |d.steps|
    ensures BuildSteps(d, i, b, kids).Ok? <==> Registrable(StepsRegs(d, i), b.store)
    ensures BuildSteps(d, i, b, kids).Ok? ==> BuildSteps(d, i, b, kids).value.0.store == Register(StepsRegs(d, i), b.store)
    decreases d, 0, |d.steps| - i
  {
    if i < |d.steps| {
      match d.steps[i]
      case Data(k, v) =>
        RegistrableAppend([(k, v)], StepsRegs(d, i + 1), b.store);
        if k !in b.store {
          BuildStepsRegister(d, i + 1, b.(store := b.store[k := v]), kids);
        }
      case Child(c) =>
        RegistrableAppend(Regs(c), StepsRegs(d, i + 1), b.store);
        BuildRegisters(c, b);
        if Build(c, b).Ok? {
          var (b1, id) := Build(c, b).value;
          BuildStepsRegister(d, i + 1, b1, kids + [id]);
        }
    }
  }

  /**
   * `b'` extends `b` with new nodes only, all at ids from `b.next` up to
   * `b'.next`, and is still a tree with no id at or above its `next`.
   */
  ghost predicate Grows<K, V>(b: Built<K, V>, b': Built<K, V>)
  {
    && b.next <= b'.next
    && Fresh(b') && Tree(b'.arena)
    && (forall id :: id in b'.arena <==> id in b.arena || b.next <= id < b'.next)
    && (forall id | id in b.arena :: b'.arena[id] == b.arena[id])
  }

  lemma GrowsTrans<K, V>(b0: Built<K, V>, b1: Built<K, V>, b2: Built<K, V>)
    requires Grows(b0, b1) && Grows(b1, b2)
    ensures Grows(b0, b2)
  {
  }

  /**
   * A successful construction creates `Size(d)` nodes under consecutive
   * ids, the root last, keeps every earlier node, and gives the root its
   * children in declared order, each child's subtree in the ids right after
   * its previous sibling's.
   */
  lemma {:induction false} BuildShape<K, V>(d: Decl<K, V>, b: Built<K, V>)
    requires Fresh(b) && Tree(b.arena) && Build(d, b).Ok?
    ensures var (b', root) := Build(d, b).value;
      && Grows(b, b')
      && b'.next == b.next + Size(d)
      && root == b'.next - 1
      && b'.arena[root] == Node(d.kind, ChildRoots(d, 0, b.next))
    decreases d, 1
  {
    BuildStepsShape(d, 0, b, []);
    var (b1, kids) := BuildSteps(d, 0, b, []).value;
    var b' := Build(d, b).value.0;
    assert forall j | 0 <= j < |kids| :: kids[j] in ChildRoots(d, 0, b.next);
    assert Grows(b1, b');
    GrowsTrans(b, b1, b');
  }

  lemma {:induction false} BuildStepsShape<K, V>(d: Decl<K, V>, i: nat, b: Built<K, V>, kids: seq<nat>)
    requires i <= |d.steps|
    requires Fresh(b) && Tree(b.arena) && BuildSteps(d, i, b, kids).Ok?
    ensures var (b', kids') := BuildSteps(d, i, b, kids).value;
      && Grows(b, b')
      && b'.next == b.next + StepsSize(d, i)
      && kids' == kids + ChildRoots(d, i, b.next)
      && (forall x | x in ChildRoots(d, i, b.next) :: b.next <= x < b'.next)
    decreases d, 0, |d.steps| - i
  {
    if i == |d.steps| {
      return;
    }
    match d.steps[i]
    case Data(k, v) =>
      BuildStepsShape(d, i + 1, b.(store := b.store[k := v]), kids);
    case Child(c) =>
      BuildShape(c, b);
      var (b1, id) := Build(c, b).value;
      BuildStepsShape(d, i + 1, b1, kids + [id]);
      var b' := BuildSteps(d, i + 1, b1, kids + [id]).value.0;
      GrowsTrans(b, b1, b');
  }

  /** One registration step of a construction that succeeds. */
  lemma StepData<K, V>(d: Decl<K, V>, i: nat, b: Built<K, V>, kids: seq<nat>, k: K, v: V)
    requires i < |d.steps| && d.steps[i] == Data(k, v) && BuildSteps(d, i, b, kids).Ok?
    ensures k !in b.store
    ensures BuildSteps(d, i, b, kids) == BuildSteps(d, i + 1, b.(store := b.store[k := v]), kids)
  {
  }

  /** One child step of a construction that succeeds. */
  lemma StepChild<K, V>(d: Decl<K, V>, i: nat, b: Built<K, V>, kids: seq<nat>, c: Decl<K, V>)
    requires i < |d.steps| && d.steps[i] == Child(c) && BuildSteps(d, i, b, kids).Ok?
    ensures Build(c, b).Ok?
    ensures BuildSteps(d, i, b, kids) == BuildSteps(d, i + 1, Build(c, b).value.0, kids + [Build(c, b).value.1])
  {
  }

  /**
   * The arena side of construction: `NodeStore::new` building its children
   * through a `GenHandler` that registers data in the shared store `ctx`
   * (the `AppContextGenHandler`).
   */
  class Builder<K(==), V> {
    const ctx: Store<K, V>
    var arena: Arena
    var next: nat

    function State(): Built<K, V>
      reads this, ctx
    {
      Built(arena, next, ctx.entries)
    }

    /** `Frame::new` starts from an empty store and no nodes. */
    constructor (ctx: Store<K, V>)
      requires ctx.entries == map[]
      ensures this.ctx == ctx && State() == Built(map[], 0, map[])
    {
      this.ctx := ctx;
      arena := map[];
      next := 0;
    }

    /**
     * `NodeStore::new`: run the node's declared steps in order, each child
     * (`GenHandler::push_child_io`) built completely before the next step,
     * each registration (`GenHandler::push_data`) pushed into the store,
     * then create the node with the collected children.  A duplicate
     * registration panics in the source, hence the precondition.
     */
    method NewNode(d: Decl<K, V>) returns (id: nat)
      requires Build(d, State()).Ok?
      modifies this, ctx
      ensures Build(d, old(State())) == Ok((State(), id))
      decreases d, 1
    {
      ghost var start := State();
      var children: seq<nat> := [];
      var i := 0;
      while i < |d.steps|
        invariant 0 <= i <= |d.steps|
        invariant BuildSteps(d, 0, start, []) == BuildSteps(d, i, State(), children)
        invariant BuildSteps(d, i, State(), children).Ok?
        decreases |d.steps| - i
      {
        children := RunStep(d, i, children);
        i := i + 1;
      }
      arena := arena[next := Node(d.kind, children)];
      id := next;
      next := next + 1;
    }

    /**
     * One step of `New::new` through the `GenHandler`: `push_child_io`
     * builds the child's whole subtree and records its id; `push_data`
     * registers a value in the store.
     */
    method RunStep(d: Decl<K, V>, i: nat, children: seq<nat>) returns (children': seq<nat>)
      requires i < |d.steps| && BuildSteps(d, i, State(), children).Ok?
      modifies this, ctx
      ensures BuildSteps(d, i, old(State()), children) == BuildSteps(d, i + 1, State(), children')
      decreases d, 0
    {
      match d.steps[i] {
        case Data(k, v) =>
          StepData(d, i, State(), children, k, v);
          ctx.Push(k, v);
          children' := children;
        case Child(c) =>
          StepChild(d, i, State(), children, c);
          var cid := NewNode(c);
          children' := children + [cid];
      }
    }
  }

  // ---------------------------------------------------------------------
  // Hit-testing
  // ---------------------------------------------------------------------

  /**
   * The path `hit_detect` returns for node `id` at `pos`: the innermost
   * node hit first, then its ancestors up to `id`, or [] for a miss.
   */
  function HitDetect(arena: Arena, id: nat, pos: Vec2, status: nat -> nat): seq<nat>
    requires Tree(arena) && id in arena && Dispatchable(arena, status)
    decreases id, 1
  {
    var n := arena[id];
    match n.kind
    case Button(r) => if Contains(r, pos) then [id] else []
    case Canvas => [id]
    case Stack => FirstHit(arena, id, 0, pos, status) + [id]
    case Panel(r) => if Contains(r, pos) then FirstHit(arena, id, 0, pos, status) + [id] else []
    case Tabs(t, slot) =>
      var top := HitDetect(arena, n.children[t], pos, status);
      (if top != [] then top else HitDetect(arena, n.children[status(slot)], pos, status)) + [id]
  }

  /** The path of the first of children `i..` of `id` whose hit test is non-empty, or [] when none is. */
  function FirstHit(arena: Arena, id: nat, i: nat, pos: Vec2, status: nat -> nat): seq<nat>
    requires Tree(arena) && id in arena && Dispatchable(arena, status)
    requires i <= |arena[id].children|
    decreases id, 0, |arena[id].children| - i
  {
    if i == |arena[id].children| then []
    else
      var r := HitDetect(arena, arena[id].children[i], pos, status);
      if r != [] then r else FirstHit(arena, id, i + 1, pos, status)
  }

  /**
   * `NodeStore::hit_detect_children_and_self`: query the children in order,
   * stop at the first non-empty path, then append the node itself.
   */
  method HitDetectChildrenAndSelf(arena: Arena, id: nat, pos: Vec2, status: nat -> nat) returns (result: seq<nat>)
    requires Tree(arena) && id in arena && Dispatchable(arena, status)
    ensures result == FirstHit(arena, id, 0, pos, status) + [id]
    ensures |result| >= 1 && result[|result| - 1] == id
  {
    var kids := arena[id].children;
    result := [];
    var i := 0;
    while i < |kids|
      invariant 0 <= i <= |kids|
      invariant result == [] && FirstHit(arena, id, 0, pos, status) == FirstHit(arena, id, i, pos, status)
    {
      result := HitDetect(arena, kids[i], pos, status);
      if result != [] {
        break;
      }
      i := i + 1;
    }
    result := result + [id];
  }

  /** The children-and-self result is exactly [self] when no child reports a hit. */
  lemma {:induction false} FirstHitEmpty(arena: Arena, id: nat, i: nat, pos: Vec2, status: nat -> nat)
    requires Tree(arena) && id in arena && Dispatchable(arena, status)
    requires i <= |arena[id].children|
    ensures FirstHit(arena, id, i, pos, status) == [] <==>
      forall j | i <= j < |arena[id].children| :: HitDetect(arena, arena[id].children[j], pos, status) == []
    decreases |arena[id].children| - i
  {
    if i < |arena[id].children| {
      FirstHitEmpty(arena, id, i + 1, pos, status);
    }
  }

  /**
   * The first child with a non-empty path wins: whatever the later children
   * would report does not matter.
   */
  lemma {:induction false} FirstHitWins(arena: Arena, id: nat, i: nat, j: nat, pos: Vec2, status: nat -> nat)
    requires Tree(arena) && id in arena && Dispatchable(arena, status)
    requires i <= j < |arena[id].children|
    requires HitDetect(arena, arena[id].children[j], pos, status) != []
    requires forall k | i <= k < j :: HitDetect(arena, arena[id].children[k], pos, status) == []
    ensures FirstHit(arena, id, i, pos, status) == HitDetect(arena, arena[id].children[j], pos, status)
    decreases j - i
  {
    if i < j {
      FirstHitWins(arena, id, i + 1, j, pos, status);
    }
  }

  /** Each element of the path is a child of the next one. */
  ghost predicate UpwardPath(arena: Arena, path: seq<nat>)
  {
    && (forall i | 0 <= i < |path| :: path[i] in arena)
    && (forall i | 0 <= i < |path| - 1 :: path[i] in arena[path[i + 1]].children)
  }

  /**
   * A hit path is empty or an upward path that ends with the queried node:
   * it runs from the innermost node hit up through its ancestors.
   */
  lemma {:induction false} HitIsPath(arena: Arena, id: nat, pos: Vec2, status: nat -> nat)
    requires Tree(arena) && id in arena && Dispatchable(arena, status)
    ensures var r := HitDetect(arena, id, pos, status);
      r == [] || (r[|r| - 1] == id && UpwardPath(arena, r))
    decreases id, 1
  {
    var n := arena[id];
    match n.kind
    case Button(_) =>
    case Canvas =>
    case Stack =>
      FirstHitIsPath(arena, id, 0, pos, status);
      AppendParent(arena, FirstHit(arena, id, 0, pos, status), id);
    case Panel(_) =>
      FirstHitIsPath(arena, id, 0, pos, status);
      AppendParent(arena, FirstHit(arena, id, 0, pos, status), id);
    case Tabs(t, slot) =>
      var top := HitDetect(arena, n.children[t], pos, status);
      HitIsPath(arena, n.children[t], pos, status);
      HitIsPath(arena, n.children[status(slot)], pos, status);
      var sub := if top != [] then top else HitDetect(arena, n.children[status(slot)], pos, status);
      AppendParent(arena, sub, id);
  }

  lemma {:induction false} FirstHitIsPath(arena: Arena, id: nat, i: nat, pos: Vec2, status: nat -> nat)
    requires Tree(arena) && id in arena && Dispatchable(arena, status)
    requires i <= |arena[id].children|
    ensures var r := FirstHit(arena, id, i, pos, status);
      r == [] || (r[|r| - 1] in arena[id].children && UpwardPath(arena, r))
    decreases id, 0, |arena[id].children| - i
  {
    if i < |arena[id].children| {
      HitIsPath(arena, arena[id].children[i], pos, status);
      FirstHitIsPath(arena, id, i + 1, pos, status);
    }
  }

  lemma AppendParent(arena: Arena, r: seq<nat>, id: nat)
    requires id in arena
    requires r == [] || (r[|r| - 1] in arena[id].children && UpwardPath(arena, r))
    ensures UpwardPath(arena, r + [id])
  {
  }

  /**
   * `NodeStore::contains_self`: is the node's own identity token in the
   * list?  (The upgrade panics cannot happen: no node of the tree is ever
   * dropped.)
   */
  function ContainsSelf(id: nat, path: seq<nat>): (b: bool)
    ensures b <==> exists i :: 0 <= i < |path| && path[i] == id
  {
    if path == [] then false else path[0] == id || ContainsSelf(id, path[1..])
  }

  // ---------------------------------------------------------------------
  // Update order
  // ---------------------------------------------------------------------

  /**
   * The order in which the nodes' `update` methods start when node `id` is
   * updated: the node first, then what it updates of its children
   * (`update_children` for a panel; last to first for a stack; the active
   * tab and then the topbar for a tab container).
   */
  function Schedule(arena: Arena, id: nat, status: nat -> nat): seq<nat>
    requires Tree(arena) && id in arena && Dispatchable(arena, status)
    decreases id, 1
  {
    var n := arena[id];
    match n.kind
    case Button(_) => [id]
    case Canvas => [id]
    case Stack => [id] + ScheduleReversed(arena, id, |n.children|, status)
    case Panel(_) => [id] + ScheduleAll(arena, id, 0, status)
    case Tabs(t, slot) =>
      [id] + Schedule(arena, n.children[status(slot)], status) + Schedule(arena, n.children[t], status)
  }

  /** `update_children` from child `i` on: each child's whole update, in declared order. */
  function ScheduleAll(arena: Arena, id: nat, i: nat, status: nat -> nat): seq<nat>
    requires Tree(arena) && id in arena && Dispatchable(arena, status)
    requires i <= |arena[id].children|
    decreases id, 0, |arena[id].children| - i
  {
    if i == |arena[id].children| then []
    else Schedule(arena, arena[id].children[i], status) + ScheduleAll(arena, id, i + 1, status)
  }

  /** The updates of the first `i` children, last to first. */
  function ScheduleReversed(arena: Arena, id: nat, i: nat, status: nat -> nat): seq<nat>
    requires Tree(arena) && id in arena && Dispatchable(arena, status)
    requires i <= |arena[id].children|
    decreases id, 0, i
  {
    if i == 0 then []
    else Schedule(arena, arena[id].children[i - 1], status) + ScheduleReversed(arena, id, i - 1, status)
  }

  /** `x` lies in the subtree below `id`: a child of `id`, or a descendant of one. */
  ghost predicate Descendant(arena: Arena, x: nat, id: nat)
    requires Tree(arena) && id in arena
    decreases id
  {
    exists i | 0 <= i < |arena[id].children| ::
      x == arena[id].children[i] || Descendant(arena, x, arena[id].children[i])
  }

  /** A node of the subtree of child `i` of `id` is a descendant of `id`. */
  lemma ChildDescendant(arena: Arena, id: nat, i: nat, x: nat)
    requires Tree(arena) && id in arena && i < |arena[id].children|
    requires x == arena[id].children[i] || Descendant(arena, x, arena[id].children[i])
    ensures Descendant(arena, x, id)
  {
  }

  /** Every node of a child's update is a descendant of the parent. */
  lemma ChildScheduleDescends(arena: Arena, id: nat, i: nat, status: nat -> nat, x: nat)
    requires Tree(arena) && id in arena && Dispatchable(arena, status) && i < |arena[id].children|
    requires var c := arena[id].children[i];
      var s := Schedule(arena, c, status);
      s[0] == c && forall y | y in s[1..] :: y < c && y in arena && Descendant(arena, y, c)
    requires x in Schedule(arena, arena[id].children[i], status)
    ensures x < id && x in arena && Descendant(arena, x, id)
  {
    var c := arena[id].children[i];
    var s := Schedule(arena, c, status);
    assert s == [s[0]] + s[1..];
    if x != c {
      assert x in s[1..];
    }
    ChildDescendant(arena, id, i, x);
  }

  /**
   * An update reaches only the node and its descendants (all of smaller
   * id), and the node's own update starts first.
   */
  lemma {:induction false} ScheduleWithinSubtree(arena: Arena, id: nat, status: nat -> nat)
    requires Tree(arena) && id in arena && Dispatchable(arena, status)
    ensures var s := Schedule(arena, id, status);
      s[0] == id && forall x | x in s[1..] :: x < id && x in arena && Descendant(arena, x, id)
    decreases id, 1
  {
    var n := arena[id];
    match n.kind
    case Button(_) =>
    case Canvas =>
    case Stack =>
      ScheduleReversedWithin(arena, id, |n.children|, status);
    case Panel(_) =>
      ScheduleAllWithin(arena, id, 0, status);
    case Tabs(t, slot) =>
      var a, b := Schedule(arena, n.children[status(slot)], status), Schedule(arena, n.children[t], status);
      ScheduleWithinSubtree(arena, n.children[status(slot)], status);
      ScheduleWithinSubtree(arena, n.children[t], status);
      assert Schedule(arena, id, status)[1..] == a + b;
      forall x | x in a + b
        ensures x < id && x in arena && Descendant(arena, x, id)
      {
        if x in a {
          ChildScheduleDescends(arena, id, status(slot), status, x);
        } else {
          ChildScheduleDescends(arena, id, t, status, x);
        }
      }
  }

  lemma {:induction false} ScheduleAllWithin(arena: Arena, id: nat, i: nat, status: nat -> nat)
    requires Tree(arena) && id in arena && Dispatchable(arena, status)
    requires i <= |arena[id].children|
    ensures var s := ScheduleAll(arena, id, i, status);
      forall x | x in s :: x < id && x in arena && Descendant(arena, x, id)
    decreases id, 0, |arena[id].children| - i
  {
    if i < |arena[id].children| {
      ScheduleWithinSubtree(arena, arena[id].children[i], status);
      ScheduleAllWithin(arena, id, i + 1, status);
      forall x | x in Schedule(arena, arena[id].children[i], status)
        ensures x < id && x in arena && Descendant(arena, x, id)
      {
        ChildScheduleDescends(arena, id, i, status, x);
      }
    }
  }

  lemma {:induction false} ScheduleReversedWithin(arena: Arena, id: nat, i: nat, status: nat -> nat)
    requires Tree(arena) && id in arena && Dispatchable(arena, status)
    requires i <= |arena[id].children|
    ensures var s := ScheduleReversed(arena, id, i, status);
      forall x | x in s :: x < id && x in arena && Descendant(arena, x, id)
    decreases id, 0, i
  {
    if i > 0 {
      ScheduleWithinSubtree(arena, arena[id].children[i - 1], status);
      ScheduleReversedWithin(arena, id, i - 1, status);
      forall x | x in Schedule(arena, arena[id].children[i - 1], status)
        ensures x < id && x in arena && Descendant(arena, x, id)
      {
        ChildScheduleDescends(arena, id, i - 1, status, x);
      }
    }
  }
}
