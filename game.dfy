/** The entity simulation of the game: trees, a base and workers in one
    ordered list of game objects, the worker's task state machine, the
    deferred harvest and drop-off actions, hit testing and selection. */
module Game {
  import opened Inventory

  datatype Option<T> = None | Some(value: T)

  /** Wood a harvest takes from a tree and adds to the worker (game.js:129-134). */
  const HarvestAmount: int := 10
  /** The resource id a harvest produces. */
  const Wood: string := "wood"
  /** Weight at which a worker goes back to base (game.js:68). */
  const InventoryCapacity: int := 100
  /** What a new tree holds (game.js:33). */
  const TreeAmount: int := 100
  /** Width and height of a game object when none is given (game.js:8). */
  const DefaultSize: real := 20.0

  type Pos = (real, real)

  /** The one straight-line movement step toward a target, left abstract: the
      square root and division that compute it are not modelled. */
  type MoveStep = (Pos, Pos) -> Pos

  datatype State = Idle | Moving | Harvesting | Dropping

  /** What a worker is heading for: nothing (`null`), a game object (by its
      position in the list of game objects) or a bare point. */
  datatype Target = NoTarget | Entity(index: nat) | Point(x: real, y: real)

  datatype Action = Harvest | DropOff

  /** A callback scheduled with `setTimeout`: its handle, the worker whose
      closure it is, and what it does when it fires. */
  datatype Timer = Timer(handle: nat, owner: nat, action: Action)

  datatype Kind =
    | Tree(amount: int)
    | Base(inventory: seq<Item>)
    | Worker(target: Target, state: State, timeout: Option<nat>, inventory: seq<Item>, weight: int)

  datatype GameObject = GameObject(x: real, y: real, width: real, height: real, selected: bool, kind: Kind)

  function NewTree(x: real, y: real): GameObject
  {
    GameObject(x, y, DefaultSize, DefaultSize, false, Tree(TreeAmount))
  }

  function NewBase(x: real, y: real): GameObject
  {
    GameObject(x, y, DefaultSize, DefaultSize, false, Base([]))
  }

  function NewWorker(x: real, y: real): GameObject
  {
    GameObject(x, y, DefaultSize, DefaultSize, false, Worker(NoTarget, Idle, None, [], 0))
  }

  /** `isClicked`: the point lies in the object's box, edges included. */
  predicate IsClicked(o: GameObject, x: real, y: real)
  {
    x >= o.x && x <= o.x + o.width && y >= o.y && y <= o.y + o.height
  }

  /** The hit box is closed: both corners on its diagonal are hits, and a
      point any distance `e` beyond an edge is not. */
  lemma ClickBoxIsClosed(o: GameObject, e: real)
    requires o.width >= 0.0 && o.height >= 0.0 && e > 0.0
    ensures IsClicked(o, o.x, o.y) && IsClicked(o, o.x + o.width, o.y + o.height)
    ensures !IsClicked(o, o.x - e, o.y) && !IsClicked(o, o.x + o.width + e, o.y)
    ensures !IsClicked(o, o.x, o.y - e) && !IsClicked(o, o.x, o.y + o.height + e)
  {
  }

  /** The trees `createTrees` makes, one per position, in order. */
  function TreesAt(spots: seq<Pos>): (trees: seq<GameObject>)
    ensures |trees| == |spots|
    ensures forall i :: 0 <= i < |spots| ==> trees[i] == NewTree(spots[i].0, spots[i].1)
  {
    if spots == [] then [] else TreesAt(spots[..|spots| - 1]) + [NewTree(spots[|spots| - 1].0, spots[|spots| - 1].1)]
  }

  /** What `init` pushes: the trees of `createTrees`, then one base and three
      workers at fixed positions. */
  function InitialObjects(spots: seq<Pos>): seq<GameObject>
  {
    TreesAt(spots) + [NewBase(400.0, 400.0), NewWorker(100.0, 100.0), NewWorker(200.0, 200.0), NewWorker(300.0, 300.0)]
  }

  /** `r` is what the click handlers' loop finds: the first object, in list
      order, that the point hits, or none when no object is hit. */
  ghost predicate IsFirstHit(objects: seq<GameObject>, x: real, y: real, r: Option<nat>)
  {
    (r.Some? ==> r.value < |objects| && IsClicked(objects[r.value], x, y)) &&
    forall i :: 0 <= i < |objects| && (r.None? || i < r.value) ==> !IsClicked(objects[i], x, y)
  }

  /** The hit-test loop of the click and contextmenu handlers: the first
      object hit wins, so on overlap the earlier-spawned object is chosen. */
  method HitTest(objects: seq<GameObject>, x: real, y: real) returns (clicked: Option<nat>)
    ensures IsFirstHit(objects, x, y, clicked)
  {
    clicked := None;
    var i := 0;
    while i < |objects|
      invariant 0 <= i <= |objects|
      invariant forall j :: 0 <= j < i ==> !IsClicked(objects[j], x, y)
    {
      if IsClicked(objects[i], x, y) {
        clicked := Some(i);
        return;
      }
      i := i + 1;
    }
  }

  /** `gameObjects.find(o => o instanceof Base)`: the first base, or
      `|objects|` when there is none. */
  function FirstBase(objects: seq<GameObject>): (b: nat)
    ensures b <= |objects|
    ensures b < |objects| ==> objects[b].kind.Base?
    ensures forall i :: 0 <= i < b ==> !objects[i].kind.Base?
  {
    if objects == [] then 0
    else if objects[0].kind.Base? then 0
    else 1 + FirstBase(objects[1..])
  }

  /** `clearTimeout(h)`: the pending callbacks without the one with handle `h`,
      the others kept in order. */
  function Cancel(timers: seq<Timer>, h: nat): (r: seq<Timer>)
    ensures forall t :: t in r <==> t in timers && t.handle != h
    ensures UniqueHandles(timers) ==> UniqueHandles(r)
  {
    if timers == [] then []
    else (if timers[0].handle == h then [] else [timers[0]]) + Cancel(timers[1..], h)
  }

  ghost predicate UniqueHandles(timers: seq<Timer>)
  {
    forall k, l :: 0 <= k < l < |timers| ==> timers[k].handle != timers[l].handle
  }

  predicate TargetOk(t: Target, n: nat)
  {
    t.Entity? ==> t.index < n
  }

  /** The position a worker heads for: the target object's corner, or the point. */
  function TargetPosition(objects: seq<GameObject>, t: Target): Pos
    requires !t.NoTarget? && TargetOk(t, |objects|)
  {
    match t
    case Entity(j) => (objects[j].x, objects[j].y)
    case Point(px, py) => (px, py)
  }

  /** The worker is within its own width of the target. The source compares
      `sqrt(dx*dx + dy*dy) >= width`; with a positive width that is the same
      as comparing the squares. */
  predicate InReach(o: GameObject, p: Pos)
  {
    var dx := p.0 - o.x;
    var dy := p.1 - o.y;
    dx * dx + dy * dy < o.width * o.width
  }

  predicate IsBaseAt(objects: seq<GameObject>, t: Target)
  {
    t.Entity? && t.index < |objects| && objects[t.index].kind.Base?
  }

  predicate IsTreeAt(objects: seq<GameObject>, t: Target)
  {
    t.Entity? && t.index < |objects| && objects[t.index].kind.Tree?
  }

  /** The target has an `inventory` a drop-off can merge into: a base, or
      another worker. */
  predicate HasInventoryAt(objects: seq<GameObject>, t: Target)
  {
    t.Entity? && t.index < |objects| && (objects[t.index].kind.Base? || objects[t.index].kind.Worker?)
  }

  /** `selectedGameObject` and the `selected` flags agree: exactly the object
      it points at is flagged, so at most one object is selected. */
  ghost predicate SelectionOk(objects: seq<GameObject>, selected: Option<nat>)
  {
    (selected.Some? ==> selected.value < |objects|) &&
    forall i :: 0 <= i < |objects| ==> (objects[i].selected <==> selected == Some(i))
  }

  ghost predicate TimerOk(objects: seq<GameObject>, t: Timer, nextHandle: nat)
  {
    t.owner < |objects| && objects[t.owner].kind.Worker? && 0 < t.handle < nextHandle
  }

  /** Two lists of game objects of the same length whose objects have the same
      kind, place in the list and size. */
  ghost predicate SameShape(a: seq<GameObject>, b: seq<GameObject>)
  {
    |a| == |b| &&
    forall i :: 0 <= i < |a| ==>
      a[i].width == b[i].width && a[i].height == b[i].height &&
      (a[i].kind.Tree? <==> b[i].kind.Tree?) &&
      (a[i].kind.Base? <==> b[i].kind.Base?) &&
      (a[i].kind.Worker? <==> b[i].kind.Worker?)
  }

  /** The two objects hold the same: tree amount, inventory and cached weight. */
  ghost predicate SameHoldings(a: GameObject, b: GameObject)
  {
    a.selected == b.selected &&
    (a.kind.Tree? ==> b.kind.Tree? && a.kind.amount == b.kind.amount) &&
    (a.kind.Base? ==> b.kind.Base? && a.kind.inventory == b.kind.inventory) &&
    (a.kind.Worker? ==> b.kind.Worker? && a.kind.inventory == b.kind.inventory && a.kind.weight == b.kind.weight)
  }

  /** The first base depends only on the kinds of the objects. */
  lemma FirstBaseSameShape(a: seq<GameObject>, b: seq<GameObject>)
    requires SameShape(a, b)
    ensures FirstBase(a) == FirstBase(b)
  {
  }

  lemma SameShapeTrans(a: seq<GameObject>, b: seq<GameObject>, c: seq<GameObject>)
    requires SameShape(a, b) && SameShape(b, c)
    ensures SameShape(a, c)
  {
  }

  /** The world invariant, over the world's four fields. */
  ghost predicate WorldOk(objects: seq<GameObject>, selected: Option<nat>, timers: seq<Timer>, nextHandle: nat)
  {
    SelectionOk(objects, selected) &&
    (forall i :: 0 <= i < |objects| ==> objects[i].width > 0.0 && objects[i].height > 0.0) &&
    (forall i :: 0 <= i < |objects| && objects[i].kind.Worker? ==> TargetOk(objects[i].kind.target, |objects|)) &&
    (forall k :: 0 <= k < |timers| ==> TimerOk(objects, timers[k], nextHandle)) &&
    UniqueHandles(timers) &&
    0 < nextHandle
  }

  /** Replacing one object by one of the same kind, size and selection flag,
      whose target (for a worker) is in the list, keeps the invariant. */
  lemma ReplaceKeepsOk(objects: seq<GameObject>, selected: Option<nat>, timers: seq<Timer>, nextHandle: nat,
                       w: nat, o: GameObject)
    requires WorldOk(objects, selected, timers, nextHandle) && w < |objects|
    requires o.selected == objects[w].selected && o.width == objects[w].width && o.height == objects[w].height
    requires o.kind.Tree? == objects[w].kind.Tree? && o.kind.Base? == objects[w].kind.Base? && o.kind.Worker? == objects[w].kind.Worker?
    requires o.kind.Worker? ==> TargetOk(o.kind.target, |objects|)
    ensures WorldOk(objects[w := o], selected, timers, nextHandle)
    ensures SameShape(objects, objects[w := o])
  {
  }

  /** The part of the world a frame of `update` changes: the objects, the
      pending callbacks and the next timer handle. */
  datatype Scene = Scene(objects: seq<GameObject>, timers: seq<Timer>, next: nat)

  /** What arriving within reach of its target does to worker `w`. At a base
      with an empty inventory, or at a tree with nothing left, the worker goes
      idle and drops its target, and nothing is scheduled. At a base with
      something to drop, or at a tree with wood, it starts dropping or
      harvesting and one callback is scheduled under a new handle, which
      `timeout` keeps. Anywhere else it goes idle and drops its target. No
      other object changes, and the worker's position and inventory stay. */
  ghost function Arrival(s: Scene, w: nat): Scene
    requires w < |s.objects| && s.objects[w].kind.Worker?
  {
    var o := s.objects[w];
    var t := o.kind.target;
    var stop := Scene(s.objects[w := o.(kind := o.kind.(state := Idle, target := NoTarget))], s.timers, s.next);
    if IsBaseAt(s.objects, t) then
      if o.kind.inventory == [] then stop
      else Scene(s.objects[w := o.(kind := o.kind.(state := Dropping, timeout := Some(s.next)))],
                 s.timers + [Timer(s.next, w, DropOff)], s.next + 1)
    else if IsTreeAt(s.objects, t) then
      if s.objects[t.index].kind.amount <= 0 then stop
      else Scene(s.objects[w := o.(kind := o.kind.(state := Harvesting, timeout := Some(s.next)))],
                 s.timers + [Timer(s.next, w, Harvest)], s.next + 1)
    else stop
  }

  /** One object's `update`. Trees and bases do nothing. A worker that is
      harvesting, or has no target, does nothing. Otherwise, out of reach of
      its target it takes one `step` toward it and is `moving`; within reach
      it arrives. (A target outside the list cannot occur in a valid world.) */
  ghost function WorkerUpdate(s: Scene, w: nat, step: MoveStep): (r: Scene)
    requires w < |s.objects|
    ensures |r.objects| == |s.objects|
  {
    var o := s.objects[w];
    if !o.kind.Worker? || o.kind.state == Harvesting || o.kind.target.NoTarget? ||
       !TargetOk(o.kind.target, |s.objects|) then s
    else
      var goal := TargetPosition(s.objects, o.kind.target);
      if !InReach(o, goal) then
        var p := step((o.x, o.y), goal);
        Scene(s.objects[w := o.(x := p.0, y := p.1, kind := o.kind.(state := Moving))], s.timers, s.next)
      else Arrival(s, w)
  }

  /** The world after the first `i` objects, in list order, have run their
      `update`: a frame is `Frame(s, |s.objects|, step)`. */
  ghost function Frame(s: Scene, i: nat, step: MoveStep): (r: Scene)
    requires i <= |s.objects|
    ensures |r.objects| == |s.objects|
  {
    if i == 0 then s else WorkerUpdate(Frame(s, i - 1, step), i - 1, step)
  }

  /** What one object's `update` may change: no holdings and no selection
      flag, nothing at all of a tree or a base, and callbacks only appended,
      under handles not used before. */
  ghost predicate OnlyWorkersMove(s: Scene, r: Scene)
  {
    |r.objects| == |s.objects| &&
    (forall j :: 0 <= j < |s.objects| ==> SameHoldings(s.objects[j], r.objects[j])) &&
    (forall j :: 0 <= j < |s.objects| && !s.objects[j].kind.Worker? ==> r.objects[j] == s.objects[j]) &&
    s.timers <= r.timers && s.next <= r.next &&
    forall k :: |s.timers| <= k < |r.timers| ==> s.next <= r.timers[k].handle
  }

  lemma WorkerUpdateOnlyMovesWorkers(s: Scene, w: nat, step: MoveStep)
    requires w < |s.objects|
    ensures OnlyWorkersMove(s, WorkerUpdate(s, w, step))
  {
  }

  /** A whole frame only moves workers: by induction over the objects updated. */
  lemma {:induction false} FrameOnlyMovesWorkers(s: Scene, i: nat, step: MoveStep)
    requires i <= |s.objects|
    ensures OnlyWorkersMove(s, Frame(s, i, step))
  {
    if i > 0 {
      FrameOnlyMovesWorkers(s, i - 1, step);
      var m := Frame(s, i - 1, step);
      WorkerUpdateOnlyMovesWorkers(m, i - 1, step);
    }
  }

  /** The world `init` sets up from an empty one is valid: nothing is
      selected and no callback is pending. Each tree holds 100, the base is
      the eleventh object and the one full workers head for, and every worker
      starts idle with no target and an empty inventory of weight 0, so its
      weight is the sum of its inventory from the start. */
  lemma InitialWorld(spots: seq<Pos>)
    requires |spots| == 10
    ensures var objs := InitialObjects(spots);
            WorldOk(objs, None, [], 1) && |objs| == 14 && HomeBase(objs) == Entity(10) &&
            (forall i :: 0 <= i < 10 ==> objs[i].kind == Tree(TreeAmount)) &&
            forall i :: 11 <= i < 14 ==>
              objs[i].kind == Worker(NoTarget, Idle, None, [], 0) && objs[i].kind.weight == Sum(objs[i].kind.inventory)
  {
    var objs := InitialObjects(spots);
    assert forall i :: 0 <= i < 10 ==> objs[i] == NewTree(spots[i].0, spots[i].1);
    var b := FirstBase(objs);
    assert objs[10].kind.Base?;
  }

  /** The arrival test as the source writes it, `sqrt(dx*dx + dy*dy) < width`
      negated into `>= width`: for any distance `d >= 0` whose square is
      `dx*dx + dy*dy`, the worker is in reach exactly when `d < width`. */
  lemma InReachMeansWithinWidth(o: GameObject, p: Pos, d: real)
    requires o.width > 0.0 && d >= 0.0
    requires d * d == (p.0 - o.x) * (p.0 - o.x) + (p.1 - o.y) * (p.1 - o.y)
    ensures InReach(o, p) <==> d < o.width
  {
    var sq := (p.0 - o.x) * (p.0 - o.x) + (p.1 - o.y) * (p.1 - o.y);
    assert InReach(o, p) == (sq < o.width * o.width);
    if d < o.width {
      SquareBelow(d, o.width);
    } else {
      SquareBelow(o.width, d);
      assert o.width * o.width <= d * d;
    }
  }

  /** Squaring keeps the order of non-negative numbers. */
  lemma SquareBelow(a: real, b: real)
    requires 0.0 <= a <= b
    ensures a * a <= b * b && (a < b ==> a * a < b * b)
  {
    var d, e := b - a, b + a;
    assert d * e == b * b - a * a;
    assert d * e >= 0.0;
    if a < b {
      assert d * e > 0.0;
    }
  }

  /** The objects after `this.target.amount -= 10`: a tree target loses
      exactly 10; on any other target the write is not observable. */
  ghost function Chopped(objects: seq<GameObject>, t: Target): seq<GameObject>
  {
    if IsTreeAt(objects, t)
    then objects[t.index := objects[t.index].(kind := Tree(objects[t.index].kind.amount - HarvestAmount))]
    else objects
  }

  /** Where a full worker is sent: the first base, or nowhere when there is none. */
  function HomeBase(objects: seq<GameObject>): Target
  {
    var b := FirstBase(objects);
    if b < |objects| then Entity(b) else NoTarget
  }

  /** The end of a harvest for worker `o`, now holding `inv` of weight
      `weight`: `o'` and `timers'` are the worker and the pending callbacks
      afterwards. Below capacity it goes idle, still aimed at its target. At
      capacity it goes idle without a target and, when there is a base
      (`home`), `moveTo` sends it there and clears its latest callback. */
  ghost predicate HarvestEnd(o: GameObject, inv: seq<Item>, weight: int, home: Target, timers: seq<Timer>,
                             o': GameObject, timers': seq<Timer>)
    requires o.kind.Worker?
  {
    var me := o.kind;
    if weight >= InventoryCapacity then
      o' == o.(kind := me.(inventory := inv, weight := weight, target := home,
                           state := if home.Entity? then Moving else Idle)) &&
      timers' == (if home.Entity? && me.timeout.Some? then Cancel(timers, me.timeout.value) else timers)
    else
      o' == o.(kind := me.(inventory := inv, weight := weight, state := Idle)) && timers' == timers
  }

  /** The harvest callback of worker `w` fires with `timers` pending;
      `objects'` and `timers'` are the world afterwards. With no target,
      `this.target.amount` throws and nothing changes. Otherwise the tree
      target, if it is one, loses 10, no other object but the worker changes,
      and the worker, now holding `AddLine(inventory, "wood", 10)`, ends its
      harvest as `HarvestEnd` says. */
  ghost predicate HarvestDone(objects: seq<GameObject>, w: nat, timers: seq<Timer>,
                              objects': seq<GameObject>, timers': seq<Timer>)
    requires w < |objects| && objects[w].kind.Worker?
  {
    var me := objects[w].kind;
    if me.target.NoTarget? then objects' == objects && timers' == timers
    else
      var inv := AddLine(me.inventory, Wood, HarvestAmount);
      w < |objects'| && objects' == Chopped(objects, me.target)[w := objects'[w]] &&
      HarvestEnd(objects[w], inv, Sum(inv), HomeBase(objects), timers, objects'[w], timers')
  }

  /** The drop-off callback of worker `w` fires; `objects'` is the list of
      objects afterwards. With lines to drop and a target without an
      inventory (none, a point, a tree), the first line throws and nothing
      changes. Otherwise the lines are merged into the target's inventory
      (when there are any), then the worker is emptied, its weight recomputed
      as 0 and its state set to idle; its target is kept. When a worker is its
      own target, the merged lines are overwritten by the emptying. */
  ghost predicate DropOffDone(objects: seq<GameObject>, w: nat, objects': seq<GameObject>)
    requires w < |objects| && objects[w].kind.Worker?
  {
    var me := objects[w].kind;
    if me.inventory != [] && !HasInventoryAt(objects, me.target) then objects' == objects
    else
      var received :=
        if me.inventory == [] then objects
        else
          var j := me.target.index;
          objects[j := objects[j].(kind := objects[j].kind.(inventory := MergeAll(objects[j].kind.inventory, me.inventory)))];
      objects' == received[w := objects[w].(kind := me.(inventory := [], weight := 0, state := Idle))]
  }

  /** After a harvest that does not throw, the worker's weight is the sum of
      its inventory and it is no longer harvesting; the only callback the
      harvest can clear is the worker's latest. */
  lemma HarvestDoneEnds(objects: seq<GameObject>, w: nat, timers: seq<Timer>,
                        objects': seq<GameObject>, timers': seq<Timer>)
    requires w < |objects| && objects[w].kind.Worker?
    requires HarvestDone(objects, w, timers, objects', timers')
    ensures forall tm :: tm in timers && objects[w].kind.timeout != Some(tm.handle) ==> tm in timers'
    ensures objects[w].kind.target.NoTarget? ==> objects' == objects
    ensures !objects[w].kind.target.NoTarget? ==>
              w < |objects'| && objects'[w].kind.Worker? &&
              objects'[w].kind.weight == Sum(objects'[w].kind.inventory) &&
              objects'[w].kind.state != Harvesting && objects'[w].kind.state != Dropping
  {
  }

  /** After a drop-off that does not throw, the worker holds nothing, weighs
      0 and is idle. */
  lemma DropOffDoneEnds(objects: seq<GameObject>, w: nat, objects': seq<GameObject>)
    requires w < |objects| && objects[w].kind.Worker?
    requires DropOffDone(objects, w, objects')
    ensures var me := objects[w].kind;
            me.inventory != [] && !HasInventoryAt(objects, me.target) ==> objects' == objects
    ensures var me := objects[w].kind;
            me.inventory == [] || HasInventoryAt(objects, me.target) ==>
              w < |objects'| && objects'[w].kind == me.(inventory := [], weight := 0, state := Idle)
  {
  }

  /** Removing the callback at position `k` keeps every other one. */
  lemma RemoveAtKeepsOthers(timers: seq<Timer>, k: nat)
    requires k < |timers|
    ensures forall tm :: tm in timers && tm != timers[k] ==> tm in timers[..k] + timers[k + 1..]
  {
  }

  /** The inventory of a worker that has completed `n` harvests from empty,
      with no drop-off in between. */
  function Harvests(n: nat): seq<Item>
  {
    if n == 0 then [] else AddLine(Harvests(n - 1), Wood, HarvestAmount)
  }

  /** Harvests from empty build a single wood line of 10 per harvest. */
  lemma {:induction false} HarvestsFromEmpty(n: nat)
    ensures Harvests(n) == if n == 0 then [] else [Item(Wood, HarvestAmount * n)]
  {
    if n > 0 {
      HarvestsFromEmpty(n - 1);
    }
  }

  /** The capacity check after a harvest first succeeds on the tenth harvest
      from empty: the worker goes back to base after exactly 10 harvests. */
  lemma {:induction false} TenthHarvestFillsInventory(n: nat)
    ensures Sum(Harvests(n)) >= InventoryCapacity <==> n >= 10
  {
    HarvestsFromEmpty(n);
  }

  /** The inventory step of the harvest callback: `find` the wood line and
      raise it by 10, or `push` a new wood line of 10; then `calculateWeight`. */
  method AddWood(inv: seq<Item>) returns (r: seq<Item>, weight: int)
    ensures r == AddLine(inv, Wood, HarvestAmount)
    ensures weight == Sum(r)
  {
    r := AddItem(inv, Wood, HarvestAmount);
    weight := CalculateWeight(r);
  }

  /** What one harvest does to an inventory: 10 more wood, no other id
      touched, 10 more in total, ids kept unique. */
  lemma HarvestAddsWood(inv: seq<Item>)
    ensures Sum(AddLine(inv, Wood, HarvestAmount)) == Sum(inv) + HarvestAmount
    ensures AmountOf(AddLine(inv, Wood, HarvestAmount), Wood) == AmountOf(inv, Wood) + HarvestAmount
    ensures forall id :: id != Wood ==> AmountOf(AddLine(inv, Wood, HarvestAmount), id) == AmountOf(inv, id)
    ensures IdsUnique(inv) ==> IdsUnique(AddLine(inv, Wood, HarvestAmount))
  {
    SumAddLine(inv, Wood, HarvestAmount);
    forall id {
      AmountOfAddLine(inv, Wood, HarvestAmount, id);
    }
    if IdsUnique(inv) {
      AddLineIdsUnique(inv, Wood, HarvestAmount);
    }
  }

  /** The world: the game's global state. */
  class World {
    /** `gameObjects`, in spawn order. */
    var objects: seq<GameObject>
    /** `selectedGameObject`, as a position in `objects`. */
    var selected: Option<nat>
    /** The callbacks scheduled with `setTimeout` that have neither fired nor
        been cleared. */
    var timers: seq<Timer>
    /** The handle the next `setTimeout` returns. */
    var nextHandle: nat

    ghost predicate Valid()
      reads this
    {
      WorldOk(objects, selected, timers, nextHandle)
    }

    constructor ()
      ensures Valid()
      ensures objects == [] && selected == None && timers == []
    {
      objects := [];
      selected := None;
      timers := [];
      nextHandle := 1;
    }

    /** `gameObjects.push(o)` for a newly constructed object. */
    method Spawn(o: GameObject)
      requires Valid()
      requires !o.selected && o.width > 0.0 && o.height > 0.0
      requires o.kind.Worker? ==> TargetOk(o.kind.target, |objects| + 1)
      modifies this
      ensures Valid()
      ensures objects == old(objects) + [o]
      ensures selected == old(selected) && timers == old(timers) && nextHandle == old(nextHandle)
    {
      objects := objects + [o];
    }

    /** `createTrees`: ten new trees appended, at the positions `spots` that
        the source draws with `Math.random()`. */
    method CreateTrees(spots: seq<Pos>)
      requires Valid() && |spots| == 10
      modifies this
      ensures Valid()
      ensures objects == old(objects) + TreesAt(spots)
      ensures selected == old(selected) && timers == old(timers) && nextHandle == old(nextHandle)
    {
      var i := 0;
      while i < 10
        invariant 0 <= i <= 10 && Valid()
        invariant objects == old(objects) + TreesAt(spots[..i])
        invariant selected == old(selected) && timers == old(timers) && nextHandle == old(nextHandle)
      {
        assert spots[..i + 1][..i] == spots[..i];
        Spawn(NewTree(spots[i].0, spots[i].1));
        i := i + 1;
      }
      assert spots[..10] == spots;
    }

    /** The objects `init` creates: `createTrees`, then a base and three
        workers pushed in that order. */
    method Init(spots: seq<Pos>)
      requires Valid() && |spots| == 10
      modifies this
      ensures Valid()
      ensures objects == old(objects) + InitialObjects(spots)
      ensures selected == old(selected) && timers == old(timers) && nextHandle == old(nextHandle)
    {
      CreateTrees(spots);
      Spawn(NewBase(400.0, 400.0));
      Spawn(NewWorker(100.0, 100.0));
      Spawn(NewWorker(200.0, 200.0));
      Spawn(NewWorker(300.0, 300.0));
    }

    /** Assigns object `w` a new value of the same kind, size and selection flag. */
    method SetObject(w: nat, o: GameObject)
      requires Valid() && w < |objects|
      requires o.selected == objects[w].selected && o.width == objects[w].width && o.height == objects[w].height
      requires o.kind.Tree? == objects[w].kind.Tree? && o.kind.Base? == objects[w].kind.Base? && o.kind.Worker? == objects[w].kind.Worker?
      requires o.kind.Worker? ==> TargetOk(o.kind.target, |objects|)
      modifies this
      ensures Valid() && SameShape(old(objects), objects)
      ensures objects == old(objects)[w := o]
      ensures selected == old(selected) && timers == old(timers) && nextHandle == old(nextHandle)
    {
      ReplaceKeepsOk(objects, selected, timers, nextHandle, w, o);
      objects := objects[w := o];
    }

    /** `this.timeout = setTimeout(...)` for worker `w`. */
    method Schedule(w: nat, action: Action)
      requires Valid() && w < |objects| && objects[w].kind.Worker?
      modifies this
      ensures Valid()
      ensures objects == old(objects)[w := old(objects[w]).(kind := old(objects[w].kind).(timeout := Some(old(nextHandle))))]
      ensures timers == old(timers) + [Timer(old(nextHandle), w, action)]
      ensures nextHandle == old(nextHandle) + 1 && selected == old(selected)
    {
      var h := nextHandle;
      SetObject(w, objects[w].(kind := objects[w].kind.(timeout := Some(h))));
      timers := timers + [Timer(h, w, action)];
      nextHandle := h + 1;
    }

    /** `moveTo`: head for `t` and clear the latest scheduled callback. Only
        the handle kept in `timeout` is cleared; older callbacks stay pending. */
    method MoveTo(w: nat, t: Target)
      requires Valid() && w < |objects| && objects[w].kind.Worker? && TargetOk(t, |objects|)
      modifies this
      ensures Valid()
      ensures objects == old(objects)[w := old(objects[w]).(kind := old(objects[w].kind).(target := t, state := Moving))]
      ensures timers == if old(objects[w].kind.timeout).Some?
                        then Cancel(old(timers), old(objects[w].kind.timeout).value)
                        else old(timers)
      ensures old(objects[w].kind.timeout).Some? ==>
                forall k :: 0 <= k < |timers| ==> timers[k].handle != old(objects[w].kind.timeout).value
      ensures forall tm :: tm in timers ==> tm in old(timers)
      ensures selected == old(selected) && nextHandle == old(nextHandle)
    {
      var me := objects[w].kind;
      SetObject(w, objects[w].(kind := me.(target := t, state := Moving)));
      if me.timeout.Some? {
        timers := Cancel(timers, me.timeout.value);
        assert forall k :: 0 <= k < |timers| ==> timers[k] in old(timers);
      }
    }

    /** `handle`: a command toward another object is a `moveTo`. */
    method Handle(w: nat, t: Target)
      requires Valid() && w < |objects| && objects[w].kind.Worker? && TargetOk(t, |objects|)
      modifies this
      ensures Valid()
      ensures objects == old(objects)[w := old(objects[w]).(kind := old(objects[w].kind).(target := t, state := Moving))]
      ensures timers == if old(objects[w].kind.timeout).Some?
                        then Cancel(old(timers), old(objects[w].kind.timeout).value)
                        else old(timers)
      ensures selected == old(selected) && nextHandle == old(nextHandle)
    {
      MoveTo(w, t);
    }

    /** The arrival branch of `update` for worker `w`, which is within reach
        of its target: drop off at a base, harvest at a tree, stop anywhere
        else. */
    method Arrive(w: nat)
      requires Valid() && w < |objects| && objects[w].kind.Worker? && !objects[w].kind.target.NoTarget?
      modifies this
      ensures Valid() && SameShape(old(objects), objects) && selected == old(selected)
      ensures |objects| == |old(objects)| && objects == old(objects)[w := objects[w]]
      ensures Scene(objects, timers, nextHandle) == Arrival(Scene(old(objects), old(timers), old(nextHandle)), w)
    {
      var o := objects[w];
      var me := o.kind;
      if IsBaseAt(objects, me.target) {
        me := me.(state := Dropping);
        if me.inventory == [] {
          me := me.(state := Idle, target := NoTarget);
          SetObject(w, o.(kind := me));
          return;
        }
        SetObject(w, o.(kind := me));
        Schedule(w, DropOff);
        return;
      }
      if IsTreeAt(objects, me.target) {
        me := me.(state := Harvesting);
        if objects[me.target.index].kind.amount <= 0 {
          me := me.(state := Idle, target := NoTarget);
          SetObject(w, o.(kind := me));
          return;
        }
        SetObject(w, o.(kind := me));
        Schedule(w, Harvest);
        return;
      }
      SetObject(w, o.(kind := me.(state := Idle, target := NoTarget)));
    }

    /** `update` of object `w`: the empty `GameObject.update` for a tree or a
        base, `Worker.update` for a worker. */
    method UpdateObject(w: nat, step: MoveStep)
      requires Valid() && w < |objects|
      modifies this
      ensures Valid() && SameShape(old(objects), objects) && selected == old(selected)
      ensures |objects| == |old(objects)| && objects == old(objects)[w := objects[w]]
      ensures SameHoldings(old(objects)[w], objects[w])
      ensures old(timers) <= timers && old(nextHandle) <= nextHandle
      ensures forall k :: |old(timers)| <= k < |timers| ==> old(nextHandle) <= timers[k].handle
      ensures Scene(objects, timers, nextHandle) == WorkerUpdate(Scene(old(objects), old(timers), old(nextHandle)), w, step)
    {
      var o := objects[w];
      var me := o.kind;
      if !me.Worker? {
        return;
      }
      if me.state == Harvesting {
        return;
      }
      if me.target.NoTarget? {
        return;
      }
      var goal := TargetPosition(objects, me.target);
      if !InReach(o, goal) {
        var p := step((o.x, o.y), goal);
        SetObject(w, o.(x := p.0, y := p.1, kind := me.(state := Moving)));
        return;
      }
      Arrive(w);
    }

    /** The top-level `update`: every object's `update` in spawn order. Only
        workers change here, and only their position, state, target and
        `timeout`: no inventory, weight or tree amount; callbacks are only
        added, each under a new handle. */
    method Update(step: MoveStep)
      requires Valid()
      modifies this
      ensures Valid() && SameShape(old(objects), objects) && selected == old(selected)
      ensures Scene(objects, timers, nextHandle) == Frame(Scene(old(objects), old(timers), old(nextHandle)), |old(objects)|, step)
      ensures OnlyWorkersMove(Scene(old(objects), old(timers), old(nextHandle)), Scene(objects, timers, nextHandle))
    {
      ghost var s0 := Scene(objects, timers, nextHandle);
      var i := 0;
      while i < |objects|
        invariant Valid() && SameShape(old(objects), objects) && selected == old(selected)
        invariant 0 <= i <= |objects|
        invariant Scene(objects, timers, nextHandle) == Frame(s0, i, step)
      {
        ghost var before := Scene(objects, timers, nextHandle);
        UpdateObject(i, step);
        assert Scene(objects, timers, nextHandle) == WorkerUpdate(before, i, step) == Frame(s0, i + 1, step);
        i := i + 1;
      }
      FrameOnlyMovesWorkers(s0, |objects|, step);
    }

    /** `this.target.amount -= 10`: a tree target loses 10, with no clamp, so
        its amount can go below zero when two workers harvest the same tree. */
    method ChopTarget(t: Target)
      requires Valid() && TargetOk(t, |objects|)
      modifies this
      ensures Valid() && SameShape(old(objects), objects)
      ensures objects == Chopped(old(objects), t)
      ensures selected == old(selected) && timers == old(timers) && nextHandle == old(nextHandle)
    {
      if IsTreeAt(objects, t) {
        var j := t.index;
        SetObject(j, objects[j].(kind := Tree(objects[j].kind.amount - HarvestAmount)));
      }
    }

    /** The harvest callback of worker `w`, reading the worker's fields as
        they are when it fires. With no target, `this.target.amount` throws
        and nothing changes. A tree target loses 10; any other target only
        gets a meaningless `amount` property, which nothing reads. */
    method FinishHarvest(w: nat)
      requires Valid() && w < |objects| && objects[w].kind.Worker?
      modifies this
      ensures Valid() && SameShape(old(objects), objects)
      ensures selected == old(selected) && nextHandle == old(nextHandle)
      ensures forall tm :: tm in timers ==> tm in old(timers)
      ensures HarvestDone(old(objects), w, old(timers), objects, timers)
      ensures var me := old(objects[w].kind);
              !me.target.NoTarget? ==>
                objects[w].kind.inventory == AddLine(me.inventory, Wood, HarvestAmount) &&
                objects[w].kind.weight == Sum(objects[w].kind.inventory) &&
                Sum(objects[w].kind.inventory) == Sum(me.inventory) + HarvestAmount &&
                AmountOf(objects[w].kind.inventory, Wood) == AmountOf(me.inventory, Wood) + HarvestAmount &&
                (IdsUnique(me.inventory) ==> IdsUnique(objects[w].kind.inventory))
    {
      var me := objects[w].kind;
      if me.target.NoTarget? {
        return;
      }
      ChopTarget(me.target);
      assert objects[w] == old(objects[w]);
      FirstBaseSameShape(old(objects), objects);
      HarvestAddsWood(me.inventory);
      ghost var chopped := objects;
      CollectWood(w);
      SameShapeTrans(old(objects), chopped, objects);
    }

    /** The harvest callback after the tree: the wood goes into the worker's
        inventory, then the capacity check. */
    method CollectWood(w: nat)
      requires Valid() && w < |objects| && objects[w].kind.Worker?
      modifies this
      ensures Valid() && SameShape(old(objects), objects)
      ensures selected == old(selected) && nextHandle == old(nextHandle)
      ensures forall tm :: tm in timers ==> tm in old(timers)
      ensures |objects| == |old(objects)| && objects == old(objects)[w := objects[w]]
      ensures objects[w].kind.Worker? &&
              objects[w].kind.inventory == AddLine(old(objects[w].kind.inventory), Wood, HarvestAmount) &&
              objects[w].kind.weight == Sum(objects[w].kind.inventory)
      ensures var me := old(objects[w].kind);
              var inv := AddLine(me.inventory, Wood, HarvestAmount);
              HarvestEnd(old(objects[w]), inv, Sum(inv), HomeBase(old(objects)), old(timers), objects[w], timers)
    {
      var inv, weight := AddWood(objects[w].kind.inventory);
      EndHarvest(w, inv, weight);
    }

    /** The end of the harvest callback, once the wood is in `inv`: at or above
        capacity the worker drops its target, goes idle and is sent to the
        first base if there is one; below capacity it goes idle, still aimed
        at its target. */
    method EndHarvest(w: nat, inv: seq<Item>, weight: int)
      requires Valid() && w < |objects| && objects[w].kind.Worker?
      modifies this
      ensures Valid() && SameShape(old(objects), objects)
      ensures selected == old(selected) && nextHandle == old(nextHandle)
      ensures forall tm :: tm in timers ==> tm in old(timers)
      ensures |objects| == |old(objects)| && objects == old(objects)[w := objects[w]]
      ensures HarvestEnd(old(objects[w]), inv, weight, HomeBase(old(objects)), old(timers), objects[w], timers)
    {
      var me := objects[w].kind;
      if weight >= InventoryCapacity {
        SetObject(w, objects[w].(kind := me.(inventory := inv, weight := weight, state := Idle, target := NoTarget)));
        var b := FirstBase(objects);
        FirstBaseSameShape(old(objects), objects);
        if b < |objects| {
          MoveTo(w, Entity(b));
        }
        return;
      }
      SetObject(w, objects[w].(kind := me.(inventory := inv, weight := weight, state := Idle)));
    }

    /** The `forEach` of the drop-off callback: every line of `items` merged
        into the inventory of object `j`, a base or a worker. */
    method DepositInto(j: nat, items: seq<Item>)
      requires Valid() && j < |objects| && (objects[j].kind.Base? || objects[j].kind.Worker?)
      modifies this
      ensures Valid() && SameShape(old(objects), objects)
      ensures selected == old(selected) && timers == old(timers) && nextHandle == old(nextHandle)
      ensures var was := old(objects[j].kind.inventory);
              objects == old(objects)[j := old(objects[j]).(kind := old(objects[j].kind).(inventory := MergeAll(was, items)))] &&
              Sum(objects[j].kind.inventory) == Sum(was) + Sum(items) &&
              (IdsUnique(was) ==> IdsUnique(objects[j].kind.inventory))
    {
      var was := objects[j].kind.inventory;
      var merged := Deposit(was, items);
      MergeAllSum(was, items);
      if IdsUnique(was) {
        MergeAllIdsUnique(was, items);
      }
      SetObject(j, objects[j].(kind := objects[j].kind.(inventory := merged)));
    }

    /** The drop-off callback of worker `w`, reading the worker's fields as
        they are when it fires. Each line is merged into the target's
        inventory; when the target has none (no target, a point, a tree) the
        first line throws and nothing changes. The target may be another
        worker, whose cached weight is then not recomputed. */
    method FinishDropOff(w: nat)
      requires Valid() && w < |objects| && objects[w].kind.Worker?
      modifies this
      ensures Valid() && SameShape(old(objects), objects)
      ensures selected == old(selected) && nextHandle == old(nextHandle) && timers == old(timers)
      ensures DropOffDone(old(objects), w, objects)
      ensures var me := old(objects[w].kind);
              me.inventory == [] || HasInventoryAt(old(objects), me.target) ==>
                objects[w].kind.weight == Sum(objects[w].kind.inventory)
      // the receiver's total rises by the depositor's, and its ids stay unique
      ensures var me := old(objects[w].kind);
              me.inventory != [] && HasInventoryAt(old(objects), me.target) && me.target.index != w ==>
                var j := me.target.index;
                var was := old(objects)[j].kind.inventory;
                Sum(objects[j].kind.inventory) == Sum(was) + Sum(me.inventory) &&
                (IdsUnique(was) ==> IdsUnique(objects[j].kind.inventory))
    {
      var me := objects[w].kind;
      if me.inventory != [] {
        if !HasInventoryAt(objects, me.target) {
          return;
        }
        DepositInto(me.target.index, me.inventory);
      }
      var weight := CalculateWeight([]);
      SetObject(w, objects[w].(kind := objects[w].kind.(inventory := [], weight := weight, state := Idle)));
    }

    /** The scheduler runs pending callback `k`; which one runs next is left
        open. A callback runs once, and only while pending, so a cleared one
        never takes effect. */
    method Fire(k: nat)
      requires Valid() && k < |timers|
      modifies this
      ensures Valid() && SameShape(old(objects), objects) && selected == old(selected)
      ensures forall tm :: tm in timers ==> tm in old(timers) && tm.handle != old(timers[k].handle)
      // every other callback stays pending, unless it is the one a full worker's `moveTo` clears
      ensures var t := old(timers[k]);
              var cleared := old(objects[t.owner].kind.timeout);
              forall tm :: tm in old(timers) && tm.handle != t.handle && cleared != Some(tm.handle) ==> tm in timers
      // what the callback does
      ensures var t := old(timers[k]);
              t.action == Harvest ==>
                HarvestDone(old(objects), t.owner, old(timers)[..k] + old(timers)[k + 1..], objects, timers)
      ensures var t := old(timers[k]);
              t.action == DropOff ==>
                DropOffDone(old(objects), t.owner, objects) && timers == old(timers)[..k] + old(timers)[k + 1..]
      ensures var t := old(timers[k]);
              var me := old(objects[t.owner].kind);
              var aborts := if t.action == Harvest then me.target.NoTarget?
                            else me.inventory != [] && !HasInventoryAt(old(objects), me.target);
              if aborts then objects == old(objects)
              else objects[t.owner].kind.weight == Sum(objects[t.owner].kind.inventory) &&
                   objects[t.owner].kind.state != Harvesting && objects[t.owner].kind.state != Dropping
    {
      var t := timers[k];
      RemoveAtKeepsOthers(timers, k);
      timers := timers[..k] + timers[k + 1..];
      assert forall tm :: tm in timers ==> tm in old(timers) && tm.handle != t.handle;
      ghost var before := objects;
      ghost var rest := timers;
      match t.action
      case Harvest =>
        FinishHarvest(t.owner);
        HarvestDoneEnds(before, t.owner, rest, objects, timers);
      case DropOff =>
        FinishDropOff(t.owner);
        DropOffDoneEnds(before, t.owner, objects);
    }

    /** The `click` handler: select the first object hit, deselecting the
        previous one; a click on empty ground clears the selection. */
    method Click(x: real, y: real)
      requires Valid()
      modifies this
      ensures Valid()
      ensures IsFirstHit(objects, x, y, selected)
      ensures |objects| == |old(objects)| &&
              forall i :: 0 <= i < |objects| ==> objects[i] == old(objects)[i].(selected := objects[i].selected)
      ensures timers == old(timers) && nextHandle == old(nextHandle)
    {
      var clicked := HitTest(objects, x, y);
      if clicked.Some? {
        if selected.Some? {
          objects := objects[selected.value := objects[selected.value].(selected := false)];
        }
        selected := clicked;
        objects := objects[selected.value := objects[selected.value].(selected := true)];
        return;
      }
      if selected.Some? {
        objects := objects[selected.value := objects[selected.value].(selected := false)];
        selected := None;
      }
    }

    /** The `contextmenu` handler: a selected worker is sent to the first
        object hit, or to the point clicked; any other selected object is
        deselected; with nothing selected nothing happens. */
    method ContextMenu(x: real, y: real)
      requires Valid()
      modifies this
      ensures Valid() && nextHandle == old(nextHandle)
      ensures old(selected).None? ==> objects == old(objects) && timers == old(timers) && selected == None
      ensures old(selected).Some? && !old(objects[selected.value].kind.Worker?) ==>
                selected == None && timers == old(timers) &&
                objects == old(objects)[old(selected).value := old(objects[selected.value]).(selected := false)]
      ensures var s := old(selected);
              s.Some? && old(objects[s.value].kind.Worker?) ==>
                var me := old(objects[s.value].kind);
                selected == s && |objects| == |old(objects)| && objects[s.value].kind.Worker? &&
                objects[s.value] == old(objects[s.value]).(kind := me.(target := objects[s.value].kind.target, state := Moving)) &&
                (forall i :: 0 <= i < |objects| && i != s.value ==> objects[i] == old(objects)[i]) &&
                ((objects[s.value].kind.target.Entity? &&
                  IsFirstHit(old(objects), x, y, Some(objects[s.value].kind.target.index))) ||
                 (objects[s.value].kind.target == Point(x, y) && IsFirstHit(old(objects), x, y, None))) &&
                timers == if me.timeout.Some? then Cancel(old(timers), me.timeout.value) else old(timers)
    {
      var clicked := HitTest(objects, x, y);
      if selected.Some? {
        var s := selected.value;
        if objects[s].kind.Worker? {
          if clicked.Some? {
            Handle(s, Entity(clicked.value));
          } else {
            MoveTo(s, Point(x, y));
          }
          return;
        }
        objects := objects[s := objects[s].(selected := false)];
        selected := None;
      }
    }

    /** The `keydown` handler: Escape clears the selection; other keys do nothing. */
    method KeyDown(key: string)
      requires Valid()
      modifies this
      ensures Valid() && timers == old(timers) && nextHandle == old(nextHandle)
      ensures key == "Escape" ==>
                selected == None && |objects| == |old(objects)| &&
                forall i :: 0 <= i < |objects| ==> objects[i] == old(objects)[i].(selected := false)
      ensures key != "Escape" ==> objects == old(objects) && selected == old(selected)
    {
      if key == "Escape" {
        if selected.Some? {
          objects := objects[selected.value := objects[selected.value].(selected := false)];
          selected := None;
        }
      }
    }
  }
}
