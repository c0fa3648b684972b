# A Dafny model of the rts entity simulation

The game keeps one list of game objects, `gameObjects`, in spawn order: trees
that hold wood, a base that stores what workers bring, and workers. A worker
runs a small task state machine (`idle`, `moving`, `harvesting`, `dropping`).
Each frame, `update` moves it toward its target, and when it arrives it
schedules a deferred harvest or drop-off with `setTimeout`. When a callback
fires, it moves wood between the tree, the worker's inventory and the base's
inventory. Mouse and keyboard handlers keep one selected object and send a
selected worker to whatever is right-clicked.

The model has two modules:

- `Inventory` (inventory.dfy): inventories are sequences of `Item(id, amount)`
  lines. `AddLine` is the find-then-increment-or-push step. `MergeAll` is the
  drop-off merge. `Sum` is what `calculateWeight` computes. `AmountOf` reads an
  inventory as a map from id to amount. The loops of the source are methods
  proved against these functions (`CalculateWeight`, `Deposit`). Lemmas prove
  what the merges promise: totals add up, ids stay unique, and each id gains
  exactly what was added.
- `Game` (game.dfy): game objects are values tagged `Tree`, `Base` or `Worker`.
  The global state is the class `World`. Its fields are the objects (`objects`,
  for `gameObjects`), the selection (`selected`, for `selectedGameObject`), the
  pending `setTimeout` callbacks (`timers`) and the next timer handle.
  References between objects (a worker's target, a callback's owner) are
  positions in `objects`; the source never removes an object, so these stay
  valid. A right-click on empty ground gives the target `Point(x, y)`.
  `World.Valid()` is the world invariant: the selection flags agree with
  `selected` (at most one object is selected), sizes are positive, targets and
  callback owners are in the list, and timer handles are unique.

How the model matches the source:

- Each `setTimeout` closure is a `Timer(handle, owner, action)` record.
  `World.Fire(k)` runs pending callback `k`. `moveTo` removes the callback
  whose handle is in the worker's `timeout` field, as `clearTimeout` does.
- While a worker stands at a base with a non-empty inventory, `update` is not
  locked (only `harvesting` returns early). Each frame therefore schedules one
  more drop-off callback and overwrites `timeout`. `moveTo` then clears only
  the latest one. Pending callbacks are a sequence, and nothing in the model
  claims there is at most one per worker.
- Callbacks read the worker's fields when they fire, not when they were
  scheduled:
  - A harvest callback whose worker has no target throws on
    `this.target.amount`, so nothing changes. Only a tree target loses 10. For
    any other target, the decrement only writes a `NaN` `amount` property that
    nothing reads. The worker gains 10 wood in both cases.
  - A drop-off callback with a non-empty inventory throws on the first line
    when the target has no `inventory` (no target, a point, a tree), so nothing
    changes. When the target is a base or another worker, the lines are merged
    into it. In the worker case, that worker's cached weight is not
    recomputed. Because of this, "weight equals the sum of the lines" is
    proved for the worker whose callback completes, not for every worker at
    all times.
- A tree's `amount` is not clamped. Two workers can both start on a tree
  holding 10, and the model makes no claim that `amount >= 0`.
- Arrival: the source tests `sqrt(dx*dx + dy*dy) >= width`. Sizes are
  positive, so the model compares `dx*dx + dy*dy` with `width*width` instead;
  `InReachMeansWithinWidth` proves the two tests agree.
- A frame of `update` is specified on `Scene` values (objects, pending
  callbacks, next handle): `Arrival` and `WorkerUpdate` give one object's
  step, and `Frame` applies them in spawn order. The two callbacks are
  specified by the predicates `HarvestDone` and `DropOffDone`, which
  `World.Fire` states for the callback it runs.

## Model

| member | source | states |
|---|---|---|
| Game.HitTest | game.js:305-312 | the hit-test loop returns the first object in spawn order whose box, edges included, holds the point, or none when no box does; the same loop is at game.js:277-284 |
| Game.ClickBoxIsClosed | game.js:24-27 | `isClicked` tests a closed box: both corners on the diagonal are hits, and a point any distance beyond an edge is not |
| Game.InReachMeansWithinWidth | game.js:77-81 | the arrival test on squares agrees with the source's `sqrt(dx*dx + dy*dy) >= width`: for any distance d >= 0 with d*d = dx*dx + dy*dy and a positive width, the worker is in reach exactly when d < width |
| Game.FirstBase | game.js:142 | `find(... instanceof Base)` yields the first base in spawn order, or reports that there is none |
| Game.Cancel | game.js:175-177 | clearing a handle removes exactly the pending callbacks with that handle, keeps every other one, and keeps handles unique |
| Game.AddWood | game.js:130-137 | the harvest's inventory step (find the wood line and raise it, or push one) computes `AddLine(inv, "wood", 10)`, and the weight it recomputes is the sum of the new inventory |
| Game.HarvestAddsWood | game.js:130-137 | one harvest adds 10 to the wood amount and changes no other id's amount, raises the total by exactly 10, and keeps ids unique |
| Game.HarvestsFromEmpty | game.js:128-137 | n harvests into an empty inventory leave a single line `wood: 10n` |
| Game.TenthHarvestFillsInventory | game.js:138 | from empty, the capacity test `weight >= 100` first holds after exactly 10 harvests |
| Inventory.FindLine | game.js:130 | `find` by id stops at the first line carrying the id, or reports that no line does |
| Inventory.CalculateWeight | game.js:184-191 | the accumulating loop returns the sum of all amounts |
| Inventory.Deposit | game.js:100-107 | the drop-off loop (find the receiver's line by id and raise it, or push a copy) computes exactly `MergeAll(into, items)`, whose totals and ids are stated by the `MergeAll` lemmas |
| Inventory.SumAddLine | game.js:130-135 | adding n of an id, by increment or push, raises the total by exactly n |
| Inventory.AmountOfAddLine | game.js:130-135 | adding n of an id is a map update: that id gains n and every other id keeps its amount |
| Inventory.AddLineIdsUnique | game.js:130-135 | adding to an inventory with unique ids keeps them unique, and the id then has a line |
| Inventory.MergeAllSum | game.js:100-107 | a drop-off raises the receiver's total by the depositor's total |
| Inventory.MergeAllAmountOf | game.js:100-107 | a drop-off adds, id by id, what the depositor held |
| Inventory.MergeAllIdsUnique | game.js:100-107 | a drop-off keeps the receiver's ids unique whatever the depositor's lines are |
| Inventory.TwoDropOffsOneLinePerId | game.js:100-107 | two drop-offs at one base still give one line per id, holding the sum of the three amounts |
| Inventory.AmountOfUnique | game.js:101 | with unique ids, the amount held of a line's id is exactly that line's amount |
| Game.World.constructor | game.js:4-5 | the world starts with no objects, no selection and no pending callbacks |
| Game.World.Spawn | game.js:341-344 | pushing a new, unselected object appends it and keeps the world invariant |
| Game.World.CreateTrees | game.js:257-262 | ten new trees (amount 100, size 20) are appended in order at the given positions; the world invariant is kept |
| Game.World.Init | game.js:339-344 | `init` appends the trees, then a base at (400, 400) and workers at (100, 100), (200, 200), (300, 300) |
| Game.InitialWorld | game.js:339-344 | the world `init` builds from an empty one is valid with nothing selected or pending; each tree holds 100, the base is object 10 and is where full workers go, and each worker starts idle with no target, no callback and an empty inventory of weight 0, equal to its sum |
| Game.World.Schedule | game.js:99 | `this.timeout = setTimeout(...)` appends a callback with a fresh handle owned by the worker and stores that handle in `timeout` |
| Game.World.MoveTo | game.js:171-178 | the target becomes `t` and the state `moving`; the callback whose handle is in `timeout` is no longer pending, so it can never fire; other callbacks are kept |
| Game.World.Handle | game.js:180-182 | has exactly the effect of `moveTo` |
| Game.World.Arrive | game.js:90-157 | the new objects, callbacks and next handle are `Arrival` of the old ones: at a base with an empty inventory, idle with no target and nothing scheduled; at a base otherwise, `dropping` with a drop-off callback under a new handle kept in `timeout`; at a tree with `amount <= 0`, idle with no target; at a tree otherwise, `harvesting` with a harvest callback scheduled; anywhere else, idle with no target; no other object changes |
| Game.World.UpdateObject | game.js:71-160 | the new objects, callbacks and next handle are `WorkerUpdate` of the old ones: a tree or base does nothing; a worker that is harvesting or has no target does nothing; out of reach, one `step` toward the target and state `moving`; within reach, `Arrival`. No inventory, weight or selection flag changes, callbacks are only appended, under handles not used before |
| Game.World.Update | game.js:194-198 | the new objects, callbacks and next handle are `Frame`: every object's `WorkerUpdate` applied in spawn order; so trees and bases are unchanged, no inventory, weight or tree amount changes, the selection is unchanged, and callbacks are only appended, under handles not used before |
| Game.FrameOnlyMovesWorkers | game.js:194-198 | by induction over the objects updated: a frame leaves every tree and base as it was, changes no holdings or selection flag, and only appends callbacks with new handles |
| Game.WorkerUpdateOnlyMovesWorkers | game.js:71-160 | one object's `update` changes no holdings, no tree or base, and only appends callbacks with new handles |
| Game.World.FinishHarvest | game.js:128-151 | `HarvestDone`: with no target, nothing changes. Otherwise a tree target loses exactly 10 and no other object but the worker changes; the worker's inventory becomes `AddLine(inv, "wood", 10)`, its weight equals the new sum, 10 more than before, and ids stay unique. Below capacity it goes idle still aimed at its target; at capacity it heads for the first base (`moving`, latest callback cleared), or stays idle with no target when there is no base |
| Game.HarvestDoneEnds | game.js:128-151 | after a harvest that does not throw, the worker's weight is the sum of its inventory and it is neither harvesting nor dropping; the only callback a harvest can clear is the worker's latest; one that throws changes no object |
| Game.World.ChopTarget | game.js:129 | a tree target loses exactly 10 (unclamped); any other target leaves every object unchanged |
| Game.World.CollectWood | game.js:130-150 | the worker's inventory becomes `AddLine(inv, "wood", 10)` and its weight the new sum, followed by the capacity branch; no other object changes |
| Game.World.EndHarvest | game.js:138-150 | the capacity branch: at or above 100, target cleared, then `moveTo` the first base if there is one; below 100, idle with the target kept |
| Game.World.DepositInto | game.js:100-107 | merging the worker's lines into a base or worker replaces that object's inventory by `MergeAll(was, items)`, raises its total by the lines' total, keeps its ids unique, and changes nothing else |
| Game.World.FinishDropOff | game.js:99-113 | `DropOffDone`: with a non-empty inventory and a target without an inventory, nothing changes. Otherwise every line is merged into the target's inventory (`MergeAll`; its total rises by the worker's total, its ids stay unique), the worker's inventory becomes empty with weight 0 (the sum of nothing) and its state idle, its target is kept, and no other object changes |
| Game.DropOffDoneEnds | game.js:99-113 | a drop-off that throws changes no object; otherwise the worker ends with an empty inventory, weight 0 and state idle |
| Game.World.Fire | game.js:99-151 | a pending callback runs once and is no longer pending; every other pending callback stays pending except the worker's latest when a full worker is sent home; a harvest callback does exactly `HarvestDone` and a drop-off callback exactly `DropOffDone`; unless it throws, the owner's weight equals the sum of its inventory and it is no longer harvesting or dropping |
| Game.World.Click | game.js:301-328 | the selection becomes the first object hit, or none on a miss; exactly that object is flagged selected; nothing else changes |
| Game.World.ContextMenu | game.js:271-299 | with a worker selected, it is sent (`moveTo`/`handle`) to the first object hit or to the clicked point, and its latest callback is cleared; with another object selected, that object is deselected; with nothing selected, nothing changes |
| Game.World.KeyDown | game.js:330-337 | Escape clears the selection and every selected flag; any other key changes nothing |

## Left out

- Drawing: every `render` method and the top-level `render` (game.js:20-22, 36-43, 52-55, 162-169, 200-242). They only draw and change no state.
- `gameLoop` (game.js:244-255): wall-clock time, the frame-rate figure and `requestAnimationFrame`.
- Randomness: the ten tree positions that `createTrees` draws with `Math.random()` (game.js:259) are a parameter of `World.CreateTrees` and `World.Init`.
- DOM access, the canvas size and event registration in `init` (game.js:265-268, 271, 301, 330). Only the handler bodies are modelled, as `World.Click`, `World.ContextMenu` and `World.KeyDown`, and the object set-up, as `World.Init`.
- Game.World.UpdateObject: the movement step (square root, division, `moveSpeed`, `deltaTime`, game.js:79-87) is a caller-supplied function `MoveStep`, so nothing is proved about where a step lands.
- Game.World.Fire: timer delays (1000 ms for both callbacks) and the browser's firing order are not modelled. Any pending callback may fire next, which covers every order the browser can choose.
- Game.World.FinishHarvest: the `NaN` `amount` property that the decrement writes onto a non-tree target is not represented, because nothing reads it.
- JavaScript numbers are modelled as unbounded integers (amounts, weights) and reals (positions, sizes); floating-point rounding is not modelled.
