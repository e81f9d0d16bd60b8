# Square partial-line stage, modelled in Dafny

`SqPartialLineStage.ts` defines an animation of a row of five square nodes.
When a press is handed to `Renderer.handleTap`, it animates one node: the
node's four partial lines sweep in (or out) and its square turns. After each
transition the next press moves on to the next node, in a sweep that runs
forwards along the row and back again. As the file stands, nothing hands it
a press:
- the stage class `SqPartialLineStage` only paints the background;
- its own `onmousedown` handler is empty;
- its `init` is never called;
- nothing constructs a `Renderer`.

This project models everything except the drawing, treating `handleTap` as if
it were wired to the press:

- **Progress arithmetic** (`ScaleUtil.dfy`, `ScaleUtil`): splitting a
  progress value into sub-progress values, the phase of a progress value,
  and the signed per-tick increment.
- **Per-node animation state** (`Animation.dfy`, `State`).
  - `NodeState` is the node's value.
  - `Ticked` and `Started` are the pure effects of `update` and
    `startUpdating`.
  - `class State` performs those effects in place.
  - `Settle` is the pure model of repeated `update` calls on one moving
    node.
- **The node chain** (`Chain.dfy`, `SPLNode`). Links are positions in a
  `seq<Links>` built as the recursive constructor/`addNeighbor` builds
  them. `getNext` follows one link.
- **The sweep controller** (`Sweep.dfy`, `SqPartialLine`). It is a class
  over the five nodes' `State` objects, a cursor and a direction.
  - `Moved` is a reference definition of one cursor move by index
    arithmetic.
  - `Cursor`/`SweepNode` give the closed form of the sweep order.
- **The tick driver** (`Timer.dfy`, `Animator`): a running flag and a count
  of live repeating timers.
- **The press handler** (`Stage.dfy`, `Renderer`).
  - `HandleTap` is `handleTap`'s press.
  - `Tick` is one firing of the timer callback.
  - `RunTimer` is the timer firing until it stops itself.
  - `TapAndSettle` is a whole press.
  - `FirstPress` builds a stage as the source does and presses it once.

All numbers are exact reals, and `Math.floor` is `.Floor`. The source's
constants are used as literals where they enter arithmetic: `scGap` = 0.05,
`scDiv` = 0.51, `lines` = 4. `nodes` = 5 is `ScaleUtil.Nodes`. The callbacks
`cb` become returned booleans or counts that the caller inspects.

Three details of the code, which the model follows:

- The phase `floor(scale / 0.51)` is 0 or 1 only on [0, 1.02). From 1.02
  on it is 2 or more.
  `ScaleUtil.ScaleFactor` states the phase on [0, 1], which is the range a
  node's progress takes (`Animation.Inv`).
- The sweep order is 0, 1, 2, 3, 4, 4, 3, 2, 1, 0, 0, 1, …, not
  0, …, 4, 3, …, 0. At either end `getNext` returns the node itself, so
  the end node is animated a second time, in reverse
  (`Sweep.CursorSchedule`).
- `getNext` takes `next` only when `dir == 1` and `prev` for every other
  value, not only for `dir == -1`. The controller only ever
  holds 1 or -1 (`Sweep.SqPartialLine.Valid`), so this makes no difference
  in use.

## Model

| member | source | states |
|---|---|---|
| ScaleUtil.MaxScale | SqPartialLineStage.ts:46-48 | never negative; zero exactly when `scale` is at or before `i / n`; otherwise the distance past `i / n` |
| ScaleUtil.DivideScale | SqPartialLineStage.ts:50-52 | for a positive count the sub-progress lies in [0, 1]; for a negative count it is always 1 |
| ScaleUtil.DivideScaleIsClamp | SqPartialLineStage.ts:50-52 | for `n > 0` the sub-progress equals the clamped ramp `n * scale - i`; it is 0 exactly up to `i / n` and 1 exactly from `(i + 1) / n` |
| ScaleUtil.ScaleFactor | SqPartialLineStage.ts:54-56 | the phase is non-negative for non-negative progress; on [0, 1] it is 0 exactly below 0.51 and 1 exactly from 0.51 |
| ScaleUtil.MirrorValue | SqPartialLineStage.ts:58-61 | the blended rate is `1 / a` in phase 0 and `1 / b` in phase 1 |
| ScaleUtil.UpdateValue | SqPartialLineStage.ts:63-65 | a zero direction gives a zero increment |
| ScaleUtil.MirrorAtLeastQuarter | SqPartialLineStage.ts:58-61 | with the node's rates (4, 1), non-negative progress never blends below 1/4 |
| ScaleUtil.StepBounds | SqPartialLineStage.ts:63-65 | a node's increment has the sign of `dir` and magnitude at least 0.0125 per unit of `dir`; on [0, 1] with `dir` = ±1 it is at most 0.05 |
| Animation.Started | SqPartialLineStage.ts:114-119 | `startUpdating` fires exactly when the node is at rest; it never changes `prevScale` or `scale`; when it does not fire the node is unchanged |
| Animation.StartedSpec | SqPartialLineStage.ts:114-119 | on a reachable state, starting from rest sets `dir` to +1 from 0 and -1 from 1; reachable states stay reachable and aim at the other settled value |
| Animation.Ticked | SqPartialLineStage.ts:104-112 | when `update`'s completion callback fires, the node is at rest, settled on `prevScale + dir` |
| Animation.TickedPreservesInv | SqPartialLineStage.ts:104-112 | `update` keeps a reachable state reachable; a node at rest is a fixed point; completion happens only while moving and toggles `prevScale` to `1 - prevScale`, the new `scale`; otherwise `dir` and `prevScale` are unchanged |
| Animation.TickedProgress | SqPartialLineStage.ts:104-112 | while moving, the remaining distance lies in [0, 1]; a tick that does not complete shrinks it by between 0.0125 and 0.05 and keeps it non-negative; completion happens only when less than 0.05 remained |
| Animation.Settle | SqPartialLineStage.ts:104-112 | repeated `update` from a moving reachable state ends at rest on `prevScale + dir`, which is `1 - prevScale`, after more than `20 * Remaining` and at most `80 * Remaining + 1` ticks |
| Animation.WholeTransition | SqPartialLineStage.ts:104-119 | a transition started from rest has distance 1 to go, settles on the other value, and takes 21 to 81 ticks |
| Animation.State.constructor | SqPartialLineStage.ts:99-102 | a new `State` has all three fields 0, which is a reachable state |
| Animation.State.Update | SqPartialLineStage.ts:104-112 | the fields after `update` and the completion flag are those `Ticked` gives for the fields before; reachable states stay reachable |
| Animation.State.StartUpdating | SqPartialLineStage.ts:114-119 | the fields after `startUpdating` and the callback flag are those `Started` gives; reachable states stay reachable |
| Chain.LinkBack | SqPartialLineStage.ts:155 | `this.next.prev = this`: only the created node's `prev` changes, to its creator |
| Chain.Build | SqPartialLineStage.ts:148-157 | `new SPLNode(i)` yields nodes `i` up to 4 in order; each has a `next` to the following node except the last; `prev` points back to the creator on every node but the first |
| Chain.RootShape | SqPartialLineStage.ts:189 | the root chain has the five-node shape; `next` exists exactly on nodes 0 to 3 and `prev` exactly on nodes 1 to 4; every `next` node's `prev` is the node that created it |
| Chain.GetNext | SqPartialLineStage.ts:174-184 | `getNext` on a node takes `next` for `dir == 1` and `prev` otherwise; the boundary callback fires exactly when that link is missing, and then the node itself is returned |
| Chain.GetNextInChain | SqPartialLineStage.ts:174-184 | on the chain `getNext` stays inside it; it signals the boundary exactly at the last node going forwards and at node 0 going backwards, and then returns the node itself; otherwise it moves one node in `dir` |
| Sweep.Moved | SqPartialLineStage.ts:197-204 | one cursor move by position: the boundary fires exactly at the last node going forwards and at node 0 going backwards, where the cursor stays and the direction is negated; otherwise it steps one node in the unchanged direction |
| Sweep.CursorSchedule | SqPartialLineStage.ts:197-204 | after `k` completed transitions from node 0 going forwards the cursor is on `SweepNode(k)` (0, 1, 2, 3, 4, 4, 3, 2, 1, 0, repeating); the direction is +1 in the first half of each period and -1 in the second |
| Sweep.CompletionKeepsPattern | SqPartialLineStage.ts:197-204 | the current node's start direction is the sweep direction; after a move the direction is still ±1, and only the node just animated changes its expected settled value |
| Sweep.SqPartialLine.constructor | SqPartialLineStage.ts:187-191 | five distinct, newly allocated node states, all zero; the chain has the root shape; the cursor is on node 0 going forwards |
| Sweep.SqPartialLine.StartUpdating | SqPartialLineStage.ts:206-208 | the current node changes as `Started` says; a moving current node moves in the sweep direction; the controller invariant is kept |
| Sweep.SqPartialLine.Update | SqPartialLineStage.ts:197-204 | the current node changes as `Ticked` says; on completion the cursor, direction and boundary flag become `Moved`'s; otherwise they stay; the controller invariant is kept (nodes settled per the sweep pattern, only the current node moving) |
| Timer.Animator.constructor | SqPartialLineStage.ts:122-125 | a new animator is stopped with no timer |
| Timer.Animator.Start | SqPartialLineStage.ts:127-132 | registers a timer exactly when it was stopped, so at most one runs; afterwards it is running |
| Timer.Animator.Stop | SqPartialLineStage.ts:134-139 | clears the timer exactly when it was running; afterwards it is stopped with no timer |
| Stage.Renderer.constructor | SqPartialLineStage.ts:211-214 | a new renderer owns a newly allocated controller, animator and node states; all nodes are zero, the timer is stopped, and the cursor is on node 0 going forwards |
| Stage.Renderer.HandleTap | SqPartialLineStage.ts:220-222 | the timer starts exactly when the current node was at rest; afterwards exactly one timer runs and the current node moves in the sweep direction |
| Stage.Renderer.Tick | SqPartialLineStage.ts:222-228 | one timer firing ticks the current node as `Ticked` says and requests one redraw; on completion it also moves the cursor as `Moved` says, stops the timer and requests a second redraw |
| Stage.Renderer.RunTimer | SqPartialLineStage.ts:220-230 | the timer fires until the current node settles on its target, more than `20 * Remaining` and at most `80 * Remaining + 1` times; it then stops with no timer left; the cursor moves as `Moved` says; redraws are ticks + 1 |
| Stage.FirstPress | SqPartialLineStage.ts:211-230 | a newly built stage pressed once: node 0 settles open after 21 to 81 ticks, the cursor moves to node 1 going forwards, and the timer is stopped |
| Stage.Renderer.TapAndSettle | SqPartialLineStage.ts:220-230 | a press on a stopped stage animates the current node from its settled value to the other one in 21 to 81 ticks, moves the cursor as `Moved` says, and leaves the timer stopped |

## Left out

- Wiring of the press: nothing in the file reaches `Renderer.handleTap`, because `SqPartialLineStage.handleTap`'s `onmousedown` handler is empty and nothing constructs a `Renderer`. `Stage.Renderer` models `handleTap` as if the press were wired to it.
- Drawing (`DrawingUtil`, `SPLNode.draw`, `SqPartialLine.draw`, `Renderer.render`), the canvas, the DOM, `SqPartialLineStage` and the window size `w`, `h`. These only paint; the model counts each redraw request instead.
- Timing: the 50 ms `setInterval` is modelled as a count of live timers, and the timer firing as repeated calls of `Stage.Renderer.Tick`. The interval handle is not modelled.
- Floating point: numbers are exact reals, so the tick bounds hold in exact arithmetic, not in IEEE-754 doubles.
- ScaleUtil.MaxScale, ScaleUtil.DivideScale: `n == 0` is excluded by `requires` (JavaScript would give Infinity or NaN). ScaleUtil.MirrorValue and ScaleUtil.UpdateValue exclude `a == 0` or `b == 0` in the same way. Every call in the source passes non-zero constants.
- `SPLNode.update` and `SPLNode.startUpdating` only forward to the node's `State`. They are folded into `Sweep.SqPartialLine.Update` and `Sweep.SqPartialLine.StartUpdating`, which call `State` directly.
- Node identity: a node is its position in the chain. `SqPartialLine.curr` is an index, not a reference, and each node's `State` is `states[i]`.
- Stage.Renderer.RunTimer: states the tick count by the same bounds as `Animation.Settle`, not as equal to `Settle`'s count.
- Stage.Renderer.HandleTap: the `cb` passed to `handleTap` is counted as redraws (in `Tick` and `RunTimer`), not called.
