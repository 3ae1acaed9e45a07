# MiniBallsToBigView, modelled in Dafny

The model covers the animation logic of the Android widget `MiniBallsToBigView`.

The widget owns a chain of five nodes, one per palette colour. Each node carries a progress record (`State`) holding:
- `scale`, the progress itself;
- `dir`, the direction of travel, 0 when idle;
- `prevScale`, where the last completed cycle ended.

A cursor (`MiniBallsToBig`) points at the current node and holds a direction of travel along the chain.

The `Renderer` ties the pieces together:
- A tap arms the current node, and if that node was idle it starts the driver (`Animator`).
- Every frame drawn while the driver runs ticks the current node by one gap.
- The tick that completes the node's cycle moves the cursor to the neighbouring node, or reverses the direction at an end of the chain, and stops the driver.

The modules follow the source's classes:

- `Easing` models the pure helpers `inverse`, `maxScale` and `divideScale`. They split one progress value into staggered segments.
- `ScaleState` models the progress record as a value (`Progress`) and its two operations as functions:
  - `Tick` models `update`;
  - `Arm` models `startUdpating`.

  It also holds the mutable `State` class, whose methods are proved equal to those functions. Lemmas follow one whole cycle tick by tick.
- `NodeChain` models `MTBNode` as a class:
  - its recursive constructor builds the rest of the chain through `AddNeighbor`;
  - `GetNext` picks the neighbour in a direction along the built chain.
- `ChainCursor` models the cursor:
  - as a value (`Cursor`, with `Step` and `Start`);
  - as the mutable `MiniBallsToBig` class, whose methods are proved against those functions over the real linked nodes.
- `Rendering` models `Animator` and `Renderer` as classes. Their value counterpart is `Widget`, with `Tapped` and `Rendered`. On top of these sit proofs that:
  - one tap runs exactly one node's cycle;
  - `2 * N` taps take a new view once out along the chain and back again.

Modelling choices:

- **Exact progress.** The source advances a float `scale` by `scGap = 0.02 / parts = 1/200` per tick. The model counts those gaps exactly, so one whole unit is `Unit = 200` ticks. `prevScale` is kept in whole units; it is only ever 0 or 1.
- **Callbacks as results.** The source passes callbacks into `update`, `startUdpating` and `getNext`. In the model each such call returns what its callback would receive, or whether it would be invoked, and the caller acts on that result.
- **Redraw requests.** `view.invalidate()` and `view.postInvalidate()` are counted in a ghost counter, `Animator.redraws`.

## Model

Every source cited is `MiniBallsToBigView.kt`, given by its path from the repository root.

| member | source | states |
|---|---|---|
| Easing.Inverse | miniballstobigview/src/main/java/com/example/miniballstobigview/MiniBallsToBigView.kt:30 | the reciprocal: `r * n == 1` for every non-zero `n` |
| Easing.MaxScale | miniballstobigview/src/main/java/com/example/miniballstobigview/MiniBallsToBigView.kt:31 | how far `x` lies past `i/n`, clipped at 0: never negative, at least `x - i/n`, and equal to either 0 or `x - i/n` |
| Easing.DivideScale | miniballstobigview/src/main/java/com/example/miniballstobigview/MiniBallsToBigView.kt:32 | for `n > 0`, segment `i` of `n`: stays in [0, 1], is 0 up to `i/n`, 1 from `(i+1)/n`, and ramps linearly as `(x - i/n) * n` in between |
| Easing.DivideScaleMonotone | miniballstobigview/src/main/java/com/example/miniballstobigview/MiniBallsToBigView.kt:32 | a segment never goes backwards while the overall progress grows |
| Easing.DrawPhases | miniballstobigview/src/main/java/com/example/miniballstobigview/MiniBallsToBigView.kt:39-42 | at `parts = 4`, while the value `sf` that the drawing code cuts into segments lies in quarter `k`, the four segments `sf1 .. sf4` are 1 before `k`, 0 after it, and segment `k` ramps across its quarter |
| Easing.Staggered | miniballstobigview/src/main/java/com/example/miniballstobigview/MiniBallsToBigView.kt:30-42 | while the overall progress lies in slice `k`, every earlier segment is complete (1) and every later one has not started (0) |
| ScaleState.Tick | miniballstobigview/src/main/java/com/example/miniballstobigview/MiniBallsToBigView.kt:85-93 | an idle record at rest is a fixed point and fires nothing. A tick that does not overshoot moves `scale` by exactly `dir` and fires nothing. The callback fires exactly when the move overshoots one unit from `prevScale`; the record is then clamped to `prevScale + dir`, goes idle, and the callback receives the new `prevScale`. The reachable-state invariant is preserved |
| ScaleState.Arm | miniballstobigview/src/main/java/com/example/miniballstobigview/MiniBallsToBigView.kt:95-100 | the start callback fires if and only if the record was idle. Otherwise nothing changes. Arming keeps `scale` and `prevScale`, heads up (+1) from rest on 0 and down (-1) from rest on 1, and preserves the invariant |
| ScaleState.RestingTicks | miniballstobigview/src/main/java/com/example/miniballstobigview/MiniBallsToBigView.kt:85-93 | any number of ticks on a record at rest change nothing and fire nothing |
| ScaleState.RunningTick | miniballstobigview/src/main/java/com/example/miniballstobigview/MiniBallsToBigView.kt:85-93 | a tick inside a running cycle moves one gap towards the far boundary, fires nothing and keeps the invariant |
| ScaleState.RunningTicks | miniballstobigview/src/main/java/com/example/miniballstobigview/MiniBallsToBigView.kt:85-93 | while a cycle has ticks to go, `k` ticks move `scale` by `k * dir` and fire no callback |
| ScaleState.FinishingTicks | miniballstobigview/src/main/java/com/example/miniballstobigview/MiniBallsToBigView.kt:85-93 | the remaining ticks of a running cycle leave the record at rest on the far boundary `1 - prevScale`, having fired the callback exactly once with that value |
| ScaleState.FullCycle | miniballstobigview/src/main/java/com/example/miniballstobigview/MiniBallsToBigView.kt:85-93 | an armed cycle lasts exactly `Unit + 1` ticks. After `Unit` ticks it sits on the far boundary, still running and silent; the next tick clamps it there, makes it idle and fires once |
| ScaleState.State.constructor | miniballstobigview/src/main/java/com/example/miniballstobigview/MiniBallsToBigView.kt:83 | a new record has every field 0 |
| ScaleState.State.Update | miniballstobigview/src/main/java/com/example/miniballstobigview/MiniBallsToBigView.kt:85-93 | the new fields and the callback argument are exactly `Tick` of the old fields |
| ScaleState.State.StartUpdating | miniballstobigview/src/main/java/com/example/miniballstobigview/MiniBallsToBigView.kt:95-100 | the new fields, and whether the callback fires, are exactly `Arm` of the old fields |
| NodeChain.MTBNode.constructor | miniballstobigview/src/main/java/com/example/miniballstobigview/MiniBallsToBigView.kt:131-145 | node `i` comes back followed by nodes `i+1 .. N-1` with consecutive indices. Each `next` link points to the following node and each `prev` link points back; the first has no `prev` and the last no `next`. Every node owns a distinct, freshly allocated idle record |
| NodeChain.MTBNode.AddNeighbor | miniballstobigview/src/main/java/com/example/miniballstobigview/MiniBallsToBigView.kt:140-145 | below the last colour, it creates the successor chain and links it both ways; on the last colour it adds nothing. The node's own record is untouched |
| NodeChain.MTBNode.Update | miniballstobigview/src/main/java/com/example/miniballstobigview/MiniBallsToBigView.kt:151-153 | the node's record takes one `Tick` |
| NodeChain.MTBNode.StartUpdating | miniballstobigview/src/main/java/com/example/miniballstobigview/MiniBallsToBigView.kt:155-157 | the node's record is `Arm`ed |
| NodeChain.MTBNode.GetNext | miniballstobigview/src/main/java/com/example/miniballstobigview/MiniBallsToBigView.kt:159-169 | on the chain as built from node 0, node `i` moving with `dir == 1` gets node `i + 1` and no callback, except on the last node, which gets itself with the callback fired. With any other `dir` it gets node `i - 1`, except on node 0, which gets itself with the callback fired |
| ChainCursor.GetNextAlongChain | miniballstobigview/src/main/java/com/example/miniballstobigview/MiniBallsToBigView.kt:159-169 | on the chain as built, `getNext` from node `k` yields node `Neighbor(k, dir)` with no callback; at the end of the chain in that direction it yields node `k` itself and fires the callback |
| ChainCursor.Neighbor | miniballstobigview/src/main/java/com/example/miniballstobigview/MiniBallsToBigView.kt:159-169 | the neighbouring index is `i + 1` for `dir == 1` and `i - 1` otherwise, always in range. There is none exactly at the last node going forward and at node 0 going backward |
| ChainCursor.Step | miniballstobigview/src/main/java/com/example/miniballstobigview/MiniBallsToBigView.kt:181-188 | only the current node's record changes, by one `Tick`, and the completion argument is passed on. The cursor moves only on completion: to the neighbour in the direction of travel, or, at an end, it stays and the direction flips. A well-formed cursor stays well-formed: index in range, direction ±1, every record reachable |
| ChainCursor.Start | miniballstobigview/src/main/java/com/example/miniballstobigview/MiniBallsToBigView.kt:190-192 | only the current node's record changes, by `Arm`. Cursor and direction are unchanged. Well-formedness is preserved |
| ChainCursor.MiniBallsToBig.constructor | miniballstobigview/src/main/java/com/example/miniballstobigview/MiniBallsToBigView.kt:172-175 | the cursor starts on node 0 of a five-node chain whose nodes and records are all freshly allocated, moving forward, with every record idle at 0 |
| ChainCursor.MiniBallsToBig.Update | miniballstobigview/src/main/java/com/example/miniballstobigview/MiniBallsToBigView.kt:181-188 | on the real linked nodes, the records, the current node, the direction and the callback argument change exactly as `Step` says, and the chain stays intact |
| ChainCursor.MiniBallsToBig.Advance | miniballstobigview/src/main/java/com/example/miniballstobigview/MiniBallsToBigView.kt:182-185 | the completion callback moves `curr` to node `Neighbor(i, dir)` keeping `dir`. At an end, `curr` stays and `dir` is negated |
| ChainCursor.MiniBallsToBig.StartUpdating | miniballstobigview/src/main/java/com/example/miniballstobigview/MiniBallsToBigView.kt:190-192 | the current node's record and the start callback change exactly as `Start` says |
| Rendering.Animator.constructor | miniballstobigview/src/main/java/com/example/miniballstobigview/MiniBallsToBigView.kt:103 | a new driver is stopped and has requested no redraw |
| Rendering.Animator.Start | miniballstobigview/src/main/java/com/example/miniballstobigview/MiniBallsToBigView.kt:117-122 | afterwards the driver is running. A redraw is requested only if it was stopped |
| Rendering.Animator.Stop | miniballstobigview/src/main/java/com/example/miniballstobigview/MiniBallsToBigView.kt:124-128 | afterwards the driver is stopped, with no redraw requested |
| Rendering.Animator.FrameDone | miniballstobigview/src/main/java/com/example/miniballstobigview/MiniBallsToBigView.kt:108-113 | after the frame body, exactly one redraw is requested and the running flag is kept |
| Rendering.Tapped | miniballstobigview/src/main/java/com/example/miniballstobigview/MiniBallsToBigView.kt:211-215 | the cursor is `Start`ed. The driver is switched on only when the current node was idle. A tap during a cycle changes nothing. The widget invariant is preserved: every node but the current one idle, and the driver running exactly while the current node's cycle runs |
| Rendering.Rendered | miniballstobigview/src/main/java/com/example/miniballstobigview/MiniBallsToBigView.kt:201-209 | a stopped driver makes a frame change nothing. A running one ticks the cursor by `Step` and stops exactly when that tick completes a cycle. The widget invariant is preserved |
| Rendering.Frames | miniballstobigview/src/main/java/com/example/miniballstobigview/MiniBallsToBigView.kt:201-209 | any number of frames keeps the widget invariant |
| Rendering.Completed | miniballstobigview/src/main/java/com/example/miniballstobigview/MiniBallsToBigView.kt:181-188 | where one whole cycle leaves the cursor: the current node at rest on its far boundary, every other node unchanged, and the cursor at most one node away, still well-formed |
| Rendering.CompletingStep | miniballstobigview/src/main/java/com/example/miniballstobigview/MiniBallsToBigView.kt:181-188 | the overshooting tick fires the callback and moves the cursor exactly as `Completed` says |
| Rendering.CompletedAfterTap | miniballstobigview/src/main/java/com/example/miniballstobigview/MiniBallsToBigView.kt:190-192 | arming the current node does not change where its cycle will leave the cursor |
| Rendering.StoppedFrames | miniballstobigview/src/main/java/com/example/miniballstobigview/MiniBallsToBigView.kt:105-115 | with the driver stopped, any number of frames change nothing |
| Rendering.RunningFrame | miniballstobigview/src/main/java/com/example/miniballstobigview/MiniBallsToBigView.kt:201-209 | a frame in the middle of a cycle advances the current node by one gap and the driver keeps running |
| Rendering.RunningFrames | miniballstobigview/src/main/java/com/example/miniballstobigview/MiniBallsToBigView.kt:201-209 | while the cycle has ticks to go, `k` frames advance the current node by `k` gaps and keep the driver running |
| Rendering.FinishingFrames | miniballstobigview/src/main/java/com/example/miniballstobigview/MiniBallsToBigView.kt:201-209 | the remaining frames of a cycle end in `Completed` with the driver stopped |
| Rendering.TapRunsOneCycle | miniballstobigview/src/main/java/com/example/miniballstobigview/MiniBallsToBigView.kt:201-215 | one tap on a stopped widget runs exactly one node's cycle. The driver keeps running for `Unit` frames; the next frame completes the cycle and stops it; further frames change nothing |
| Rendering.Taps | miniballstobigview/src/main/java/com/example/miniballstobigview/MiniBallsToBigView.kt:211-215 | after any number of tap-and-run-to-completion rounds, the widget is stopped and still satisfies the invariant |
| Rendering.TourStep | miniballstobigview/src/main/java/com/example/miniballstobigview/MiniBallsToBigView.kt:181-188 | each completed cycle takes one point of the round trip to the next. Going out, nodes rise one by one and the cursor moves forward. At the last node the direction flips with the cursor staying put. Coming back, nodes fall one by one and the cursor moves backward; at node 0 the direction flips again |
| Rendering.NewViewStarts | miniballstobigview/src/main/java/com/example/miniballstobigview/MiniBallsToBigView.kt:172-175 | a new view is the start of the round trip and satisfies the widget invariant |
| Rendering.Played | miniballstobigview/src/main/java/com/example/miniballstobigview/MiniBallsToBigView.kt:201-215 | rounds of play as they happen: each round is a `handleTap` followed by `k` calls to `render`; the invariant holds after any number of rounds |
| Rendering.PlayRound | miniballstobigview/src/main/java/com/example/miniballstobigview/MiniBallsToBigView.kt:201-215 | a tap on a stopped widget followed by more than `Unit` frames completes exactly one node's cycle and leaves the driver stopped |
| Rendering.PlayedIsTaps | miniballstobigview/src/main/java/com/example/miniballstobigview/MiniBallsToBigView.kt:201-215 | when each tap is followed by at least `Unit + 1` frames, `n` rounds of real taps and frames end exactly where `Taps(w, n)` says |
| Rendering.TapsTour | miniballstobigview/src/main/java/com/example/miniballstobigview/MiniBallsToBigView.kt:172-193 | the first `2 * N` taps on a new view follow the round trip exactly |
| Rendering.TapSequence | miniballstobigview/src/main/java/com/example/miniballstobigview/MiniBallsToBigView.kt:172-193 | the first tap raises node 0 and moves on to node 1. After `N` taps every node is up and the direction has flipped on the last node. The next tap lowers that node and moves back one. After `2 * N` taps the view is exactly as new |
| Rendering.PlayedTour | miniballstobigview/src/main/java/com/example/miniballstobigview/MiniBallsToBigView.kt:172-215 | with real taps and frames on a new view, each round followed by at least `Unit + 1` frames, the first `2 * N` rounds follow the round trip, and after the last one the view is exactly as new |
| Rendering.Renderer.constructor | miniballstobigview/src/main/java/com/example/miniballstobigview/MiniBallsToBigView.kt:195-199 | a new renderer is a new view, with a stopped driver and a fresh cursor |
| Rendering.Renderer.Render | miniballstobigview/src/main/java/com/example/miniballstobigview/MiniBallsToBigView.kt:201-209 | on the real objects, driver and cursor change exactly as `Rendered` says. A redraw is requested exactly when the driver was running. The invariants of both objects are kept |
| Rendering.Renderer.HandleTap | miniballstobigview/src/main/java/com/example/miniballstobigview/MiniBallsToBigView.kt:211-215 | on the real objects, driver and cursor change exactly as `Tapped` says. A redraw is requested exactly when the tap started the driver |

## Left out

- Drawing is not modelled: `drawMiniBallsToBig`, `drawMBTBNode`, `sinify`, the `draw` methods, the canvas calls in `render`, colour parsing and `Paint`. This is graphics output with no effect on the animation state. Of the palette only its size, `N = 5`, is used.
- View and activity plumbing is not modelled: `onDraw`, `onTouchEvent` (an `ACTION_DOWN` calls `handleTap`), `MiniBallsToBigView.create` and the activity. These are framework glue. All calls happen on the UI thread, so no interleaving is modelled.
- `Thread.sleep(delay)` and the `invalidate`/`postInvalidate` requests become one step of the ghost counter `Animator.redraws`. The clock, the host view and the exception the source catches and ignores are outside the model.
- Floating point is not modelled. `scale` counts exact gaps of 1/200, so a cycle completes on its 201st tick. In single precision, the rounding error that 201 additions of `0.005f` accumulate stays several hundred times smaller than one gap. So the float code crosses one unit on the same tick; this is an argument about IEEE arithmetic, not part of the proof.
- `Easing` works on reals: `Float` rounding is not modelled.
- Easing.Inverse: requires `n != 0`. In the source, `0.inverse()` gives IEEE infinity; the source only ever calls it with `parts = 4`.
- NodeChain.MTBNode.constructor: requires `0 <= i < N`. The source accepts any `i` but only ever builds from 0. A node outside that range would index the palette out of bounds when drawn.
- ChainCursor.MiniBallsToBig.constructor: the source's constructor parameter `i` is never used and is dropped.
- Rendering.Renderer.constructor: creates the cursor before the driver, the reverse of the source's field order. Neither constructor has an effect the other can observe.
- Callbacks are not modelled as closures. Each callback's effect is performed by the caller, right after the call that would have invoked it. In `update`, `startUdpating` and `getNext` the source invokes the callback as the last step of the call, so the order of effects is the same. `animate` is the exception: it invokes its callback before the pause and the redraw request. `Renderer.Render` keeps that order, since it calls `Animator.FrameDone` after the inlined frame body.
- `Animator.animate` is not a separate method. Its only caller is `render`, so `Renderer.Render` runs its body inline, and `Animator.FrameDone` stands for the pause and the redraw request that follow.
- Kotlin `data class` equality, hashing and `copy` are never used by the widget and are not modelled.
