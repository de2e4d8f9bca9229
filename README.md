# react-stack-slider: a verified model of the stack slider

`react-stack-slider` is a React carousel. It draws a queue of slides as a
receding stack: each layer is smaller than the one in front of it, drawn
beneath it, and the front slide can be dragged down. If the drag is released
at the trigger distance (80 px), the queue advances: the front slide moves to
the back. If it is released anywhere before that, the slide animates back to
rest. Clicking the front slide (without dragging) runs the same forward
motion as a timed animation and then advances the queue.

This project models the widget in `src/index.tsx` in four Dafny modules:

- `Layout` (`layout.dfy`): the pure formulas `getScale`, `getZIndex` and
  `getOpacity`, over exact reals, plus `StyleAt`, the per-index choice the
  render loop makes. JavaScript's `**` is `Pow` over natural exponents.
  `ScalePow` extends it to exponent −1 (`1 / 0.85`), which the front slide's
  `depth - 1` needs.
- `SlideQueue` (`queue.dfy`): the queue as a sequence and the operations the
  handlers perform on it: padding with a copy of the front slide, trimming
  (`slice(0, length - 1)`), and the successor `map` the handlers use to
  advance. `RotateLeft` and `RotateRight` are independent reference
  definitions of advancing and its inverse.
- `Animation` (`animation.dfy`): the step animation of `animatePositionTo` as
  a specification. `Frames` is the list of frames the run leaves rendered,
  one per timer tick, each a drag offset plus the `disabled` flag.
- `StackSlider` (`slider.dfy`): the component as a class `Slider` whose fields
  are its state (`images`, `position`, `disabled`, `isDragging`). It has one
  method per handler: `OnStart`, `OnDrag`, `OnStop` and `HandleClick`.
  `AnimatePositionTo` is a `while` loop with one iteration per tick, and
  `OnTick` is the interval callback. `DragGesture` composes a whole drag the
  way the draggable reports it. `ThreeSlides` walks through a three-slide
  stack.

React semantics. A handler sees the state of the last render, and when one
handler calls a setter twice, the second value wins. Each method therefore
reads `images` once on entry, as the handler's closure does; where the handler
calls a setter twice, the later assignment is the one left standing. Two
consequences follow from this:

- `onStop` calls `setImages` twice (lines 61 and 70). The 80 px branch keeps the value
  computed from the padded snapshot.
- A click appends a copy of the front slide (line 82). The animation's final
  `setImages` (line 108) is computed from the queue captured before the click.
  So after a click the queue is exactly the advance of the pre-click queue,
  and the copy does not survive.

The timer animation runs to completion inside the handler that starts it:
nothing else happens between its ticks.

Some behaviours of the source worth stating:

- The drag bounds are vertical only, `[0, 80]`.
- The rotation commits only when the release offset equals the trigger
  exactly (`lastY === slideTrigger`). Within the bounds, that means "reached
  the trigger".
- There is no retreat operation; `RotateRight` exists only as the inverse
  against which advancing is checked.
- An empty queue is not guarded. The methods that read `images[0]` require a
  non-empty queue.

In `onStop`, the `map` runs over the trimmed array but tests
`index === images.length - 1` against the untrimmed length, so its wrap-around
branch is never taken. The result is still right, because the padding copy
supplies the old front slide (`SuccessorMapTrimmed`, `PadThenDropIsRotate`).

## Model

| member | source | states |
|---|---|---|
| `Layout.PowPositive` | src/index.tsx:18 | every power of a positive base is positive |
| `Layout.ScalePowStep` | src/index.tsx:18 | each step of `0.85 ** e` multiplies by the scale factor, including the step from −1 to 0 |
| `Layout.ScalePowPositive` | src/index.tsx:18 | `0.85 ** e` is positive for every exponent from −1 upward |
| `Layout.ScalePowShrinks` | src/index.tsx:18 | `0.85 ** e` is strictly smaller than `0.85 ** (e - 1)` |
| `Layout.ScalePowStrictlyDecreasing` | src/index.tsx:10-18 | a larger exponent gives a strictly smaller power of 0.85 |
| `Layout.ScaleAtRest` | src/index.tsx:15-20 | at offset 0 the layer at depth d has scale `0.85 ** d` |
| `Layout.ScaleAtTrigger` | src/index.tsx:15-20 | at the trigger, the layer at depth d has scale `0.85 ** (d - 1)`, the resting scale of the layer one step nearer the front |
| `Layout.ScaleInterpolates` | src/index.tsx:15-20 | during a drag a layer's scale is the linear interpolation, by `offset / 80`, between its resting scale and the front neighbour's |
| `Layout.ScaleGrowsWithPosition` | src/index.tsx:15-20 | a larger offset gives every layer a strictly larger scale |
| `Layout.RestScaleDecreasesWithDepth` | src/index.tsx:15-20 | at rest, a deeper layer is strictly smaller |
| `Layout.LayersNeverCross` | src/index.tsx:15-20 | anywhere within the drag bounds, each layer stays strictly smaller than the layer in front of it |
| `Layout.ZIndexStacksFrontOnTop` | src/index.tsx:22-24 | the front slide gets z-index `total`; a smaller depth gives a larger z-index, and conversely; depths in `[0, total]` get z-indices in `[0, total]` |
| `Layout.OpacitiesSumToOne` | src/index.tsx:34-37 | for every offset, the fade-out and fade-in opacities sum to 1 |
| `Layout.OpacityEndpoints` | src/index.tsx:34-37 | the fade-out is 1 at offset 0 and 0 at the trigger; the fade-in is 0 and 1 |
| `Layout.OpacityMonotone` | src/index.tsx:34-37 | the fade-out strictly decreases and the fade-in strictly increases; within the bounds both stay in [0, 1] |
| `Layout.StyleAt` | src/index.tsx:131-143 | only the front slide (index 0) and the slide at index `imagesArray.length` can be less than fully opaque |
| `Layout.CrossFade` | src/index.tsx:136-142 | on the padded queue, the front slide and the copy at index `imagesArray.length` cross-fade (their opacities sum to 1); every slide between them is opaque |
| `Layout.CommitIsSeamless` | src/index.tsx:131-142 | the frame at the trigger on the padded queue matches the resting frame on the advanced queue in scale and opacity, slide for slide; every z-index shifts by exactly one; the front slide is fully transparent |
| `SlideQueue.RotateLeft` | src/index.tsx:105-107 | advancing keeps the length and the multiset of slides |
| `SlideQueue.RotateRight` | src/index.tsx:105-107 | the inverse of advancing keeps the length and the multiset of slides |
| `SlideQueue.RotateLeftAt` | src/index.tsx:105-107 | after an advance, position i holds the slide that was at `(i + 1) mod n` |
| `SlideQueue.RotateRightAt` | src/index.tsx:105-107 | after a retreat, the slide that was at i is at `(i + 1) mod n` |
| `SlideQueue.RotationsAreInverse` | src/index.tsx:105-107 | advancing and retreating undo each other, in both orders |
| `SlideQueue.SuccessorMap` | src/index.tsx:67-69 | the mapped array has as many entries as were mapped |
| `SlideQueue.SuccessorMapWhole` | src/index.tsx:105-107 | the click path's `map` over the whole queue is exactly the advance |
| `SlideQueue.SuccessorMapTrimmed` | src/index.tsx:64-69 | the release path's `map` over the trimmed queue never takes its wrap-around branch; it equals the queue without its front |
| `SlideQueue.PadThenDropIsRotate` | src/index.tsx:64-69 | the padded queue without its front is the advance of the pre-drag queue |
| `SlideQueue.TrimUndoesPad` | src/index.tsx:51-61 | trimming undoes padding; padding adds one slide, keeps the original as a prefix, and puts the old front last |
| `SlideQueue.PaddedIsPad` | src/index.tsx:55-61 | a queue whose last slide is a copy of its front is exactly the padding of its trimmed self |
| `SlideQueue.PadIsPadded` | src/index.tsx:55 | padding leaves a queue whose last slide is a copy of its front |
| `Animation.Frames` | src/index.tsx:93-113 | every run ends with exactly one frame at the default position, with `disabled` cleared after a click and untouched otherwise |
| `Animation.TickApproachesGoal` | src/index.tsx:95-99 | each tick moves the counter exactly one step nearer its stop condition, and the run goes on exactly while that distance is positive |
| `Animation.ForwardFrames` | src/index.tsx:93-103 | a forward run from counter t shows offsets t+1, t+2, …, up to `end - 1`, then resets; it has `end - t` frames |
| `Animation.BackFrames` | src/index.tsx:93-103 | a backward run from counter t shows offsets t-1, t-2, …, down to 1, then resets |
| `Animation.FramesInBounds` | src/index.tsx:93-103 | every frame of a run within the drag bounds is within them |
| `Animation.ClickRun` | src/index.tsx:84-109 | a click's run shows offsets 1 … 79 in strictly increasing order with input disabled, then the default position with input enabled: 80 frames |
| `Animation.SnapBackRun` | src/index.tsx:72-111 | a release at `lastY` below the trigger shows offsets `lastY-1` … 1 in strictly decreasing order, all between 0 and `lastY`, with `disabled` untouched, then the default position |
| `StackSlider.Slider.constructor` | src/index.tsx:41-47 | the initial state: the given queue, offset at the origin, both flags clear |
| `StackSlider.Slider.OnStart` | src/index.tsx:51-57 | the queue grows by one, its prefix is the old queue, and its last slide is the old front |
| `StackSlider.Slider.OnDrag` | src/index.tsx:75-78 | the offset follows the pointer and `isDragging` is set |
| `StackSlider.Slider.OnStop` | src/index.tsx:59-73 | at the trigger, the queue loses its front and the offset resets with no animation frames. Otherwise the queue is trimmed and the snap-back run plays. On a padded queue, the result is the advance of the pre-drag queue or that queue unchanged, one slide shorter than the padded queue. The offset ends at the origin and `disabled` is unchanged |
| `StackSlider.Slider.HandleClick` | src/index.tsx:80-86 | after a drag, a click only clears `isDragging`. Otherwise the click's run plays; the queue is then the advance of the pre-click queue, of the same length, with the offset at the origin and input enabled |
| `StackSlider.Slider.AnimatePositionTo` | src/index.tsx:88-114 | the loop shows exactly the frames of `Frames` and terminates. It ends at the default position, with `disabled` cleared for a click, and for a click with the queue set to the successor map of the captured queue |
| `StackSlider.Slider.OnTick` | src/index.tsx:94-113 | one callback moves the counter, reports whether the run goes on, and leaves the frame that `Frames` predicts, with the rest of the run still to come |
| `StackSlider.DragGesture` | src/index.tsx:51-78 | a whole drag (start, moves, release at the last move) keeps the queue length and leaves `disabled` unchanged. It advances the queue exactly when released at the trigger, with no animation frames; otherwise it restores the queue and plays the snap-back run from the release offset |

## Left out

- `getOffset` (src/index.tsx:26-32): it is built on `Math.sqrt`, which has no
  exact counterpart over Dafny's reals, so the vertical translation of each
  layer is not modelled.
- IEEE floating point: the formulas are stated over exact reals, and drag
  offsets are integers.
- The JSX, the CSS class names and the `transform` strings (src/index.tsx:124-173).
  Only the per-index scale, z-index and opacity values are kept (`StyleAt`).
- `react-draggable`: its bounds enforcement and the `data` it reports are
  preconditions (`InBounds`, `0 <= lastY <= 80`). Its event order (start,
  moves, release) is assumed in `DragGesture`. `e.preventDefault()` is not
  modelled.
- The `activeDrags` counter: nothing reads it.
- The 10 ms `setInterval` timing and overlapping timers (the source has no
  guard against overlap). One animation runs at a time, to completion, with
  no events in between. The `timer` handle and `clearInterval` are the loop's
  `running` flag.
- The `disabled` flag only selects a CSS class that blocks pointer input;
  the handlers themselves never read it, and neither does the model.
- example/src/App.js: demo presentation only.
