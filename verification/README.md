# Sketchpad drawing history, modelled in Dafny

This project models the drawing-history core of the `Sketchpad` component
(`scripts/sketchpad.js`). The component is an in-browser freehand drawing surface.
It records pen gestures as strokes and flood fills. It keeps an ordered
operation log (`strokes`) and a redo stack (`undoHistory`). It rebuilds the
picture by replaying the log.

- `Drawing` (drawing.dfy) holds the values. A `Point` is a position. A `Seg` is
  one recorded line segment. An `Op` is a committed operation: a
  `Stroke(color, size, lines)` or a `Fill(point, color)`. A `Paint` is one
  command sent to the drawing surface: `Background`, `Line` or `FloodFill`.
  A `Snapshot` is what `toObject` returns.
  `Replay(ops)` is the list of paint commands a redraw sends: the background,
  then the paints of each operation in log order. `Trace` is the list of
  segments that a gesture records from a sequence of samples.
- `Animation` (animation.dfy) holds the delay schedule that `animate` builds.
  `Plan` is the specification and `Schedule` is its two nested loops.
- `Sketching` (sketchpad.dfy) holds the class `Sketchpad`. Its fields are the
  source's state: `strokes`, `undoHistory`, `currentStroke`, `lastPosition`,
  `sketching`, `fillmode`, `animateIds`, the pen (`color`, `penSize`) and the
  canvas size. The drawing surface is the field `surface: seq<Paint>`.
  `Clear` empties it and paints the background. Every other paint call
  appends one command. Each method's `modifies` clause names only the fields
  the source assigns, so every other field is provably unchanged. This also
  means the `ToObject` snapshot cannot change in handlers that do not assign
  `strokes` or `undoHistory`: the mouse-down, move and touch-start handlers
  and `ToggleFill`.
  Whole gestures (`MouseStroke`, `MouseFill`, `TouchStroke`) chain the
  handlers: drawing as the gesture goes, then committing it, keeps the
  surface equal to the replay of the log, and the committed stroke's
  segments are `Trace` of the press position and the samples.

The source tells a stroke from a fill by whether the `lines` field is truthy
(scripts/sketchpad.js:295). An empty array is truthy, so a stroke with no
segments is still a stroke. The model uses the explicit tag `Stroke?`.

Four behaviours of the code are easy to miss, and the model keeps each one:
- An empty `lines` is still a stroke, and replays as no lines at all.
- A touch move paints and records a segment even in fill mode.
- A touch end (and a touch cancel or leave) commits the current stroke even
  in fill mode.
- `animate` never schedules fills. It stops with a TypeError at the first
  fill (see Findings).

Three source statements throw a TypeError. The model does not turn these
into preconditions. Instead it models each one as the error outcome
`typeError` and keeps the state changes made before the throw:
- `drawStroke` given a fill throws before painting anything.
- `redo` of a fill throws after the fill is back on the log.
- `animate` throws at its first fill. The tasks scheduled before that point
  stay scheduled.

## Model

| member | source | states |
|---|---|---|
| `Drawing.LinePaintsAt` | scripts/sketchpad.js:280-285 | Painting a stroke issues one line per segment: line k joins segment k's ends, in the stroke's colour and size. |
| `Drawing.PaintAllAppend` | scripts/sketchpad.js:291-300 | Replaying a log followed by more operations paints the first log, then the extra operations on top, in order. |
| `Drawing.ReplaySplitsAt` | scripts/sketchpad.js:291-300 | A redraw paints the background, then everything before operation i, then exactly operation i's paints, then everything after it. |
| `Drawing.PaintAllOfStrokes` | scripts/sketchpad.js:280-285 | When every operation is a stroke, each paint command is a line, and there is one per segment across the log. |
| `Drawing.ReplayIsOrderSensitive` | scripts/sketchpad.js:291-300 | Replay depends on order: a red stroke then a white fill replays differently from the fill then the stroke. |
| `Drawing.FillChangesReplay` | scripts/sketchpad.js:365-371 | Adding a fill to a log always changes its replay. So a redo that puts a fill back without painting it leaves a stale surface. |
| `Drawing.ChainedExtend` | scripts/sketchpad.js:177-187 | Appending the segment from the pen's last position to the new one keeps every segment starting where the previous one ended. |
| `Drawing.TraceChained` | scripts/sketchpad.js:229-240 | A gesture pressed at p and moved through n samples records n segments. The first starts at p, each ends at its sample, and each starts where the previous one ended. |
| `Animation.StrokePrefix` | scripts/sketchpad.js:319-322 | Gives the index of the first fill in the log (the log length if there is none). Every operation before it is a stroke. This is where animate's loop throws. |
| `Animation.Schedule` | scripts/sketchpad.js:315-334 | The nested loop schedules exactly `Plan`: the k-th segment across strokes in log order at `ms*(k+1)`, then the restart at `ms*(n+1) + (loopDelay or 0)` if `loop` is set. It reports a TypeError exactly when the log holds a fill. |
| `Animation.PlanDelaysIncrease` | scripts/sketchpad.js:317-333 | With `ms > 0` and a non-negative loop delay, the scheduled delays strictly increase. |
| `Animation.PlanFollowsReplay` | scripts/sketchpad.js:315-334 | On a log of strokes, the animation draws exactly the redraw's paints after the background, the k-th at `ms*(k+1)`. With `loop` it restarts at `ms*(n+1)+loopDelay`, where n is the segment count. |
| `Animation.PlanStopsAtFill` | scripts/sketchpad.js:319-322 | For every log whose first operation is a fill, and every `ms`, `loop` and loop delay, the animation schedules nothing, not even the restart. |
| `Animation.FullPlanFollowsReplay` | scripts/sketchpad.js:315-334 | The schedule with fills included draws every paint of the replay after the background, in order, the k-th at `ms*(k+1)`. With `loop` it restarts at `ms*(n+1)+loopDelay`. |
| `Animation.FullPlanDelaysIncrease` | scripts/sketchpad.js:317-333 | With `ms > 0` and a non-negative loop delay, the delays of the schedule with fills included strictly increase. |
| `Animation.FullPlanAgreesOnStrokes` | scripts/sketchpad.js:315-334 | On a log without fills, the schedule with fills included equals the schedule as written. |
| `Sketching.Sketchpad.constructor` | scripts/sketchpad.js:70-91 | Takes the given log, redo stack, pen and size. It starts with no gesture, draw mode and no tasks, and the surface shows the replay of the log. |
| `Sketching.Sketchpad.Draw` | scripts/sketchpad.js:105-107 | Appends one line command with the given ends, colour and size. |
| `Sketching.Sketchpad.DrawBackground` | scripts/sketchpad.js:113-120 | Appends one background command without clearing. |
| `Sketching.Sketchpad.FillAt` | scripts/sketchpad.js:138-144 | Appends one flood fill at the point with the colour. |
| `Sketching.Sketchpad.Clear` | scripts/sketchpad.js:343-346 | Afterwards the surface holds only the background. |
| `Sketching.Sketchpad.DrawStroke` | scripts/sketchpad.js:280-285 | For a stroke, appends its segments in order with the stroke's colour and size. For a fill, throws and paints nothing. |
| `Sketching.Sketchpad.DoFill` | scripts/sketchpad.js:287-289 | Appends the fill's flood fill. |
| `Sketching.Sketchpad.Redraw` | scripts/sketchpad.js:291-300 | Afterwards the surface equals `Replay` of the given log. |
| `Sketching.Sketchpad.Reset` | scripts/sketchpad.js:252-260 | Afterwards the surface equals `Replay(strokes)`. |
| `Sketching.Sketchpad.MouseDown` | scripts/sketchpad.js:150-159 | Always sets `sketching`. Outside fill mode, it moves the pen to the press point and resets the current stroke to the pen's colour and size with no segments. In fill mode it leaves both as they were. |
| `Sketching.Sketchpad.MouseUp` | scripts/sketchpad.js:161-175 | If sketching, commits exactly one op and leaves the redo stack alone: a copy of the current stroke, or in fill mode a fill at the release point (which is also painted). If not sketching, the log is unchanged. Either way it ends with `sketching` false. |
| `Sketching.Sketchpad.MouseMove` | scripts/sketchpad.js:177-187 | Outside fill mode, appends and paints the segment from the last position to the new one and keeps the stroke continuous. In fill mode it appends and paints nothing. In both modes the last position becomes the new one. |
| `Sketching.Sketchpad.TouchStart` | scripts/sketchpad.js:189-200 | When not sketching, resets the stroke as a press does and starts sketching. While sketching, it changes nothing. |
| `Sketching.Sketchpad.TouchEnd` | scripts/sketchpad.js:202-209 | If sketching, commits a copy of the current stroke whatever the mode. Afterwards it is not sketching, and the redo stack is untouched. |
| `Sketching.Sketchpad.TouchCancel` | scripts/sketchpad.js:211-218 | Same effect as TouchEnd. |
| `Sketching.Sketchpad.TouchLeave` | scripts/sketchpad.js:220-227 | Same effect as TouchEnd. |
| `Sketching.Sketchpad.TouchMove` | scripts/sketchpad.js:229-240 | In any mode, appends and paints the segment from the last position to the new one, moves the pen and keeps the stroke continuous. |
| `Sketching.Sketchpad.MouseTrace` | scripts/sketchpad.js:177-187 | Outside fill mode, moving the mouse through samples from a fresh stroke at p records exactly `Trace(p, samples)` and paints exactly its lines in the pen's colour and size, after what was on the surface. |
| `Sketching.Sketchpad.MouseStroke` | scripts/sketchpad.js:150-187 | Outside fill mode, from a surface showing the replay of the log: press at p, move through samples, release. The log gains `Stroke(color, penSize, Trace(p, samples))`, and the surface drawn along the way is exactly the replay of the longer log. |
| `Sketching.Sketchpad.MouseFill` | scripts/sketchpad.js:150-187 | In fill mode, from a surface showing the replay of the log: press, move anywhere, release at r. The log gains `Fill(r, color)`, and the surface is the replay of the longer log. |
| `Sketching.Sketchpad.TouchTrace` | scripts/sketchpad.js:229-240 | In either mode, moving a touch through samples from a fresh stroke at p records exactly `Trace(p, samples)` and paints exactly its lines. |
| `Sketching.Sketchpad.TouchStroke` | scripts/sketchpad.js:189-240 | In either mode, from a surface showing the replay of the log: touch at p, move through samples, lift. The log gains the traced stroke in the current pen, and the surface is exactly the replay of the longer log. |
| `Sketching.Sketchpad.ToObject` | scripts/sketchpad.js:302-309 | The snapshot carries the size, the log and the redo stack as they are. The gesture, pen, fill mode and tasks are not part of it. |
| `Sketching.Reload` | scripts/sketchpad.js:70-91 | A sketchpad configured with a snapshot's size, log and redo stack reports that same snapshot, and its surface shows the replay of the log. |
| `Sketching.Sketchpad.KeyDown` | scripts/sketchpad.js:242-246 | Key code 90 with Ctrl undoes. Any other key changes nothing. |
| `Sketching.Sketchpad.Undo` | scripts/sketchpad.js:357-363 | On a non-empty log, moves exactly the last op to the end of the redo stack and leaves every other entry in place. The surface becomes the replay of the remaining log. On an empty log nothing changes. The combined multiset of log and redo stack is preserved. |
| `Sketching.Sketchpad.Redo` | scripts/sketchpad.js:365-371 | Pops the top of the redo stack onto the log and paints only that op's segments. A fill throws instead of being painted. With an empty redo stack it is a no-op. The multiset of log plus redo stack is preserved. |
| `Sketching.Sketchpad.RedoRepaint` | scripts/sketchpad.js:365-371 | Corrected redo: like Redo, but the surface gains exactly the paints of the op that was put back, a fill included. |
| `Sketching.Sketchpad.UndoRedoRoundTrip` | scripts/sketchpad.js:357-371 | On a log ending in a stroke, `undo(); redo()` restores the log and the redo stack exactly, and the surface equals the replay of the log. |
| `Sketching.Sketchpad.UndoRedoLosesFill` | scripts/sketchpad.js:357-371 | On a log ending in a fill, `undo(); redo()` restores the log, but the surface is the replay without the fill, which differs from the replay of the log. |
| `Sketching.Sketchpad.UndoRedoRepaintRoundTrip` | scripts/sketchpad.js:357-371 | With the corrected redo, `undo(); redo()` restores log, redo stack and replayed surface for a log ending in any op. |
| `Sketching.Sketchpad.New` | scripts/sketchpad.js:348-355 | Empties the log and the redo stack. The surface is a clear followed by only the background. |
| `Sketching.Sketchpad.ClearSketch` | scripts/sketchpad.js:373-377 | Empties the log and the redo stack. It paints the background over the surface without clearing it first. |
| `Sketching.Sketchpad.ToggleFill` | scripts/sketchpad.js:379-381 | Flips fill mode. |
| `Sketching.Sketchpad.Animate` | scripts/sketchpad.js:315-334 | Clears the surface to the background and appends `Plan` of the log to the scheduled tasks. It reports the TypeError exactly when the log holds a fill. |
| `Sketching.Sketchpad.CancelAnimation` | scripts/sketchpad.js:336-341 | Redraws: the surface equals the replay of the log. The scheduled-task list is not emptied. |

## Findings

| source | as written | input that shows it | evidently intended | confidence | as-written member | corrected member |
|---|---|---|---|---|---|---|
| scripts/sketchpad.js:365-371 | `redo` paints the re-done op with `drawStroke`. For a fill this reads `lines` of an object that has none and throws, after the fill is already back on the log. | a log `[fill]`, then `undo()` then `redo()`: the log is `[fill]` but the surface shows only the background | the fill is repainted as a fill, so the surface equals the replay of the log | high, not executed | `Sketching.Sketchpad.UndoRedoLosesFill` | `Sketching.Sketchpad.UndoRedoRepaintRoundTrip` |
| scripts/sketchpad.js:319-322 | `animate` reads `lines` of every op. The first fill throws, so later ops and the restart are never scheduled. | a log `[fill, stroke]`, then `animate(ms, true)`: nothing is scheduled | every paint of the replay is scheduled, fills included, then the restart | high, not executed | `Animation.PlanStopsAtFill` | `Animation.FullPlanFollowsReplay` |

## Left out

- DOM and jQuery access are not modelled: element lookup, cursor styles,
  `readOnly`, and attaching or removing event listeners (in `reset`, the
  handlers, and `toggleFill`'s cursor change). They are UI wiring. Only the
  `_fillmode` flip of `toggleFill` is kept.
- `_cursorPosition` is not modelled. It reads page layout offsets, so every
  handler takes its position as an already computed `Point`.
- Canvas internals are not modelled: context save/restore, line joins and
  caps, composite modes, and the external flood-fill routine. Each paint call
  becomes one appended `Paint` command, so the model records what is painted,
  not the resulting pixels.
- `_erase` is not modelled. Nothing in the component calls it.
- `localStorage`, `toJSON` and the JSON round trip are not modelled: loading
  in the constructor, and saving in `_mouseUp` and `new`. They are foreign
  I/O.
- The timers are not modelled: `setTimeout`, `clearTimeout`, the restart
  callback firing, and the actual revocation in `cancelAnimation`. Only the
  computed list of delayed tasks is kept. `animateIds` keeps the tasks the
  handles stand for.
- Constructor config defaulting and the `bind` loop are not modelled. The
  constructor takes the resolved values as parameters.
- `undo` assigns the popped value to an implicit global `stroke`. That leak
  is not modelled.
- Object identity is not modelled. `toObject` returns the live `strokes` and
  `undoHistory` arrays, and a log passed in through the configuration is
  shared with the caller. The model treats them as values.
- The pen (`color`, `penSize`) is public and callers may reassign it. No
  method of the component does, so the model has no setter.
- Sketching.Sketchpad.constructor: in the source, the initial in-progress
  stroke is `{color: null, size: null, lines: []}` and `_lastPosition` is
  undefined. The model starts them as the empty colour, size 0 and the point
  (0, 0). The difference shows in two ways. A mouse press in fill mode sets
  `_sketching` without resetting the stroke, so a following touch end,
  cancel or leave commits the initial stroke, which the model records with
  its stand-in colour and size. And extending a gesture that never set
  `_lastPosition` throws a TypeError in the source when `_draw` reads its
  `x`, before any segment is pushed. The model instead paints and records a
  segment from (0, 0).
- Numbers are modelled as integers: positions, pen sizes, `ms` and the loop
  delay. In the source they are JavaScript floating-point numbers. With a
  fractional `ms`, the accumulated `delay += ms` is not exactly `ms*(k+1)`,
  which `Animation.DelayIsProduct` states for integers.
