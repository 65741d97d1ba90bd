/** The sketchpad: its operation log, redo stack and in-progress gesture, the
    gesture handlers that record strokes and fills, the history operations,
    and the drawing surface as the list of paint commands issued to it. */
module Sketching {
  import opened Drawing
  import opened Animation

  class Sketchpad {
    // the canvas size a snapshot reports
    var width: int
    var height: int
    // the pen used for new strokes and fills
    var color: string
    var penSize: int

    /** The operation log, in paint order. */
    var strokes: seq<Op>
    /** The redo stack: operations removed by undo, the most recent last. */
    var undoHistory: seq<Op>
    /** The gesture being recorded. */
    var currentStroke: StrokeOp
    var lastPosition: Point
    var sketching: bool
    var fillmode: bool
    /** Every task an animation has scheduled; never emptied. */
    var animateIds: seq<Task>
    /** The paint commands issued to the drawing surface since it was last
        cleared. */
    var surface: seq<Paint>

    /** The in-progress stroke ends where the pen is and each of its segments
        starts where the previous one ended. */
    ghost predicate Continuous()
      reads this
    {
      Chained(currentStroke.lines)
      && (currentStroke.lines != [] ==> Last(currentStroke.lines).end == lastPosition)
    }

    constructor (width: int, height: int, color: string, penSize: int,
                 strokes: seq<Op>, undoHistory: seq<Op>)
      ensures this.width == width && this.height == height
      ensures this.color == color && this.penSize == penSize
      ensures this.strokes == strokes && this.undoHistory == undoHistory
      ensures currentStroke.lines == [] && !sketching && !fillmode
      ensures animateIds == []
      ensures surface == Replay(strokes)
    {
      this.width, this.height := width, height;
      this.color, this.penSize := color, penSize;
      this.strokes, this.undoHistory := strokes, undoHistory;
      currentStroke := Stroke("", 0, []);
      lastPosition := Point(0, 0);
      sketching, fillmode := false, false;
      animateIds := [];
      surface := [];
      new;
      Reset();
    }

    // ----- the drawing surface -----

    /** Paints one line segment. */
    method Draw(start: Point, end: Point, color: string, size: int)
      modifies this`surface
      ensures surface == old(surface) + [Line(start, end, color, size)]
    {
      surface := surface + [Line(start, end, color, size)];
    }

    /** Paints the background colour over the whole surface. */
    method DrawBackground()
      modifies this`surface
      ensures surface == old(surface) + [Background]
    {
      surface := surface + [Background];
    }

    /** Flood-fills the region around a point. */
    method FillAt(point: Point, color: string)
      modifies this`surface
      ensures surface == old(surface) + [FloodFill(point, color)]
    {
      surface := surface + [FloodFill(point, color)];
    }

    /** Wipes the surface and paints the background. */
    method Clear()
      modifies this`surface
      ensures surface == [Background]
    {
      surface := [];
      DrawBackground();
    }

    // ----- replay -----

    /** Paints every segment of a stroke, in order, in the stroke's colour and
        size. Given a fill, reading its segments throws a TypeError before
        anything is painted. */
    method DrawStroke(op: Op) returns (typeError: bool)
      modifies this`surface
      ensures typeError <==> op.Fill?
      ensures surface == old(surface) + if op.Stroke? then StrokePaints(op) else []
    {
      if op.Fill? {
        return true;
      }
      var j := 0;
      while j < |op.lines|
        invariant 0 <= j <= |op.lines|
        invariant surface == old(surface) + LinePaints(op.lines[..j], op.color, op.size)
      {
        LinePaintsStep(op.lines, j, op.color, op.size);
        Draw(op.lines[j].start, op.lines[j].end, op.color, op.size);
        j := j + 1;
      }
      assert op.lines[..j] == op.lines;
      return false;
    }

    /** Paints a fill operation. */
    method DoFill(fill: Op)
      requires fill.Fill?
      modifies this`surface
      ensures surface == old(surface) + OpPaints(fill)
    {
      FillAt(fill.point, fill.color);
    }

    /** Clears the surface and paints the given log in order. */
    method Redraw(ops: seq<Op>)
      modifies this`surface
      ensures surface == Replay(ops)
    {
      Clear();
      var i := 0;
      while i < |ops|
        invariant 0 <= i <= |ops|
        invariant surface == Replay(ops[..i])
      {
        assert ButLast(ops[..i + 1]) == ops[..i] && Last(ops[..i + 1]) == ops[i];
        if ops[i].Stroke? {
          var _ := DrawStroke(ops[i]);
        } else {
          DoFill(ops[i]);
        }
        i := i + 1;
      }
      assert ops[..i] == ops;
    }

    /** Re-initialises the surface from the current log. */
    method Reset()
      modifies this`surface
      ensures surface == Replay(strokes)
    {
      Redraw(strokes);
    }

    // ----- gesture handlers -----

    /** Pressing the mouse starts a gesture; outside fill mode it also starts a
        fresh stroke with the current pen at the press position. */
    method MouseDown(pos: Point)
      modifies this`lastPosition, this`currentStroke, this`sketching
      ensures sketching
      ensures !fillmode ==> lastPosition == pos && currentStroke == Stroke(color, penSize, [])
      ensures !fillmode ==> Continuous()
      ensures fillmode ==> lastPosition == old(lastPosition) && currentStroke == old(currentStroke)
    {
      if !fillmode {
        lastPosition := pos;
        currentStroke := Stroke(color, penSize, []);
      }
      sketching := true;
    }

    /** Releasing (or leaving with) the mouse ends a gesture: it commits a copy
        of the current stroke, or in fill mode fills at the release position
        and commits that fill. The redo stack is left as it is. */
    method MouseUp(pos: Point)
      modifies this`strokes, this`sketching, this`surface
      ensures !sketching
      ensures !old(sketching) ==> strokes == old(strokes) && surface == old(surface)
      ensures old(sketching) && !fillmode ==>
        strokes == old(strokes) + [currentStroke] && surface == old(surface)
      ensures old(sketching) && fillmode ==>
        strokes == old(strokes) + [Fill(pos, color)]
        && surface == old(surface) + [FloodFill(pos, color)]
    {
      if sketching {
        if !fillmode {
          strokes := strokes + [currentStroke];
        } else {
          FillAt(pos, color);
          strokes := strokes + [Fill(pos, color)];
        }
        sketching := false;
      }
    }

    /** A mouse move outside fill mode paints and records the segment from the
        last position to the new one; in every mode the pen moves there. */
    method MouseMove(pos: Point)
      modifies this`lastPosition, this`currentStroke, this`surface
      ensures lastPosition == pos
      ensures !fillmode ==>
        currentStroke == old(currentStroke).(lines := old(currentStroke.lines) + [Seg(old(lastPosition), pos)])
        && surface == old(surface) + [Line(old(lastPosition), pos, color, penSize)]
      ensures !fillmode && old(Continuous()) ==> Continuous()
      ensures fillmode ==> currentStroke == old(currentStroke) && surface == old(surface)
    {
      if !fillmode {
        Draw(lastPosition, pos, color, penSize);
        if Continuous() {
          ChainedExtend(currentStroke.lines, lastPosition, pos);
        }
        currentStroke := currentStroke.(lines := currentStroke.lines + [Seg(lastPosition, pos)]);
      }
      lastPosition := pos;
    }

    /** A touch starts a fresh stroke with the current pen, unless a gesture
        is already under way, in which case nothing changes. */
    method TouchStart(pos: Point)
      modifies this`lastPosition, this`currentStroke, this`sketching
      ensures sketching
      ensures old(sketching) ==> lastPosition == old(lastPosition) && currentStroke == old(currentStroke)
      ensures !old(sketching) ==>
        lastPosition == pos && currentStroke == Stroke(color, penSize, []) && Continuous()
    {
      if sketching {
        return;
      }
      lastPosition := pos;
      currentStroke := Stroke(color, penSize, []);
      sketching := true;
    }

    /** Lifting the finger commits a copy of the current stroke, whatever the
        fill mode; the redo stack is left as it is. */
    method TouchEnd()
      modifies this`strokes, this`sketching
      ensures !sketching
      ensures strokes == if old(sketching) then old(strokes) + [currentStroke] else old(strokes)
    {
      if sketching {
        strokes := strokes + [currentStroke];
        sketching := false;
      }
    }

    /** A cancelled touch commits like a lifted finger. */
    method TouchCancel()
      modifies this`strokes, this`sketching
      ensures !sketching
      ensures strokes == if old(sketching) then old(strokes) + [currentStroke] else old(strokes)
    {
      TouchEnd();
    }

    /** A touch leaving the surface commits like a lifted finger. */
    method TouchLeave()
      modifies this`strokes, this`sketching
      ensures !sketching
      ensures strokes == if old(sketching) then old(strokes) + [currentStroke] else old(strokes)
    {
      TouchEnd();
    }

    /** A touch move always paints and records the segment from the last
        position to the new one, fill mode or not. */
    method TouchMove(pos: Point)
      modifies this`lastPosition, this`currentStroke, this`surface
      ensures lastPosition == pos
      ensures currentStroke == old(currentStroke).(lines := old(currentStroke.lines) + [Seg(old(lastPosition), pos)])
      ensures surface == old(surface) + [Line(old(lastPosition), pos, color, penSize)]
      ensures old(Continuous()) ==> Continuous()
    {
      Draw(lastPosition, pos, color, penSize);
      if Continuous() {
        ChainedExtend(currentStroke.lines, lastPosition, pos);
      }
      currentStroke := currentStroke.(lines := currentStroke.lines + [Seg(lastPosition, pos)]);
      lastPosition := pos;
    }

    // ----- whole gestures -----

    /** One sample of a traced mouse gesture: the next segment is recorded and
        painted. */
    method MouseTraceStep(p: Point, samples: seq<Point>, i: nat, ghost base: seq<Paint>)
      requires !fillmode && i < |samples|
      requires currentStroke == Stroke(color, penSize, Trace(p, samples[..i]))
      requires lastPosition == LastSample(p, samples[..i])
      requires surface == base + LinePaints(Trace(p, samples[..i]), color, penSize)
      modifies this`lastPosition, this`currentStroke, this`surface
      ensures currentStroke == Stroke(color, penSize, Trace(p, samples[..i + 1]))
      ensures lastPosition == LastSample(p, samples[..i + 1])
      ensures surface == base + LinePaints(Trace(p, samples[..i + 1]), color, penSize)
    {
      TraceStep(p, samples, i);
      var done := LinePaints(Trace(p, samples[..i]), color, penSize);
      var x := SegPaint(Seg(lastPosition, samples[i]), color, penSize);
      LinePaintsSnoc(Trace(p, samples[..i]), Seg(lastPosition, samples[i]), color, penSize);
      MouseMove(samples[i]);
      assert (base + done) + [x] == base + (done + [x]);
    }

    /** Moving the mouse through `samples` outside fill mode, from a fresh
        stroke at `p`, records the traced segments and paints each one. */
    method MouseTrace(p: Point, samples: seq<Point>)
      requires !fillmode && lastPosition == p && currentStroke == Stroke(color, penSize, [])
      modifies this`lastPosition, this`currentStroke, this`surface
      ensures currentStroke == Stroke(color, penSize, Trace(p, samples))
      ensures surface == old(surface) + LinePaints(Trace(p, samples), color, penSize)
    {
      assert samples[..0] == [];
      var i := 0;
      while i < |samples|
        invariant i <= |samples|
        invariant currentStroke == Stroke(color, penSize, Trace(p, samples[..i]))
        invariant lastPosition == LastSample(p, samples[..i])
        invariant surface == old(surface) + LinePaints(Trace(p, samples[..i]), color, penSize)
      {
        MouseTraceStep(p, samples, i, old(surface));
        i := i + 1;
      }
      assert samples[..i] == samples;
    }

    /** A whole mouse gesture outside fill mode: pressing at `p`, moving
        through `samples` and releasing commits the traced stroke in the
        current pen, and what was drawn along the way is exactly the replay
        of the longer log. */
    method MouseStroke(p: Point, samples: seq<Point>, r: Point)
      requires !sketching && !fillmode && surface == Replay(strokes)
      modifies this`lastPosition, this`currentStroke, this`sketching, this`strokes, this`surface
      ensures strokes == old(strokes) + [Stroke(color, penSize, Trace(p, samples))]
      ensures surface == Replay(strokes)
      ensures !sketching
    {
      MouseDown(p);
      MouseTrace(p, samples);
      ReplaySnocStroke(strokes, color, penSize, Trace(p, samples));
      MouseUp(r);
    }

    /** A whole mouse gesture in fill mode: moving paints and records nothing,
        and releasing at `r` fills there and commits that fill, so the surface
        is again the replay of the log. */
    method MouseFill(p: Point, samples: seq<Point>, r: Point)
      requires !sketching && fillmode && surface == Replay(strokes)
      modifies this`lastPosition, this`currentStroke, this`sketching, this`strokes, this`surface
      ensures strokes == old(strokes) + [Fill(r, color)]
      ensures surface == Replay(strokes)
      ensures !sketching
    {
      MouseDown(p);
      var i := 0;
      while i < |samples|
        invariant i <= |samples| && sketching
        invariant strokes == old(strokes) && surface == old(surface)
      {
        MouseMove(samples[i]);
        i := i + 1;
      }
      PaintAllSnoc(strokes, Fill(r, color));
      MouseUp(r);
    }

    /** One sample of a traced touch gesture: the next segment is recorded and
        painted. */
    method TouchTraceStep(p: Point, samples: seq<Point>, i: nat, ghost base: seq<Paint>)
      requires i < |samples|
      requires currentStroke == Stroke(color, penSize, Trace(p, samples[..i]))
      requires lastPosition == LastSample(p, samples[..i])
      requires surface == base + LinePaints(Trace(p, samples[..i]), color, penSize)
      modifies this`lastPosition, this`currentStroke, this`surface
      ensures currentStroke == Stroke(color, penSize, Trace(p, samples[..i + 1]))
      ensures lastPosition == LastSample(p, samples[..i + 1])
      ensures surface == base + LinePaints(Trace(p, samples[..i + 1]), color, penSize)
    {
      TraceStep(p, samples, i);
      var done := LinePaints(Trace(p, samples[..i]), color, penSize);
      var x := SegPaint(Seg(lastPosition, samples[i]), color, penSize);
      LinePaintsSnoc(Trace(p, samples[..i]), Seg(lastPosition, samples[i]), color, penSize);
      TouchMove(samples[i]);
      assert (base + done) + [x] == base + (done + [x]);
    }

    /** Moving a touch through `samples`, in either mode, from a fresh stroke
        at `p`, records the traced segments and paints each one. */
    method TouchTrace(p: Point, samples: seq<Point>)
      requires lastPosition == p && currentStroke == Stroke(color, penSize, [])
      modifies this`lastPosition, this`currentStroke, this`surface
      ensures currentStroke == Stroke(color, penSize, Trace(p, samples))
      ensures surface == old(surface) + LinePaints(Trace(p, samples), color, penSize)
    {
      assert samples[..0] == [];
      var i := 0;
      while i < |samples|
        invariant i <= |samples|
        invariant currentStroke == Stroke(color, penSize, Trace(p, samples[..i]))
        invariant lastPosition == LastSample(p, samples[..i])
        invariant surface == old(surface) + LinePaints(Trace(p, samples[..i]), color, penSize)
      {
        TouchTraceStep(p, samples, i, old(surface));
        i := i + 1;
      }
      assert samples[..i] == samples;
    }

    /** A whole touch gesture, in either mode: touching at `p`, moving
        through `samples` and lifting commits the traced stroke in the current
        pen, and what was drawn along the way is exactly the replay of the
        longer log. */
    method TouchStroke(p: Point, samples: seq<Point>)
      requires !sketching && surface == Replay(strokes)
      modifies this`lastPosition, this`currentStroke, this`sketching, this`strokes, this`surface
      ensures strokes == old(strokes) + [Stroke(color, penSize, Trace(p, samples))]
      ensures surface == Replay(strokes)
      ensures !sketching
    {
      TouchStart(p);
      TouchTrace(p, samples);
      ReplaySnocStroke(strokes, color, penSize, Trace(p, samples));
      TouchEnd();
    }

    /** Ctrl+Z (key code 90 with the control key held) undoes. */
    method KeyDown(keyCode: int, ctrlKey: bool)
      modifies this`strokes, this`undoHistory, this`surface
      ensures !(keyCode == 90 && ctrlKey) || old(strokes) == [] ==>
        strokes == old(strokes) && undoHistory == old(undoHistory) && surface == old(surface)
      ensures keyCode == 90 && ctrlKey && old(strokes) != [] ==>
        strokes == ButLast(old(strokes))
        && undoHistory == old(undoHistory) + [Last(old(strokes))]
        && surface == Replay(strokes)
    {
      if keyCode == 90 && ctrlKey {
        Undo();
      }
    }

    // ----- history -----

    /** Moves the last operation of the log onto the redo stack and redraws
        what remains; on an empty log nothing changes. */
    method Undo()
      modifies this`strokes, this`undoHistory, this`surface
      ensures old(strokes) == [] ==>
        strokes == [] && undoHistory == old(undoHistory) && surface == old(surface)
      ensures old(strokes) != [] ==>
        strokes == ButLast(old(strokes))
        && undoHistory == old(undoHistory) + [Last(old(strokes))]
        && surface == Replay(strokes)
      ensures multiset(strokes) + multiset(undoHistory) == old(multiset(strokes) + multiset(undoHistory))
    {
      if strokes != [] {
        var op := Last(strokes);
        strokes := ButLast(strokes);
        Clear();
        undoHistory := undoHistory + [op];
        Redraw(strokes);
        assert old(strokes) == strokes + [op];
      }
    }

    /** Moves the most recently undone operation back onto the log and paints
        it on top of the surface; with an empty redo stack nothing changes.
        The operation is painted through DrawStroke, so a fill is put back on
        the log and then throws a TypeError, leaving the surface unpainted. */
    method Redo() returns (typeError: bool)
      modifies this`strokes, this`undoHistory, this`surface
      ensures old(undoHistory) == [] ==>
        !typeError && strokes == old(strokes) && undoHistory == [] && surface == old(surface)
      ensures old(undoHistory) != [] ==>
        var op := Last(old(undoHistory));
        && undoHistory == ButLast(old(undoHistory))
        && strokes == old(strokes) + [op]
        && (typeError <==> op.Fill?)
        && surface == old(surface) + if op.Stroke? then StrokePaints(op) else []
      ensures multiset(strokes) + multiset(undoHistory) == old(multiset(strokes) + multiset(undoHistory))
    {
      typeError := false;
      if undoHistory != [] {
        var op := Last(undoHistory);
        assert undoHistory == ButLast(undoHistory) + [op];
        undoHistory := ButLast(undoHistory);
        strokes := strokes + [op];
        typeError := DrawStroke(op);
      }
    }

    /** Redo that paints a fill as a fill: the operation put back on the log is
        painted by its own kind, so the surface gains exactly its paints. */
    method RedoRepaint()
      modifies this`strokes, this`undoHistory, this`surface
      ensures old(undoHistory) == [] ==>
        strokes == old(strokes) && undoHistory == [] && surface == old(surface)
      ensures old(undoHistory) != [] ==>
        var op := Last(old(undoHistory));
        && undoHistory == ButLast(old(undoHistory))
        && strokes == old(strokes) + [op]
        && surface == old(surface) + OpPaints(op)
    {
      if undoHistory != [] {
        var op := Last(undoHistory);
        undoHistory := ButLast(undoHistory);
        strokes := strokes + [op];
        if op.Stroke? {
          var _ := DrawStroke(op);
        } else {
          DoFill(op);
        }
      }
    }

    /** Undo then redo of a log ending in a stroke gives back the same log, the
        same redo stack, and the replay of the log on the surface. */
    method UndoRedoRoundTrip()
      requires strokes != [] && Last(strokes).Stroke?
      modifies this`strokes, this`undoHistory, this`surface
      ensures strokes == old(strokes) && undoHistory == old(undoHistory)
      ensures surface == Replay(strokes)
    {
      Undo();
      var _ := Redo();
      assert undoHistory == old(undoHistory);
      RedoRestoresReplay(strokes);
    }

    /** Undo then redo of a log ending in a fill gives back the log, but the
        surface no longer shows its replay: the fill is missing from it. */
    method UndoRedoLosesFill()
      requires strokes != [] && Last(strokes).Fill?
      modifies this`strokes, this`undoHistory, this`surface
      ensures strokes == old(strokes) && undoHistory == old(undoHistory)
      ensures surface == Replay(ButLast(strokes)) != Replay(strokes)
    {
      Undo();
      var _ := Redo();
      assert undoHistory == old(undoHistory);
      assert strokes == ButLast(strokes) + [Last(strokes)];
      FillChangesReplay(ButLast(strokes), Last(strokes).point, Last(strokes).color);
    }

    /** With the repainting redo the round trip holds for a log ending in any
        operation, fills included. */
    method UndoRedoRepaintRoundTrip()
      requires strokes != []
      modifies this`strokes, this`undoHistory, this`surface
      ensures strokes == old(strokes) && undoHistory == old(undoHistory)
      ensures surface == Replay(strokes)
    {
      Undo();
      RedoRepaint();
      assert undoHistory == old(undoHistory);
      RedoRestoresReplay(strokes);
    }

    /** Starts a new document: a cleared surface, no log and no redo stack. */
    method New()
      modifies this`strokes, this`undoHistory, this`surface
      ensures strokes == [] && undoHistory == []
      ensures surface == [Background] == Replay(strokes)
    {
      Clear();
      undoHistory := [];
      strokes := [];
    }

    /** Empties the log and the redo stack and paints the background over
        the surface, without clearing it first. */
    method ClearSketch()
      modifies this`strokes, this`undoHistory, this`surface
      ensures strokes == [] && undoHistory == []
      ensures surface == old(surface) + [Background]
    {
      strokes := [];
      undoHistory := [];
      DrawBackground();
    }

    /** Switches between drawing and filling. */
    method ToggleFill()
      modifies this`fillmode
      ensures fillmode == !old(fillmode)
    {
      fillmode := !fillmode;
    }

    // ----- animation and snapshot -----

    /** Clears the surface and schedules the timed replay of the log; the
        schedule stops with a TypeError at the first fill of the log. */
    method Animate(ms: int, loop: bool, loopDelay: Option<int>) returns (typeError: bool)
      modifies this`surface, this`animateIds
      ensures surface == [Background]
      ensures animateIds == old(animateIds) + Plan(strokes, ms, loop, loopDelay)
      ensures typeError <==> StrokePrefix(strokes) < |strokes|
    {
      Clear();
      var tasks;
      tasks, typeError := Schedule(strokes, ms, loop, loopDelay);
      animateIds := animateIds + tasks;
    }

    /** Stops the animation and redraws the log; the scheduled tasks are kept
        on record. */
    method CancelAnimation()
      modifies this`surface
      ensures surface == Replay(strokes)
    {
      Redraw(strokes);
    }

    /** The document snapshot: size, log and redo stack, without the
        in-progress gesture, the fill mode or the animation. */
    function ToObject(): (snap: Snapshot)
      reads this
      ensures snap.width == width && snap.height == height
      ensures snap.strokes == strokes && snap.undoHistory == undoHistory
    {
      Snapshot(width, height, strokes, undoHistory)
    }
  }

  /** Reloading a snapshot: a sketchpad configured with a snapshot's size, log
      and redo stack reports that same snapshot and shows the replay of its
      log. */
  method Reload(snap: Snapshot, color: string, penSize: int) returns (pad: Sketchpad)
    ensures pad.ToObject() == snap
    ensures pad.surface == Replay(snap.strokes) && !pad.sketching && !pad.fillmode
  {
    pad := new Sketchpad(snap.width, snap.height, color, penSize, snap.strokes, snap.undoHistory);
  }
}
