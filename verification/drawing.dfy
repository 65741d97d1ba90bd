/** The values of a sketch: points, segments, committed operations, the paint
    commands the drawing surface receives, and the replay of an operation log
    as the sequence of paint commands that redrawing it issues. */
module Drawing {

  datatype Option<T> = None | Some(value: T)

  /** A surface-local position. */
  datatype Point = Point(x: int, y: int)

  /** One drawn line between two consecutive samples of one gesture. */
  datatype Seg = Seg(start: Point, end: Point)

  /** A committed operation of the log: a freehand stroke or a flood fill.
      The source tells them apart by whether the object has a `lines` field,
      so a stroke with no segments is still a stroke. */
  datatype Op =
    | Stroke(color: string, size: int, lines: seq<Seg>)
    | Fill(point: Point, color: string)

  /** The in-progress gesture is always a stroke. */
  type StrokeOp = op: Op | op.Stroke? witness Stroke("", 0, [])

  /** One command issued to the drawing surface. */
  datatype Paint =
    | Background
    | Line(start: Point, end: Point, color: string, size: int)
    | FloodFill(at: Point, color: string)

  /** The state that a document snapshot records. */
  datatype Snapshot = Snapshot(width: int, height: int, strokes: seq<Op>, undoHistory: seq<Op>)

  function Last<T>(s: seq<T>): T
    requires s != []
  {
    s[|s| - 1]
  }

  function ButLast<T>(s: seq<T>): seq<T>
    requires s != []
  {
    s[..|s| - 1]
  }

  /** Concatenation regrouped. */
  lemma ConcatRegroup<T>(x: seq<T>, y: seq<T>, z: seq<T>)
    ensures (x + y) + z == x + (y + z)
  {
  }

  /** The line painted for one segment of a stroke. */
  function SegPaint(s: Seg, color: string, size: int): Paint
  {
    Line(s.start, s.end, color, size)
  }

  /** The lines painted for a run of segments drawn with one colour and size,
      segment after segment. */
  function LinePaints(lines: seq<Seg>, color: string, size: int): (ps: seq<Paint>)
    ensures |ps| == |lines|
  {
    if lines == [] then []
    else LinePaints(ButLast(lines), color, size) + [SegPaint(Last(lines), color, size)]
  }

  /** Drawing one more segment paints one more line after the others. */
  lemma LinePaintsStep(lines: seq<Seg>, j: nat, color: string, size: int)
    requires j < |lines|
    ensures LinePaints(lines[..j + 1], color, size)
      == LinePaints(lines[..j], color, size) + [SegPaint(lines[j], color, size)]
  {
    assert ButLast(lines[..j + 1]) == lines[..j];
  }

  /** Appending a segment to a run paints one more line after the others. */
  lemma LinePaintsSnoc(lines: seq<Seg>, seg: Seg, color: string, size: int)
    ensures LinePaints(lines + [seg], color, size)
      == LinePaints(lines, color, size) + [SegPaint(seg, color, size)]
  {
    assert ButLast(lines + [seg]) == lines;
  }

  /** Line k painted for a run of segments is segment k, with the run's
      colour and size. */
  lemma {:induction false} LinePaintsAt(lines: seq<Seg>, color: string, size: int)
    ensures forall k :: 0 <= k < |lines| ==>
      LinePaints(lines, color, size)[k] == Line(lines[k].start, lines[k].end, color, size)
  {
    if lines != [] {
      LinePaintsAt(ButLast(lines), color, size);
    }
  }

  /** What painting a stroke issues: its segments with the stroke's own
      colour and size. */
  function StrokePaints(op: Op): seq<Paint>
    requires op.Stroke?
  {
    LinePaints(op.lines, op.color, op.size)
  }

  /** What painting one operation of the log issues. */
  function OpPaints(op: Op): seq<Paint>
  {
    match op
    case Stroke(_, _, _) => StrokePaints(op)
    case Fill(p, c) => [FloodFill(p, c)]
  }

  /** The paint commands of a log, operation after operation. */
  function PaintAll(ops: seq<Op>): seq<Paint>
  {
    if ops == [] then [] else PaintAll(ButLast(ops)) + OpPaints(Last(ops))
  }

  /** Redrawing a log from scratch: the surface is cleared to the background,
      then every operation is painted in log order. */
  function Replay(ops: seq<Op>): seq<Paint>
  {
    [Background] + PaintAll(ops)
  }

  /** Painting a log extended by one operation paints the log and then that
      operation. */
  lemma PaintAllSnoc(ops: seq<Op>, op: Op)
    ensures PaintAll(ops + [op]) == PaintAll(ops) + OpPaints(op)
  {
    assert ButLast(ops + [op]) == ops;
  }

  /** Painting a log extended by more operations paints the first log and then
      the extension on top of it. */
  lemma {:induction false} PaintAllAppend(a: seq<Op>, b: seq<Op>)
    ensures PaintAll(a + b) == PaintAll(a) + PaintAll(b)
  {
    if b == [] {
      assert a + b == a;
    } else {
      var front, op := ButLast(b), Last(b);
      assert b == front + [op];
      assert a + b == (a + front) + [op];
      PaintAllAppend(a, front);
      PaintAllSnoc(a + front, op);
      PaintAllSnoc(front, op);
      ConcatRegroup(PaintAll(a), PaintAll(front), OpPaints(op));
    }
  }

  /** Committing a stroke to a log extends its replay by the stroke's lines. */
  lemma ReplaySnocStroke(ops: seq<Op>, color: string, size: int, lines: seq<Seg>)
    ensures Replay(ops + [Stroke(color, size, lines)]) == Replay(ops) + LinePaints(lines, color, size)
  {
    PaintAllSnoc(ops, Stroke(color, size, lines));
  }

  /** Replay paints the operations strictly in log order: everything before
      operation i, then exactly operation i's paints, then everything after. */
  lemma ReplaySplitsAt(ops: seq<Op>, i: nat)
    requires i < |ops|
    ensures Replay(ops) == Replay(ops[..i]) + OpPaints(ops[i]) + PaintAll(ops[i + 1..])
  {
    var front, back := ops[..i + 1], ops[i + 1..];
    assert ops == front + back;
    assert front == ops[..i] + [ops[i]];
    PaintAllAppend(front, back);
    PaintAllSnoc(ops[..i], ops[i]);
    var pb, po, pr := PaintAll(ops[..i]), OpPaints(ops[i]), PaintAll(back);
    ConcatRegroup(pb, po, pr);
    ConcatRegroup([Background], pb + po, pr);
    ConcatRegroup([Background], pb, po);
  }

  /** Putting back the last operation of a log on top of the replay of the rest
      gives the replay of the whole log. */
  lemma RedoRestoresReplay(ops: seq<Op>)
    requires ops != []
    ensures Replay(ButLast(ops)) + OpPaints(Last(ops)) == Replay(ops)
  {
  }

  /** Adding a fill to a log always changes its replay: a redo that puts a
      fill back on the log without painting it leaves the surface showing
      the replay of the shorter log. */
  lemma {:induction false} FillChangesReplay(ops: seq<Op>, p: Point, c: string)
    ensures Replay(ops) != Replay(ops + [Fill(p, c)])
  {
    var ext := ops + [Fill(p, c)];
    assert ButLast(ext) == ops && Last(ext) == Fill(p, c);
    assert |Replay(ext)| == |Replay(ops)| + 1;
  }

  /** When every operation is a stroke, every paint command of the log is a
      line, and there is one per segment. */
  lemma {:induction false} PaintAllOfStrokes(ops: seq<Op>)
    requires forall k :: 0 <= k < |ops| ==> ops[k].Stroke?
    ensures |PaintAll(ops)| == SegmentCount(ops)
    ensures forall k :: 0 <= k < |PaintAll(ops)| ==> PaintAll(ops)[k].Line?
  {
    if ops != [] {
      PaintAllOfStrokes(ButLast(ops));
      var op := Last(ops);
      LinePaintsAt(op.lines, op.color, op.size);
    }
  }

  /** The number of segments of a log of strokes. */
  function SegmentCount(ops: seq<Op>): nat
    requires forall k :: 0 <= k < |ops| ==> ops[k].Stroke?
  {
    if ops == [] then 0 else SegmentCount(ButLast(ops)) + |Last(ops).lines|
  }

  /** Order matters: a red stroke then a white fill inside it replays
      differently from the fill then the stroke. */
  lemma ReplayIsOrderSensitive()
    ensures
      var a := Stroke("#ff0000", 4, [Seg(Point(0, 0), Point(10, 10))]);
      var b := Fill(Point(5, 5), "#ffffff");
      Replay([a, b]) != Replay([b, a])
  {
    var a := Stroke("#ff0000", 4, [Seg(Point(0, 0), Point(10, 10))]);
    var b := Fill(Point(5, 5), "#ffffff");
    assert [a, b][..1] == [a];
    assert [b, a][..1] == [b];
    assert PaintAll([a]) == [SegPaint(a.lines[0], a.color, a.size)];
    assert PaintAll([b]) == [FloodFill(b.point, b.color)];
    assert Replay([a, b])[1] != Replay([b, a])[1];
  }

  // ----- gesture continuity -----

  /** Every segment starts where the previous one ended. */
  predicate Chained(lines: seq<Seg>)
  {
    forall i :: 0 < i < |lines| ==> lines[i].start == lines[i - 1].end
  }

  /** Appending a segment that starts at the end of the last one keeps a
      chain a chain. */
  lemma ChainedExtend(lines: seq<Seg>, from: Point, to: Point)
    requires Chained(lines)
    requires lines != [] ==> Last(lines).end == from
    ensures Chained(lines + [Seg(from, to)])
  {
    var ext := lines + [Seg(from, to)];
    forall i | 0 < i < |ext|
      ensures ext[i].start == ext[i - 1].end
    {
      if i < |lines| {
        assert ext[i] == lines[i] && ext[i - 1] == lines[i - 1];
      }
    }
  }

  /** The position last sampled by a gesture that began at `from`. */
  function LastSample(from: Point, samples: seq<Point>): Point
  {
    if samples == [] then from else Last(samples)
  }

  /** The segments a gesture records when it begins at `from` and then
      samples the given positions one after another. */
  function Trace(from: Point, samples: seq<Point>): seq<Seg>
  {
    if samples == [] then []
    else Trace(from, ButLast(samples)) + [Seg(LastSample(from, ButLast(samples)), Last(samples))]
  }

  /** Sampling one more position records one more segment, from the
      previous sample (or the press position) to the new one. */
  lemma TraceStep(from: Point, samples: seq<Point>, i: nat)
    requires i < |samples|
    ensures Trace(from, samples[..i + 1])
      == Trace(from, samples[..i]) + [Seg(LastSample(from, samples[..i]), samples[i])]
    ensures LastSample(from, samples[..i + 1]) == samples[i]
  {
    assert ButLast(samples[..i + 1]) == samples[..i];
  }

  /** A traced gesture has one segment per sample, each ending at its sample,
      starts at the press position, and is chained. */
  lemma {:induction false} TraceChained(from: Point, samples: seq<Point>)
    ensures |Trace(from, samples)| == |samples|
    ensures forall i :: 0 <= i < |samples| ==> Trace(from, samples)[i].end == samples[i]
    ensures samples != [] ==> Trace(from, samples)[0].start == from
    ensures Chained(Trace(from, samples))
  {
    if samples != [] {
      var front := ButLast(samples);
      TraceChained(from, front);
      ChainedExtend(Trace(from, front), LastSample(from, front), Last(samples));
      var t := Trace(from, samples);
      forall i | 0 <= i < |samples|
        ensures t[i].end == samples[i]
      {
        if i < |front| {
          assert t[i] == Trace(from, front)[i];
        }
      }
    }
  }
}
