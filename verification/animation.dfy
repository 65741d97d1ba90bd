/** The timed replay of a sketch: the list of delayed paint tasks that
    animating the operation log schedules, one per line segment, and an
    optional restart after the last one. The timers themselves are not part
    of the model; only the delays and what each task paints are. */
module Animation {
  import opened Drawing

  /** One scheduled callback: paint a line after `delay` milliseconds, or
      start the animation over. */
  datatype Task = DrawTask(delay: int, paint: Paint) | RestartTask(delay: int)

  /** The number of strokes at the head of the log. Animating reads the
      `lines` of every operation, so it fails with a TypeError at the first
      fill, after the tasks for the strokes before it were scheduled. */
  function StrokePrefix(ops: seq<Op>): (n: nat)
    ensures n <= |ops|
    ensures forall k :: 0 <= k < n ==> ops[k].Stroke?
    ensures n < |ops| ==> ops[n].Fill?
  {
    if ops == [] || ops[0].Fill? then 0 else 1 + StrokePrefix(ops[1..])
  }

  /** A missing (or zero) loop delay counts as no delay. */
  function LoopDelayOrZero(loopDelay: Option<int>): int
  {
    match loopDelay
    case None => 0
    case Some(d) => d
  }

  /** The delay after k steps of `ms`, accumulated as the animation does. */
  function Delay(ms: int, k: nat): int
  {
    if k == 0 then 0 else Delay(ms, k - 1) + ms
  }

  /** k accumulated steps of `ms` are `ms * k`. */
  lemma {:induction false} DelayIsProduct(ms: int, k: nat)
    ensures Delay(ms, k) == ms * k
  {
    if k > 0 {
      DelayIsProduct(ms, k - 1);
    }
  }

  /** With a positive step, more steps mean a later delay. */
  lemma {:induction false} DelayIncreases(ms: int, i: nat, j: nat)
    requires ms > 0 && i < j
    ensures Delay(ms, i) < Delay(ms, j)
  {
    if i < j - 1 {
      DelayIncreases(ms, i, j - 1);
    }
  }

  /** Paint tasks spaced `ms` apart, the first one after `ms`. */
  function Timeline(paints: seq<Paint>, ms: int): (t: seq<Task>)
    ensures |t| == |paints|
  {
    if paints == [] then []
    else Timeline(ButLast(paints), ms) + [DrawTask(Delay(ms, |paints|), Last(paints))]
  }

  /** The k-th paint of a timeline is scheduled after k + 1 steps. */
  lemma {:induction false} TimelineAt(paints: seq<Paint>, ms: int)
    ensures forall k :: 0 <= k < |paints| ==> Timeline(paints, ms)[k] == DrawTask(Delay(ms, k + 1), paints[k])
  {
    if paints != [] {
      TimelineAt(ButLast(paints), ms);
    }
  }

  lemma TimelineSnoc(paints: seq<Paint>, p: Paint, ms: int)
    ensures Timeline(paints + [p], ms) == Timeline(paints, ms) + [DrawTask(Delay(ms, |paints| + 1), p)]
  {
    assert ButLast(paints + [p]) == paints;
  }

  /** A timeline of paints, then, if `restart` is set, the restart one step
      and `loopDelay` after the last paint. */
  function Tasks(paints: seq<Paint>, ms: int, restart: bool, loopDelay: Option<int>): seq<Task>
  {
    Timeline(paints, ms)
      + if restart then [RestartTask(Delay(ms, |paints| + 1) + LoopDelayOrZero(loopDelay))] else []
  }

  /** The k-th paint is scheduled at `ms * (k + 1)`, and the restart, if any,
      at `ms * (n + 1) + loopDelay` for n paints. */
  lemma TasksShape(paints: seq<Paint>, ms: int, restart: bool, loopDelay: Option<int>)
    ensures var t, n := Tasks(paints, ms, restart, loopDelay), |paints|;
      && |t| == (if restart then n + 1 else n)
      && (forall k :: 0 <= k < n ==> t[k] == DrawTask(ms * (k + 1), paints[k]))
      && (restart ==> t[n] == RestartTask(ms * (n + 1) + LoopDelayOrZero(loopDelay)))
  {
    TimelineAt(paints, ms);
    forall k | 1 <= k <= |paints| + 1
      ensures Delay(ms, k) == ms * k
    {
      DelayIsProduct(ms, k);
    }
  }

  /** With a positive step and a non-negative loop delay, the delays strictly
      increase: tasks fire in the order they were scheduled. */
  lemma TasksIncrease(paints: seq<Paint>, ms: int, restart: bool, loopDelay: Option<int>)
    requires ms > 0 && LoopDelayOrZero(loopDelay) >= 0
    ensures var t := Tasks(paints, ms, restart, loopDelay);
      forall i, j :: 0 <= i < j < |t| ==> t[i].delay < t[j].delay
  {
    var t, n := Tasks(paints, ms, restart, loopDelay), |paints|;
    TimelineAt(paints, ms);
    forall i, j | 0 <= i < j < |t|
      ensures t[i].delay < t[j].delay
    {
      assert t[i].delay == Delay(ms, i + 1);
      if j < n {
        assert t[j].delay == Delay(ms, j + 1);
        DelayIncreases(ms, i + 1, j + 1);
      } else {
        assert t[j].delay == Delay(ms, n + 1) + LoopDelayOrZero(loopDelay);
        DelayIncreases(ms, i + 1, n + 1);
      }
    }
  }

  /** The lines an animation of the log gets to schedule. */
  function ScheduledPaints(ops: seq<Op>): seq<Paint>
  {
    PaintAll(ops[..StrokePrefix(ops)])
  }

  /** The tasks an animation of the log schedules, in the order it schedules
      them; the restart is reached only when no fill interrupted the loop. */
  function Plan(ops: seq<Op>, ms: int, loop: bool, loopDelay: Option<int>): seq<Task>
  {
    Tasks(ScheduledPaints(ops), ms, loop && StrokePrefix(ops) == |ops|, loopDelay)
  }

  /** Scheduling segment j of a stroke adds one task, one step after the
      tasks already scheduled. */
  lemma ScheduleStep(before: seq<Paint>, op: Op, j: nat, ms: int)
    requires op.Stroke? && j < |op.lines|
    ensures Timeline(before + LinePaints(op.lines[..j + 1], op.color, op.size), ms)
      == Timeline(before + LinePaints(op.lines[..j], op.color, op.size), ms)
         + [DrawTask(Delay(ms, |before| + j + 1), SegPaint(op.lines[j], op.color, op.size))]
  {
    var x := SegPaint(op.lines[j], op.color, op.size);
    var done := before + LinePaints(op.lines[..j], op.color, op.size);
    LinePaintsStep(op.lines, j, op.color, op.size);
    assert before + LinePaints(op.lines[..j + 1], op.color, op.size) == done + [x];
    TimelineSnoc(done, x, ms);
  }

  /** After a stroke's segments the tasks cover one more operation. */
  lemma StrokeScheduled(ops: seq<Op>, i: nat)
    requires i < |ops| && ops[i].Stroke?
    ensures PaintAll(ops[..i + 1]) == PaintAll(ops[..i]) + StrokePaints(ops[i])
  {
    assert ButLast(ops[..i + 1]) == ops[..i] && Last(ops[..i + 1]) == ops[i];
  }

  /** A run of strokes ended by a fill or by the end of the log is the
      stroke prefix. */
  lemma PrefixOfStrokes(ops: seq<Op>, i: nat)
    requires i <= |ops|
    requires forall k :: 0 <= k < i ==> ops[k].Stroke?
    requires i < |ops| ==> ops[i].Fill?
    ensures StrokePrefix(ops) == i
  {
  }

  /** The inner loop of the animation: schedules the segments of one stroke
      after the tasks already scheduled for the paints `before`. */
  method ScheduleStroke(op: Op, ms: int, ghost before: seq<Paint>, tasks0: seq<Task>, delay0: int)
    returns (tasks: seq<Task>, delay: int)
    requires op.Stroke?
    requires tasks0 == Timeline(before, ms) && delay0 == Delay(ms, |before| + 1)
    ensures tasks == Timeline(before + StrokePaints(op), ms)
    ensures delay == Delay(ms, |tasks| + 1)
  {
    tasks, delay := tasks0, delay0;
    assert op.lines[..0] == [];
    assert before + LinePaints(op.lines[..0], op.color, op.size) == before;
    var j := 0;
    while j < |op.lines|
      invariant 0 <= j <= |op.lines|
      invariant tasks == Timeline(before + LinePaints(op.lines[..j], op.color, op.size), ms)
      invariant delay == Delay(ms, |tasks| + 1)
    {
      ScheduleStep(before, op, j, ms);
      tasks := tasks + [DrawTask(delay, SegPaint(op.lines[j], op.color, op.size))];
      delay := delay + ms;
      j := j + 1;
    }
    assert op.lines[..j] == op.lines;
  }

  /** One pass of the outer loop: schedules the segments of stroke i after
      those of the strokes before it. */
  method ScheduleNext(ops: seq<Op>, ms: int, i: nat, tasks0: seq<Task>, delay0: int)
    returns (tasks: seq<Task>, delay: int)
    requires i < |ops| && ops[i].Stroke?
    requires tasks0 == Timeline(PaintAll(ops[..i]), ms) && delay0 == Delay(ms, |tasks0| + 1)
    ensures tasks == Timeline(PaintAll(ops[..i + 1]), ms)
    ensures delay == Delay(ms, |tasks| + 1)
  {
    tasks, delay := ScheduleStroke(ops[i], ms, PaintAll(ops[..i]), tasks0, delay0);
    StrokeScheduled(ops, i);
  }

  /** The outer loop of the animation: schedules the segments of the
      strokes at the head of the log, one step apart, up to the first fill. */
  method ScheduleStrokes(ops: seq<Op>, ms: int) returns (tasks: seq<Task>, delay: int, i: nat)
    ensures i == StrokePrefix(ops)
    ensures tasks == Timeline(ScheduledPaints(ops), ms)
    ensures delay == Delay(ms, |ScheduledPaints(ops)| + 1)
  {
    tasks, delay, i := [], ms, 0;
    ghost var n := StrokePrefix(ops);
    while i < |ops|
      invariant i <= n
      invariant tasks == Timeline(PaintAll(ops[..i]), ms)
      invariant delay == Delay(ms, |tasks| + 1)
    {
      if ops[i].Fill? {
        // reading the segments of a fill throws
        break;
      }
      tasks, delay := ScheduleNext(ops, ms, i, tasks, delay);
      i := i + 1;
    }
  }

  /** The animation: schedules the segments of the log one step apart and,
      with `loop`, a restart after the last. A fill in the log throws a
      TypeError; the tasks scheduled before it stay scheduled. */
  method Schedule(ops: seq<Op>, ms: int, loop: bool, loopDelay: Option<int>)
    returns (tasks: seq<Task>, typeError: bool)
    ensures tasks == Plan(ops, ms, loop, loopDelay)
    ensures typeError <==> StrokePrefix(ops) < |ops|
  {
    var delay, i;
    tasks, delay, i := ScheduleStrokes(ops, ms);
    typeError := i < |ops|;
    if typeError {
      assert tasks + [] == tasks;
      return;
    }
    if loop {
      tasks := tasks + [RestartTask(delay + LoopDelayOrZero(loopDelay))];
    } else {
      assert tasks + [] == tasks;
    }
  }

  /** With a positive step and a non-negative loop delay, the scheduled
      delays strictly increase. */
  lemma PlanDelaysIncrease(ops: seq<Op>, ms: int, loop: bool, loopDelay: Option<int>)
    requires ms > 0 && LoopDelayOrZero(loopDelay) >= 0
    ensures var plan := Plan(ops, ms, loop, loopDelay);
      forall i, j :: 0 <= i < j < |plan| ==> plan[i].delay < plan[j].delay
  {
    TasksIncrease(ScheduledPaints(ops), ms, loop && StrokePrefix(ops) == |ops|, loopDelay);
  }

  /** On a log of strokes the animation draws exactly what a redraw draws
      after the background, the k-th segment (counted across strokes in log
      order) at `ms * (k + 1)`, and with `loop` restarts at
      `ms * (n + 1) + loopDelay` for n segments. */
  lemma PlanFollowsReplay(ops: seq<Op>, ms: int, loop: bool, loopDelay: Option<int>)
    requires forall k :: 0 <= k < |ops| ==> ops[k].Stroke?
    ensures var plan, n := Plan(ops, ms, loop, loopDelay), SegmentCount(ops);
      && |Replay(ops)| == n + 1
      && |plan| == (if loop then n + 1 else n)
      && (forall k :: 0 <= k < n ==> plan[k] == DrawTask(ms * (k + 1), Replay(ops)[k + 1]))
      && (loop ==> plan[n] == RestartTask(ms * (n + 1) + LoopDelayOrZero(loopDelay)))
  {
    PrefixOfStrokes(ops, |ops|);
    assert ops[..|ops|] == ops;
    PaintAllOfStrokes(ops);
    TasksShape(PaintAll(ops), ms, loop, loopDelay);
    assert Replay(ops)[1..] == PaintAll(ops);
  }

  /** A fill at the head of the log stops the animation before anything is
      scheduled, even the restart, whatever follows it. */
  lemma PlanStopsAtFill(ops: seq<Op>, ms: int, loop: bool, loopDelay: Option<int>)
    requires ops != [] && ops[0].Fill?
    ensures Plan(ops, ms, loop, loopDelay) == []
  {
    PrefixOfStrokes(ops, 0);
    assert ops[..0] == [];
    assert Timeline([], ms) + [] == [];
  }

  /** The schedule the animation evidently means to build: every paint of
      the replay, fills included, one step apart, then the restart. */
  function FullPlan(ops: seq<Op>, ms: int, loop: bool, loopDelay: Option<int>): seq<Task>
  {
    Tasks(PaintAll(ops), ms, loop, loopDelay)
  }

  /** The full schedule draws every paint command of the replay after the
      background, in order, the k-th at `ms * (k + 1)`, and with `loop`
      restarts one step and the loop delay after the last. */
  lemma FullPlanFollowsReplay(ops: seq<Op>, ms: int, loop: bool, loopDelay: Option<int>)
    ensures var plan, n := FullPlan(ops, ms, loop, loopDelay), |Replay(ops)| - 1;
      && |plan| == (if loop then n + 1 else n)
      && (forall k :: 0 <= k < n ==> plan[k] == DrawTask(ms * (k + 1), Replay(ops)[k + 1]))
      && (loop ==> plan[n] == RestartTask(ms * (n + 1) + LoopDelayOrZero(loopDelay)))
  {
    TasksShape(PaintAll(ops), ms, loop, loopDelay);
    assert Replay(ops)[1..] == PaintAll(ops);
  }

  /** With a positive step and a non-negative loop delay, the full schedule's
      delays strictly increase. */
  lemma FullPlanDelaysIncrease(ops: seq<Op>, ms: int, loop: bool, loopDelay: Option<int>)
    requires ms > 0 && LoopDelayOrZero(loopDelay) >= 0
    ensures var plan := FullPlan(ops, ms, loop, loopDelay);
      forall i, j :: 0 <= i < j < |plan| ==> plan[i].delay < plan[j].delay
  {
    TasksIncrease(PaintAll(ops), ms, loop, loopDelay);
  }

  /** On a log without fills the full schedule is the one the animation
      builds. */
  lemma FullPlanAgreesOnStrokes(ops: seq<Op>, ms: int, loop: bool, loopDelay: Option<int>)
    requires StrokePrefix(ops) == |ops|
    ensures FullPlan(ops, ms, loop, loopDelay) == Plan(ops, ms, loop, loopDelay)
  {
    assert ops[..StrokePrefix(ops)] == ops;
  }
}
