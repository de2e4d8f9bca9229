/** The timed step animation of `animatePositionTo`, as a specification:
    what the widget shows after each timer tick. */
module Animation {
  import opened Layout

  /** A drag offset. The slider drags along the vertical axis only. */
  datatype Point = Point(x: int, y: int)

  const DefaultPosition: Point := Point(0, 0)

  /** The drag bounds: no horizontal movement, vertical offset in [0, SlideTrigger]. */
  predicate InBounds(p: Point) {
    p.x == 0 && 0 <= p.y <= SlideTrigger
  }

  datatype Direction = Forward | Back

  /** What one tick leaves rendered: the drag offset and the `disabled` flag. */
  datatype Frame = Frame(position: Point, disabled: bool)

  /** The counter a run starts from. */
  function StartTimer(endPosition: int, direction: Direction): int {
    if direction == Forward then 0 else endPosition
  }

  /** One tick of the counter. */
  function Tick(timer: int, direction: Direction): int {
    if direction == Forward then timer + 1 else timer - 1
  }

  /** How far the counter is from its stop condition: the run measure. */
  function Distance(timer: int, endPosition: int, direction: Direction): int {
    if direction == Forward then endPosition - timer else timer
  }

  /** After a tick, whether the run goes on (and shows the counter) or finishes. */
  predicate KeepsRunning(timer: int, endPosition: int, direction: Direction) {
    (direction == Forward && timer < endPosition) || (direction == Back && timer > 0)
  }

  /** The frames of a run whose counter is now `timer`: one per tick, the last
      one the frame of the completed run. `disabled` is the flag before the tick. */
  function Frames(timer: int, endPosition: int, direction: Direction, isClick: bool, disabled: bool): (fs: seq<Frame>)
    requires 0 <= timer <= endPosition
    ensures |fs| > 0 && fs[|fs| - 1] == Frame(DefaultPosition, !isClick && disabled)
    decreases Distance(timer, endPosition, direction)
  {
    var t := Tick(timer, direction);
    if KeepsRunning(t, endPosition, direction) then
      var d := disabled || isClick;
      [Frame(Point(0, t), d)] + Frames(t, endPosition, direction, isClick, d)
    else
      [Frame(DefaultPosition, !isClick && disabled)]
  }

  // ---------------------------------------------------------------------

  /** Every tick moves the counter exactly one step towards its stop
      condition, and a run stops at the latest when the distance runs out. */
  lemma TickApproachesGoal(timer: int, endPosition: int, direction: Direction)
    ensures Distance(Tick(timer, direction), endPosition, direction) == Distance(timer, endPosition, direction) - 1
    ensures KeepsRunning(Tick(timer, direction), endPosition, direction)
            <==> Distance(Tick(timer, direction), endPosition, direction) > 0
  {
  }

  /** One tick of a run: the frame it shows, followed by the rest of the run. */
  lemma FramesStep(timer: int, endPosition: int, direction: Direction, isClick: bool, disabled: bool)
    requires 0 <= timer <= endPosition
    ensures var t := Tick(timer, direction);
      Frames(timer, endPosition, direction, isClick, disabled)
      == if KeepsRunning(t, endPosition, direction)
         then [Frame(Point(0, t), disabled || isClick)] + Frames(t, endPosition, direction, isClick, disabled || isClick)
         else [Frame(DefaultPosition, !isClick && disabled)]
  {
  }

  /** Forward from `timer`: the offset rises by one per tick up to
      `endPosition - 1`, then the run resets to the default position. */
  lemma {:induction false} ForwardFrames(timer: int, endPosition: int, isClick: bool, disabled: bool)
    requires 0 <= timer <= endPosition
    ensures var fs := Frames(timer, endPosition, Forward, isClick, disabled);
      && |fs| == (if timer < endPosition then endPosition - timer else 1)
      && (forall j :: 0 <= j < |fs| - 1 ==> fs[j] == Frame(Point(0, timer + 1 + j), disabled || isClick))
    decreases endPosition - timer
  {
    var t := timer + 1;
    if t < endPosition {
      ForwardFrames(t, endPosition, isClick, disabled || isClick);
      var fs := Frames(timer, endPosition, Forward, isClick, disabled);
      var rest := Frames(t, endPosition, Forward, isClick, disabled || isClick);
      assert fs == [Frame(Point(0, t), disabled || isClick)] + rest;
      forall j | 1 <= j < |fs| - 1
        ensures fs[j] == Frame(Point(0, timer + 1 + j), disabled || isClick)
      {
        assert fs[j] == rest[j - 1];
      }
    }
  }

  /** Back from `timer`: the offset falls by one per tick down to 1, then the
      run resets to the default position. */
  lemma {:induction false} BackFrames(timer: int, endPosition: int, isClick: bool, disabled: bool)
    requires 0 <= timer <= endPosition
    ensures var fs := Frames(timer, endPosition, Back, isClick, disabled);
      && |fs| == (if timer > 1 then timer else 1)
      && (forall j :: 0 <= j < |fs| - 1 ==> fs[j] == Frame(Point(0, timer - 1 - j), disabled || isClick))
    decreases timer
  {
    var t := timer - 1;
    if t > 0 {
      BackFrames(t, endPosition, isClick, disabled || isClick);
      var fs := Frames(timer, endPosition, Back, isClick, disabled);
      var rest := Frames(t, endPosition, Back, isClick, disabled || isClick);
      assert fs == [Frame(Point(0, t), disabled || isClick)] + rest;
      forall j | 1 <= j < |fs| - 1
        ensures fs[j] == Frame(Point(0, timer - 1 - j), disabled || isClick)
      {
        assert fs[j] == rest[j - 1];
      }
    }
  }

  /** Every frame of a run within the drag bounds is itself within them. */
  lemma {:induction false} FramesInBounds(timer: int, endPosition: int, direction: Direction, isClick: bool, disabled: bool)
    requires 0 <= timer <= endPosition <= SlideTrigger
    ensures forall f :: f in Frames(timer, endPosition, direction, isClick, disabled) ==> InBounds(f.position)
    decreases Distance(timer, endPosition, direction)
  {
    var t := Tick(timer, direction);
    if KeepsRunning(t, endPosition, direction) {
      FramesInBounds(t, endPosition, direction, isClick, disabled || isClick);
    }
  }

  /** The forward run of a click: offsets 1, 2, ..., SlideTrigger - 1, strictly
      increasing, with input disabled, then the default position with input
      enabled again. */
  lemma ClickRun(disabled: bool)
    ensures var fs := Frames(StartTimer(SlideTrigger, Forward), SlideTrigger, Forward, true, disabled);
      && |fs| == SlideTrigger
      && (forall j :: 0 <= j < SlideTrigger - 1 ==> fs[j].position == Point(0, j + 1) && fs[j].disabled)
      && (forall i, j :: 0 <= i < j < SlideTrigger - 1 ==> fs[i].position.y < fs[j].position.y)
      && fs[SlideTrigger - 1] == Frame(DefaultPosition, false)
  {
    ForwardFrames(0, SlideTrigger, true, disabled);
  }

  /** The snap-back run after a release short of the trigger at `lastY`:
      offsets lastY - 1, ..., 1, strictly decreasing, the flag untouched,
      then the default position. */
  lemma SnapBackRun(lastY: int, disabled: bool)
    requires 0 <= lastY < SlideTrigger
    ensures var fs := Frames(StartTimer(lastY, Back), lastY, Back, false, disabled);
      && |fs| == (if lastY > 1 then lastY else 1)
      && (forall j :: 0 <= j < |fs| - 1 ==> fs[j] == Frame(Point(0, lastY - 1 - j), disabled))
      && (forall i, j :: 0 <= i < j < |fs| - 1 ==> fs[j].position.y < fs[i].position.y)
      && (forall j :: 0 <= j < |fs| - 1 ==> 0 < fs[j].position.y < lastY)
      && fs[|fs| - 1] == Frame(DefaultPosition, disabled)
  {
    BackFrames(lastY, lastY, false, disabled);
  }
}
