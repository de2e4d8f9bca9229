/** The `Slider` component: its state and one method per event handler.

    Every handler reads the state as it was at the last render (its closure
    snapshot) and the last setter call for a field wins. The methods below
    therefore take a snapshot of `images` on entry and assign each field its
    final value. The timer-driven animation runs to completion inside the
    handler that starts it, one loop iteration per timer tick. */
module StackSlider {
  import opened Layout
  import opened SlideQueue
  import opened Animation

  class Slider<T> {
    /** The slide queue, front first. */
    var images: seq<T>
    /** The drag offset of the front slide. */
    var position: Point
    /** Set while a click's forward animation runs; blocks pointer input. */
    var disabled: bool
    /** Set by a drag; a later click only clears it. */
    var isDragging: bool

    /** The offset never leaves the drag bounds. */
    ghost predicate Valid()
      reads this
    {
      InBounds(position)
    }

    constructor (imagesArray: seq<T>)
      ensures Valid()
      ensures images == imagesArray && position == DefaultPosition
      ensures !disabled && !isDragging
    {
      images := imagesArray;
      position := DefaultPosition;
      disabled := false;
      isDragging := false;
    }

    /** Drag start: the front slide is copied to the back, so that it can
        fade in there while the original is dragged away. */
    method OnStart()
      requires Valid()
      requires |images| > 0
      modifies this`images
      ensures Valid()
      ensures |images| == |old(images)| + 1
      ensures images[..|old(images)|] == old(images)
      ensures images[|old(images)|] == old(images)[0]
      ensures images == Pad(old(images)) && IsPadded(images)
    {
      var snapshot := images;
      images := snapshot + [snapshot[0]];
      TrimUndoesPad(snapshot);
    }

    /** Drag move: the offset follows the pointer (the draggable keeps it in bounds). */
    method OnDrag(x: int, y: int)
      requires InBounds(Point(x, y))
      modifies this`isDragging, this`position
      ensures Valid()
      ensures isDragging && position == Point(x, y)
    {
      isDragging := true;
      position := Point(x, y);
    }

    /** Drag end at offset `lastY`: the copy is trimmed; at the trigger the
        queue advances and the offset resets, anywhere else the offset
        animates back to rest. On a padded queue (the one `OnStart` left)
        the result is the advance, or the pre-drag queue, of the same length. */
    method OnStop(lastY: int) returns (frames: seq<Frame>)
      requires Valid()
      requires 0 <= lastY <= SlideTrigger
      modifies this`images, this`position, this`disabled
      ensures Valid()
      ensures position == DefaultPosition && disabled == old(disabled)
      ensures lastY == SlideTrigger ==>
                frames == [] && images == (if |old(images)| == 0 then [] else old(images)[1..])
      ensures lastY != SlideTrigger ==>
                frames == Frames(StartTimer(lastY, Back), lastY, Back, false, old(disabled))
                && images == Trim(old(images))
      ensures IsPadded(old(images)) ==>
                images == (if lastY == SlideTrigger then RotateLeft(Trim(old(images))) else Trim(old(images)))
                && |images| == |old(images)| - 1
    {
      var snapshot := images;
      images := Trim(snapshot);
      if lastY == SlideTrigger {
        images := SuccessorMap(snapshot, |Trim(snapshot)|);
        position := DefaultPosition;
        frames := [];
        if |snapshot| > 0 {
          SuccessorMapTrimmed(snapshot);
        }
      } else {
        frames := AnimatePositionTo(lastY, Back, false, snapshot);
      }
      if IsPadded(snapshot) {
        PaddedIsPad(snapshot);
        PadThenDropIsRotate(Trim(snapshot));
      }
    }

    /** Click on the front slide. After a drag it only clears `isDragging`;
        otherwise the front slide is copied to the back and animated
        forward to the trigger, after which the queue is the advance of the
        pre-click queue (the copy does not survive) and input is enabled. */
    method HandleClick() returns (frames: seq<Frame>)
      requires Valid()
      requires !isDragging ==> |images| > 0
      modifies this
      ensures Valid()
      ensures old(isDragging) ==>
                && !isDragging && frames == []
                && images == old(images) && position == old(position) && disabled == old(disabled)
      ensures !old(isDragging) ==>
                && !isDragging
                && frames == Frames(StartTimer(SlideTrigger, Forward), SlideTrigger, Forward, true, old(disabled))
                && images == RotateLeft(old(images)) && |images| == |old(images)|
                && position == DefaultPosition && !disabled
    {
      if !isDragging {
        var snapshot := images;
        images := snapshot + [snapshot[0]];
        frames := AnimatePositionTo(SlideTrigger, Forward, true, snapshot);
        SuccessorMapWhole(snapshot);
      } else {
        isDragging := false;
        frames := [];
      }
    }

    /** The step animation: the counter starts at 0 (forward) or at
        `endPosition` (back) and the timer callback `OnTick` runs once per
        tick until it reports that the run has finished. */
    method AnimatePositionTo(endPosition: int, direction: Direction, isClick: bool, captured: seq<T>)
      returns (frames: seq<Frame>)
      requires Valid()
      requires 0 <= endPosition <= SlideTrigger
      modifies this`images, this`position, this`disabled
      ensures Valid()
      ensures frames == Frames(StartTimer(endPosition, direction), endPosition, direction, isClick, old(disabled))
      ensures position == DefaultPosition
      ensures disabled == (!isClick && old(disabled))
      ensures images == if isClick then SuccessorMap(captured, |captured|) else old(images)
    {
      var timer := StartTimer(endPosition, direction);
      var running := true;
      ghost var run := Frames(timer, endPosition, direction, isClick, disabled);
      ghost var rest := run;
      frames := [];
      while running
        invariant Valid()
        invariant running ==> 0 <= timer <= endPosition && images == old(images)
        invariant running ==> rest == Frames(timer, endPosition, direction, isClick, disabled)
        invariant frames + rest == run
        invariant !running ==> rest == [] && position == DefaultPosition
        invariant !running ==> disabled == (!isClick && old(disabled))
        invariant !running ==> images == if isClick then SuccessorMap(captured, |captured|) else old(images)
        decreases running, Distance(timer, endPosition, direction)
      {
        var frame;
        timer, running, frame := OnTick(timer, endPosition, direction, isClick, captured);
        ghost var next := if running then Frames(timer, endPosition, direction, isClick, disabled) else [];
        AppendOne(frames, frame, next);
        frames, rest := frames + [frame], next;
      }
      assert frames == run;
    }

    /** The timer callback: move the counter one step; while the run goes on,
        show the counter as the offset (a click also disables input);
        otherwise reset the offset and, for a click, advance the captured
        queue and enable input. Returns the new counter, whether the run goes
        on, and the frame left rendered. */
    method OnTick(timer: int, endPosition: int, direction: Direction, isClick: bool, captured: seq<T>)
      returns (next: int, running: bool, frame: Frame)
      requires Valid()
      requires 0 <= timer <= endPosition <= SlideTrigger
      modifies this`images, this`position, this`disabled
      ensures Valid()
      ensures next == Tick(timer, direction) && running == KeepsRunning(next, endPosition, direction)
      ensures running ==> 0 <= next <= endPosition
      ensures frame == Frame(position, disabled)
      ensures Frames(timer, endPosition, direction, isClick, old(disabled))
              == [frame] + if running then Frames(next, endPosition, direction, isClick, disabled) else []
      ensures running ==> images == old(images)
      ensures !running ==> position == DefaultPosition && disabled == (!isClick && old(disabled))
      ensures !running ==> images == if isClick then SuccessorMap(captured, |captured|) else old(images)
    {
      FramesStep(timer, endPosition, direction, isClick, disabled);
      next := Tick(timer, direction);
      running := KeepsRunning(next, endPosition, direction);
      if running {
        position := Point(0, next);
        if isClick {
          disabled := true;
        }
      } else {
        position := DefaultPosition;
        if isClick {
          images := SuccessorMap(captured, |captured|);
          disabled := false;
        }
      }
      frame := Frame(position, disabled);
    }
  }

  lemma AppendOne<X>(a: seq<X>, x: X, b: seq<X>)
    ensures a + ([x] + b) == (a + [x]) + b
  {
  }

  /** A complete drag gesture as the draggable reports it: a start, one or
      more moves, and a release at the last move's offset. The queue length
      is unchanged; the queue has advanced exactly when the release was at
      the trigger, and is otherwise the queue the gesture started from, after
      the snap-back run from the release offset. `disabled` is untouched. */
  method DragGesture<T>(s: Slider<T>, moves: seq<int>) returns (frames: seq<Frame>)
    requires s.Valid() && |s.images| > 0
    requires |moves| > 0 && forall k :: 0 <= k < |moves| ==> 0 <= moves[k] <= SlideTrigger
    modifies s
    ensures s.Valid() && s.isDragging && s.position == DefaultPosition
    ensures |s.images| == |old(s.images)|
    ensures s.images == if moves[|moves| - 1] == SlideTrigger then RotateLeft(old(s.images)) else old(s.images)
    ensures s.disabled == old(s.disabled)
    ensures moves[|moves| - 1] == SlideTrigger ==> frames == []
    ensures moves[|moves| - 1] != SlideTrigger ==>
              frames == Frames(moves[|moves| - 1], moves[|moves| - 1], Back, false, old(s.disabled))
  {
    ghost var before := s.images;
    s.OnStart();
    var k := 0;
    while k < |moves|
      invariant 0 <= k <= |moves|
      invariant s.Valid() && s.images == Pad(before)
      invariant k > 0 ==> s.isDragging
      invariant s.disabled == old(s.disabled)
    {
      s.OnDrag(0, moves[k]);
      k := k + 1;
    }
    PadIsPadded(before);
    TrimUndoesPad(before);
    frames := s.OnStop(moves[|moves| - 1]);
  }

  /** The walk-through of a three-slide stack: a click advances, a short drag
      snaps back, a drag to the trigger advances again. */
  method ThreeSlides() {
    var s := new Slider(['A', 'B', 'C']);
    var frames := s.HandleClick();
    assert s.images == ['B', 'C', 'A'];
    ClickRun(false);
    assert |frames| == SlideTrigger && frames[0].position == Point(0, 1) && frames[0].disabled;
    frames := DragGesture(s, [10, 2]);
    assert frames == [Frame(Point(0, 1), false), Frame(DefaultPosition, false)];
    assert s.images == ['B', 'C', 'A'];
    var _ := s.HandleClick();
    assert !s.isDragging && s.images == ['B', 'C', 'A'];
    frames := DragGesture(s, [40, SlideTrigger]);
    assert s.images == ['C', 'A', 'B'] && frames == [];
  }
}
