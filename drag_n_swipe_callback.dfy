/**
 * `DragNSwipeCallback`: the gesture callback that anchors a drag, reports its
 * end once, picks the movement flags, and turns a release past the swipe
 * threshold into a swipe report while suppressing the library's own swipe
 * once. The adapter it talks to (`ItemTouchHelperAdapter`) is a recording
 * object: its answers are functions of the calls it has seen so far.
 */
module DragNSwipe {
  import opened Wrappers

  /** `ItemTouchHelper` direction bits. */
  const UP: bv32 := 1
  const DOWN: bv32 := 2
  const START: bv32 := 16
  const END: bv32 := 32

  /** `View.FOCUS_LEFT` and `View.FOCUS_RIGHT`, the directions the touch
      listener reports. */
  const FOCUS_LEFT: int := 17
  const FOCUS_RIGHT: int := 66

  /** A call the callback makes on its adapter. */
  datatype Call =
    | ItemMove(fromPosition: int, toPosition: int)
    | ItemMoveEnded(fromPosition: int, toPosition: int)
    | ItemSwiped(position: int, direction: int)

  /** `ItemTouchHelperAdapter`. The implementation's answers are given as
      functions of the calls received so far; `swipeBackOverride` is `None`
      when the implementation keeps the interface's default `swipeBack`. */
  class TouchAdapter {
    const canMove: (seq<Call>, int) -> bool
    const canSwipe: (seq<Call>, int) -> bool
    const moveAnswer: (seq<Call>, int, int) -> bool
    const swipeBackOverride: Option<(seq<Call>, int) -> bool>
    var calls: seq<Call>

    constructor (canMove: (seq<Call>, int) -> bool, canSwipe: (seq<Call>, int) -> bool,
                 moveAnswer: (seq<Call>, int, int) -> bool,
                 swipeBackOverride: Option<(seq<Call>, int) -> bool>)
      ensures this.canMove == canMove && this.canSwipe == canSwipe
      ensures this.moveAnswer == moveAnswer && this.swipeBackOverride == swipeBackOverride
      ensures calls == []
    {
      this.canMove := canMove;
      this.canSwipe := canSwipe;
      this.moveAnswer := moveAnswer;
      this.swipeBackOverride := swipeBackOverride;
      calls := [];
    }

    function CanItemBeMoved(position: int): bool
      reads this
    {
      canMove(calls, position)
    }

    function CanItemBeSwiped(position: int): bool
      reads this
    {
      canSwipe(calls, position)
    }

    /** `swipeBack(position)`: true unless the implementation overrides it. */
    function SwipeBack(position: int): (r: bool)
      reads this
      ensures swipeBackOverride.None? ==> r
      ensures swipeBackOverride.Some? ==> r == swipeBackOverride.value(calls, position)
    {
      match swipeBackOverride
      case None => true
      case Some(answer) => answer(calls, position)
    }

    method OnItemMove(fromPosition: int, toPosition: int) returns (accepted: bool)
      modifies this`calls
      ensures accepted == moveAnswer(old(calls), fromPosition, toPosition)
      ensures calls == old(calls) + [ItemMove(fromPosition, toPosition)]
    {
      accepted := moveAnswer(calls, fromPosition, toPosition);
      calls := calls + [ItemMove(fromPosition, toPosition)];
    }

    method OnItemMoveEnded(fromPosition: int, toPosition: int)
      modifies this`calls
      ensures calls == old(calls) + [ItemMoveEnded(fromPosition, toPosition)]
    {
      calls := calls + [ItemMoveEnded(fromPosition, toPosition)];
    }

    method OnItemSwiped(position: int, direction: int)
      modifies this`calls
      ensures calls == old(calls) + [ItemSwiped(position, direction)]
    {
      calls := calls + [ItemSwiped(position, direction)];
    }
  }

  /** The drag and swipe directions `getMovementFlags` hands to
      `makeMovementFlags`. */
  datatype MovementFlags = MovementFlags(dragFlags: bv32, swipeFlags: bv32)

  /** `DragNSwipeCallback`. `baseConvert` stands for the library's
      `convertToAbsoluteDirection`, which this class overrides. */
  class DragNSwipeCallback {
    const adapter: TouchAdapter
    const dragEnabled: bool
    const swipeEnabled: bool
    const baseConvert: (int, int) -> int
    var dragFrom: int
    var dragTo: int
    var swipeBack: bool

    constructor (adapter: TouchAdapter, dragEnabled: bool, swipeEnabled: bool, baseConvert: (int, int) -> int)
      ensures this.adapter == adapter && this.dragEnabled == dragEnabled
      ensures this.swipeEnabled == swipeEnabled && this.baseConvert == baseConvert
      ensures dragFrom == -1 && dragTo == -1 && !swipeBack
    {
      this.adapter := adapter;
      this.dragEnabled := dragEnabled;
      this.swipeEnabled := swipeEnabled;
      this.baseConvert := baseConvert;
      dragFrom := -1;
      dragTo := -1;
      swipeBack := false;
    }

    /** `getMovementFlags`: up and down drags exactly when the item may be
        moved, start and end swipes exactly when it may be swiped, and no
        direction otherwise. */
    function GetMovementFlags(position: int): (f: MovementFlags)
      reads adapter
      ensures adapter.CanItemBeMoved(position) <==> f.dragFlags & UP != 0 && f.dragFlags & DOWN != 0
      ensures !adapter.CanItemBeMoved(position) <==> f.dragFlags == 0
      ensures f.dragFlags & !(UP | DOWN) == 0
      ensures adapter.CanItemBeSwiped(position) <==> f.swipeFlags & START != 0 && f.swipeFlags & END != 0
      ensures !adapter.CanItemBeSwiped(position) <==> f.swipeFlags == 0
      ensures f.swipeFlags & !(START | END) == 0
    {
      var dragFlags := if adapter.CanItemBeMoved(position) then UP | DOWN else 0;
      var swipeFlags := if adapter.CanItemBeSwiped(position) then START | END else 0;
      MovementFlags(dragFlags, swipeFlags)
    }

    /** `onMove`: the first step of a drag fixes its origin, every step
        records its target (accepted or not), and the adapter decides. */
    method OnMove(fromPosition: int, toPosition: int) returns (accepted: bool)
      modifies this`dragFrom, this`dragTo, adapter`calls
      ensures dragFrom == if old(dragFrom) == -1 then fromPosition else old(dragFrom)
      ensures dragTo == toPosition
      ensures accepted == adapter.moveAnswer(old(adapter.calls), fromPosition, toPosition)
      ensures adapter.calls == old(adapter.calls) + [ItemMove(fromPosition, toPosition)]
    {
      if dragFrom == -1 {
        dragFrom := fromPosition;
      }
      dragTo := toPosition;
      accepted := adapter.OnItemMove(fromPosition, toPosition);
    }

    /** Whether `clearView` reports a finished drag. */
    predicate DragCompleted()
      reads this
    {
      dragFrom != -1 && dragTo != -1 && dragFrom != dragTo
    }

    /** `clearView`: a drag that started and ended on different positions is
        reported once and forgotten; anything else is left as it is. */
    method ClearView()
      modifies this`dragFrom, this`dragTo, adapter`calls
      ensures old(DragCompleted()) ==>
        && adapter.calls == old(adapter.calls) + [ItemMoveEnded(old(dragFrom), old(dragTo))]
        && dragFrom == -1 && dragTo == -1
      ensures !old(DragCompleted()) ==>
        adapter.calls == old(adapter.calls) && dragFrom == old(dragFrom) && dragTo == old(dragTo)
    {
      if dragFrom != -1 && dragTo != -1 && dragFrom != dragTo {
        adapter.OnItemMoveEnded(dragFrom, dragTo);
        dragFrom := -1;
        dragTo := -1;
      }
    }

    /** `convertToAbsoluteDirection`: a pending swipe-back swallows this one
        conversion and is cleared; otherwise the library decides. */
    method ConvertToAbsoluteDirection(flags: int, layoutDirection: int) returns (r: int)
      modifies this`swipeBack
      ensures r == if old(swipeBack) then 0 else baseConvert(flags, layoutDirection)
      ensures !swipeBack
    {
      if swipeBack {
        swipeBack := false;
        return 0;
      }
      r := baseConvert(flags, layoutDirection);
    }

    /** `onSwiped`: forwarded unchanged. */
    method OnSwiped(position: int, direction: int)
      modifies adapter`calls
      ensures adapter.calls == old(adapter.calls) + [ItemSwiped(position, direction)]
    {
      adapter.OnItemSwiped(position, direction);
    }
  }

  datatype MotionAction = ActionDown | ActionUp | ActionMove | ActionCancel

  /** A touch event; only its action and horizontal position matter here. */
  datatype MotionEvent = MotionEvent(action: MotionAction, x: real)

  function Abs(r: real): real
  {
    if r < 0.0 then -r else r
  }

  /** Whether a release at `x` is far enough from `startX` to count as a swipe. */
  predicate ReleasedPastThreshold(startX: real, x: real, threshold: real): (r: bool)
    ensures r <==> x < startX - threshold || x > startX + threshold
  {
    Abs(startX - x) > threshold
  }

  /** The direction the listener reports for a release at `x`. */
  function ReleaseDirection(startX: real, x: real): (d: int)
    ensures d == FOCUS_RIGHT <==> x < startX
    ensures d == FOCUS_LEFT <==> startX <= x
  {
    if startX - x > 0.0 then FOCUS_RIGHT else FOCUS_LEFT
  }

  /** The distance must exceed the threshold: a release exactly at the
      threshold, or closer, is not a swipe; anything farther is, in either
      direction. */
  lemma ThresholdIsStrict(startX: real, d: real, threshold: real)
    requires d >= 0.0
    ensures ReleasedPastThreshold(startX, startX + d, threshold) <==> d > threshold
    ensures ReleasedPastThreshold(startX, startX - d, threshold) <==> d > threshold
    ensures d > 0.0 ==> ReleaseDirection(startX, startX - d) == FOCUS_RIGHT
    ensures ReleaseDirection(startX, startX + d) == FOCUS_LEFT
  {
  }

  /** The touch listener installed while an item is being swiped; it keeps
      its own `startX`. The held view's adapter position and its swipe
      threshold are read at each event, so they are parameters of `OnTouch`. */
  class SwipeTouchListener {
    const callback: DragNSwipeCallback
    var startX: real

    constructor (callback: DragNSwipeCallback)
      ensures this.callback == callback && startX == -1.0
    {
      this.callback := callback;
      startX := -1.0;
    }

    /** `onTouch`: a press records where it started; a release farther than
        the threshold sets `swipeBack` and reports a swipe; nothing else has
        any effect. The event is never consumed. */
    method OnTouch(event: Option<MotionEvent>, position: int, threshold: real) returns (consumed: bool)
      modifies this`startX, callback`swipeBack, callback.adapter`calls
      ensures !consumed
      ensures event.Some? && event.value.action == ActionDown ==>
        && startX == event.value.x
        && callback.swipeBack == old(callback.swipeBack)
        && callback.adapter.calls == old(callback.adapter.calls)
      ensures event.Some? && event.value.action == ActionUp ==>
        && startX == old(startX)
        && (ReleasedPastThreshold(old(startX), event.value.x, threshold) ==>
              && callback.swipeBack
              && callback.adapter.calls == old(callback.adapter.calls)
                   + [ItemSwiped(position, ReleaseDirection(old(startX), event.value.x))])
        && (!ReleasedPastThreshold(old(startX), event.value.x, threshold) ==>
              && callback.swipeBack == old(callback.swipeBack)
              && callback.adapter.calls == old(callback.adapter.calls))
      ensures event.None? || event.value.action == ActionMove || event.value.action == ActionCancel ==>
        && startX == old(startX)
        && callback.swipeBack == old(callback.swipeBack)
        && callback.adapter.calls == old(callback.adapter.calls)
    {
      match event {
        case None =>
        case Some(e) =>
          if e.action == ActionDown {
            startX := e.x;
          } else if e.action == ActionUp {
            if Abs(startX - e.x) > threshold {
              callback.swipeBack := e.action == ActionCancel || e.action == ActionUp;
              var direction := if startX - e.x > 0.0 then FOCUS_RIGHT else FOCUS_LEFT;
              callback.adapter.OnItemSwiped(position, direction);
            }
          }
      }
      consumed := false;
    }
  }

  /** A whole drag: two steps, then the release. The adapter hears every step
      and exactly one end report, from the origin to the last target, and the
      callback is ready for the next drag. */
  method DragIsReportedOnce(callback: DragNSwipeCallback, first: int, middle: int, last: int)
    requires callback.dragFrom == -1 && callback.dragTo == -1
    requires first != -1 && last != -1 && first != last
    modifies callback, callback.adapter
    ensures callback.adapter.calls == old(callback.adapter.calls)
      + [ItemMove(first, middle), ItemMove(middle, last), ItemMoveEnded(first, last)]
    ensures callback.dragFrom == -1 && callback.dragTo == -1
  {
    var _ := callback.OnMove(first, middle);
    var _ := callback.OnMove(middle, last);
    callback.ClearView();
  }

  /** A drag that comes back to where it started reports nothing and keeps
      its anchor. */
  method DragBackIsNotReported(callback: DragNSwipeCallback, first: int, middle: int)
    requires callback.dragFrom == -1 && callback.dragTo == -1
    requires first != -1
    modifies callback, callback.adapter
    ensures callback.adapter.calls == old(callback.adapter.calls) + [ItemMove(first, middle), ItemMove(middle, first)]
    ensures callback.dragFrom == first && callback.dragTo == first
  {
    var _ := callback.OnMove(first, middle);
    var _ := callback.OnMove(middle, first);
    callback.ClearView();
  }

  /** A press and a release past the threshold: the swipe is reported, the
      next direction conversion yields 0 and the one after that is the
      library's again. */
  method SwipeBackIsOneShot(listener: SwipeTouchListener, x0: real, x1: real, position: int,
                            threshold: real, flags: int, layoutDirection: int)
    returns (first: int, second: int)
    requires ReleasedPastThreshold(x0, x1, threshold)
    modifies listener, listener.callback, listener.callback.adapter
    ensures listener.callback.adapter.calls == old(listener.callback.adapter.calls)
      + [ItemSwiped(position, ReleaseDirection(x0, x1))]
    ensures first == 0
    ensures second == listener.callback.baseConvert(flags, layoutDirection)
  {
    var _ := listener.OnTouch(Some(MotionEvent(ActionDown, x0)), position, threshold);
    var _ := listener.OnTouch(Some(MotionEvent(ActionUp, x1)), position, threshold);
    first := listener.callback.ConvertToAbsoluteDirection(flags, layoutDirection);
    second := listener.callback.ConvertToAbsoluteDirection(flags, layoutDirection);
  }
}
