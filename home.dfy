/**
 * The `Home` view's drag-to-reorder engine as a stateful object: the fields
 * are the view's state variables, and each method is one event the
 * framework delivers on the main actor (a gesture change, the release, the
 * settle animation's completion, a timer tick, a geometry change).
 */
module DragDrop {
  import opened Wrappers
  import opened Geometry
  import opened Controls
  import opened AutoScroll

  /** A drag sample: translation since the drag began and absolute pointer location. */
  datatype DragValue = DragValue(translation: Size, location: Point)

  class Home {
    var controls: seq<Control>
    var selectedControl: Option<Control>
    var selectedControlFrame: Rect
    var selectedControlScale: real
    var offset: Size
    /** The `scrollTo(y:)` commands sent to the scroll view, oldest first. */
    var scrollCommands: seq<int>
    var currentScrollOffset: int
    var lastActiveScrollOffset: int
    var maximumScrollSize: int
    var scrollTimer: Option<ScrollTimer>
    var topRegion: Rect
    var bottomRegion: Rect
    var hapticsTrigger: bool

    /**
     * Ids are unique; while a control is selected, the list holds it with
     * the tracked frame `selectedControlFrame` (the frame of its current
     * slot); a running timer exists only while a control is selected.
     */
    ghost predicate Valid()
      reads this
    {
      UniqueIds(controls)
      && (selectedControl.Some? ==> Control(selectedControl.value.id, selectedControlFrame) in controls)
      && (TimerRunning() ==> selectedControl.Some?)
    }

    function SelectedId(): Option<nat>
      reads this
    {
      if selectedControl.Some? then Some(selectedControl.value.id) else None
    }

    predicate TimerRunning()
      reads this
    {
      scrollTimer.Some? && scrollTimer.value.running
    }

    constructor (items: seq<Control>)
      requires UniqueIds(items)
      ensures Valid()
      ensures controls == items && selectedControl.None? && selectedControlFrame == ZeroRect
      ensures selectedControlScale == 1.0 && offset == ZeroSize && scrollCommands == []
      ensures currentScrollOffset == 0 && lastActiveScrollOffset == 0 && maximumScrollSize == 0
      ensures scrollTimer.None? && topRegion == ZeroRect && bottomRegion == ZeroRect
      ensures !hapticsTrigger
    {
      controls := items;
      selectedControl := None;
      selectedControlFrame := ZeroRect;
      selectedControlScale := 1.0;
      offset := ZeroSize;
      scrollCommands := [];
      currentScrollOffset := 0;
      lastActiveScrollOffset := 0;
      maximumScrollSize := 0;
      scrollTimer := None;
      topRegion := ZeroRect;
      bottomRegion := ZeroRect;
      hapticsTrigger := false;
    }

    /**
     * `onChanged` of the long-press-then-drag gesture attached to `control`.
     * Only the long-press-confirmed phase (`status`) acts: it opens a session
     * when none is open, then, when a drag sample is present, records the
     * translation and runs the auto-scroll check at the pointer location.
     */
    method DragChanged(control: Control, status: bool, drag: Option<DragValue>)
      requires Valid() && control in controls
      modifies this`selectedControl, this`selectedControlFrame, this`lastActiveScrollOffset
      modifies this`hapticsTrigger, this`selectedControlScale, this`offset
      modifies this`scrollTimer, this`controls
      ensures Valid()
      // a session opens only when none is open
      ensures status && old(selectedControl).None? ==>
                selectedControl == Some(control) && selectedControlFrame == control.frame
                && lastActiveScrollOffset == currentScrollOffset
                && hapticsTrigger == !old(hapticsTrigger) && selectedControlScale == 1.05
      ensures !(status && old(selectedControl).None?) ==>
                selectedControl == old(selectedControl) && selectedControlFrame == old(selectedControlFrame)
                && lastActiveScrollOffset == old(lastActiveScrollOffset)
                && hapticsTrigger == old(hapticsTrigger) && selectedControlScale == old(selectedControlScale)
      // each drag sample moves the item and feeds the auto-scroll check
      ensures status && drag.Some? ==>
                offset == drag.value.translation
                && scrollTimer == TimerAfterCheck(old(scrollTimer), topRegion, bottomRegion, drag.value.location)
                && controls == (if InHotRegion(topRegion, bottomRegion, drag.value.location) then old(controls)
                                else SwapCheck(old(controls), SelectedId(), drag.value.location))
      ensures !(status && drag.Some?) ==>
                offset == old(offset) && scrollTimer == old(scrollTimer) && controls == old(controls)
    {
      if status {
        if selectedControl.None? {
          selectedControl := Some(control);
          selectedControlFrame := control.frame;
          lastActiveScrollOffset := currentScrollOffset;
          hapticsTrigger := !hapticsTrigger;
          selectedControlScale := 1.05;
        }
        if drag.Some? {
          offset := drag.value.translation;
          CheckAndScroll(drag.value.location);
        }
      }
    }

    /**
     * `onEnded`: the timer is invalidated (it stays in its slot until the
     * completion step), and the settle step writes the tracked frame into
     * the selected control and resets scale and offset.
     */
    method DragEnded()
      requires Valid()
      modifies this`scrollTimer, this`selectedControl, this`selectedControlScale, this`offset
      ensures Valid() && !TimerRunning()
      // the released control settles at the frame its current slot has
      ensures selectedControl.Some? ==> selectedControl.value in controls
      ensures scrollTimer == if old(scrollTimer).Some? then Some(old(scrollTimer).value.(running := false)) else None
      ensures selectedControl ==
                if old(selectedControl).Some? then Some(old(selectedControl).value.(frame := selectedControlFrame))
                else None
      ensures selectedControlScale == 1.0 && offset == ZeroSize
    {
      if scrollTimer.Some? {
        scrollTimer := Some(scrollTimer.value.(running := false));
      }
      if selectedControl.Some? {
        selectedControl := Some(selectedControl.value.(frame := selectedControlFrame));
      }
      selectedControlScale := 1.0;
      offset := ZeroSize;
    }

    /** Completion of the settle animation: the session is closed. */
    method SettleCompleted()
      requires Valid()
      modifies this`selectedControl, this`scrollTimer, this`lastActiveScrollOffset
      ensures Valid()
      ensures selectedControl.None? && scrollTimer.None? && lastActiveScrollOffset == 0
    {
      selectedControl := None;
      scrollTimer := None;
      lastActiveScrollOffset := 0;
    }

    /**
     * `checkAndScroll`: inside a hot region a timer is created only when the
     * slot is empty; outside both regions the timer is invalidated and
     * dropped, and one swap check runs at the pointer.
     */
    method CheckAndScroll(location: Point)
      requires Valid() && selectedControl.Some?
      modifies this`scrollTimer, this`controls
      ensures Valid()
      ensures scrollTimer == TimerAfterCheck(old(scrollTimer), topRegion, bottomRegion, location)
      ensures controls == if InHotRegion(topRegion, bottomRegion, location) then old(controls)
                          else SwapCheck(old(controls), SelectedId(), location)
    {
      var topStatus := Contains(topRegion, location);
      var bottomStatus := Contains(bottomRegion, location);
      if topStatus || bottomStatus {
        if scrollTimer.None? {
          scrollTimer := Some(ScrollTimer(topStatus, location, true));
        }
      } else {
        // invalidating the timer and emptying the slot drops it for good
        scrollTimer := None;
        CheckAndSwapItems(location);
      }
    }

    /**
     * One firing of the repeating timer: the scroll target moves one step
     * toward the captured edge, clamped, is sent to the scroll view, and a
     * swap check runs at the captured location. An invalidated timer, or an
     * empty slot, never fires.
     */
    method Tick()
      requires Valid()
      modifies this`lastActiveScrollOffset, this`scrollCommands, this`controls
      ensures Valid()
      ensures TimerRunning() ==>
                lastActiveScrollOffset
                  == NextScrollOffset(old(lastActiveScrollOffset), maximumScrollSize, scrollTimer.value.topStatus)
                && scrollCommands == old(scrollCommands) + [lastActiveScrollOffset]
                && controls == SwapCheck(old(controls), SelectedId(), scrollTimer.value.location)
      ensures !TimerRunning() ==>
                lastActiveScrollOffset == old(lastActiveScrollOffset)
                && scrollCommands == old(scrollCommands) && controls == old(controls)
    {
      if TimerRunning() {
        var timer := scrollTimer.value;
        if timer.topStatus {
          lastActiveScrollOffset := if lastActiveScrollOffset - ScrollStep > 0 then lastActiveScrollOffset - ScrollStep else 0;
        } else {
          lastActiveScrollOffset := if lastActiveScrollOffset + ScrollStep < maximumScrollSize then lastActiveScrollOffset + ScrollStep else maximumScrollSize;
        }
        scrollCommands := scrollCommands + [lastActiveScrollOffset];
        CheckAndSwapItems(timer.location);
      }
    }

    /**
     * `checkAndSwapItems`: find the selected control's slot and the first
     * slot whose frame contains the pointer; when both exist, exchange them.
     */
    method CheckAndSwapItems(location: Point)
      requires Valid()
      modifies this`controls
      ensures Valid()
      ensures controls == SwapCheck(old(controls), SelectedId(), location)
    {
      SwapCheckKeepsItems(controls, SelectedId(), location);
      var currentIndex := IndexOfId(controls, SelectedId());
      var fallingIndex := FirstContaining(controls, location);
      if currentIndex.Some? && fallingIndex.Some? {
        controls := Swap(controls, currentIndex.value, fallingIndex.value);
      }
    }

    /**
     * A control's frame changed in the layout: the item takes the new frame,
     * and when it is the selected control the tracked frame follows it.
     */
    method ItemFrameChanged(id: nat, newFrame: Rect)
      requires Valid()
      modifies this`selectedControlFrame, this`controls
      ensures Valid()
      ensures selectedControlFrame == if SelectedId() == Some(id) then newFrame else old(selectedControlFrame)
      ensures controls == WithFrame(old(controls), id, newFrame)
    {
      if SelectedId() == Some(id) {
        selectedControlFrame := newFrame;
      }
      WithFrameKeepsItems(controls, id, newFrame);
      controls := WithFrame(controls, id, newFrame);
    }

    /** The top hot strip's frame changed. */
    method TopRegionChanged(r: Rect)
      requires Valid()
      modifies this`topRegion
      ensures Valid() && topRegion == r
    {
      topRegion := r;
    }

    /** The bottom hot strip's frame changed. */
    method BottomRegionChanged(r: Rect)
      requires Valid()
      modifies this`bottomRegion
      ensures Valid() && bottomRegion == r
    {
      bottomRegion := r;
    }

    /** The scroll view reported a new content offset: its y plus the top content inset. */
    method ScrollOffsetChanged(contentOffsetY: int, topInset: int)
      requires Valid()
      modifies this`currentScrollOffset
      ensures Valid() && currentScrollOffset == contentOffsetY + topInset
    {
      currentScrollOffset := contentOffsetY + topInset;
    }

    /** The scroll view reported a new extent: content height minus container height. */
    method ScrollExtentChanged(contentHeight: int, containerHeight: int)
      requires Valid()
      modifies this`maximumScrollSize
      ensures Valid() && maximumScrollSize == contentHeight - containerHeight
    {
      maximumScrollSize := contentHeight - containerHeight;
    }
  }
}
