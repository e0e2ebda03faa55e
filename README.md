# CustomDragDrop: a verified model of the long-press drag-to-reorder engine

This project models the reorder engine of the `Home` view in CustomDragDrop,
a SwiftUI list/grid of controls. The user long-presses a control and drags it.
While the drag lasts, the control is swapped with whichever control's frame lies
under the pointer. When the pointer rests in a strip at the top or bottom edge,
a repeating timer scrolls the list. On release the control settles into its
current slot.

The model has four modules:

- `Geometry` (`geometry.dfy`): points, sizes and rectangles with integer
  coordinates. `Contains` is `CGRect.contains`: the rectangle is standardised
  and bounds are half-open (`minX <= x < maxX`, `minY <= y < maxY`), so the
  default `.zero` rectangle contains nothing. The same file holds a
  two-line `Wrappers.Option`.
- `Controls` (`controls.dfy`): the ordered list of controls, the two
  `firstIndex` searches, the two-slot swap, `SwapCheck` (the whole of
  `checkAndSwapItems` as a function), the frame refresh, and the lemmas about
  them.
- `AutoScroll` (`autoscroll.dfy`): the timer record, the timer slot after a
  hot-region check, the clamped step of one tick, and lemmas about repeated
  ticks.
- `DragDrop` (`home.dfy`): class `Home`. Its fields are the view's `@State`
  variables. Each method is one event that the framework delivers on the main
  actor: gesture change, release, settle completion, timer tick, frame
  change, region change and scroll-geometry change. Each method's `ensures`
  gives the new state in terms of the old state and the functions above.
  `Valid()` holds three invariants:
  - ids are unique;
  - while a control is selected, the list holds that id with the tracked
    frame `selectedControlFrame`;
  - a running timer exists only while a control is selected.

The timer slot is `Option<ScrollTimer>`. A `ScrollTimer` keeps what the
closure captured (`topStatus`, `location`) and whether the timer has been
invalidated. An invalidated timer stays in the slot until the completion
step, as in the source, but `Tick` never fires it. Each call to `scrollTo(y:)`
is recorded in the field `scrollCommands`.

Where the code departs from the intended design of such an engine, the model follows the code:

- The scroll target is not always kept within `[0, max(0, maximumScrollSize)]`.
  A bottom tick yields `min(last + 10, maximumScrollSize)`. This is negative
  when the content is shorter than the viewport
  (`AutoScroll.BottomTickWithNegativeMaximum`). The bounds hold whenever the
  target already lies in `[0, maximumScrollSize]`
  (`AutoScroll.TickStaysInRange`).
- The swap runs even when the containing slot is the dragged control's own
  slot. That swap changes nothing (`Controls.SwapCheckOverSelf`).
- Release only invalidates the timer. The slot is emptied and
  `lastActiveScrollOffset` is reset later, in the completion step.
- The settle step writes `selectedControlFrame` into the selected control,
  which is a copy of the item held in `selectedControl`. The list itself is
  not written.

## Model

| member | source | states |
|---|---|---|
| `Geometry.EmptyRectContainsNothing` | CustomDragDrop/CustomDragDrop/View/Home.swift:24-25 | a degenerate rectangle such as the default `.zero` region contains no point, so no hot-region or swap match happens before layout |
| `Controls.IndexOfId` | CustomDragDrop/CustomDragDrop/View/Home.swift:186 | the result is the first slot holding the selected id; None exactly when nothing is selected or no slot holds the id |
| `Controls.FirstContaining` | CustomDragDrop/CustomDragDrop/View/Home.swift:187 | the result is the first slot in list order whose frame contains the pointer; None exactly when no frame contains it |
| `Controls.Swap` | CustomDragDrop/CustomDragDrop/View/Home.swift:189 | the two slots are exchanged, every other slot is kept, and the length and multiset of items are unchanged |
| `Controls.SwapCheck` | CustomDragDrop/CustomDragDrop/View/Home.swift:185-192 | the length and multiset of items are kept; a slot changes only while a control is selected, and only if it holds the selected id or its frame contains the pointer |
| `Controls.SwapCheckKeepsItems` | CustomDragDrop/CustomDragDrop/View/Home.swift:186-190 | every item, with its frame, stays in the list, and unique ids stay unique |
| `Controls.SwapCheckExchanges` | CustomDragDrop/CustomDragDrop/View/Home.swift:186-190 | take the selected id's first slot i and the first containing slot j; the result has slots i and j exchanged and every other slot unchanged |
| `Controls.SwapCheckOverEmptySpace` | CustomDragDrop/CustomDragDrop/View/Home.swift:187 | when no frame contains the pointer, the list is unchanged |
| `Controls.SwapCheckWithoutSelection` | CustomDragDrop/CustomDragDrop/View/Home.swift:186 | when nothing is selected, or the selected id is absent, the list is unchanged |
| `Controls.SwapCheckOverSelf` | CustomDragDrop/CustomDragDrop/View/Home.swift:186-189 | when the first containing frame is the dragged control's own frame, the list is unchanged |
| `Controls.SwapCheckFirstMatchWins` | CustomDragDrop/CustomDragDrop/View/Home.swift:187 | a later control whose frame also contains the pointer keeps its slot; the partner is the first match in list order, not the nearest |
| `Controls.SwapCheckTwiceRestores` | CustomDragDrop/CustomDragDrop/View/Home.swift:185-192 | when only B's frame contains the pointer and A is dragged, A and B are exchanged (the list changes when A is not B); a second check at the same point, before any frame refresh, restores the list |
| `Controls.DragFirstOntoThird` | CustomDragDrop/CustomDragDrop/View/Home.swift:185-192 | with five items, dragging the first to a point inside only the third's frame (among the first three) gives C, B, A, D, E |
| `Controls.DragFirstToRowTwo` | CustomDragDrop/CustomDragDrop/View/Home.swift:185-192 | five items in 60-point rows; item 0 dragged to y = 150 gives the order 2, 1, 0, 3, 4 |
| `Controls.WithFrame` | CustomDragDrop/CustomDragDrop/View/Home.swift:50-56 | the item with the given id takes the new frame; ids, order and all other items are unchanged |
| `Controls.WithFrameKeepsItems` | CustomDragDrop/CustomDragDrop/View/Home.swift:50-56 | a frame refresh keeps ids unique and keeps every item of another id; the refreshed id now appears with the new frame |
| `Controls.WithFrameKeepsOrder` | CustomDragDrop/CustomDragDrop/View/Home.swift:55 | a frame refresh never reorders the list |
| `AutoScroll.TimerAfterCheck` | CustomDragDrop/CustomDragDrop/View/Home.swift:157-183 | the slot is occupied exactly when the pointer is in a hot region; an existing timer is kept; a new timer is running and captures the pointer and the top-region status (top wins when both regions contain the pointer); outside both regions the slot is emptied |
| `AutoScroll.TimerStartIdempotent` | CustomDragDrop/CustomDragDrop/View/Home.swift:161-164 | once a check inside a hot region has run, later checks inside a hot region leave the slot as it is: no second timer and no restart |
| `AutoScroll.NextScrollOffset` | CustomDragDrop/CustomDragDrop/View/Home.swift:165-169 | a top tick gives the greater of `last - 10` and 0, so never below 0; a bottom tick gives the lesser of `last + 10` and `maximumScrollSize`, so never above it |
| `AutoScroll.TickStaysInRange` | CustomDragDrop/CustomDragDrop/View/Home.swift:165-169 | a target within `[0, maximumScrollSize]` stays within it after a tick in either direction |
| `AutoScroll.TopTicksStopAtZero` | CustomDragDrop/CustomDragDrop/View/Home.swift:166 | n top ticks from a non-negative target give `max(last - 10n, 0)` |
| `AutoScroll.BottomTicksStopAtMaximum` | CustomDragDrop/CustomDragDrop/View/Home.swift:168 | n bottom ticks from a target at most `maximumScrollSize` give `min(last + 10n, maximumScrollSize)` |
| `AutoScroll.BottomTickWithNegativeMaximum` | CustomDragDrop/CustomDragDrop/View/Home.swift:168 | with a negative `maximumScrollSize`, a bottom tick from 0 goes below 0 |
| `DragDrop.Home.constructor` | CustomDragDrop/CustomDragDrop/View/Home.swift:13-28 | the initial state: nothing selected, zero frames, offset and regions, scale 1.0, scroll values 0, empty timer slot |
| `DragDrop.Home.DragChanged` | CustomDragDrop/CustomDragDrop/View/Home.swift:116-139 | a session starts only when none is open: it selects the control, anchors its frame, captures the scroll offset, sets scale 1.05 and flips the haptics trigger; otherwise these fields are unchanged; a drag sample sets `offset` to the translation and applies the auto-scroll check (timer slot and list) at its location |
| `DragDrop.Home.DragEnded` | CustomDragDrop/CustomDragDrop/View/Home.swift:140-148 | the timer is invalidated and no timer runs afterwards; the selected control takes `selectedControlFrame`, which is the frame of its current slot in the list; scale 1.0 and offset zero |
| `DragDrop.Home.SettleCompleted` | CustomDragDrop/CustomDragDrop/View/Home.swift:149-153 | the session is cleared: nothing selected, empty timer slot, `lastActiveScrollOffset` 0 |
| `DragDrop.Home.CheckAndScroll` | CustomDragDrop/CustomDragDrop/View/Home.swift:157-183 | the timer slot becomes `TimerAfterCheck` of the old slot; the list is unchanged inside a hot region; outside both regions exactly one swap check runs at the pointer |
| `DragDrop.Home.Tick` | CustomDragDrop/CustomDragDrop/View/Home.swift:164-175 | a running timer moves `lastActiveScrollOffset` one clamped step toward its captured edge, records one scroll command to that offset and runs a swap check at its captured location; with no running timer nothing changes |
| `DragDrop.Home.CheckAndSwapItems` | CustomDragDrop/CustomDragDrop/View/Home.swift:185-192 | the list becomes `SwapCheck` of the old list for the selected id and the pointer; the invariant (unique ids, selected item present with its tracked frame) is kept |
| `DragDrop.Home.ItemFrameChanged` | CustomDragDrop/CustomDragDrop/View/Home.swift:48-56 | the control with that id takes the new frame; `selectedControlFrame` follows it exactly when that control is the selected one |
| `DragDrop.Home.TopRegionChanged` | CustomDragDrop/CustomDragDrop/View/Home.swift:89-93 | the top hot region is overwritten with the reported frame |
| `DragDrop.Home.BottomRegionChanged` | CustomDragDrop/CustomDragDrop/View/Home.swift:101-105 | the bottom hot region is overwritten with the reported frame |
| `DragDrop.Home.ScrollOffsetChanged` | CustomDragDrop/CustomDragDrop/View/Home.swift:64-68 | `currentScrollOffset` becomes the content offset's y plus the top inset |
| `DragDrop.Home.ScrollExtentChanged` | CustomDragDrop/CustomDragDrop/View/Home.swift:69-73 | `maximumScrollSize` becomes content height minus container height |

## Left out

- Rendering is not modelled. This covers `ControlView`, the overlays, opacity, materials and `ContentView`'s wallpaper. None of it affects the list or the session.
- The Stack/Grid toggle and `count` are not modelled, because they change only the grid's column count.
- The item type's definition is not part of this model. Its title and symbol are display payload; a control is modelled as an id and a frame.
- Animation curves and durations are not modelled. The settle animation is two calls: `DragEnded` for its body, then `SettleCompleted` for its completion. The caller makes them in that order.
- Haptic output is not modelled. Only the `hapticsTrigger` flip is.
- Timer scheduling, the 0.1 s interval and the 0.25 s long-press threshold belong to the framework. A tick is an explicit `Tick()` call, and a gesture change an explicit `DragChanged` call.
- Gesture recognition is not modelled: the `.first` phase of the sequenced gesture and hit-testing. `DragChanged` receives the long-press status and the optional drag sample.
- `DragDrop.Home.DragChanged` requires that the gesture's control is an item of the list as currently laid out. In the view, each gesture is attached to a rendered item.
- `scrollPosition.scrollTo(y:)` and the scroll view's own clamping are not modelled. The command is only recorded in `scrollCommands`.
- `CGFloat` floating point is not modelled. Coordinates and offsets are integers, and the scale is a `real`.
- The layout's binding of a geometry callback to its array element is not modelled. A frame change is keyed by the control's id, and ids are unique.
- The phases Dragging and Settling are not fields in the source, so they are not fields here. Idle is `selectedControl == None`.
