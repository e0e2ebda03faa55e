/**
 * The auto-scroll controller: the hot-region test that decides whether a
 * repeating timer is started, kept or torn down, and the clamped step that
 * each timer tick applies to the scroll target.
 */
module AutoScroll {
  import opened Wrappers
  import opened Geometry

  /** Distance the scroll target moves on each tick. */
  const ScrollStep: int := 10

  /**
   * A scheduled repeating timer, reduced to what its closure captured (the
   * top-region status and the pointer location at creation) and whether it
   * has been invalidated.
   */
  datatype ScrollTimer = ScrollTimer(topStatus: bool, location: Point, running: bool)

  predicate InHotRegion(top: Rect, bottom: Rect, p: Point)
  {
    Contains(top, p) || Contains(bottom, p)
  }

  /**
   * The timer slot after `checkAndScroll` at `p`: inside a hot region an
   * existing timer is kept as it is and an empty slot gets a new running
   * timer; outside both regions the slot is emptied.
   */
  function TimerAfterCheck(slot: Option<ScrollTimer>, top: Rect, bottom: Rect, p: Point): (r: Option<ScrollTimer>)
    ensures r.Some? <==> InHotRegion(top, bottom, p)
    ensures InHotRegion(top, bottom, p) && slot.Some? ==> r == slot
    ensures InHotRegion(top, bottom, p) && slot.None? ==>
              r.value.running && r.value.location == p && r.value.topStatus == Contains(top, p)
  {
    if InHotRegion(top, bottom, p) then
      if slot.None? then Some(ScrollTimer(Contains(top, p), p, true)) else slot
    else None
  }

  /**
   * Timer start is idempotent: once a check inside a hot region has run,
   * further checks inside a hot region leave the slot as it is.
   */
  lemma TimerStartIdempotent(slot: Option<ScrollTimer>, top: Rect, bottom: Rect, p: Point, q: Point)
    requires InHotRegion(top, bottom, p) && InHotRegion(top, bottom, q)
    ensures TimerAfterCheck(TimerAfterCheck(slot, top, bottom, p), top, bottom, q)
         == TimerAfterCheck(slot, top, bottom, p)
  {
  }

  /**
   * One tick's new scroll target: toward the top it is `last - 10` floored
   * at 0, toward the bottom `last + 10` capped at `maxSize`.
   */
  function NextScrollOffset(last: int, maxSize: int, top: bool): (r: int)
    ensures top ==> r >= 0 && r >= last - ScrollStep && (r == 0 || r == last - ScrollStep)
    ensures !top ==> r <= maxSize && r <= last + ScrollStep && (r == maxSize || r == last + ScrollStep)
  {
    if top then
      if last - ScrollStep > 0 then last - ScrollStep else 0
    else
      if last + ScrollStep < maxSize then last + ScrollStep else maxSize
  }

  /** While the target lies in [0, maxSize], a tick keeps it there. */
  lemma TickStaysInRange(last: int, maxSize: int, top: bool)
    requires 0 <= last <= maxSize
    ensures 0 <= NextScrollOffset(last, maxSize, top) <= maxSize
  {
  }

  /** The scroll target after `n` ticks in one direction. */
  function Ticks(last: int, maxSize: int, top: bool, n: nat): int
    decreases n
  {
    if n == 0 then last else Ticks(NextScrollOffset(last, maxSize, top), maxSize, top, n - 1)
  }

  /** Repeated top ticks walk down by 10 and stop at 0, never below. */
  lemma {:induction false} TopTicksStopAtZero(last: int, maxSize: int, n: nat)
    requires last >= 0
    ensures Ticks(last, maxSize, true, n) == if last - ScrollStep * n > 0 then last - ScrollStep * n else 0
    decreases n
  {
    if n > 0 {
      TopTicksStopAtZero(NextScrollOffset(last, maxSize, true), maxSize, n - 1);
    }
  }

  /** Repeated bottom ticks walk up by 10 and stop at `maxSize`, never above. */
  lemma {:induction false} BottomTicksStopAtMaximum(last: int, maxSize: int, n: nat)
    requires last <= maxSize
    ensures Ticks(last, maxSize, false, n) == if last + ScrollStep * n < maxSize then last + ScrollStep * n else maxSize
    decreases n
  {
    if n > 0 {
      BottomTicksStopAtMaximum(NextScrollOffset(last, maxSize, false), maxSize, n - 1);
    }
  }

  /**
   * With `maxSize` below 0 (content shorter than the viewport) a single
   * bottom tick from 0 leaves the [0, maxSize] range: the lower bound 0 is
   * kept only by top ticks.
   */
  lemma BottomTickWithNegativeMaximum()
    ensures NextScrollOffset(0, -40, false) == -40
  {
  }
}
