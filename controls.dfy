/**
 * The ordered list of controls and the reorder engine that runs on it:
 * lookups by id and by position, the two-slot swap, and the frame refresh
 * that the layout system performs.
 */
module Controls {
  import opened Wrappers
  import opened Geometry

  /** One item of the list: a stable id and its current on-screen frame. */
  datatype Control = Control(id: nat, frame: Rect)

  predicate HasId(s: seq<Control>, id: nat)
  {
    exists k :: 0 <= k < |s| && s[k].id == id
  }

  /** The ids in list order. */
  function IdsOf(s: seq<Control>): seq<nat>
  {
    seq(|s|, k requires 0 <= k < |s| => s[k].id)
  }

  predicate UniqueIds(s: seq<Control>)
  {
    forall a, b :: 0 <= a < b < |s| ==> s[a].id != s[b].id
  }

  /**
   * `firstIndex(where: { $0.id == selectedControl?.id })`: the first slot
   * holding the selected id; with no selection nothing matches.
   */
  function IndexOfId(s: seq<Control>, id: Option<nat>): (r: Option<nat>)
    ensures r.Some? ==> id.Some? && r.value < |s| && s[r.value].id == id.value
    ensures r.Some? ==> forall k :: 0 <= k < r.value ==> s[k].id != id.value
    ensures r.None? ==> id.None? || forall k :: 0 <= k < |s| ==> s[k].id != id.value
    decreases |s|
  {
    if id.None? || |s| == 0 then None
    else if s[0].id == id.value then Some(0)
    else
      match IndexOfId(s[1..], id)
      case None => None
      case Some(j) => Some(j + 1)
  }

  /**
   * `firstIndex(where: { $0.frame.contains(location) })`: the first slot in
   * list order whose frame contains the point.
   */
  function FirstContaining(s: seq<Control>, p: Point): (r: Option<nat>)
    ensures r.Some? ==> r.value < |s| && Contains(s[r.value].frame, p)
    ensures r.Some? ==> forall k :: 0 <= k < r.value ==> !Contains(s[k].frame, p)
    ensures r.None? <==> forall k :: 0 <= k < |s| ==> !Contains(s[k].frame, p)
    decreases |s|
  {
    if |s| == 0 then None
    else if Contains(s[0].frame, p) then Some(0)
    else
      match FirstContaining(s[1..], p)
      case None => None
      case Some(j) => Some(j + 1)
  }

  /** Exchange of two slots: a swap, not a shift. */
  function Swap(s: seq<Control>, i: nat, j: nat): (r: seq<Control>)
    requires i < |s| && j < |s|
    ensures |r| == |s| && r[i] == s[j] && r[j] == s[i]
    ensures forall k :: 0 <= k < |s| && k != i && k != j ==> r[k] == s[k]
    ensures multiset(r) == multiset(s)
  {
    s[i := s[j]][j := s[i]]
  }

  /**
   * `checkAndSwapItems`: when the selected item is found and some frame
   * contains the pointer, the two slots are exchanged; otherwise the list
   * is left as it is.
   */
  function SwapCheck(s: seq<Control>, selected: Option<nat>, p: Point): (r: seq<Control>)
    ensures |r| == |s| && multiset(r) == multiset(s)
    ensures forall k :: 0 <= k < |s| && r[k] != s[k] ==>
              selected.Some? && (s[k].id == selected.value || Contains(s[k].frame, p))
  {
    match (IndexOfId(s, selected), FirstContaining(s, p))
    case (Some(i), Some(j)) => Swap(s, i, j)
    case _ => s
  }

  /** The swap check keeps every item (with its frame) and the uniqueness of ids. */
  lemma SwapCheckKeepsItems(s: seq<Control>, selected: Option<nat>, p: Point)
    ensures forall x :: x in SwapCheck(s, selected, p) <==> x in s
    ensures UniqueIds(s) ==> UniqueIds(SwapCheck(s, selected, p))
  {
  }

  /**
   * When the selected item sits at `i` (the first slot with its id) and `j`
   * is the first slot whose frame contains the pointer, exactly those two
   * slots are exchanged and every other slot keeps its item.
   */
  lemma SwapCheckExchanges(s: seq<Control>, selected: nat, p: Point, i: nat, j: nat)
    requires i < |s| && s[i].id == selected
    requires forall k :: 0 <= k < i ==> s[k].id != selected
    requires j < |s| && Contains(s[j].frame, p)
    requires forall k :: 0 <= k < j ==> !Contains(s[k].frame, p)
    ensures var r := SwapCheck(s, Some(selected), p);
      |r| == |s| && r[i] == s[j] && r[j] == s[i] &&
      forall k :: 0 <= k < |s| && k != i && k != j ==> r[k] == s[k]
  {
  }

  /** With no frame containing the pointer, the list is left unchanged. */
  lemma SwapCheckOverEmptySpace(s: seq<Control>, selected: Option<nat>, p: Point)
    requires forall k :: 0 <= k < |s| ==> !Contains(s[k].frame, p)
    ensures SwapCheck(s, selected, p) == s
  {
  }

  /** With nothing selected, or the selected id absent, the list is left unchanged. */
  lemma SwapCheckWithoutSelection(s: seq<Control>, selected: Option<nat>, p: Point)
    requires selected.None? || !HasId(s, selected.value)
    ensures SwapCheck(s, selected, p) == s
  {
  }

  /**
   * When the first frame containing the pointer is the dragged item's own
   * frame, the exchange is with itself and the list is left unchanged.
   */
  lemma SwapCheckOverSelf(s: seq<Control>, selected: nat, p: Point, j: nat)
    requires UniqueIds(s)
    requires j < |s| && s[j].id == selected && Contains(s[j].frame, p)
    requires forall k :: 0 <= k < j ==> !Contains(s[k].frame, p)
    ensures SwapCheck(s, Some(selected), p) == s
  {
  }

  /**
   * The partner is the first containing frame in list order: a later item
   * whose frame also contains the pointer keeps its slot.
   */
  lemma SwapCheckFirstMatchWins(s: seq<Control>, selected: Option<nat>, p: Point, j: nat, k: nat)
    requires j < k < |s|
    requires Contains(s[j].frame, p) && Contains(s[k].frame, p)
    requires selected.None? || s[k].id != selected.value
    ensures SwapCheck(s, selected, p)[k] == s[k]
  {
  }

  /**
   * Dragging A's pointer into B's frame, with B the only frame containing
   * the pointer, exchanges A and B; repeating the same check on the result
   * (before the layout refreshes any frame) exchanges them back.
   */
  lemma SwapCheckTwiceRestores(s: seq<Control>, selected: nat, p: Point, i: nat, j: nat)
    requires UniqueIds(s)
    requires i < |s| && s[i].id == selected
    requires j < |s| && Contains(s[j].frame, p)
    requires forall k :: 0 <= k < |s| && k != j ==> !Contains(s[k].frame, p)
    ensures i != j ==> SwapCheck(s, Some(selected), p) != s
    ensures SwapCheck(SwapCheck(s, Some(selected), p), Some(selected), p) == s
  {
  }

  /**
   * The frame-changed event: the item with the given id takes the new
   * frame; ids, order and every other item are left as they are.
   */
  function WithFrame(s: seq<Control>, id: nat, f: Rect): (r: seq<Control>)
    ensures |r| == |s|
    ensures forall k :: 0 <= k < |s| ==> r[k].id == s[k].id
    ensures forall k :: 0 <= k < |s| && s[k].id == id ==> r[k].frame == f
    ensures forall k :: 0 <= k < |s| && s[k].id != id ==> r[k] == s[k]
  {
    seq(|s|, k requires 0 <= k < |s| => if s[k].id == id then s[k].(frame := f) else s[k])
  }

  /**
   * A frame refresh keeps the uniqueness of ids and every item of another
   * id, and the refreshed id now appears with the new frame.
   */
  lemma WithFrameKeepsItems(s: seq<Control>, id: nat, f: Rect)
    ensures UniqueIds(s) ==> UniqueIds(WithFrame(s, id, f))
    ensures forall x :: x in s && x.id != id ==> x in WithFrame(s, id, f)
    ensures HasId(s, id) ==> Control(id, f) in WithFrame(s, id, f)
  {
  }

  /** A frame refresh leaves the order of the list as it is. */
  lemma WithFrameKeepsOrder(s: seq<Control>, id: nat, f: Rect)
    ensures IdsOf(WithFrame(s, id, f)) == IdsOf(s)
  {
  }

  /**
   * Five items A..E; A is dragged to a point inside C's frame and outside
   * A's and B's: the list becomes C, B, A, D, E (B keeps its slot).
   */
  lemma DragFirstOntoThird(s: seq<Control>, p: Point)
    requires |s| == 5 && UniqueIds(s)
    requires !Contains(s[0].frame, p) && !Contains(s[1].frame, p) && Contains(s[2].frame, p)
    ensures SwapCheck(s, Some(s[0].id), p) == [s[2], s[1], s[0], s[3], s[4]]
  {
  }

  /** Slot `i` of a one-column list of 60-point rows. */
  function RowFrame(i: nat): Rect
  {
    Rect(0, 60 * i, 300, 60)
  }

  /**
   * Items 0..4 in rows 0..4; item 0 dragged to y = 150 (row 2) gives the
   * order 2, 1, 0, 3, 4.
   */
  lemma DragFirstToRowTwo()
    ensures var s := [Control(0, RowFrame(0)), Control(1, RowFrame(1)), Control(2, RowFrame(2)),
                      Control(3, RowFrame(3)), Control(4, RowFrame(4))];
            SwapCheck(s, Some(0), Point(30, 150)) == [s[2], s[1], s[0], s[3], s[4]]
  {
  }
}
