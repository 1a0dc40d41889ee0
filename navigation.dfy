/**
 * The navigation state of app.js: which of the three pages is selected, the
 * swipe order of the bottom bar, and how a horizontal drag picks the next page.
 */
module Navigation {
  import opened Seqs

  /** `this.mode`: 0 tasks, 1 insights, 2 settings. */
  type Mode = m: int | 0 <= m <= 2

  /** The bottom bar from left to right: insights, tasks, settings. */
  const Order: seq<int> := [1, 0, 2]

  /** Width in pixels of one bar item; the track moves by this much per page. */
  const ItemWidth: real := 86.0

  /** A touch that moves further than this many pixels is a drag. */
  const DragStart: real := 5.0

  /** A drag released further than this many pixels away switches the page. */
  const SwipeThreshold: real := 25.0

  function Abs(x: real): real
  {
    if x < 0.0 then -x else x
  }

  /** `order.indexOf(this.mode)`: every mode has its place in the bar. */
  function Position(m: Mode): (i: nat)
    ensures i < |Order| && Order[i] == m
  {
    assert m in Order;
    IndexOf(Order, m)
  }

  /**
   * The page `touchend` selects after a touch that ended `diff` pixels right of
   * where it began. The page changes exactly when the touch was a drag past the
   * threshold and there is a neighbour on that side: a drag to the right
   * selects the left neighbour, a drag to the left the right one. It never
   * moves more than one place along the bar.
   */
  function SwipeTarget(mode: Mode, diff: real, dragging: bool): (r: Mode)
    ensures r != mode <==>
      dragging && Abs(diff) > SwipeThreshold
      && (if diff > 0.0 then Position(mode) > 0 else Position(mode) < |Order| - 1)
    ensures r != mode && diff > 0.0 ==> Position(r) == Position(mode) - 1
    ensures r != mode && diff < 0.0 ==> Position(r) == Position(mode) + 1
  {
    var index := Position(mode);
    if dragging && Abs(diff) > SwipeThreshold then
      if diff > 0.0 && index > 0 then Order[index - 1]
      else if diff < 0.0 && index < 2 then Order[index + 1]
      else mode
    else mode
  }

  /** A swipe that changed the page is undone by the same swipe in the other direction. */
  lemma SwipeBackRestores(mode: Mode, diff: real)
    requires SwipeTarget(mode, diff, true) != mode
    ensures SwipeTarget(SwipeTarget(mode, diff, true), -diff, true) == mode
  {
    var next := SwipeTarget(mode, diff, true);
    assert Position(next) != Position(mode);
    if diff > 0.0 {
      assert Position(next) == Position(mode) - 1;
    } else {
      assert Position(next) == Position(mode) + 1;
    }
  }

  /**
   * `Math.max(-(itemWidth * 2), Math.min(0, shift))`: the track offset shown
   * while dragging never goes past either end of the bar.
   */
  function ClampShift(shift: real): (r: real)
    ensures -2.0 * ItemWidth <= r <= 0.0
    ensures -2.0 * ItemWidth <= shift <= 0.0 ==> r == shift
    ensures shift > 0.0 ==> r == 0.0
    ensures shift < -2.0 * ItemWidth ==> r == -2.0 * ItemWidth
  {
    var upper := if shift < 0.0 then shift else 0.0;
    if upper > -2.0 * ItemWidth then upper else -2.0 * ItemWidth
  }

  /** `index * -itemWidth`: the offset the track rests at for a page, always within the clamp. */
  function RestingShift(m: Mode): (r: real)
    ensures -2.0 * ItemWidth <= r <= 0.0
    ensures ClampShift(r) == r
  {
    Position(m) as real * -ItemWidth
  }
}
