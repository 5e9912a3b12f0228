/**
 * The input adapters: each turns a raw event into a navigation move, and the relative
 * move rule decides which slide index, if any, a move leads to.
 */
module Input {
  import opened Wrappers

  /** A relative navigation intent. `Stay` is an event that is not a navigation gesture. */
  datatype Move = Next | Previous | Stay

  function Reverse(m: Move): Move {
    match m
    case Next => Previous
    case Previous => Next
    case Stay => Stay
  }

  function Abs(x: real): real {
    if x < 0.0 then -x else x
  }

  /** Minimum vertical travel, in pixels, for a swipe to count. */
  const SwipeThreshold: real := 50.0

  /** The touch-end classifier: with `diffY = startY - endY` and `diffX = startX - endX`,
      a vertical-dominant swipe longer than the threshold is a move, upwards (positive
      `diffY`) meaning next; anything else is not a gesture. */
  function SwipeMove(startX: real, startY: real, endX: real, endY: real): (m: Move)
    ensures m != Stay <==> Abs(startY - endY) > SwipeThreshold && Abs(startY - endY) > Abs(startX - endX)
    ensures m == Next ==> endY < startY
    ensures m == Previous ==> startY < endY
  {
    var diffY := startY - endY;
    var diffX := startX - endX;
    if Abs(diffY) > Abs(diffX) && Abs(diffY) > SwipeThreshold then
      (if diffY > 0.0 then Next else Previous)
    else Stay
  }

  /** A swipe made in the opposite direction gives the opposite move. */
  lemma SwipeReversed(startX: real, startY: real, endX: real, endY: real)
    ensures SwipeMove(endX, endY, startX, startY) == Reverse(SwipeMove(startX, startY, endX, endY))
  {
  }

  /** A swipe that travels no more than the threshold vertically, or no more vertically
      than horizontally, is never a move. */
  lemma SmallOrHorizontalSwipeStays(startX: real, startY: real, endX: real, endY: real)
    requires Abs(startY - endY) <= SwipeThreshold || Abs(startY - endY) <= Abs(startX - endX)
    ensures SwipeMove(startX, startY, endX, endY) == Stay
  {
  }

  /** A swipe (`diffY = 60`, `diffX = 10`) moves forward; one of `diffY = 30` never moves. */
  lemma SwipeExamples(x: real, y: real, dx: real)
    ensures SwipeMove(x + 10.0, y + 60.0, x, y) == Next
    ensures SwipeMove(x + dx, y + 30.0, x, y) == Stay
  {
  }

  /** The keyboard mapper: ArrowDown and ArrowRight mean next, ArrowUp and ArrowLeft
      previous, every other key is not a navigation key. */
  function KeyMove(key: string): (m: Move)
    ensures m != Stay <==> IsArrowKey(key)
  {
    if key == "ArrowDown" || key == "ArrowRight" then Next
    else if key == "ArrowUp" || key == "ArrowLeft" then Previous
    else Stay
  }

  /** Whether the key handler calls `preventDefault` for this key (when it is not locked). */
  predicate IsArrowKey(key: string)
    ensures IsArrowKey(key) ==> |key| > 5 && key[..5] == "Arrow"
  {
    key == "ArrowDown" || key == "ArrowRight" || key == "ArrowUp" || key == "ArrowLeft"
  }

  /** ArrowDown and ArrowRight are exactly the keys that mean next, ArrowUp and ArrowLeft
      exactly those that mean previous, and opposite arrows move oppositely. */
  lemma KeyMoveArrows(key: string)
    ensures KeyMove(key) == Next <==> key == "ArrowDown" || key == "ArrowRight"
    ensures KeyMove(key) == Previous <==> key == "ArrowUp" || key == "ArrowLeft"
    ensures KeyMove("ArrowUp") == Reverse(KeyMove("ArrowDown"))
    ensures KeyMove("ArrowLeft") == Reverse(KeyMove("ArrowRight"))
  {
  }

  /** The relative-move guard shared by the touch and key handlers: next is taken only below
      the last index, previous only above the cover, so the loading slide is never re-entered. */
  function RelativeTarget(current: int, count: int, m: Move): (t: Option<int>)
    ensures t.Some? && 0 <= current < count ==> 1 <= t.value < count
    ensures t.Some? ==> t.value == current + 1 || t.value == current - 1
    ensures m == Stay ==> t == None
    ensures m == Next ==> (t.Some? <==> current < count - 1) && (t.Some? ==> t.value == current + 1)
    ensures m == Previous ==> (t.Some? <==> current > 1) && (t.Some? ==> t.value == current - 1)
  {
    match m
    case Next => if current < count - 1 then Some(current + 1) else None
    case Previous => if current > 1 then Some(current - 1) else None
    case Stay => None
  }

  /** The index after one accepted move (unchanged when the move is refused). */
  function Step(current: int, count: int, m: Move): int {
    RelativeTarget(current, count, m).GetOr(current)
  }

  /** The index after a series of moves, each made once the previous transition has ended. */
  function Run(current: int, count: int, moves: seq<Move>): int
    decreases |moves|
  {
    if moves == [] then current else Run(Step(current, count, moves[0]), count, moves[1..])
  }

  /** However the reader swipes or presses keys, the index stays on a registered slide, and
      once past the loading slide it never returns to it. */
  lemma {:induction false} RunStaysInRange(current: int, count: int, moves: seq<Move>)
    requires 0 <= current < count
    ensures 0 <= Run(current, count, moves) < count
    ensures current >= 1 ==> Run(current, count, moves) >= 1
    decreases |moves|
  {
    if moves != [] {
      RunStaysInRange(Step(current, count, moves[0]), count, moves[1..]);
    }
  }

  /** Pressing next `k` times advances `k` slides, stopping at the last one. */
  lemma {:induction false} RunForward(current: int, count: int, k: nat)
    requires 0 <= current < count
    ensures Run(current, count, seq(k, _ => Next)) == if current + k < count then current + k else count - 1
    decreases k
  {
    if k > 0 {
      var moves := seq(k, _ => Next);
      assert moves[0] == Next && moves[1..] == seq(k - 1, _ => Next);
      RunForward(Step(current, count, Next), count, k - 1);
    }
  }

  /** Next followed by previous, and previous followed by next, wherever both are allowed,
      return to the starting slide. */
  lemma StepInverse(current: int, count: int)
    ensures 1 <= current < count - 1 ==> Run(current, count, [Next, Previous]) == current
    ensures 2 <= current <= count - 1 ==> Run(current, count, [Previous, Next]) == current
  {
    assert [Next, Previous][1..] == [Previous];
    assert [Previous, Next][1..] == [Next];
  }
}
