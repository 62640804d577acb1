/** score and moveBall with the comparisons the C++ code makes: the ball's `int`
    coordinates are compared with `size_t` paddle lines, width and height, so a
    negative coordinate is converted to a huge unsigned value first. The rest of the model
    uses the signed comparisons of Physics; this module shows where the two part. */
module AsWritten {
  import opened CppInt
  import opened Physics

  /** score(dx, dy) with its mixed-sign comparisons. */
  function ScoreAsWritten(g: Geometry, x: int, dx: int): (point: int)
    ensures 0 <= point <= 2
  {
    var paddle1Pos := g.LeftLine();
    var paddle2Pos := g.RightLine();
    var newX := x + dx;
    if AsSize(x) < AsSize(paddle1Pos) && newX <= 0 then 2
    else if AsSize(x) > AsSize(paddle2Pos) && AsSize(newX) >= AsSize(g.width) then 1
    else 0
  }

  /** The wall part of moveBall: the bottom-wall test compares the int y with the
      size_t height. */
  function WallsAsWritten(height: nat, newY: int, dy: int): Axis {
    var top := if newY < 0 then Axis(-newY, -dy) else Axis(newY, dy);
    if AsSize(top.pos) > AsSize(height) then Axis(2 * height - top.pos, -top.vel) else top
  }

  /** The left-paddle test of moveBall, each comparison between an int and a size_t. */
  predicate HitsLeftPaddleAsWritten(g: Geometry, player1: int, x: int, newX: int, newY: int) {
    var paddle1Pos := g.LeftLine();
    AsSize(x) > AsSize(paddle1Pos) && AsSize(newX) <= AsSize(paddle1Pos)
      && AsSize(2 * Abs(newY - player1)) <= AsSize(g.paddleHeight)
  }

  /** The right-paddle test of moveBall, each comparison between an int and a size_t. */
  predicate HitsRightPaddleAsWritten(g: Geometry, player2: int, x: int, newX: int, newY: int) {
    var paddle2Pos := g.RightLine();
    AsSize(x) < AsSize(paddle2Pos) && AsSize(newX) >= AsSize(paddle2Pos)
      && AsSize(2 * Abs(newY - player2)) <= AsSize(g.paddleHeight)
  }

  /** moveBall(dx, dy) with its mixed-sign comparisons. Values computed in size_t and
      stored back into an int are exact whenever they fit an int, so the arithmetic is on
      integers. */
  function MoveBallAsWritten(g: Geometry, player1: int, player2: int, b: Ball): (r: Ball)
    ensures Abs(r.dx) == Abs(b.dx) && Abs(r.dy) == Abs(b.dy)
  {
    var vertical := WallsAsWritten(g.height, b.y + b.dy, b.dy);
    var newX := b.x + b.dx;
    var left :=
      if HitsLeftPaddleAsWritten(g, player1, b.x, newX, vertical.pos)
      then Axis(2 * g.LeftLine() - newX, -b.dx)
      else Axis(newX, b.dx);
    var right :=
      if HitsRightPaddleAsWritten(g, player2, b.x, left.pos, vertical.pos)
      then Axis(2 * g.RightLine() - left.pos, -left.vel)
      else left;
    Ball(right.pos, vertical.pos, right.vel, vertical.vel)
  }

  /** A field at least as wide as the two paddle margins, whose sizes fit an int. */
  predicate SaneGeometry(g: Geometry) {
    g.LeftLine() <= g.width <= INT_MAX && g.height <= INT_MAX && g.paddleHeight <= INT_MAX
  }

  /** While the ball's x stays non-negative, the source's score agrees with Score. */
  lemma ScoreAgreesOnField(g: Geometry, x: int, dx: int)
    requires SaneGeometry(g)
    requires 0 <= x <= INT_MAX && 0 <= x + dx <= INT_MAX
    ensures ScoreAsWritten(g, x, dx) == Score(g, x, dx)
  {
  }

  /** While the ball's x stays non-negative before and after the step, and the values fit
      an int, the source's moveBall agrees with MoveBall. */
  lemma MoveBallAgreesOnField(g: Geometry, player1: int, player2: int, b: Ball)
    requires SaneGeometry(g)
    requires IsInt(player1) && IsInt(player2)
    requires 0 <= b.x <= INT_MAX && 0 <= b.x + b.dx <= INT_MAX
    requires 0 <= b.y <= g.height && Abs(b.dy) <= g.height
    ensures MoveBallAsWritten(g, player1, player2, b) == MoveBall(g, player1, player2, b)
  {
  }

  /** With non-negative coordinates that fit an int, each paddle test of the source
      agrees with the signed one. */
  lemma PaddleTestsAgree(g: Geometry, player: int, x: int, newX: int, newY: int)
    requires SaneGeometry(g)
    requires IsInt(player) && 0 <= newY <= INT_MAX
    requires 0 <= x <= INT_MAX && 0 <= newX <= 2 * INT_MAX
    ensures HitsLeftPaddleAsWritten(g, player, x, newX, newY) == HitsLeftPaddle(g, player, x, newX, newY)
    ensures HitsRightPaddleAsWritten(g, player, x, newX, newY) == HitsRightPaddle(g, player, x, newX, newY)
  {
  }

  /** On a 3440 x 1440 field the left paddle line is at x = 56 and a serve moves 68 per
      tick. A ball at x = 60 moving left that player 1 misses lands at x = -8; the next
      score call then gives the point to player 1, although the ball left on player 1's
      side, while Score gives it to player 2. */
  lemma LeftExitScoredForPlayer1()
    ensures var g := Layout(3440, 1440);
      var b := MoveBallAsWritten(g, 1000, 1000, Ball(60, 300, -68, 0));
      b == MoveBall(g, 1000, 1000, Ball(60, 300, -68, 0)) &&
      b.x == -8 && b.dx == -68 &&
      ScoreAsWritten(g, b.x, b.dx) == 1 && Score(g, b.x, b.dx) == 2
  {
  }

  /** The same missed ball with player 2's paddle level with it: the source's moveBall
      takes x = -8 as past the RIGHT paddle line and sends the ball to x = 6776, beyond
      the right edge, moving right; MoveBall leaves it at x = -8. */
  lemma MissedBallReturnedByRightPaddle()
    ensures var g := Layout(3440, 1440);
      var b := MoveBallAsWritten(g, 1000, 300, Ball(60, 300, -68, 0));
      b.x == 6776 && b.dx == 68 &&
      MoveBall(g, 1000, 300, Ball(60, 300, -68, 0)).x == -8
  {
  }

  /** Player 1's paddle level with the same ball: the signed reflection sends it back
      to x = 120 moving right, but the source's test `newX <= paddle1Pos` compares -8
      as an unsigned value, fails, and the ball leaves at x = -8, where the source's
      score gives the point to player 1. */
  lemma CoveredBallMissedByLeftPaddle()
    ensures var g := Layout(3440, 1440);
      var b := MoveBallAsWritten(g, 300, 1000, Ball(60, 300, -68, 0));
      b == Ball(-8, 300, -68, 0) &&
      MoveBall(g, 300, 1000, Ball(60, 300, -68, 0)) == Ball(120, 300, 68, 0) &&
      ScoreAsWritten(g, b.x, b.dx) == 1
  {
  }
}
