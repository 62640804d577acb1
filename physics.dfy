/** The rules of the game as functions on values: the field geometry, one step of the
    ball (`moveBall`), the point decision (`score`) and the end of the game (`gameOver`).
    Comparisons are between signed integers throughout (see AsWritten for the source's
    mixed signed/unsigned comparisons). */
module Physics {
  /** A player who reaches this many points ends the game. */
  const POINTS := 5

  /** The size_t constants of a field, fixed when it is constructed. */
  datatype Geometry = Geometry(width: nat, height: nat, paddleHeight: nat, paddleWidth: nat, ballSize: nat)
  {
    /** The x coordinate at which the left paddle returns the ball. */
    function LeftLine(): int { 2 * paddleWidth }

    /** The x coordinate at which the right paddle returns the ball. */
    function RightLine(): int { width - 2 * paddleWidth }
  }

  /** The geometry of a field of the given size. */
  function Layout(width: nat, height: nat): Geometry {
    var paddleHeight := height / 5;
    Geometry(width, height, paddleHeight, paddleHeight / 10, height / 60)
  }

  /** The `int` fields of a field: paddle centres, scores and ball position. */
  datatype FieldState = FieldState(player1: int, player2: int, score1: int, score2: int, ballX: int, ballY: int)

  /** The state right after construction: paddles and ball centred, no points. */
  function Kickoff(g: Geometry): FieldState {
    FieldState(g.height / 2, g.height / 2, 0, 0, g.width / 2, g.height / 2)
  }

  /** A ball position together with its velocity (the by-reference dx, dy of moveBall). */
  datatype Ball = Ball(x: int, y: int, dx: int, dy: int)

  /** A position and a velocity along one axis. */
  datatype Axis = Axis(pos: int, vel: int)

  function Abs(v: int): nat {
    if v < 0 then -v else v
  }

  /** The vertical part of a step: the ball would reach newY with velocity dy, and is
      mirrored off the top wall (y = 0) and then off the bottom wall (y = height). */
  function Walls(height: nat, newY: int, dy: int): (r: Axis)
    ensures 0 <= newY <= height ==> r == Axis(newY, dy)
    ensures 0 <= newY + height && newY < 0 ==> r == Axis(-newY, -dy)
    ensures height < newY ==> r == Axis(2 * height - newY, -dy)
    ensures 0 <= newY + height && newY <= 2 * height ==> 0 <= r.pos <= height
    ensures Abs(r.vel) == Abs(dy)
  {
    var top := if newY < 0 then Axis(-newY, -dy) else Axis(newY, dy);
    if top.pos > height then Axis(2 * height - top.pos, -top.vel) else top
  }

  /** The ball, coming from x, reaches newX at the left paddle line or beyond, and the
      left paddle (centred at player1) covers newY. */
  predicate HitsLeftPaddle(g: Geometry, player1: int, x: int, newX: int, newY: int) {
    x > g.LeftLine() && newX <= g.LeftLine() && 2 * Abs(newY - player1) <= g.paddleHeight
  }

  /** The same for the right paddle, centred at player2. */
  predicate HitsRightPaddle(g: Geometry, player2: int, x: int, newX: int, newY: int) {
    x < g.RightLine() && newX >= g.RightLine() && 2 * Abs(newY - player2) <= g.paddleHeight
  }

  /** One step of the ball: walls first, then the left paddle, then the right paddle,
      each mirroring the position and reversing that velocity component. */
  function MoveBall(g: Geometry, player1: int, player2: int, b: Ball): (r: Ball)
    ensures Abs(r.dx) == Abs(b.dx) && Abs(r.dy) == Abs(b.dy)
    ensures 0 <= b.y <= g.height && Abs(b.dy) <= g.height ==> 0 <= r.y <= g.height
    ensures r.y == Walls(g.height, b.y + b.dy, b.dy).pos && r.dy == Walls(g.height, b.y + b.dy, b.dy).vel
  {
    var vertical := Walls(g.height, b.y + b.dy, b.dy);
    var newX := b.x + b.dx;
    var left :=
      if HitsLeftPaddle(g, player1, b.x, newX, vertical.pos)
      then Axis(2 * g.LeftLine() - newX, -b.dx)
      else Axis(newX, b.dx);
    var right :=
      if HitsRightPaddle(g, player2, b.x, left.pos, vertical.pos)
      then Axis(2 * g.RightLine() - left.pos, -left.vel)
      else left;
    Ball(right.pos, vertical.pos, right.vel, vertical.vel)
  }

  /** A step that meets no wall and no paddle moves the ball by exactly its velocity. */
  lemma FreeFlight(g: Geometry, player1: int, player2: int, b: Ball)
    requires 0 <= b.y + b.dy <= g.height
    requires !HitsLeftPaddle(g, player1, b.x, b.x + b.dx, b.y + b.dy)
    requires !HitsRightPaddle(g, player2, b.x, b.x + b.dx, b.y + b.dy)
    ensures MoveBall(g, player1, player2, b) == Ball(b.x + b.dx, b.y + b.dy, b.dx, b.dy)
  {
  }

  /** With the paddle lines in order and a step no longer than the distance between them,
      the horizontal motion is one of three: returned by the left paddle, returned by the
      right paddle, or unchanged. A paddle returns the ball only when the ball crosses its
      line from the field side in this step and the paddle covers the ball's new height,
      and a returned ball lands between the two lines. */
  lemma HorizontalReflection(g: Geometry, player1: int, player2: int, b: Ball)
    requires g.LeftLine() <= g.RightLine()
    requires Abs(b.dx) <= g.RightLine() - g.LeftLine()
    ensures var newY := Walls(g.height, b.y + b.dy, b.dy).pos;
            var r := MoveBall(g, player1, player2, b);
            !(HitsLeftPaddle(g, player1, b.x, b.x + b.dx, newY) && HitsRightPaddle(g, player2, b.x, b.x + b.dx, newY)) &&
            if HitsLeftPaddle(g, player1, b.x, b.x + b.dx, newY) then
              r.x == 2 * g.LeftLine() - (b.x + b.dx) && r.dx == -b.dx && g.LeftLine() <= r.x < g.RightLine()
            else if HitsRightPaddle(g, player2, b.x, b.x + b.dx, newY) then
              r.x == 2 * g.RightLine() - (b.x + b.dx) && r.dx == -b.dx && g.LeftLine() < r.x <= g.RightLine()
            else
              r.x == b.x + b.dx && r.dx == b.dx
  {
  }

  /** The point the next step scores: 2 when the ball is behind the left paddle line and
      reaches the left edge, else 1 when it is behind the right paddle line and reaches the
      right edge, else 0. The left check comes first. */
  function Score(g: Geometry, x: int, dx: int): (point: int)
    ensures 0 <= point <= 2
    ensures point == 2 <==> x < g.LeftLine() && x + dx <= 0
    ensures point == 1 <==> !(x < g.LeftLine() && x + dx <= 0) && x > g.RightLine() && x + dx >= g.width
  {
    if x < g.LeftLine() && x + dx <= 0 then 2
    else if x > g.RightLine() && x + dx >= g.width then 1
    else 0
  }

  /** A point is only given for a ball its paddle can no longer return: one that scores
      for player 2 cannot hit the left paddle, one that scores for player 1 cannot hit the
      right paddle, whatever the paddle positions and the ball's height. */
  lemma PointOnlyForMissedBall(g: Geometry, player1: int, player2: int, x: int, dx: int, newY: int)
    ensures Score(g, x, dx) == 2 ==> !HitsLeftPaddle(g, player1, x, x + dx, newY)
    ensures Score(g, x, dx) == 1 ==> !HitsRightPaddle(g, player2, x, x + dx, newY)
    ensures g.LeftLine() <= x <= g.RightLine() ==> Score(g, x, dx) == 0
  {
  }

  /** The game is over once either player has POINTS points. */
  predicate GameOver(s: FieldState): (over: bool)
    ensures over <==> s.score1 >= POINTS || s.score2 >= POINTS
    ensures s.score1 >= POINTS ==> over
    ensures s.score2 >= POINTS ==> over
    ensures !over ==> s.score1 + s.score2 <= 2 * (POINTS - 1)
  {
    s.score1 >= POINTS || s.score2 >= POINTS
  }
}
