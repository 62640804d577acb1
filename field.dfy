/** The playing field object: its geometry is fixed at construction, its paddles,
    scores and ball are updated in place by the game. */
module Field {
  import opened Physics

  class PongField {
    const width: nat
    const height: nat
    const paddleHeight: nat
    const paddleWidth: nat
    const ballSize: nat
    var player1: int
    var player2: int
    var score1: int
    var score2: int
    var ballX: int
    var ballY: int

    function Geom(): Geometry {
      Geometry(width, height, paddleHeight, paddleWidth, ballSize)
    }

    function State(): FieldState
      reads this
    {
      FieldState(player1, player2, score1, score2, ballX, ballY)
    }

    /** A field of the given size: paddles a fifth of the height tall and a tenth of that
        wide, both centred, no points, the ball in the middle. */
    constructor (width: nat, height: nat)
      ensures this.width == width && this.height == height
      ensures paddleHeight == height / 5 && paddleWidth == paddleHeight / 10 && ballSize == height / 60
      ensures player1 == height / 2 && player2 == height / 2
      ensures score1 == 0 && score2 == 0
      ensures ballX == width / 2 && ballY == height / 2
      ensures Geom() == Layout(width, height) && State() == Kickoff(Geom())
    {
      this.width := width;
      this.height := height;
      paddleHeight := height / 5;
      paddleWidth := height / 5 / 10;
      ballSize := height / 60;
      player1 := height / 2;
      player2 := height / 2;
      score1 := 0;
      score2 := 0;
      new;
      ResetBall();
    }

    /** One step of the ball with velocity (dx, dy); the returned velocity is what the
        source writes back through its reference parameters. */
    method MoveBall(dx: int, dy: int) returns (dx': int, dy': int)
      modifies this`ballX, this`ballY
      ensures Ball(ballX, ballY, dx', dy') == Physics.MoveBall(Geom(), player1, player2, Ball(old(ballX), old(ballY), dx, dy))
    {
      dx', dy' := dx, dy;
      var newX := ballX + dx;
      var newY := ballY + dy;
      // upper wall
      if newY < 0 {
        dy' := -dy';
        newY := -newY;
      }
      // lower wall
      if newY > height {
        dy' := -dy';
        newY := 2 * height - newY;
      }
      // left paddle
      var paddle1Pos := 2 * paddleWidth;
      if ballX > paddle1Pos && newX <= paddle1Pos && 2 * Abs(newY - player1) <= paddleHeight {
        dx' := -dx';
        newX := 2 * paddle1Pos - newX;
      }
      // right paddle
      var paddle2Pos := width - 2 * paddleWidth;
      if ballX < paddle2Pos && newX >= paddle2Pos && 2 * Abs(newY - player2) <= paddleHeight {
        dx' := -dx';
        newX := 2 * paddle2Pos - newX;
      }
      ballX, ballY := newX, newY;
    }

    method Move1(dist: int)
      modifies this`player1
      ensures player1 == old(player1) + dist
    {
      player1 := player1 + dist;
    }

    method Move2(dist: int)
      modifies this`player2
      ensures player2 == old(player2) + dist
    {
      player2 := player2 + dist;
    }

    method Score1()
      modifies this`score1
      ensures score1 == old(score1) + 1
    {
      score1 := score1 + 1;
    }

    method Score2()
      modifies this`score2
      ensures score2 == old(score2) + 1
    {
      score2 := score2 + 1;
    }

    /** The point the next step with velocity (dx, dy) scores; dy plays no part. */
    function Score(dx: int, dy: int): (point: int)
      reads this
      ensures 0 <= point <= 2
      ensures point == 2 <==> ballX < 2 * paddleWidth && ballX + dx <= 0
      ensures point == 1 <==> !(ballX < 2 * paddleWidth && ballX + dx <= 0) && ballX > width - 2 * paddleWidth && ballX + dx >= width
    {
      Physics.Score(Geom(), ballX, dx)
    }

    function GameOver(): (over: bool)
      reads this
      ensures over <==> score1 >= POINTS || score2 >= POINTS
    {
      Physics.GameOver(State())
    }

    method ResetBall()
      modifies this`ballX, this`ballY
      ensures ballX == width / 2 && ballY == height / 2
    {
      ballX := width / 2;
      ballY := height / 2;
    }
  }
}
