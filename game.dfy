/** One step of the game loop (`PongGame::tick`) as a function on values, runs of steps,
    and the game object whose tick updates its field in place. */
module Game {
  import opened Physics
  import opened Input
  import Field

  /** The state tick works on: the field and the ball's velocity. */
  datatype GameState = GameState(field: FieldState, speedX: int, speedY: int)

  /** What a tick takes from outside: the keys held once the device has been read, and the
      velocity a new serve would get (the source draws it from the width and a random
      number). */
  datatype Frame = Frame(held: set<Key>, serveX: int, serveY: int)

  /** How far a held DOWN key and a held UP key move a paddle together. */
  function PaddleShift(held: set<Key>, down: Key, up: Key): int {
    (if down in held then 1 else 0) + (if up in held then -1 else 0)
  }

  /** The first part of a tick: if the coming step scores, award the point, recentre the
      ball and take the serve velocity. */
  function Serve(g: Geometry, s: GameState, f: Frame): GameState {
    var point := Score(g, s.field.ballX, s.speedX);
    if point == 1 then
      GameState(s.field.(score1 := s.field.score1 + 1, ballX := g.width / 2, ballY := g.height / 2), f.serveX, f.serveY)
    else if point == 2 then
      GameState(s.field.(score2 := s.field.score2 + 1, ballX := g.width / 2, ballY := g.height / 2), f.serveX, f.serveY)
    else s
  }

  /** The second part: one step of the ball. */
  function Fly(g: Geometry, s: GameState): GameState {
    var b := MoveBall(g, s.field.player1, s.field.player2, Ball(s.field.ballX, s.field.ballY, s.speedX, s.speedY));
    GameState(s.field.(ballX := b.x, ballY := b.y), b.dx, b.dy)
  }

  /** The last part: each paddle moves one unit per held key. */
  function Steer(s: GameState, held: set<Key>): GameState {
    s.(field := s.field.(player1 := s.field.player1 + PaddleShift(held, P1Down, P1Up),
                         player2 := s.field.player2 + PaddleShift(held, P2Down, P2Up)))
  }

  /** One tick: award a point and serve from the centre if the coming step scores, move
      the ball, then move each paddle one unit per held key. */
  function Advance(g: Geometry, s: GameState, f: Frame): (r: GameState)
    ensures s.field.score1 <= r.field.score1 && s.field.score2 <= r.field.score2
    ensures r.field.score1 + r.field.score2 <= s.field.score1 + s.field.score2 + 1
  {
    Steer(Fly(g, Serve(g, s, f)), f.held)
  }

  /** A tick scores at most one point, for the player Score names, and a scoring tick
      serves: the ball starts from the centre with the serve velocity. A tick without a
      point moves the ball on from where it was with its own velocity. */
  lemma TickAwardsPoint(g: Geometry, s: GameState, f: Frame)
    ensures var r := Advance(g, s, f);
      var point := Score(g, s.field.ballX, s.speedX);
      r.field.score1 == s.field.score1 + (if point == 1 then 1 else 0) &&
      r.field.score2 == s.field.score2 + (if point == 2 then 1 else 0) &&
      var start := if point == 0 then Ball(s.field.ballX, s.field.ballY, s.speedX, s.speedY)
                   else Ball(g.width / 2, g.height / 2, f.serveX, f.serveY);
      Ball(r.field.ballX, r.field.ballY, r.speedX, r.speedY) == MoveBall(g, s.field.player1, s.field.player2, start)
  {
  }

  /** Each paddle moves down one unit when only its DOWN key is held, up one unit when only
      its UP key is held, and stays put when both or neither are held. */
  lemma TickMovesPaddles(g: Geometry, s: GameState, f: Frame)
    ensures var r := Advance(g, s, f);
      (r.field.player1 - s.field.player1 == if P1Down in f.held && P1Up !in f.held then 1
                                            else if P1Up in f.held && P1Down !in f.held then -1
                                            else 0) &&
      (r.field.player2 - s.field.player2 == if P2Down in f.held && P2Up !in f.held then 1
                                            else if P2Up in f.held && P2Down !in f.held then -1
                                            else 0)
  {
  }

  /** The state after a run of ticks. */
  function Play(g: Geometry, s: GameState, frames: seq<Frame>): GameState
    decreases |frames|
  {
    if frames == [] then s else Play(g, Advance(g, s, frames[0]), frames[1..])
  }

  /** Scores never go down, and a run of n ticks adds at most n points in all. */
  lemma {:induction false} PlayScoreBound(g: Geometry, s: GameState, frames: seq<Frame>)
    ensures var r := Play(g, s, frames);
      s.field.score1 <= r.field.score1 && s.field.score2 <= r.field.score2 &&
      r.field.score1 + r.field.score2 <= s.field.score1 + s.field.score2 + |frames|
    decreases |frames|
  {
    if frames != [] {
      TickAwardsPoint(g, s, frames[0]);
      PlayScoreBound(g, Advance(g, s, frames[0]), frames[1..]);
    }
  }

  /** From a newly built field, the game cannot be over in fewer than POINTS ticks. */
  lemma GameLastsPointsTicks(g: Geometry, speedX: int, speedY: int, frames: seq<Frame>)
    requires |frames| < POINTS
    ensures !GameOver(Play(g, GameState(Kickoff(g), speedX, speedY), frames).field)
  {
    PlayScoreBound(g, GameState(Kickoff(g), speedX, speedY), frames);
  }

  /** After the fixed calls run makes before its loop (one point for player 1, two for
      player 2), the game cannot be over in fewer than POINTS - 2 ticks. */
  lemma GameLastsAfterPrelude(g: Geometry, speedX: int, speedY: int, frames: seq<Frame>)
    requires |frames| < POINTS - 2
    ensures var k := Kickoff(g);
      var start := k.(player1 := k.player1 + 10, player2 := k.player2 - 20,
                      score1 := k.score1 + 1, score2 := k.score2 + 2);
      !GameOver(Play(g, GameState(start, speedX, speedY), frames).field)
  {
    var k := Kickoff(g);
    var start := k.(player1 := k.player1 + 10, player2 := k.player2 - 20,
                    score1 := k.score1 + 1, score2 := k.score2 + 2);
    assert start.score1 == 1 && start.score2 == 2;
    PlayScoreBound(g, GameState(start, speedX, speedY), frames);
    var r := Play(g, GameState(start, speedX, speedY), frames).field;
    assert r.score1 < POINTS && r.score2 < POINTS;
  }

  /** The ball is within the top and bottom walls and its vertical speed is at most the
      field's height. */
  predicate BallInField(g: Geometry, s: GameState) {
    0 <= s.field.ballY <= g.height && Abs(s.speedY) <= g.height
  }

  /** A tick keeps the ball between the walls when the serve's vertical speed is at most
      the height. */
  lemma TickKeepsBallInField(g: Geometry, s: GameState, f: Frame)
    requires BallInField(g, s) && Abs(f.serveY) <= g.height
    ensures BallInField(g, Advance(g, s, f))
  {
  }

  /** If every serve's vertical speed is at most the height, the ball never leaves the
      space between the walls, whatever the keys and the points. */
  lemma {:induction false} PlayKeepsBallInField(g: Geometry, s: GameState, frames: seq<Frame>)
    requires BallInField(g, s)
    requires forall i :: 0 <= i < |frames| ==> Abs(frames[i].serveY) <= g.height
    ensures BallInField(g, Play(g, s, frames))
    decreases |frames|
  {
    if frames != [] {
      var next := Advance(g, s, frames[0]);
      TickKeepsBallInField(g, s, frames[0]);
      assert forall i :: 0 <= i < |frames[1..]| ==> frames[1..][i] == frames[i + 1];
      PlayKeepsBallInField(g, next, frames[1..]);
    }
  }

  /** Once over, the game stays over. */
  lemma {:induction false} GameOverIsFinal(g: Geometry, s: GameState, frames: seq<Frame>)
    requires GameOver(s.field)
    ensures GameOver(Play(g, s, frames).field)
  {
    PlayScoreBound(g, s, frames);
  }

  /** The game object: the field it owns and the ball's velocity. */
  class PongGame {
    const field: Field.PongField
    var speedX: int
    var speedY: int

    function State(): GameState
      reads this, field
    {
      GameState(field.State(), speedX, speedY)
    }

    /** A game on a new field of the given size; (speedX, speedY) is the first serve. */
    constructor (width: nat, height: nat, speedX: int, speedY: int)
      ensures fresh(field)
      ensures field.Geom() == Layout(width, height)
      ensures State() == GameState(Kickoff(field.Geom()), speedX, speedY)
    {
      field := new Field.PongField(width, height);
      this.speedX := speedX;
      this.speedY := speedY;
    }

    /** The fixed adjustments run makes before its loop: paddle 1 down 10, paddle 2 up 20,
        one point for player 1 and two for player 2. */
    method Prelude()
      modifies field
      ensures field.State() == old(field.State()).(player1 := old(field.player1) + 10, player2 := old(field.player2) - 20,
                                                   score1 := old(field.score1) + 1, score2 := old(field.score2) + 2)
    {
      field.Move1(10);
      field.Move2(-20);
      field.Score1();
      field.Score2();
      field.Score2();
    }

    /** One tick with the keys held in `held`, which is `Input.Input.Held()` once the
        device's events have been handled; (serveX, serveY) is the velocity a serve after
        a point gets. */
    method Tick(held: set<Key>, serveX: int, serveY: int)
      modifies this, field
      ensures State() == Advance(field.Geom(), old(State()), Frame(held, serveX, serveY))
    {
      ghost var g := field.Geom();
      ghost var s := State();
      ghost var f := Frame(held, serveX, serveY);
      var point := field.Score(speedX, speedY);
      if point == 1 {
        field.Score1();
        speedX, speedY := serveX, serveY;
        field.ResetBall();
      } else if point == 2 {
        field.Score2();
        speedX, speedY := serveX, serveY;
        field.ResetBall();
      }
      assert State() == Serve(g, s, f);
      speedX, speedY := field.MoveBall(speedX, speedY);
      assert State() == Fly(g, Serve(g, s, f));
      if P1Down in held {
        field.Move1(1);
      }
      if P1Up in held {
        field.Move1(-1);
      }
      if P2Down in held {
        field.Move2(1);
      }
      if P2Up in held {
        field.Move2(-1);
      }
    }
  }
}
