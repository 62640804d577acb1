# Pong game-state model

A Dafny model of the game logic of a two-player framebuffer Pong (`pong.cpp`):

- the playing field (`PongField`): its geometry, derived from the screen width and height; the two paddle centres; the two scores; and the ball position;
- the rules that change the field:
  - `moveBall` reflects the ball off the top and bottom walls and off the two paddle lines;
  - `score` decides whether the next step is a point;
  - `move1`/`move2`, `score1`/`score2`, `resetBall` and `gameOver` are the small updates and queries;
- one step of the game loop (`PongGame::tick`);
- the start-up rule that gives the first four key codes a keyboard supports to the four logical keys (`Input::Input`), and the per-event update of the key state.

Modules:

- `CppInt` (cpp_int.dfy) gives the C++ integer conversions: an `int` compared with a `size_t` is converted to unsigned.
- `Physics` (physics.dfy) holds the rules as functions on values: `Geometry`, `FieldState`, `Ball`, `Walls`, `MoveBall`, `Score` and `GameOver`, with their properties.
- `Field` (field.dfy) is the `PongField` class. Its fields are updated in place. `MoveBall`, `Score` and `GameOver` are proved equal to their `Physics` functions; the small updates (`Move1`, `Move2`, `Score1`, `Score2`, `ResetBall`) state their effect on the fields directly.
- `Game` (game.dfy) holds `Advance`, one tick as a function, and `Play`, a run of ticks, with lemmas over runs. It also holds the `PongGame` class, whose `Tick` is proved equal to `Advance`.
- `Input` (input.dfy) holds the key-assignment scan as a loop proved against `KeyAssignment`, the properties of that assignment, and the `Input` key state.
- `AsWritten` (as_written.dfy) holds `score` and `moveBall` with the source's mixed signed/unsigned comparisons, the lemmas that show where they agree with `Physics`, and three counterexamples (see Findings).

The ball's velocity comes from `resetSpeed`, which uses floats and a random generator. It enters the model as integer inputs: the first serve is a constructor argument, and the serve after a point is an argument of each tick. The keys a tick sees are a `set<Key>` of held keys.

## Model

| member | source | states |
|---|---|---|
| `Physics.Walls` | pong.cpp:142-154 | The wall part of a step. Within the walls it is a plain move. A target up to one height above the top is mirrored (y = −newY), dy negated. Below the bottom it is 2·height − newY with dy negated. A target at most one height outside lands in [0, height]. The speed is unchanged. |
| `Physics.MoveBall` | pong.cpp:138-173 | One step of the ball. The speed in each axis is unchanged. Starting in [0, height] with \|dy\| ≤ height, the ball stays in [0, height]. The vertical result is that of the walls. |
| `Physics.FreeFlight` | pong.cpp:138-173 | A step that meets no wall and no paddle moves the ball by exactly (dx, dy) and keeps the velocity. |
| `Physics.HorizontalReflection` | pong.cpp:156-169 | With the lines in order and \|dx\| no longer than the distance between them, a paddle returns the ball exactly when both hold: the ball crosses its line from the field side in this step, and 2·\|newY − paddle\| ≤ paddleHeight. A returned ball is mirrored about that line (2·paddleWidth or width − 2·paddleWidth) with dx negated, and lands between the lines. Both paddles never return it in the same step. Otherwise x moves by dx. |
| `Physics.Score` | pong.cpp:195-206 | Returns 0, 1 or 2. It returns 2 exactly when the ball is left of the left line and x + dx ≤ 0. It returns 1 exactly when it does not return 2 and the ball is right of the right line with x + dx ≥ width. |
| `Physics.GameOver` | pong.cpp:208-211 | The game is over exactly when either score is at least POINTS (5). While the game is not over, the two scores add up to at most 2·(POINTS − 1). |
| `Physics.PointOnlyForMissedBall` | pong.cpp:195-206 | A ball that scores for player 2 cannot be returned by the left paddle, and one that scores for player 1 cannot be returned by the right paddle. A ball between the lines never scores. |
| `Field.PongField.constructor` | pong.cpp:119-127 | paddleHeight = height/5, paddleWidth = paddleHeight/10, ballSize = height/60. Both paddles are at height/2, both scores are 0, and the ball is at (width/2, height/2). |
| `Field.PongField.MoveBall` | pong.cpp:138-173 | The new ball position and the returned velocity are `Physics.MoveBall` of the old ones. Paddles and scores are untouched. |
| `Field.PongField.Move1` | pong.cpp:175-178 | Paddle 1 moves by dist. Nothing else changes. |
| `Field.PongField.Move2` | pong.cpp:180-183 | Paddle 2 moves by dist. Nothing else changes. |
| `Field.PongField.Score1` | pong.cpp:185-188 | Score 1 rises by exactly 1. Nothing else changes. |
| `Field.PongField.Score2` | pong.cpp:190-193 | Score 2 rises by exactly 1. Nothing else changes. |
| `Field.PongField.Score` | pong.cpp:195-206 | A read-only query returning 0, 1 or 2. It returns 2 exactly when the ball is left of 2·paddleWidth and x + dx ≤ 0, and 1 exactly when it does not return 2, the ball is right of width − 2·paddleWidth and x + dx ≥ width. dy plays no part. |
| `Field.PongField.GameOver` | pong.cpp:208-211 | True exactly when either score is at least POINTS (5). |
| `Field.PongField.ResetBall` | pong.cpp:213-217 | The ball goes back to (width/2, height/2). Nothing else changes. |
| `Game.Advance` | pong.cpp:304-331 | One tick never lowers either score and raises the two together by at most 1. |
| `Game.TickKeepsBallInField` | pong.cpp:142-154 | A tick that starts with the ball between the walls and \|dy\| ≤ height, and whose serve has \|dy\| ≤ height, ends with the ball between the walls and \|dy\| ≤ height. |
| `Game.TickAwardsPoint` | pong.cpp:304-319 | A tick raises the score of the player `score` names by exactly 1 and leaves the other score alone. On a point, the ball moves from the centre with the serve velocity. Otherwise it moves on from where it was. |
| `Game.TickMovesPaddles` | pong.cpp:321-330 | Each paddle moves +1 when only its DOWN key is held and −1 when only its UP key is held. It stays put when both or neither are held. |
| `Game.PlayScoreBound` | pong.cpp:304-318 | Over a run of n ticks, the scores never decrease and rise by at most n in total. |
| `Game.GameLastsPointsTicks` | pong.cpp:208-211 | From a new field, before the fixed calls at the start of `run`, fewer than POINTS ticks cannot end the game. |
| `Game.GameLastsAfterPrelude` | pong.cpp:277-283 | After the fixed calls at the start of `run` (score 1 at 1, score 2 at 2), fewer than POINTS − 2 ticks cannot end the game. |
| `Game.GameOverIsFinal` | pong.cpp:283 | Once the game is over, it stays over whatever ticks follow. |
| `Game.PlayKeepsBallInField` | pong.cpp:142-154 | If the ball starts between the walls with \|dy\| ≤ height, and every serve has \|dy\| ≤ height, it stays between the walls through any run of ticks. |
| `Game.PongGame.constructor` | pong.cpp:266-271 | A new field of the given size, with the given first velocity. |
| `Game.PongGame.Prelude` | pong.cpp:277-281 | The fixed calls at the start of `run`: paddle 1 +10, paddle 2 −20, score 1 +1, score 2 +2. |
| `Game.PongGame.Tick` | pong.cpp:304-331 | The new field and velocity are `Game.Advance` of the old ones. The point check and recentring come first, then `moveBall`, then the four key tests. |
| `Input.SupportedBelowSorted` | pong.cpp:60-62 | The scan's list of codes holds exactly the supported codes below the bound, strictly ascending. |
| `Input.KeyAssignment` | pong.cpp:59-76 | The outcome is `NotEnoughEvents` exactly when fewer than four supported codes lie below KEY_MAX. A successful map uses only supported codes below KEY_MAX. |
| `Input.AssignKeys` | pong.cpp:59-76 | The loop over codes 0 … KEY_MAX−1 pops the key queue into the map and stops when the queue is empty. Its result equals `KeyAssignment`: the first four supported codes paired with P2_DOWN, P1_UP, P1_DOWN, P2_UP, or NotEnoughEvents. |
| `Input.AssignmentComplete` | pong.cpp:67-69 | Stopping at the fourth supported code gives the same map as scanning every code. |
| `Input.AssignmentShape` | pong.cpp:59-76 | In a successful assignment, the i-th supported code (i < 4) is mapped to the i-th queued key, and no other code is mapped. |
| `Input.AssignmentCoversKeys` | pong.cpp:59-76 | Exactly four codes are mapped. Each is a supported code below KEY_MAX. Every logical key gets a code, so no key gets two codes. |
| `Input.AssignmentFollowsScanOrder` | pong.cpp:59-71 | Of two mapped codes, the smaller one holds the key queued earlier. |
| `Input.AssignmentIsFirstFour` | pong.cpp:60-71 | A supported code that is left unmapped lies above every mapped code. |
| `Input.AssignmentFailsIffTooFewCodes` | pong.cpp:73-76 | The error (`runtime_error("Not enough events found")`) happens exactly when fewer than four key codes below KEY_MAX are supported. |
| `Input.Input.constructor` | pong.cpp:109-112 | A new key state with the given code-to-key map and no key held. |
| `Input.Input.IsKeyActive` | pong.cpp:105-108 | A key is active exactly when its state entry exists and is true. A key never seen reads as released. |
| `Input.Input.HandleEvent` | pong.cpp:94-98 | A key event for a mapped code sets that key to held when value ≠ 0 and released when value = 0. All other keys, and all other events, leave the state alone. |
| `Input.Input.Held` | pong.cpp:105-108 | The set of held keys is exactly the keys `IsKeyActive` reports. |
| `AsWritten.ScoreAsWritten` | pong.cpp:195-206 | `score` with the source's int/size_t comparisons. It still returns 0, 1 or 2. |
| `AsWritten.MoveBallAsWritten` | pong.cpp:138-173 | `moveBall` with the source's int/size_t comparisons. The speed in each axis is unchanged. |
| `AsWritten.ScoreAgreesOnField` | pong.cpp:195-206 | While x and x + dx are non-negative ints, the source's `score` equals `Physics.Score`. |
| `AsWritten.PaddleTestsAgree` | pong.cpp:156-169 | For non-negative coordinates that fit an int, the source's paddle tests equal the signed ones. |
| `AsWritten.MoveBallAgreesOnField` | pong.cpp:138-173 | While x and x + dx are non-negative ints and the ball is between the walls, the source's `moveBall` equals `Physics.MoveBall`. |
| `AsWritten.LeftExitScoredForPlayer1` | pong.cpp:201-204 | A counterexample: a missed ball reaches x = −8, and the source's `score` then returns 1 where `Physics.Score` returns 2. |
| `AsWritten.MissedBallReturnedByRightPaddle` | pong.cpp:164-169 | A counterexample: the same missed ball is returned by the right paddle to x = 6776. |
| `AsWritten.CoveredBallMissedByLeftPaddle` | pong.cpp:156-162 | A counterexample: with paddle 1 level with the ball, `Physics.MoveBall` returns it to x = 120, but the source's `moveBall` lets it through to x = −8, where the source's `score` gives player 1 the point. |

## Left out

- Drawing (`draw`, `drawPaddle`, `drawLine`, `drawScore`, `drawBall`). These are calls into the tfblib framebuffer library with float scaling. `ballSize` is computed but used only there.
- The frame loop of `PongGame::run`: clock reads, `usleep` and redraws. `Game.Play` stands for a run of ticks, and `Game.PongGame.Prelude` stands for the fixed calls before the loop.
- `resetSpeed`, `random` and `mSpeed` use floats and a Mersenne-Twister generator. The velocities they produce are inputs. Before the first `resetSpeed` the source's velocity is uninitialised; the model takes it as a constructor argument.
- `Game.PlayKeepsBallInField` assumes every serve has \|dy\| ≤ height. The source's serve has \|dy\| < 0.02·width, which meets this whenever the width is below 50 times the height.
- `Input::Input`: opening the device, the libevdev set-up, the keyboard check and their `exit(1)` paths are I/O through a foreign library. They are not modelled. The device's key capabilities enter as the set `supported`. The thrown exception is the `NotEnoughEvents` outcome.
- `Input::process`: the loop that reads events from libevdev until it reports no more is I/O. `Input.Input.HandleEvent` models what happens to one event read with status 0. A tick takes the held keys as a set.
- `Input.Input.IsKeyActive`: `std::map::operator[]` inserts a false entry for an unseen key. This has no visible effect, so the model reads without inserting.
- `main`, argument handling, acquiring and releasing the framebuffer, and test.cpp are I/O only.
- `size_t` is taken to be 64 bits wide (`CppInt.SIZE_MOD` = 2^64). On a 32-bit target the three counterexamples in Findings come out the same: −8 becomes 2^32 − 8, and 6768 − (2^32 − 8) wraps to 6776.
- 32-bit `int` overflow is not modelled. Positions, scores and paddle centres are unbounded integers. Reaching overflow would need about 10^9 ticks with a key held or billions of points.
- `Physics.HorizontalReflection` is stated only for steps no longer than the distance between the two paddle lines. A longer step can pass both paddle tests in one move.
- `Field.PongField.MoveBall`, `Field.PongField.Score` and `Game.PongGame.Tick` compare the ball's coordinates as signed values. The source compares them against unsigned `size_t` values. This is the corrected behaviour of the Findings below; `AsWritten` models the comparisons as written.

## Findings

The ball's x coordinate is an `int`. The paddle lines and the width are `size_t`. In a comparison between the two, C++ converts a negative x into a huge unsigned number. A ball can reach negative x when one step is longer than the gap between the left edge and the left paddle line. If player 1 misses it, the ball then lands at negative x; if player 1 covers it, the source's own paddle test reads the negative landing point as unsigned and misses it too. On a 3440×1440 screen that gap is 56 while the speed is int(0.02·3440) = 68.

| source | as written | input that shows it | evidently intended | confidence | as-written member | corrected member |
|---|---|---|---|---|---|---|
| pong.cpp:201-204 | `score` tests `mBallX < paddle1Pos` and `mBallX > paddle2Pos` against size_t values. For mBallX = −8 the first test fails, the second passes, and `newX >= mWidth` passes too, so it returns 1. | 3440×1440 field, both paddles at y = 1000. The ball at (60, 300) moves by (−68, 0) and lands at x = −8. The next `score(−68, ·)` returns 1. | 2: the ball left on player 1's side, so player 2 scores. | not executed; follows from the C++ usual arithmetic conversions | `AsWritten.LeftExitScoredForPlayer1` | `Physics.Score` |
| pong.cpp:165 | `newX >= paddle2Pos` is true for a negative newX. A missed ball at the left edge therefore passes the right-paddle test whenever paddle 2 is level with it. | The same field and ball, with paddle 2 at y = 300. `moveBall` returns x = 6776 and dx = +68, beyond the right edge. | No return by the right paddle: the ball stays at x = −8 with dx = −68. | not executed; follows from the C++ usual arithmetic conversions | `AsWritten.MissedBallReturnedByRightPaddle` | `Physics.MoveBall` |
| pong.cpp:158 | `newX <= paddle1Pos` is false for a negative newX. A ball that crosses the left paddle line and would land below 0 is not returned even when paddle 1 covers it. | 3440×1440 field, paddle 1 at y = 300, paddle 2 at y = 1000. The ball at (60, 300) moves by (−68, 0). `moveBall` leaves it at x = −8 with dx = −68; the next `score(−68, ·)` returns 1. | The paddle returns the ball: x = 2·56 + 8 = 120, dx = +68. | not executed; follows from the C++ usual arithmetic conversions | `AsWritten.CoveredBallMissedByLeftPaddle` | `Physics.MoveBall` |

For the corrected definitions:

- `Physics.Score` proves that it returns 2 exactly when the ball is left of the left line and x + dx ≤ 0.
- `Physics.HorizontalReflection` proves that the left paddle returns the ball exactly when it crosses the left line within the paddle's reach, and the right paddle only when the ball crosses the right line.
- `AsWritten.ScoreAgreesOnField` and `AsWritten.MoveBallAgreesOnField` show that the two versions agree as long as x stays non-negative.
