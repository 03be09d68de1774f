# Flappy-bird game loop, modelled in Dafny

A model of a browser Flappy-Bird game: a bird falls under constant gravity,
a jump sets its velocity to a fixed upward value, pipes with a vertical gap
enter from the right every 100 frames, move left three pixels per frame, are
scored once the bird has cleared them and are dropped once off the field. The
round ends when the bird leaves the field or touches a pipe. Around the game
an application shell holds the phase (menu, playing, game over), the current
and best score, and the commentary shown after a round.

The model has six modules:

- `Types` (`types.dfy`): the phase, a pipe, the score pair.
- `Constants` (`constants.dfy`): gravity 0.25, jump −5.5, pipe speed 3,
  spawn rate 100, pipe width 60, gap 180, bird x 50, bird size 34, and the
  400×711 canvas.
- `Pipes` (`pipes.dfy`): the pure part of a tick: rectangles and the
  collision test, the random gap placement, moving and scoring the pipes,
  pruning, and the lemmas about them.
- `FlappyBird` (`flappy_bird.dfy`): the mutable game record as a class
  `Game` whose methods reset it, apply a jump, and run one tick / one frame.
  Its invariant `Valid()` says the pipes are well placed and in spawn order,
  every pruned pipe was scored, and the score is exactly the number of
  pipes passed this round.
- `GameApp` (`app.dfy`): the application shell as a class `App`, and the
  score-pair updates as a function `Apply`, with lemmas that the best score
  only grows and equals the best final score ever reported.
- `Session` (`session.dfy`): the game mounted in the shell, with the game's
  score and round-end callbacks wired to the shell's handlers; it keeps the
  shown score equal to the game's score.

The bird's height and velocity are exact `real`s (every value is a multiple
of 0.25, so nothing depends on floating-point rounding). Pipe coordinates are
integers. `Math.random()` becomes a parameter `rand` with `0 <= rand < 1`,
and the gap's top is computed from it by the game's formula (floor of
`rand * (maxH − minH + 1) + minH`), in exact arithmetic.

Three facts about the code that the model keeps:

- The collision test is `!(a.left > b.right || a.right < b.left || a.top > b.bottom || a.bottom < b.top)`,
  so rectangles that only touch along an edge collide (`Pipes.TouchingIsHit`).
- A jump is its own operation on the game record between frames
  (`Game.Jump`), not an input of the tick.
- A pipe is dropped once `x + width <= 0` (it is kept while
  `x + width > 0`).

## Model

| member | source | states |
|---|---|---|
| `Pipes.CheckCollision` | components/FlappyBird.tsx:152 | no common point when false; for well-formed rectangles, true means both contain the corner (max left, max top), so touching edges collide |
| `Pipes.PipeHit` | components/FlappyBird.tsx:149-154 | for a bird inside the field: hit iff the pipe overlaps the bird's columns and the bird is not strictly inside the gap |
| `Pipes.TouchingIsHit` | components/FlappyBird.tsx:150-154 | a bird whose bottom touches the lower barrier's top is hit; half a pixel higher it is not |
| `Pipes.GapTop` | components/FlappyBird.tsx:120-122 | the gap top drawn in exact arithmetic lies in [50, height − 230] whenever that range is not empty |
| `Pipes.GapReach` | components/FlappyBird.tsx:120-122 | every gap top in [50, 481] on the game's field is drawn by some sample in [0, 1), so the sample parameter does not narrow the range |
| `Pipes.Spawned` | components/FlappyBird.tsx:119-124 | exactly one pipe is pushed iff the frame number is a multiple of 100; it is at x = 400, width 60, unscored, gap top in [50, 481] |
| `Pipes.MoveAll` | components/FlappyBird.tsx:126-129 | every pipe moves left by 3, keeps gap and width, and is passed afterwards iff it was or its right edge is now left of x = 50 |
| `Pipes.Scored` | components/FlappyBird.tsx:128-130 | only pipes not yet passed can score: scored plus already passed is at most the pipe count |
| `Pipes.MovedCount` | components/FlappyBird.tsx:126-133 | the passed pipes after a move are those before plus exactly the newly scored ones, so no pipe scores twice |
| `Pipes.Prune` | components/FlappyBird.tsx:135 | the survivors are exactly the input pipes with right edge > 0 |
| `Pipes.Dropped` | components/FlappyBird.tsx:135 | the removed pipes are exactly the input pipes with right edge <= 0 |
| `Pipes.PruneAppend` | components/FlappyBird.tsx:135 | pruning distributes over concatenation, so survivors keep their order |
| `Pipes.PruneSplit` | components/FlappyBird.tsx:135 | survivors and removed pipes partition the list and its passed pipes |
| `Pipes.NothingDroppedUnscored` | components/FlappyBird.tsx:126-135 | every pipe the prune removes after a move is passed, so no pipe leaves the field unscored |
| `Pipes.TickPipes` | components/FlappyBird.tsx:119-135 | spawn, move and prune keep the pipe list well placed, and passed-on-field plus removed grows by exactly the number scored |
| `Pipes.SpawnAddsNothing` | components/FlappyBird.tsx:123-130 | a freshly pushed pipe is not passed and does not score on the tick it is pushed |
| `Pipes.TickWellPlaced` | components/FlappyBird.tsx:119-135 | after spawn, move and prune every pipe has width 60, a gap top in the spawn range, is still on the field, and is passed once left of the bird |
| `Pipes.TickConsistent` | components/FlappyBird.tsx:119-135 | a tick keeps the pipes well placed and in spawn order, every pruned pipe passed, and the score equal to the passed pipes on the field plus the pruned ones |
| `Pipes.PruneKeepsOrder` | components/FlappyBird.tsx:135 | pruning a left-to-right list leaves it left to right |
| `Pipes.TickKeepsOrder` | components/FlappyBird.tsx:119-135 | after a tick the pipes still lie left to right in spawn order, all left of x = 400 |
| `Pipes.FreshPipeAfter` | components/FlappyBird.tsx:123-130 | a spawned pipe is at x = 400 − 3k after k ticks and is passed from tick 137 on |
| `Pipes.FreshPipeScoredBeforePruned` | components/FlappyBird.tsx:126-135 | a spawned pipe stays on the field for exactly 153 ticks and is passed before it is pruned |
| `FlappyBird.Game.constructor` | components/FlappyBird.tsx:24-32 | the initial record: y 300, velocity 0, no pipes, frame 0, score 0 |
| `FlappyBird.Game.ResetGameData` | components/FlappyBird.tsx:40-50 | the record is back to y 300, velocity 0, no pipes, frame 0, score 0, with the invariant |
| `FlappyBird.Game.Jump` | components/FlappyBird.tsx:52-56 | while playing the velocity becomes −5.5 whatever it was; otherwise nothing changes |
| `FlappyBird.Game.Tick` | components/FlappyBird.tsx:113-158 | velocity + 0.25 then y + velocity, frame + 1, pipes spawned, moved, scored and pruned, one event per point scored carrying the new score, and the round ends with the score iff the bird is out of the field or meets a pipe; the invariant is kept |
| `FlappyBird.Game.UpdatePipes` | components/FlappyBird.tsx:119-135 | the pipes become the pruned, moved list with the spawned pipe appended, the pruned pipes are recorded, the score rises by the number scored, and the invariant is kept |
| `FlappyBird.Game.EndCheck` | components/FlappyBird.tsx:137-158 | the round ends with the current score iff the bird is out of the field or meets a pipe |
| `FlappyBird.Game.MovePipes` | components/FlappyBird.tsx:126-133 | the loop leaves the pipes moved, the score raised by the number scored, and the events counting up from the old score |
| `FlappyBird.Game.HitsPipe` | components/FlappyBird.tsx:149-158 | the scan reports a hit iff some pipe's upper or lower barrier meets the bird |
| `FlappyBird.Game.Draw` | components/FlappyBird.tsx:106-201 | outside a round nothing changes, no event and no frame is requested; in a round one tick runs: velocity + 0.25 then y + velocity, frame + 1, pipes spawned, moved, scored and pruned, score raised by the pipes scored, events counting up from the old score, the round ends with the score iff the bird is out of the field or meets a pipe, and the next frame is requested iff the round goes on |
| `FlappyBird.Game.PhaseChanged` | components/FlappyBird.tsx:204-210 | entering a round resets the record and requests a frame; any other phase changes nothing |
| `FlappyBird.NoPipeOnFirstTick` | components/FlappyBird.tsx:119-135 | after the first tick of a round no pipe is on the field |
| `FlappyBird.FirstTickOfRound` | components/FlappyBird.tsx:115-117 | the first tick of a fresh round gives y 300.25, velocity 0.25, score 0 and no game over |
| `Session.Start` | App.tsx:43-47 | the start button, offered only outside a round, enters the playing phase, clears the commentary and the game resets to a fresh round, with shown score = game score = 0; the best, the loading flag and the stored best are kept |
| `Session.Frame` | components/FlappyBird.tsx:126-158 | in a round the game takes one tick (frame + 1, velocity + gravity, y + velocity, pipes = the spawned, moved and pruned list, removed grows by the pruned pipes, score + the pipes scored) and every score event reaches the score handler and a round end the game-over handler: the shown score stays the game's score and the commentary stays; the round ends iff the bird is out of the field or meets a pipe, and then the phase is game over, the commentary is loading, the best is max(old best, final) and storage holds it; otherwise the phase stays playing and the best, the loading flag and storage are exactly as before; outside a round nothing changes, so no second round end follows |
| `Session.Report` | components/FlappyBird.tsx:131-158 | a round's frame hands its score events in order and then its end to the shell: without an end the phase, best, loading flag and storage stay and the shown score is the last event; with one the phase is game over, loading is on, the score pair is (final, max(old best, final)) and storage holds the new best |
| `Session.ReportScores` | components/FlappyBird.tsx:131 | each score event of a frame reaches the score handler in order, so the shown score becomes the last one and the best is kept |
| `GameApp.Apply` | App.tsx:22-47 | each handler's score update: a round end records the final score and raises the best to it if lower; start clears the current score; an update sets it; the best never drops |
| `GameApp.BestFinal` | App.tsx:32 | the maximum of the starting best and every final score: at least each of them and equal to one of them |
| `GameApp.ReplayHigh` | App.tsx:26-35 | after any run of handlers the best score is the best of the starting best and every final score |
| `GameApp.HighNeverShrinks` | App.tsx:22-47 | the best score after a longer run of handlers is at least the best after any prefix |
| `GameApp.App.constructor` | App.tsx:9-12 | menu phase, score {0, 0}, empty commentary, not loading |
| `GameApp.App.HandleScoreUpdate` | App.tsx:22-24 | only the current score changes, to the reported one |
| `GameApp.App.HandleGameOver` | App.tsx:26-35 | game-over phase, loading on, current = final, best = max(old best, final), and storage holds the new best |
| `GameApp.App.ShowCommentary` | App.tsx:39-40 | the commentary is the returned text and loading is off |
| `GameApp.App.StartGame` | App.tsx:43-47 | playing phase, empty commentary, current 0, best unchanged |

## Left out

- Canvas drawing (background grid, pipe gradients and caps, the bird's body,
  eye and beak, components/FlappyBird.tsx:93-104, 161-197) and the bird's
  rotation (line 177): presentation only, and the rotation uses floating
  point `Math.PI`.
- Frame scheduling: `requestAnimationFrame`, `cancelAnimationFrame`, the
  `isDestroyed` flag, the effect clean-up and the record's `animationId` and
  `lastTime` fields. `Game.Draw` returns whether the next frame would be
  requested instead.
- Input wiring: the keyboard and pointer listeners; only the effect of a jump
  is modelled.
- `Math.random`: a parameter `rand` in [0, 1) of the tick.
- `Pipes.GapTop`: computes `rand * (maxH − minH + 1) + minH` in exact reals,
  while the game computes it in IEEE doubles; for a few samples the rounding
  can shift the drawn gap top by one. The range [50, 481] holds either way.
- Local storage: reading the saved best score at start-up (and its
  `parseInt`) is not modelled, so the model starts with best 0; the write is
  the ghost field `App.stored`.
- The commentary service and the `await` before showing its text: external
  network code; `App.ShowCommentary` takes the text as a parameter. The best
  score handed to the service is not modelled.
- The overlay, the page markup and the build configuration.
- Pipes are objects updated in place by the game; the model keeps them as
  values in a sequence that the methods reassign. No other code holds a
  reference to a pipe, so no aliasing is lost.
