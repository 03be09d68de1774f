/** The game component mounted in the shell: the game's score and round-end
    callbacks go to the shell's handlers, and the shell's phase drives the
    game's frames and its reset. */
module Session {
  import opened Types
  import opened Constants
  import opened Pipes
  import opened FlappyBird
  import opened GameApp

  /** The score the shell shows is the game's score. */
  ghost predicate Synced(app: App, game: Game)
    reads app, game
  {
    app.score.current == game.score
  }

  /** The start button, shown only outside a round: the shell enters a round,
      clears the commentary and the current score, and the game, seeing the
      new phase, resets and requests its first frame. */
  method Start(app: App, game: Game) returns (scheduled: bool)
    requires app.Valid() && game.Valid() && app.phase != Playing
    modifies app, game
    ensures app.Valid() && game.Valid() && Synced(app, game)
    ensures app.phase == Playing && game.Fresh() && scheduled
    ensures app.score.high == old(app.score.high) && app.commentary == ""
    ensures app.loadingCommentary == old(app.loadingCommentary) && app.stored == old(app.stored)
  {
    app.StartGame();
    scheduled := game.PhaseChanged(app.phase);
  }

  /** One animation frame in the shell's current phase. Every score event is
      handed to the score handler in order and a round end to the game-over
      handler. Outside a round nothing changes. In a round the game takes one
      tick (frame, velocity, height and score as in `Game.Tick`), the shown
      score stays the game's score, the commentary stays, and the round ends
      exactly when the bird left the field or met a pipe; then the phase is
      game over, the commentary is loading and the best is the better of the
      old best and the final score; otherwise the phase stays playing and
      the best and the loading flag stay as they were. */
  method Frame(app: App, game: Game, rand: real) returns (again: bool)
    requires app.Valid() && game.Valid() && Synced(app, game) && 0.0 <= rand < 1.0
    modifies app, game
    ensures app.Valid() && game.Valid() && Synced(app, game)
    ensures old(app.phase) != Playing ==> unchanged(app) && unchanged(game) && !again
    ensures old(app.phase) == Playing ==>
      app.score.high >= old(app.score.high) &&
      (again <==> app.phase == Playing) &&
      (!again <==> OutOfBounds(game.birdY) || AnyHit(game.birdY, game.pipes)) &&
      (!again ==> app.phase == GameOver && app.loadingCommentary &&
                  app.score.high == Best(old(app.score.high), game.score))
    ensures old(app.phase) == Playing ==>
      game.frameCount == old(game.frameCount) + 1 &&
      game.birdVel == old(game.birdVel) + Gravity &&
      game.birdY == old(game.birdY) + game.birdVel &&
      game.score == old(game.score) + Scored(old(game.pipes)) &&
      app.commentary == old(app.commentary)
    ensures old(app.phase) == Playing ==>
      game.pipes == Prune(MoveAll(old(game.pipes) + Spawned(game.frameCount, rand))) &&
      game.removed == old(game.removed) + Dropped(MoveAll(old(game.pipes) + Spawned(game.frameCount, rand)))
    ensures old(app.phase) == Playing && again ==>
      app.score.high == old(app.score.high) && app.loadingCommentary == old(app.loadingCommentary) &&
      app.stored == old(app.stored)
    ensures old(app.phase) == Playing && !again ==> app.stored == Some(app.score.high)
  {
    var updates, over;
    if app.phase != Playing {
      updates, over, again := game.Draw(app.phase, rand);
    } else {
      updates, over, again := game.Draw(Playing, rand);
      Report(app, updates, over);
    }
  }

  /** What a round's frame hands to the shell: its score events in order,
      then its end, if it ended. Only the score, the phase, the loading flag
      and the stored best can change. */
  method Report(app: App, updates: seq<nat>, over: Option<nat>)
    requires app.Valid() && app.phase == Playing
    modifies app`score, app`phase, app`loadingCommentary, app`stored
    ensures app.Valid()
    ensures over == None ==>
      app.phase == Playing && app.score.high == old(app.score.high) &&
      app.loadingCommentary == old(app.loadingCommentary) &&
      app.score.current == if updates == [] then old(app.score.current) else updates[|updates| - 1]
    ensures over.Some? ==>
      app.phase == GameOver && app.loadingCommentary &&
      app.score == ScoreData(over.value, Best(old(app.score.high), over.value))
    ensures over == None ==> app.stored == old(app.stored)
    ensures over.Some? ==> app.stored == Some(app.score.high)
  {
    ReportScores(app, updates);
    if over.Some? {
      app.HandleGameOver(over.value);
    }
  }

  /** The score events of one frame handed to the score handler in order:
      the shown score becomes the last one, and nothing else changes. */
  method ReportScores(app: App, updates: seq<nat>)
    requires app.Valid()
    modifies app`score
    ensures app.Valid() && app.score.high == old(app.score.high)
    ensures app.score.current == if updates == [] then old(app.score.current) else updates[|updates| - 1]
  {
    var i := 0;
    while i < |updates|
      invariant 0 <= i <= |updates|
      invariant app.Valid() && app.score.high == old(app.score.high)
      invariant app.score.current == if i == 0 then old(app.score.current) else updates[i - 1]
    {
      app.HandleScoreUpdate(updates[i]);
      i := i + 1;
    }
  }
}
