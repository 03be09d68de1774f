/** The game component: the mutable record the animation loop advances once
    per frame, the jump input, and the reset on entering a round. */
module FlappyBird {
  import opened Types
  import opened Constants
  import opened Pipes

  class Game {
    var birdY: real
    var birdVel: real
    /** The pipes on the field, oldest (leftmost) first. */
    var pipes: seq<Pipe>
    var frameCount: nat
    var score: nat
    /** The pipes pruned so far in this round. */
    ghost var removed: seq<Pipe>

    /** The pipes on the field are well placed and in spawn order, every
        pruned pipe was passed, and the score counts exactly the passed
        pipes of the round. */
    ghost predicate Valid()
      reads this
    {
      Consistent(pipes, removed, score)
    }

    /** The state a round starts from. */
    ghost predicate Fresh()
      reads this
    {
      birdY == StartY && birdVel == 0.0 && pipes == [] && frameCount == 0 && score == 0 && removed == []
    }

    constructor ()
      ensures Valid() && Fresh()
    {
      birdY, birdVel, pipes, frameCount, score := StartY, 0.0, [], 0, 0;
      removed := [];
    }

    method ResetGameData()
      modifies this
      ensures Valid() && Fresh()
    {
      birdY, birdVel, pipes, frameCount, score := StartY, 0.0, [], 0, 0;
      removed := [];
    }

    /** A jump sets the velocity outright, but only while a round is played. */
    method Jump(phase: Phase)
      modifies this`birdVel
      ensures birdVel == if phase == Playing then JumpStrength else old(birdVel)
    {
      if phase == Playing {
        birdVel := JumpStrength;
      }
    }

    /** One physics step of a round. `rand` is the sample of the uniform
        distribution on [0, 1) that places a pipe spawned on this tick.
        Returns the score events in the order they are emitted and, when the
        round ends on this tick, the final score. */
    method Tick(rand: real) returns (updates: seq<nat>, over: Option<nat>)
      requires Valid() && 0.0 <= rand < 1.0
      modifies this
      ensures Valid()
      ensures birdVel == old(birdVel) + Gravity && birdY == old(birdY) + birdVel
      ensures frameCount == old(frameCount) + 1
      ensures pipes == Prune(MoveAll(old(pipes) + Spawned(frameCount, rand)))
      ensures removed == old(removed) + Dropped(MoveAll(old(pipes) + Spawned(frameCount, rand)))
      ensures score == old(score) + Scored(old(pipes))
      ensures updates == Countup(old(score), Scored(old(pipes)))
      ensures over == if OutOfBounds(birdY) || AnyHit(birdY, pipes) then Some(score) else None
    {
      birdVel := birdVel + Gravity;
      birdY := birdY + birdVel;
      frameCount := frameCount + 1;
      updates := UpdatePipes(rand);
      over := EndCheck();
    }

    /** The pipe part of a tick, after the frame counter is bumped: spawn,
        move and score, prune. */
    method UpdatePipes(rand: real) returns (updates: seq<nat>)
      requires Valid() && 0.0 <= rand < 1.0
      modifies this`pipes, this`score, this`removed
      ensures Valid()
      ensures pipes == Prune(MoveAll(old(pipes) + Spawned(frameCount, rand)))
      ensures removed == old(removed) + Dropped(MoveAll(old(pipes) + Spawned(frameCount, rand)))
      ensures score == old(score) + Scored(old(pipes))
      ensures updates == Countup(old(score), Scored(old(pipes)))
    {
      ghost var ps, r0, s0 := pipes, removed, score;
      TickConsistent(ps, r0, s0, frameCount, rand);
      pipes := pipes + Spawned(frameCount, rand);
      ghost var all := pipes;
      assert all == ps + Spawned(frameCount, rand);
      updates := MovePipes();
      ghost var moved := pipes;
      assert moved == MoveAll(all) && score == s0 + Scored(all);
      removed := r0 + Dropped(moved);
      pipes := Prune(pipes);
      assert pipes == Prune(MoveAll(all));
      assert Consistent(pipes, removed, score);
    }

    /** The end-of-round test of a tick: the bounds are checked first, then
        the pipes; the round ends with the current score iff either fails. */
    method EndCheck() returns (over: Option<nat>)
      ensures over == if OutOfBounds(birdY) || AnyHit(birdY, pipes) then Some(score) else None
    {
      if OutOfBounds(birdY) {
        return Some(score);
      }
      var hit := HitsPipe();
      over := if hit then Some(score) else None;
    }

    /** The `forEach` of a tick: every pipe moves left; each one that is newly
        left of the bird becomes passed, raises the score by one and emits the
        new score. */
    method MovePipes() returns (updates: seq<nat>)
      modifies this`pipes, this`score
      ensures pipes == MoveAll(old(pipes))
      ensures score == old(score) + Scored(old(pipes))
      ensures updates == Countup(old(score), Scored(old(pipes)))
    {
      ghost var before, k := pipes, 0;
      updates := [];
      var i := 0;
      while i < |pipes|
        invariant 0 <= i <= |pipes| == |before|
        invariant forall j :: 0 <= j < i ==> pipes[j] == Move(before[j])
        invariant forall j :: i <= j < |pipes| ==> pipes[j] == before[j]
        invariant k == Scored(before[..i])
        invariant score == old(score) + k && updates == Countup(old(score), k)
      {
        ScoredStep(before, i);
        var pipe := pipes[i].(x := pipes[i].x - PipeSpeed);
        if !pipe.passed && pipe.x + pipe.width < BirdX {
          pipe := pipe.(passed := true);
          score := score + 1;
          updates := updates + [score];
          k := k + 1;
        }
        assert pipe == Move(before[i]);
        pipes := pipes[i := pipe];
        i := i + 1;
      }
      assert before[..i] == before;
      assert pipes == MoveAll(before);
    }

    /** The collision scan of a tick: the pipes are tried in order and the
        scan stops at the first whose upper or lower barrier the bird meets. */
    method HitsPipe() returns (hit: bool)
      ensures hit <==> AnyHit(birdY, pipes)
    {
      var bird := BirdRect(birdY);
      var i := 0;
      while i < |pipes|
        invariant 0 <= i <= |pipes|
        invariant forall j :: 0 <= j < i ==> !PipeHit(birdY, pipes[j])
      {
        if CheckCollision(bird, TopRect(pipes[i])) || CheckCollision(bird, BottomRect(pipes[i])) {
          return true;
        }
        i := i + 1;
      }
      return false;
    }

    /** One animation frame. Outside a round nothing changes and no further
        frame is requested; in a round the state takes one tick, and the next
        frame is requested exactly when the round goes on. */
    method Draw(phase: Phase, rand: real) returns (updates: seq<nat>, over: Option<nat>, again: bool)
      requires Valid() && 0.0 <= rand < 1.0
      modifies this
      ensures Valid()
      ensures phase != Playing ==> unchanged(this) && updates == [] && over == None && !again
      ensures phase == Playing ==>
        frameCount == old(frameCount) + 1 && birdVel == old(birdVel) + Gravity &&
        birdY == old(birdY) + birdVel &&
        pipes == Prune(MoveAll(old(pipes) + Spawned(frameCount, rand))) &&
        removed == old(removed) + Dropped(MoveAll(old(pipes) + Spawned(frameCount, rand))) &&
        score == old(score) + Scored(old(pipes)) &&
        updates == Countup(old(score), score - old(score)) &&
        over == (if OutOfBounds(birdY) || AnyHit(birdY, pipes) then Some(score) else None) &&
        (again <==> over == None)
    {
      if phase == Playing {
        updates, over := Tick(rand);
        again := over == None;
      } else {
        updates, over, again := [], None, false;
      }
    }

    /** What happens when the phase changes: entering a round resets the state
        and requests the first frame; any other phase draws one static frame,
        which changes nothing. */
    method PhaseChanged(phase: Phase) returns (scheduled: bool)
      requires Valid()
      modifies this
      ensures Valid()
      ensures phase == Playing ==> Fresh() && scheduled
      ensures phase != Playing ==> unchanged(this) && !scheduled
    {
      if phase == Playing {
        ResetGameData();
        scheduled := true;
      } else {
        var _, _, _ := Draw(phase, 0.0);
        scheduled := false;
      }
    }
  }

  /** No pipe is spawned on the first tick of a round, so none is on the
      field after it. */
  lemma NoPipeOnFirstTick(rand: real)
    requires 0.0 <= rand < 1.0
    ensures Prune(MoveAll([] + Spawned(1, rand))) == []
  {
    assert Spawned(1, rand) == [] && MoveAll([]) == [];
  }

  /** The first tick of a new round: the bird has fallen a quarter pixel, has
      velocity 0.25, nothing is scored and the round goes on. */
  method FirstTickOfRound(rand: real) returns (y: real, vel: real, score: nat, over: Option<nat>)
    requires 0.0 <= rand < 1.0
    ensures y == 300.25 && vel == 0.25 && score == 0 && over == None
  {
    var game := new Game();
    NoPipeOnFirstTick(rand);
    var updates;
    updates, over := game.Tick(rand);
    y, vel, score := game.birdY, game.birdVel, game.score;
  }
}
