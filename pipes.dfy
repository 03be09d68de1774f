/** The pure part of the game loop: the bird's and the pipes' rectangles, the
    inline collision test, the random placement of a new pipe's gap, and what
    one tick does to the pipe list (move and score, then prune). */
module Pipes {
  import opened Types
  import opened Constants

  // ---------------------------------------------------------------------
  // Rectangles and collision
  // ---------------------------------------------------------------------

  datatype Rect = Rect(left: real, right: real, top: real, bottom: real)

  predicate WellFormed(r: Rect) {
    r.left <= r.right && r.top <= r.bottom
  }

  /** The point (px, py) lies in the closed rectangle `r`. */
  predicate Contains(r: Rect, px: real, py: real) {
    r.left <= px <= r.right && r.top <= py <= r.bottom
  }

  /** The larger of two coordinates. Scores are integers and have their own
      `GameApp.Best`; the two live in different modules over different
      types, so neither is defined in terms of the other. */
  function Max(a: real, b: real): real {
    if a < b then b else a
  }

  /** The game's test: two rectangles collide unless one lies strictly to one
      side of the other. So closed rectangles that share a point collide,
      including ones that only touch along an edge. */
  function CheckCollision(r1: Rect, r2: Rect): (hit: bool)
    ensures !hit ==> forall px, py :: !(Contains(r1, px, py) && Contains(r2, px, py))
    ensures hit && WellFormed(r1) && WellFormed(r2) ==>
      var px, py := Max(r1.left, r2.left), Max(r1.top, r2.top);
      Contains(r1, px, py) && Contains(r2, px, py)
  {
    !(r1.left > r2.right || r1.right < r2.left || r1.top > r2.bottom || r1.bottom < r2.top)
  }

  function BirdRect(y: real): Rect {
    Rect(BirdX as real, (BirdX + BirdSize) as real, y, y + BirdSize as real)
  }

  function TopRect(p: Pipe): Rect {
    Rect(p.x as real, (p.x + p.width) as real, 0.0, p.topHeight as real)
  }

  function BottomRect(p: Pipe): Rect {
    Rect(p.x as real, (p.x + p.width) as real, (p.topHeight + PipeGap) as real, FieldHeight as real)
  }

  /** The bird's bottom is below the field or its top above it. */
  predicate OutOfBounds(y: real) {
    y + BirdSize as real > FieldHeight as real || y < 0.0
  }

  /** The bird meets the upper or the lower barrier of `p`. For a bird inside
      the field this is: the pipe overlaps the bird's columns (edges included)
      and the bird is not strictly inside the gap. */
  function PipeHit(y: real, p: Pipe): (hit: bool)
    ensures !OutOfBounds(y) ==>
      (hit <==> p.x <= BirdX + BirdSize && BirdX <= p.x + p.width &&
                (y <= p.topHeight as real || y + BirdSize as real >= (p.topHeight + PipeGap) as real))
  {
    CheckCollision(BirdRect(y), TopRect(p)) || CheckCollision(BirdRect(y), BottomRect(p))
  }

  /** Some pipe of `ps` is hit by a bird at height `y`. */
  predicate AnyHit(y: real, ps: seq<Pipe>) {
    exists i :: 0 <= i < |ps| && PipeHit(y, ps[i])
  }

  // ---------------------------------------------------------------------
  // Spawning
  // ---------------------------------------------------------------------

  /** The top barrier's height drawn from a sample `rand` of the uniform
      distribution on [0, 1), for a field of the given height: the floor of
      rand * (maxH - minH + 1) + minH. When the range is not empty the result
      lies in it. */
  function GapTop(rand: real, height: int): (t: int)
    requires 0.0 <= rand < 1.0
    ensures MinArm <= height - PipeGap - MinArm ==> MinArm <= t <= height - PipeGap - MinArm
  {
    var maxH := height - PipeGap - MinArm;
    var span := (maxH - MinArm + 1) as real;
    assert MinArm <= maxH ==> rand * span < span by {
      if MinArm <= maxH { SampleBelow(rand, span); }
    }
    (rand * span + MinArm as real).Floor
  }

  /** Every gap top in the game's range [50, 481] is drawn by some sample, so
      the sample parameter does not narrow what the game can draw. */
  lemma GapReach(t: int)
    requires MinArm <= t <= FieldHeight - PipeGap - MinArm
    ensures GapTop(((t - MinArm) as real) / (FieldHeight - PipeGap - 2 * MinArm + 1) as real, FieldHeight) == t
  {
  }

  lemma SampleBelow(rand: real, span: real)
    requires 0.0 <= rand < 1.0 && span > 0.0
    ensures 0.0 <= rand * span < span
  {
  }

  /** The pipes pushed on the tick whose frame number is `frame`: one pipe at
      the right edge of the field, unscored, when `frame` is a multiple of the
      spawn rate; none otherwise. */
  function Spawned(frame: int, rand: real): (r: seq<Pipe>)
    requires 0.0 <= rand < 1.0
    ensures |r| == (if frame % PipeSpawnRate == 0 then 1 else 0)
    ensures forall p :: p in r ==>
      p.x == FieldWidth && p.width == PipeWidth && !p.passed && MinArm <= p.topHeight <= FieldHeight - PipeGap - MinArm
  {
    if frame % PipeSpawnRate == 0 then [Pipe(FieldWidth, GapTop(rand, FieldHeight), PipeWidth, false)] else []
  }

  // ---------------------------------------------------------------------
  // Moving and scoring
  // ---------------------------------------------------------------------

  function RightEdge(p: Pipe): int {
    p.x + p.width
  }

  /** What one tick does to one pipe: it moves left, and becomes passed when
      its right edge is left of the bird. */
  function Move(p: Pipe): Pipe {
    var q := p.(x := p.x - PipeSpeed);
    if !q.passed && RightEdge(q) < BirdX then q.(passed := true) else q
  }

  /** `p` is scored by this tick's move. */
  predicate Scores(p: Pipe) {
    !p.passed && Move(p).passed
  }

  /** Every pipe moved by one tick. Each moves left by the pipe speed and keeps
      its gap and width; it is passed afterwards exactly when it was before or
      its right edge is now left of the bird. */
  function MoveAll(ps: seq<Pipe>): (r: seq<Pipe>)
    ensures |r| == |ps|
    ensures forall i :: 0 <= i < |ps| ==>
      r[i].x == ps[i].x - PipeSpeed && r[i].topHeight == ps[i].topHeight && r[i].width == ps[i].width &&
      (r[i].passed <==> ps[i].passed || RightEdge(r[i]) < BirdX)
  {
    seq(|ps|, i requires 0 <= i < |ps| => Move(ps[i]))
  }

  /** The number of passed pipes in `ps`. */
  function CountPassed(ps: seq<Pipe>): (n: nat)
    ensures n <= |ps|
  {
    if ps == [] then 0 else CountPassed(ps[..|ps| - 1]) + (if ps[|ps| - 1].passed then 1 else 0)
  }

  /** The number of pipes of `ps` that one tick scores; only unpassed pipes
      can score. */
  function Scored(ps: seq<Pipe>): (n: nat)
    ensures n + CountPassed(ps) <= |ps|
  {
    if ps == [] then 0 else Scored(ps[..|ps| - 1]) + (if Scores(ps[|ps| - 1]) then 1 else 0)
  }

  /** The score events of a tick that starts at `base` and scores `k` pipes:
      each event carries the score just reached. */
  function Countup(base: nat, k: nat): (r: seq<nat>)
    ensures |r| == k
    ensures forall j :: 0 <= j < k ==> r[j] == base + j + 1
  {
    seq(k, j requires 0 <= j < k => base + j + 1)
  }

  /** Scoring one more pipe of a prefix adds one exactly when that pipe
      scores. */
  lemma ScoredStep(ps: seq<Pipe>, i: nat)
    requires i < |ps|
    ensures Scored(ps[..i + 1]) == Scored(ps[..i]) + if Scores(ps[i]) then 1 else 0
  {
    assert ps[..i + 1][..i] == ps[..i];
  }

  /** Moving adds exactly the newly scored pipes to the passed ones: a pipe
      already passed stays passed and is not scored again. */
  lemma {:induction false} MovedCount(ps: seq<Pipe>)
    ensures CountPassed(MoveAll(ps)) == CountPassed(ps) + Scored(ps)
  {
    if ps != [] {
      var init := ps[..|ps| - 1];
      assert MoveAll(ps)[..|ps| - 1] == MoveAll(init);
      MovedCount(init);
    }
  }

  // ---------------------------------------------------------------------
  // Pruning
  // ---------------------------------------------------------------------

  /** Some part of the pipe is still on the field. */
  predicate OnScreen(p: Pipe) {
    RightEdge(p) > 0
  }

  /** The pipes still on the field, in their order. */
  function Prune(ps: seq<Pipe>): (r: seq<Pipe>)
    ensures |r| <= |ps|
    ensures forall p :: p in r <==> p in ps && OnScreen(p)
  {
    if ps == [] then []
    else Prune(ps[..|ps| - 1]) + (if OnScreen(ps[|ps| - 1]) then [ps[|ps| - 1]] else [])
  }

  /** The pipes that pruning removes, in their order. */
  function Dropped(ps: seq<Pipe>): (r: seq<Pipe>)
    ensures |r| <= |ps|
    ensures forall p :: p in r <==> p in ps && !OnScreen(p)
  {
    if ps == [] then []
    else Dropped(ps[..|ps| - 1]) + (if OnScreen(ps[|ps| - 1]) then [] else [ps[|ps| - 1]])
  }

  /** Pruning keeps the order of the survivors: it distributes over
      concatenation. */
  lemma {:induction false} PruneAppend(a: seq<Pipe>, b: seq<Pipe>)
    ensures Prune(a + b) == Prune(a) + Prune(b)
  {
    if b != [] {
      var init := b[..|b| - 1];
      assert (a + b)[..|a + b| - 1] == a + init;
      PruneAppend(a, init);
    } else {
      assert a + b == a;
    }
  }

  /** Pruning splits a list into survivors and removed pipes, and splits the
      passed pipes the same way. */
  lemma {:induction false} PruneSplit(ps: seq<Pipe>)
    ensures |Prune(ps)| + |Dropped(ps)| == |ps|
    ensures CountPassed(Prune(ps)) + CountPassed(Dropped(ps)) == CountPassed(ps)
  {
    if ps != [] {
      var init, last := ps[..|ps| - 1], ps[|ps| - 1];
      PruneSplit(init);
      if OnScreen(last) {
        assert Prune(ps) == Prune(init) + [last];
        assert Dropped(ps) == Dropped(init);
        CountSnoc(Prune(init), last);
      } else {
        assert Prune(ps) == Prune(init);
        assert Dropped(ps) == Dropped(init) + [last];
        CountSnoc(Dropped(init), last);
      }
    }
  }

  lemma CountSnoc(ps: seq<Pipe>, p: Pipe)
    ensures CountPassed(ps + [p]) == CountPassed(ps) + (if p.passed then 1 else 0)
  {
    assert (ps + [p])[..|ps|] == ps;
  }

  /** A list of passed pipes counts every pipe. */
  lemma {:induction false} AllPassedCount(ps: seq<Pipe>)
    requires forall p :: p in ps ==> p.passed
    ensures CountPassed(ps) == |ps|
  {
    if ps != [] {
      var init := ps[..|ps| - 1];
      assert forall p :: p in init ==> p in ps;
      AllPassedCount(init);
    }
  }

  /** No pipe leaves the field unscored: every pipe that the prune after a
      move removes was passed by that move at the latest, and the removed
      pipes are all counted as passed. */
  lemma NothingDroppedUnscored(ps: seq<Pipe>)
    ensures forall p :: p in Dropped(MoveAll(ps)) ==> p.passed
    ensures CountPassed(Dropped(MoveAll(ps))) == |Dropped(MoveAll(ps))|
  {
    var moved := MoveAll(ps);
    forall p | p in Dropped(moved) ensures p.passed {
      var i :| 0 <= i < |moved| && moved[i] == p;
    }
    AllPassedCount(Dropped(moved));
  }

  // ---------------------------------------------------------------------
  // One tick of the pipe list
  // ---------------------------------------------------------------------

  /** What holds of the pipes on the field between ticks: full-width pipes
      with a gap in the spawn range, each still partly on the field and
      passed once it is left of the bird. */
  predicate WellPlaced(ps: seq<Pipe>) {
    forall p :: p in ps ==>
      p.width == PipeWidth && MinArm <= p.topHeight <= FieldHeight - PipeGap - MinArm &&
      OnScreen(p) && (RightEdge(p) < BirdX ==> p.passed)
  }

  /** Spawning adds no passed pipe and no pipe that scores on its first
      move. */
  lemma SpawnAddsNothing(ps: seq<Pipe>, frame: int, rand: real)
    requires 0.0 <= rand < 1.0
    ensures Scored(ps + Spawned(frame, rand)) == Scored(ps)
    ensures CountPassed(ps + Spawned(frame, rand)) == CountPassed(ps)
  {
    var all := ps + Spawned(frame, rand);
    if frame % PipeSpawnRate == 0 {
      assert all[..|all| - 1] == ps;
    } else {
      assert all == ps;
    }
  }

  /** Spawning, moving and pruning leaves the pipe list well placed. */
  lemma TickWellPlaced(ps: seq<Pipe>, frame: int, rand: real)
    requires WellPlaced(ps) && 0.0 <= rand < 1.0
    ensures WellPlaced(Prune(MoveAll(ps + Spawned(frame, rand))))
  {
    var all := ps + Spawned(frame, rand);
    var moved := MoveAll(all);
    forall p | p in Prune(moved)
      ensures p.width == PipeWidth && MinArm <= p.topHeight <= FieldHeight - PipeGap - MinArm
    {
      var i :| 0 <= i < |moved| && moved[i] == p;
      assert all[i] in ps || all[i] in Spawned(frame, rand);
    }
  }

  /** The pipe list after a tick that spawns `Spawned(frame, rand)`, moves and
      prunes: it is well placed again, the pipes removed were all passed, and
      the passed pipes on the field plus the removed ones exceed the passed
      pipes before the tick by exactly the number scored. */
  lemma TickPipes(ps: seq<Pipe>, frame: int, rand: real)
    requires WellPlaced(ps) && 0.0 <= rand < 1.0
    ensures var moved := MoveAll(ps + Spawned(frame, rand));
      WellPlaced(Prune(moved)) &&
      (forall p :: p in Dropped(moved) ==> p.passed) &&
      CountPassed(Prune(moved)) + |Dropped(moved)| == CountPassed(ps) + Scored(ps) &&
      Scored(ps + Spawned(frame, rand)) == Scored(ps)
  {
    var all := ps + Spawned(frame, rand);
    SpawnAddsNothing(ps, frame, rand);
    TickWellPlaced(ps, frame, rand);
    MovedCount(all);
    PruneSplit(MoveAll(all));
    NothingDroppedUnscored(all);
  }

  /** The pipes lie left to right in the order they were spawned, all left
      of the spawn point. */
  predicate InSpawnOrder(ps: seq<Pipe>) {
    (forall i, j :: 0 <= i < j < |ps| ==> ps[i].x < ps[j].x) &&
    (forall p :: p in ps ==> p.x < FieldWidth)
  }

  /** Pruning keeps a left-to-right list left to right. */
  lemma {:induction false} PruneKeepsOrder(ps: seq<Pipe>)
    requires forall i, j :: 0 <= i < j < |ps| ==> ps[i].x < ps[j].x
    ensures forall i, j :: 0 <= i < j < |Prune(ps)| ==> Prune(ps)[i].x < Prune(ps)[j].x
  {
    if ps != [] {
      var init, last := ps[..|ps| - 1], ps[|ps| - 1];
      PruneKeepsOrder(init);
      forall p | p in Prune(init) ensures p.x < last.x {
        var k :| 0 <= k < |init| && init[k] == p;
      }
    }
  }

  /** A tick keeps the pipes in spawn order: a new pipe enters at the right
      edge, right of every older one, all pipes move by the same amount, and
      pruning keeps the order. */
  lemma TickKeepsOrder(ps: seq<Pipe>, frame: int, rand: real)
    requires InSpawnOrder(ps) && 0.0 <= rand < 1.0
    ensures InSpawnOrder(Prune(MoveAll(ps + Spawned(frame, rand))))
  {
    var all := ps + Spawned(frame, rand);
    var moved := MoveAll(all);
    assert forall i, j :: 0 <= i < j < |all| ==> all[i].x < all[j].x by {
      forall i, j | 0 <= i < j < |all| ensures all[i].x < all[j].x {
        if j >= |ps| {
          assert all[i] in ps && all[j] in Spawned(frame, rand);
        }
      }
    }
    PruneKeepsOrder(moved);
  }

  /** What holds between ticks of the pipes on the field, the pipes pruned so
      far in the round and the score: the pipes are well placed and in spawn
      order, every pruned pipe was passed, and the score counts exactly the
      passed pipes, on the field or pruned. */
  ghost predicate Consistent(ps: seq<Pipe>, removed: seq<Pipe>, score: int) {
    WellPlaced(ps) && InSpawnOrder(ps) &&
    (forall p :: p in removed ==> p.passed) &&
    score == CountPassed(ps) + |removed|
  }

  /** A tick keeps the pipes, the pruned pipes and the score consistent. */
  lemma TickConsistent(ps: seq<Pipe>, removed: seq<Pipe>, score: int, frame: int, rand: real)
    requires Consistent(ps, removed, score) && 0.0 <= rand < 1.0
    ensures var moved := MoveAll(ps + Spawned(frame, rand));
      Consistent(Prune(moved), removed + Dropped(moved), score + Scored(ps + Spawned(frame, rand))) &&
      Scored(ps + Spawned(frame, rand)) == Scored(ps)
  {
    TickPipes(ps, frame, rand);
    TickKeepsOrder(ps, frame, rand);
  }

  // ---------------------------------------------------------------------
  // A pipe's life
  // ---------------------------------------------------------------------

  /** `p` after `k` ticks. */
  function MoveTimes(p: Pipe, k: nat): Pipe {
    if k == 0 then p else Move(MoveTimes(p, k - 1))
  }

  /** A freshly spawned pipe is at x = 400 - 3k after k ticks, and is passed
      from its 137th tick on (its right edge is then 49). */
  lemma {:induction false} FreshPipeAfter(t: int, k: nat)
    ensures MoveTimes(Pipe(FieldWidth, t, PipeWidth, false), k) ==
            Pipe(FieldWidth - PipeSpeed * k, t, PipeWidth, k >= 137)
  {
    if k > 0 {
      FreshPipeAfter(t, k - 1);
    }
  }

  /** The boundary of the collision test: a bird whose bottom lies exactly on
      the top of a pipe's lower barrier hits it, and a bird half a pixel
      higher, inside the gap, does not. */
  lemma TouchingIsHit()
    ensures PipeHit(346.0, Pipe(50, 200, PipeWidth, false))
    ensures !PipeHit(345.5, Pipe(50, 200, PipeWidth, false))
  {
  }

  /** A fresh pipe stays on the field for its first 153 ticks, and is passed
      from tick 137 on: with these constants it is scored 16 ticks before it
      is pruned. */
  lemma FreshPipeScoredBeforePruned(t: int, k: nat)
    ensures OnScreen(MoveTimes(Pipe(FieldWidth, t, PipeWidth, false), k)) <==> k <= 153
    ensures !OnScreen(MoveTimes(Pipe(FieldWidth, t, PipeWidth, false), k)) ==>
            MoveTimes(Pipe(FieldWidth, t, PipeWidth, false), k).passed
  {
    FreshPipeAfter(t, k);
  }
}
