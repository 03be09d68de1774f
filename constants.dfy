/** The fixed tuning of the game and the size of its playing field. */
module Constants {
  /** Added to the bird's velocity every tick. */
  const Gravity: real := 0.25
  /** The velocity a jump sets, whatever the velocity was. */
  const JumpStrength: real := -5.5
  /** Pixels every pipe moves left per tick. */
  const PipeSpeed: int := 3
  /** A pipe is spawned on every tick whose frame number is a multiple of this. */
  const PipeSpawnRate: int := 100
  const PipeWidth: int := 60
  /** Vertical size of the opening between the two barriers of a pipe. */
  const PipeGap: int := 180
  /** The bird's fixed left edge. */
  const BirdX: int := 50
  /** The bird is a square of this side. */
  const BirdSize: int := 34
  /** The smallest height of either barrier of a freshly spawned pipe. */
  const MinArm: int := 50

  /** The canvas the game is drawn on. */
  const FieldWidth: int := 400
  const FieldHeight: int := 711

  /** Where a round starts the bird. */
  const StartY: real := 300.0
}
