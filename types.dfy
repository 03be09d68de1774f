/** The records the game passes around: the coarse phase, one pipe pair and
    the score pair shown by the overlay. */
module Types {

  datatype Option<+T> = None | Some(value: T)

  /** The coarse phase of the game. `Loading` is declared by the program but
      never entered. */
  datatype Phase = Menu | Playing | GameOver | Loading

  /** One pair of barriers. `x` is the left edge, `topHeight` the bottom of
      the upper barrier, `passed` records that the pipe has been scored. */
  datatype Pipe = Pipe(x: int, topHeight: int, width: int, passed: bool)

  /** The current round's score and the best score so far. */
  datatype ScoreData = ScoreData(current: int, high: int)
}
