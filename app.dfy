/** The application shell: the coarse phase, the score pair, the commentary
    text and its loading flag, and the handlers the game and the overlay
    call. */
module GameApp {
  import opened Types

  /** The larger of two scores. */
  function Best(a: int, b: int): int {
    if a < b then b else a
  }

  /** What a handler does to the score pair. */
  datatype Action =
    | Start
    | Progress(current: int)
    | RoundOver(final: int)
    | Commentary(text: string)

  /** The score pair after one action. A round end records the final score and
      keeps the better of it and the old best; starting a round clears the
      current score; a score update sets it; the best is never lowered. */
  function Apply(s: ScoreData, a: Action): (r: ScoreData)
    ensures r.high >= s.high
    ensures a.RoundOver? ==>
      r.current == a.final && r.high >= a.final && (r.high == s.high || r.high == a.final)
    ensures a.Start? ==> r.current == 0 && r.high == s.high
    ensures a.Progress? ==> r.current == a.current && r.high == s.high
    ensures a.Commentary? ==> r == s
  {
    match a
    case Start => s.(current := 0)
    case Progress(c) => s.(current := c)
    case RoundOver(f) => ScoreData(f, Best(s.high, f))
    case Commentary(_) => s
  }

  /** The score pair after a run of actions, oldest first. */
  function Replay(s: ScoreData, acts: seq<Action>): ScoreData {
    if acts == [] then s else Apply(Replay(s, acts[..|acts| - 1]), acts[|acts| - 1])
  }

  /** The best of `high` and every final score in `acts`. */
  function BestFinal(high: int, acts: seq<Action>): (r: int)
    ensures r >= high
    ensures forall i :: 0 <= i < |acts| && acts[i].RoundOver? ==> r >= acts[i].final
    ensures r == high || exists i :: 0 <= i < |acts| && acts[i].RoundOver? && r == acts[i].final
  {
    if acts == [] then high
    else
      var last := acts[|acts| - 1];
      var rest := BestFinal(high, acts[..|acts| - 1]);
      if last.RoundOver? then Best(rest, last.final) else rest
  }

  /** Over any run of actions the best score is the best of the starting best
      and every final score: what the overlay shows as best is the best round
      ever finished. */
  lemma {:induction false} ReplayHigh(s: ScoreData, acts: seq<Action>)
    ensures Replay(s, acts).high == BestFinal(s.high, acts)
  {
    if acts != [] {
      ReplayHigh(s, acts[..|acts| - 1]);
    }
  }

  /** The best score never shrinks: after a longer run of the same actions
      it is at least what it was after a shorter one. */
  lemma {:induction false} HighNeverShrinks(s: ScoreData, acts: seq<Action>, i: nat, j: nat)
    requires i <= j <= |acts|
    ensures Replay(s, acts[..i]).high <= Replay(s, acts[..j]).high
  {
    if i < j {
      HighNeverShrinks(s, acts, i, j - 1);
      assert acts[..j][..j - 1] == acts[..j - 1];
    }
  }

  class App {
    var phase: Phase
    var score: ScoreData
    var commentary: string
    var loadingCommentary: bool
    /** The best score last written to local storage, if one was written. */
    ghost var stored: Option<int>

    /** The best score is never negative and storage holds the best score
        once it was written. */
    ghost predicate Valid()
      reads this
    {
      0 <= score.high && (stored.Some? ==> stored.value == score.high)
    }

    /** The state on start-up: the menu, no score, no commentary. */
    constructor ()
      ensures Valid()
      ensures phase == Menu && score == ScoreData(0, 0) && commentary == "" && !loadingCommentary
      ensures stored == None
    {
      phase, score, commentary, loadingCommentary := Menu, ScoreData(0, 0), "", false;
      stored := None;
    }

    /** The game reports the running score: only the current score changes. */
    method HandleScoreUpdate(current: int)
      requires Valid()
      modifies this`score
      ensures Valid()
      ensures score == Apply(old(score), Progress(current))
    {
      score := score.(current := current);
    }

    /** The synchronous part of a round's end: the game-over phase, the
        commentary marked as loading, the final score recorded, the best
        score raised to it if lower and written to storage. */
    method HandleGameOver(final: int)
      requires Valid()
      modifies this`phase, this`loadingCommentary, this`score, this`stored
      ensures Valid()
      ensures phase == GameOver && loadingCommentary
      ensures score == Apply(old(score), RoundOver(final))
      ensures stored == Some(score.high)
    {
      phase := GameOver;
      loadingCommentary := true;
      var newHigh := Best(score.high, final);
      stored := Some(newHigh);
      score := ScoreData(final, newHigh);
    }

    /** The commentary for the round arrives: it is shown and the loading
        flag is cleared. */
    method ShowCommentary(text: string)
      modifies this`commentary, this`loadingCommentary
      ensures commentary == text && !loadingCommentary
    {
      commentary := text;
      loadingCommentary := false;
    }

    /** A new round: the playing phase, no commentary, the current score
        cleared and the best score kept. */
    method StartGame()
      requires Valid()
      modifies this`phase, this`commentary, this`score
      ensures Valid()
      ensures phase == Playing && commentary == ""
      ensures score == Apply(old(score), Start)
    {
      phase := Playing;
      commentary := "";
      score := score.(current := 0);
    }
  }
}
