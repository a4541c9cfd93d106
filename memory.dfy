/**
 * The Simon-style memory game. The colour sequence grows by one random colour
 * per round; the player must repeat it from the start. The timed playback is
 * reduced to its last callback, which re-enables input.
 */
module Memory {
  import opened Wrappers
  import ScoreManager

  const GREEN: int := 0
  const RED: int := 1
  const YELLOW: int := 2
  const BLUE: int := 3
  const GAME_NAME: string := "Memory"

  predicate IsColor(c: int) {
    GREEN <= c <= BLUE
  }

  predicate IsPrefix(p: seq<int>, s: seq<int>) {
    |p| <= |s| && p == s[..|p|]
  }

  /** saveScore: a score is submitted, under "Memory", only when positive. */
  function SaveScore(score: int): (s: Option<ScoreManager.Submission>)
    ensures s.Some? <==> score > 0
    ensures s.Some? ==> s.value == ScoreManager.Submission(GAME_NAME, score)
  {
    if score > 0 then Some(ScoreManager.Submission(GAME_NAME, score)) else None
  }

  class Game {
    var sequence: seq<int>
    var userInput: seq<int>
    var score: int
    var canClick: bool

    /**
     * Every colour is one of the four, and the score counts the completed
     * rounds: one less than the sequence length while a round is being played,
     * equal to it once the round is won.
     */
    ghost predicate Scored()
      reads this
    {
      && (forall i :: 0 <= i < |sequence| ==> IsColor(sequence[i]))
      && (sequence == [] ==> score == 0)
      && (sequence != [] ==> score == |sequence| - 1 || score == |sequence|)
    }

    /** In addition, while input is accepted the input so far is a proper prefix of the sequence. */
    ghost predicate Valid()
      reads this
    {
      && Scored()
      && (canClick ==> IsPrefix(userInput, sequence) && |userInput| < |sequence| && score == |sequence| - 1)
    }

    /** The field initialisers and onCreate: empty lists, score 0, colour buttons disabled. */
    constructor ()
      ensures Valid() && sequence == [] && userInput == [] && score == 0 && !canClick
    {
      sequence, userInput, score, canClick := [], [], 0, false;
    }

    /** nextRound, run at the start and after a won round: input is disabled, the input is cleared and one colour is appended. */
    method NextRound(color: int)
      requires Scored() && score == |sequence| && IsColor(color)
      modifies this`sequence, this`userInput, this`canClick
      ensures Valid()
      ensures sequence == old(sequence) + [color]
      ensures userInput == [] && !canClick
    {
      canClick := false;
      userInput := [];
      sequence := sequence + [color];
    }

    /** The end of playSequence, from the state nextRound left: the player may now repeat the pattern. */
    method PlaybackFinished()
      requires Valid() && userInput == [] && sequence != [] && score == |sequence| - 1
      modifies this`canClick
      ensures Valid() && canClick
    {
      canClick := true;
    }

    /** startGame: submit a positive previous score, then start over with a one-colour sequence. */
    method StartGame(firstColor: int) returns (submitted: Option<ScoreManager.Submission>)
      requires Valid() && IsColor(firstColor)
      modifies this
      ensures Valid()
      ensures submitted == SaveScore(old(score))
      ensures sequence == [firstColor] && userInput == [] && score == 0 && !canClick
    {
      submitted := None;
      if score > 0 {
        submitted := SaveScore(score);
      }
      sequence := [];
      userInput := [];
      score := 0;
      NextRound(firstColor);
    }

    /**
     * handleColorClick: ignored unless input is accepted; otherwise the colour is
     * appended; a mismatch ends the game (and submits a positive score), a
     * completed sequence scores one point and schedules the next round.
     */
    method HandleColorClick(color: int) returns (submitted: Option<ScoreManager.Submission>, roundWon: bool)
      requires Valid() && IsColor(color)
      modifies this`userInput, this`score, this`canClick
      ensures Valid()
      ensures sequence == old(sequence)
      ensures !old(canClick) ==>
        userInput == old(userInput) && score == old(score) && !canClick && submitted == None && !roundWon
      ensures old(canClick) ==> userInput == old(userInput) + [color]
      ensures old(canClick) && color != sequence[|old(userInput)|] ==>
        !canClick && !roundWon && score == old(score) && submitted == SaveScore(score)
      ensures old(canClick) && color == sequence[|old(userInput)|] ==>
        IsPrefix(userInput, sequence) && submitted == None
        && (|userInput| == |sequence| ==> roundWon && score == old(score) + 1 && !canClick)
        && (|userInput| < |sequence| ==> !roundWon && score == old(score) && canClick)
    {
      submitted, roundWon := None, false;
      if !canClick {
        return;
      }
      userInput := userInput + [color];
      var index := |userInput| - 1;
      if userInput[index] != sequence[index] {
        // gameOver
        canClick := false;
        submitted := SaveScore(score);
        return;
      }
      assert userInput == sequence[..|userInput|];
      if |userInput| == |sequence| {
        score := score + 1;
        canClick := false;
        roundWon := true;
      }
    }

    /** onBackPressed: a positive score is submitted on leaving. */
    method OnBackPressed() returns (submitted: Option<ScoreManager.Submission>)
      ensures submitted == SaveScore(score)
    {
      submitted := None;
      if score > 0 {
        submitted := SaveScore(score);
      }
    }
  }
}
