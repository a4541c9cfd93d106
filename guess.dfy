/**
 * The number-guessing game: a target in 1..100, ten attempts per round, and
 * as many points for a correct guess as attempts remain.
 */
module Guess {
  import opened Wrappers
  import Text
  import ScoreManager

  const MAX_ATTEMPTS: int := 10
  const LOWEST: int := 1
  const HIGHEST: int := 100
  const GAME_NAME: string := "Guess"

  /** Why onGuess refused its input (each shows a toast and changes nothing). */
  datatype Rejection = EmptyInput | NotANumber | OutOfRange

  /** What one press of the guess button did. */
  datatype GuessResult =
    | Rejected(why: Rejection)
    | Ignored            // the round is lost; the guess is dropped
    | Correct(points: int)
    | TooLow
    | TooHigh
    | Lost

  /** A number in range, or the reason it was refused. */
  datatype Reading = Value(value: int) | Reject(why: Rejection)

  /** The input check of onGuess, on the raw text of the field. */
  function ReadGuess(raw: string): (r: Reading)
    ensures r.Value? ==> LOWEST <= r.value <= HIGHEST && Text.ParseInt(Text.Trim(raw)) == Some(r.value)
    ensures r.Reject? && r.why == EmptyInput <==> Text.Trim(raw) == []
    ensures r.Reject? && r.why == NotANumber <==> Text.Trim(raw) != [] && Text.ParseInt(Text.Trim(raw)).None?
    ensures r.Reject? && r.why == OutOfRange <==>
      Text.Trim(raw) != [] && Text.ParseInt(Text.Trim(raw)).Some? && !(LOWEST <= Text.ParseInt(Text.Trim(raw)).value <= HIGHEST)
  {
    var text := Text.Trim(raw);
    if text == [] then Reject(EmptyInput)
    else match Text.ParseInt(text)
      case None => Reject(NotANumber)
      case Some(n) => if n < LOWEST || n > HIGHEST then Reject(OutOfRange) else Value(n)
  }

  /** The hint after a wrong guess that leaves attempts. */
  function Hint(guess: int, target: int): (h: GuessResult)
    requires guess != target
    ensures h == TooLow <==> guess < target
    ensures h == TooHigh <==> guess > target
  {
    if guess < target then TooLow else TooHigh
  }

  /** Every number from 1 to 100, typed plainly, is read back as itself. */
  lemma ReadsTypedNumbers(n: int)
    requires LOWEST <= n <= HIGHEST
    ensures ReadGuess(Text.ShowInt(n)) == Value(n)
  {
    var s := Text.ShowInt(n);
    Text.ParseShowInt(n);
    assert s != [] && !Text.IsTrimmed(s[0]) && !Text.IsTrimmed(s[|s| - 1]) by {
      assert Text.AllDigits(s);
      assert Text.IsDigit(s[0]) && Text.IsDigit(s[|s| - 1]);
    }
    Text.TrimUnpadded(s);
  }

  class Game {
    var targetNumber: int
    var attemptsRemaining: int
    var totalScore: int
    var gameOver: bool

    /** The round is over exactly when no attempt remains. */
    ghost predicate Valid()
      reads this
    {
      && LOWEST <= targetNumber <= HIGHEST
      && 0 <= attemptsRemaining <= MAX_ATTEMPTS
      && (gameOver <==> attemptsRemaining == 0)
      && 0 <= totalScore
    }

    /** onCreate: a first round, score 0. */
    constructor (target: int)
      requires LOWEST <= target <= HIGHEST
      ensures Valid() && targetNumber == target && attemptsRemaining == MAX_ATTEMPTS && !gameOver && totalScore == 0
    {
      targetNumber, attemptsRemaining, gameOver, totalScore := target, MAX_ATTEMPTS, false, 0;
    }

    /** startNewRound: a new target and ten attempts. */
    method StartNewRound(target: int)
      requires LOWEST <= target <= HIGHEST
      modifies this`targetNumber, this`attemptsRemaining, this`gameOver
      ensures targetNumber == target && attemptsRemaining == MAX_ATTEMPTS && !gameOver
    {
      targetNumber := target;
      attemptsRemaining := MAX_ATTEMPTS;
      gameOver := false;
    }

    /**
     * onGuess on the raw field text. `nextTarget` is the random number a correct
     * guess starts the next round with.
     */
    method OnGuess(raw: string, nextTarget: int) returns (result: GuessResult, submitted: Option<ScoreManager.Submission>)
      requires Valid() && LOWEST <= nextTarget <= HIGHEST
      modifies this
      ensures Valid()
      ensures totalScore >= old(totalScore)
      ensures ReadGuess(raw).Reject? ==> result == Rejected(ReadGuess(raw).why)
      ensures ReadGuess(raw).Value? && old(gameOver) ==> result == Ignored
      ensures result.Rejected? || result.Ignored? ==>
        && targetNumber == old(targetNumber) && attemptsRemaining == old(attemptsRemaining)
        && totalScore == old(totalScore) && gameOver == old(gameOver) && submitted == None
      ensures ReadGuess(raw).Value? && !old(gameOver) ==>
        var guess := ReadGuess(raw).value;
        && (guess == old(targetNumber) ==>
              && result == Correct(old(attemptsRemaining)) && 1 <= old(attemptsRemaining) <= MAX_ATTEMPTS
              && totalScore == old(totalScore) + old(attemptsRemaining)
              && targetNumber == nextTarget && attemptsRemaining == MAX_ATTEMPTS && !gameOver && submitted == None)
        && (guess != old(targetNumber) ==>
              && attemptsRemaining == old(attemptsRemaining) - 1 && totalScore == old(totalScore)
              && targetNumber == old(targetNumber)
              && (attemptsRemaining == 0 ==> result == Lost && gameOver && submitted == (if totalScore > 0 then Some(ScoreManager.Submission(GAME_NAME, totalScore)) else None))
              && (attemptsRemaining > 0 ==> result == Hint(guess, targetNumber) && !gameOver && submitted == None))
    {
      submitted := None;
      var input := ReadGuess(raw);
      if input.Reject? {
        return Rejected(input.why), None;
      }
      var guessedNumber := input.value;
      if gameOver {
        return Ignored, None;
      }
      if guessedNumber == targetNumber {
        var pointsEarned := attemptsRemaining;
        totalScore := totalScore + pointsEarned;
        result := Correct(pointsEarned);
        StartNewRound(nextTarget);
      } else {
        attemptsRemaining := attemptsRemaining - 1;
        if attemptsRemaining == 0 {
          gameOver := true;
          result := Lost;
          submitted := SaveScoreToStore();
        } else {
          result := Hint(guessedNumber, targetNumber);
        }
      }
    }

    /** saveScoreToFirebase: only a positive total is submitted. */
    method SaveScoreToStore() returns (submitted: Option<ScoreManager.Submission>)
      ensures submitted.Some? <==> totalScore > 0
      ensures submitted.Some? ==> submitted.value == ScoreManager.Submission(GAME_NAME, totalScore)
    {
      submitted := if totalScore > 0 then Some(ScoreManager.Submission(GAME_NAME, totalScore)) else None;
    }

    /**
     * restartGame: a positive total is submitted first; once the save completes,
     * successfully or not, the total is reset and a new round starts.
     */
    method RestartGame(target: int) returns (submitted: Option<ScoreManager.Submission>)
      requires Valid() && LOWEST <= target <= HIGHEST
      modifies this
      ensures Valid()
      ensures submitted == if old(totalScore) > 0 then Some(ScoreManager.Submission(GAME_NAME, old(totalScore))) else None
      ensures totalScore == 0 && targetNumber == target && attemptsRemaining == MAX_ATTEMPTS && !gameOver
    {
      submitted := SaveScoreToStore();
      ResetGame(target);
    }

    /**
     * onBackPressed: a positive total is submitted and the screen closes once the
     * save completes; otherwise it closes at once. Nothing is reset.
     */
    method OnBackPressed() returns (submitted: Option<ScoreManager.Submission>, closesAfterSave: bool)
      ensures submitted == if totalScore > 0 then Some(ScoreManager.Submission(GAME_NAME, totalScore)) else None
      ensures closesAfterSave <==> totalScore > 0
    {
      submitted := SaveScoreToStore();
      closesAfterSave := submitted.Some?;
    }

    /** resetGame: score 0 and a new round. */
    method ResetGame(target: int)
      requires LOWEST <= target <= HIGHEST
      modifies this
      ensures Valid()
      ensures totalScore == 0 && targetNumber == target && attemptsRemaining == MAX_ATTEMPTS && !gameOver
    {
      totalScore := 0;
      StartNewRound(target);
    }
  }
}
