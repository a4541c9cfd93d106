/**
 * Rock-paper-scissors. The CPU's move is revealed by a delayed callback,
 * modelled as its own step that receives the player's move captured by the
 * closure and the random draw 0..2.
 */
module Rps {
  import opened Wrappers
  import ScoreManager

  datatype Move = Rock | Paper | Scissors

  const GAME_NAME: string := "RPS"
  const DRAW: int := 0
  const PLAYER_WIN: int := 1
  const CPU_WIN: int := -1

  /** getCpuMove: the draw picks from {rock, paper, scissors}. */
  function CpuMoveFor(draw: int): (m: Move)
    requires 0 <= draw < 3
    ensures m == [Rock, Paper, Scissors][draw]
  {
    if draw == 0 then Rock else if draw == 1 then Paper else Scissors
  }

  /** determineWinner: 0 for equal moves, 1 when the player's move beats the CPU's, -1 otherwise. */
  function Winner(player: Move, cpu: Move): (result: int)
    ensures result == DRAW || result == PLAYER_WIN || result == CPU_WIN
    ensures result == DRAW <==> player == cpu
  {
    if player == cpu then DRAW
    else if (player == Rock && cpu == Scissors) || (player == Paper && cpu == Rock) || (player == Scissors && cpu == Paper)
    then PLAYER_WIN
    else CPU_WIN
  }

  /** The position of a move in the cycle rock -> paper -> scissors. */
  function Index(m: Move): int {
    match m
    case Rock => 0
    case Paper => 1
    case Scissors => 2
  }

  /** Reference definition: a move beats the one just before it in the cycle. */
  lemma WinnerFollowsCycle(player: Move, cpu: Move)
    ensures Winner(player, cpu) == PLAYER_WIN <==> (Index(player) - Index(cpu)) % 3 == 1
    ensures Winner(player, cpu) == CPU_WIN <==> (Index(player) - Index(cpu)) % 3 == 2
  {
  }

  /** Swapping the two moves swaps the winner. */
  lemma WinnerAntisymmetric(player: Move, cpu: Move)
    ensures Winner(player, cpu) == -Winner(cpu, player)
  {
  }

  class Game {
    var playerScore: int
    var cpuScore: int
    var isAnimating: bool

    ghost predicate Valid()
      reads this
    {
      0 <= playerScore && 0 <= cpuScore
    }

    /** The activity's field initialisers: both scores 0, no round animating. */
    constructor ()
      ensures Valid() && playerScore == 0 && cpuScore == 0 && !isAnimating
    {
      playerScore, cpuScore, isAnimating := 0, 0, false;
    }

    /** playRound: ignored while a round is animating; otherwise starts one and schedules the reveal. */
    method PlayRound(move: Move) returns (started: bool)
      requires Valid()
      modifies this`isAnimating
      ensures Valid()
      ensures started == !old(isAnimating)
      ensures isAnimating
    {
      if isAnimating {
        return false;
      }
      isAnimating := true;
      return true;
    }

    /**
     * The delayed reveal: draw the CPU's move, decide the round (showResult),
     * and submit the cumulative playerScore whenever it is positive.
     */
    method RevealCpuMove(playerMove: Move, draw: int) returns (result: int, submitted: Option<ScoreManager.Submission>)
      requires Valid() && 0 <= draw < 3
      modifies this`playerScore, this`cpuScore
      ensures Valid()
      ensures result == Winner(playerMove, CpuMoveFor(draw))
      ensures result == PLAYER_WIN ==> playerScore == old(playerScore) + 1 && cpuScore == old(cpuScore)
      ensures result == CPU_WIN ==> cpuScore == old(cpuScore) + 1 && playerScore == old(playerScore)
      ensures result == DRAW ==> playerScore == old(playerScore) && cpuScore == old(cpuScore)
      ensures submitted == if playerScore > 0 then Some(ScoreManager.Submission(GAME_NAME, playerScore)) else None
    {
      var cpuMove := CpuMoveFor(draw);
      result := Winner(playerMove, cpuMove);
      submitted := ShowResult(result);
    }

    /** showResult: count the round for its winner, then submit a positive playerScore. */
    method ShowResult(result: int) returns (submitted: Option<ScoreManager.Submission>)
      requires Valid()
      modifies this`playerScore, this`cpuScore
      ensures Valid()
      ensures playerScore == old(playerScore) + (if result == PLAYER_WIN then 1 else 0)
      ensures cpuScore == old(cpuScore) + (if result == CPU_WIN then 1 else 0)
      ensures submitted == if playerScore > 0 then Some(ScoreManager.Submission(GAME_NAME, playerScore)) else None
    {
      if result == PLAYER_WIN {
        playerScore := playerScore + 1;
      } else if result == CPU_WIN {
        cpuScore := cpuScore + 1;
      }
      submitted := if playerScore > 0 then Some(ScoreManager.Submission(GAME_NAME, playerScore)) else None;
    }

    /** resetRound ("play again"): accepts moves again; the scores stay. */
    method ResetRound()
      modifies this`isAnimating
      ensures !isAnimating
    {
      isAnimating := false;
    }
  }
}
