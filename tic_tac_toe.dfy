/**
 * Tic-tac-toe against a random-move CPU. The 3x3 grid of buttons is a 3x3
 * array of marks; the CPU's delayed move is a separately invoked step whose
 * random choice is an index into the list of empty cells.
 */
module TicTacToe {
  import opened Wrappers
  import ScoreManager

  /** A cell's text: "", "X" or "O". */
  datatype Mark = Empty | X | O

  const PLAYER_SYMBOL: Mark := X
  const CPU_SYMBOL: Mark := O
  const GAME_NAME: string := "TicTacToe"

  /** A snapshot of the grid, row by row: cell (r, c) is at 3 * r + c. */
  predicate IsBoard(b: seq<Mark>) {
    |b| == 9
  }

  function At(b: seq<Mark>, r: int, c: int): Mark
    requires IsBoard(b) && 0 <= r < 3 && 0 <= c < 3
  {
    b[3 * r + c]
  }

  predicate RowOf(b: seq<Mark>, i: int, s: Mark)
    requires IsBoard(b) && 0 <= i < 3
  {
    At(b, i, 0) == s && At(b, i, 1) == s && At(b, i, 2) == s
  }

  predicate ColumnOf(b: seq<Mark>, i: int, s: Mark)
    requires IsBoard(b) && 0 <= i < 3
  {
    At(b, 0, i) == s && At(b, 1, i) == s && At(b, 2, i) == s
  }

  predicate DiagonalOf(b: seq<Mark>, s: Mark)
    requires IsBoard(b)
  {
    At(b, 0, 0) == s && At(b, 1, 1) == s && At(b, 2, 2) == s
  }

  predicate AntiDiagonalOf(b: seq<Mark>, s: Mark)
    requires IsBoard(b)
  {
    At(b, 0, 2) == s && At(b, 1, 1) == s && At(b, 2, 0) == s
  }

  /** `s` holds some whole row, some whole column, or one of the two diagonals. */
  predicate Wins(b: seq<Mark>, s: Mark)
    requires IsBoard(b)
  {
    (exists i :: 0 <= i < 3 && (RowOf(b, i, s) || ColumnOf(b, i, s))) || DiagonalOf(b, s) || AntiDiagonalOf(b, s)
  }

  /** The number of cells that hold a mark. */
  function Filled(b: seq<Mark>): (n: nat)
    ensures n <= |b|
  {
    if b == [] then 0 else Filled(b[..|b| - 1]) + if b[|b| - 1] == Empty then 0 else 1
  }

  /** The empty cells among the first `n` in row order, as (row, column) pairs. */
  function EmptyAmong(b: seq<Mark>, n: nat): (cells: seq<(int, int)>)
    requires IsBoard(b) && n <= 9
    ensures forall p :: p in cells ==> 0 <= p.0 < 3 && 0 <= p.1 < 3 && 3 * p.0 + p.1 < n && At(b, p.0, p.1) == Empty
  {
    if n == 0 then []
    else EmptyAmong(b, n - 1) + if b[n - 1] == Empty then [((n - 1) / 3, (n - 1) % 3)] else []
  }

  /** The list cpuMove draws from. */
  function EmptyCells(b: seq<Mark>): seq<(int, int)>
    requires IsBoard(b)
  {
    EmptyAmong(b, 9)
  }

  /** There are exactly as many empty cells as unfilled ones. */
  lemma {:induction false} EmptyAmongCount(b: seq<Mark>, n: nat)
    requires IsBoard(b) && n <= 9
    ensures |EmptyAmong(b, n)| == n - Filled(b[..n])
  {
    if n > 0 {
      EmptyAmongCount(b, n - 1);
      assert b[..n][..n - 1] == b[..n - 1];
    }
  }

  lemma EmptyCellsCount(b: seq<Mark>)
    requires IsBoard(b)
    ensures |EmptyCells(b)| == 9 - Filled(b)
  {
    EmptyAmongCount(b, 9);
    assert b[..9] == b;
  }

  /** Filling one empty cell adds one to the count of filled cells. */
  lemma {:induction false} FillOne(b: seq<Mark>, k: nat, s: Mark)
    requires k < |b| && b[k] == Empty && s != Empty
    ensures Filled(b[k := s]) == Filled(b) + 1
  {
    var b' := b[k := s];
    if k == |b| - 1 {
      assert b'[..|b'| - 1] == b[..|b| - 1];
    } else {
      assert b'[..|b'| - 1] == b[..|b| - 1][k := s];
      FillOne(b[..|b| - 1], k, s);
    }
  }

  /** Placing `s` never completes a line of another mark. */
  lemma NoLineForOther(b: seq<Mark>, k: nat, s: Mark, t: Mark)
    requires IsBoard(b) && k < 9 && t != s
    ensures Wins(b[k := s], t) ==> Wins(b, t)
  {
    var b' := b[k := s];
    if Wins(b', t) {
      if i :| 0 <= i < 3 && (RowOf(b', i, t) || ColumnOf(b', i, t)) {
        assert RowOf(b, i, t) || ColumnOf(b, i, t);
      }
    }
  }

  lemma {:induction false} FilledNone(b: seq<Mark>)
    requires forall i :: 0 <= i < |b| ==> b[i] == Empty
    ensures Filled(b) == 0
  {
    if b != [] {
      FilledNone(b[..|b| - 1]);
    }
  }

  function AllEmpty(): (b: seq<Mark>)
    ensures IsBoard(b) && Filled(b) == 0
  {
    var b := [Empty, Empty, Empty, Empty, Empty, Empty, Empty, Empty, Empty];
    FilledNone(b);
    b
  }

  class Game {
    const buttons: array2<Mark>
    var playerTurn: bool
    var roundCount: int
    var playerScore: int
    var cpuScore: int
    var gameActive: bool

    ghost predicate HasGrid()
      reads this
    {
      buttons.Length0 == 3 && buttons.Length1 == 3
    }

    /** The grid's texts, row by row. */
    ghost function Board(): (b: seq<Mark>)
      reads this, buttons
      requires HasGrid()
      ensures IsBoard(b)
    {
      [buttons[0, 0], buttons[0, 1], buttons[0, 2],
       buttons[1, 0], buttons[1, 1], buttons[1, 2],
       buttons[2, 0], buttons[2, 1], buttons[2, 2]]
    }

    /**
     * roundCount counts the filled cells; a game still in progress has an
     * empty cell and no completed line.
     */
    ghost predicate Valid()
      reads this, buttons
    {
      && HasGrid()
      && roundCount == Filled(Board())
      && 0 <= playerScore && 0 <= cpuScore
      && (gameActive ==> roundCount < 9 && !Wins(Board(), PLAYER_SYMBOL) && !Wins(Board(), CPU_SYMBOL))
    }

    /** onCreate: an empty board, the player's turn, scores 0. */
    constructor ()
      ensures Valid() && fresh(buttons)
      ensures Board() == AllEmpty()
      ensures gameActive && playerTurn && roundCount == 0 && playerScore == 0 && cpuScore == 0
    {
      buttons := new Mark[3, 3]((i, j) => Empty);
      playerTurn := true;
      roundCount := 0;
      playerScore := 0;
      cpuScore := 0;
      gameActive := true;
      new;
      assert Board() == AllEmpty();
    }

    /** checkWin: scans the rows and columns, then both diagonals. */
    method CheckWin(symbol: Mark) returns (won: bool)
      requires HasGrid()
      ensures won == Wins(Board(), symbol)
    {
      ghost var b := Board();
      for i := 0 to 3
        invariant forall k :: 0 <= k < i ==> !RowOf(b, k, symbol) && !ColumnOf(b, k, symbol)
      {
        assert b[3 * i] == buttons[i, 0] && b[3 * i + 1] == buttons[i, 1] && b[3 * i + 2] == buttons[i, 2];
        assert b[i] == buttons[0, i] && b[3 + i] == buttons[1, i] && b[6 + i] == buttons[2, i];
        if buttons[i, 0] == symbol && buttons[i, 1] == symbol && buttons[i, 2] == symbol {
          assert RowOf(b, i, symbol);
          return true;
        }
        if buttons[0, i] == symbol && buttons[1, i] == symbol && buttons[2, i] == symbol {
          assert ColumnOf(b, i, symbol);
          return true;
        }
      }
      if buttons[0, 0] == symbol && buttons[1, 1] == symbol && buttons[2, 2] == symbol {
        return true;
      }
      if buttons[0, 2] == symbol && buttons[1, 1] == symbol && buttons[2, 0] == symbol {
        return true;
      }
      return false;
    }

    /** makeMove: writes one cell and counts the move. */
    method MakeMove(r: int, c: int, symbol: Mark)
      requires HasGrid() && 0 <= r < 3 && 0 <= c < 3
      modifies buttons, this`roundCount
      ensures Board() == old(Board())[3 * r + c := symbol]
      ensures roundCount == old(roundCount) + 1
    {
      buttons[r, c] := symbol;
      roundCount := roundCount + 1;
    }

    /** The cell scan at the start of cpuMove. */
    method CollectEmptyCells() returns (cells: seq<(int, int)>)
      requires HasGrid()
      ensures cells == EmptyCells(Board())
    {
      ghost var b := Board();
      cells := [];
      for i := 0 to 3
        invariant cells == EmptyAmong(b, 3 * i)
      {
        for j := 0 to 3
          invariant cells == EmptyAmong(b, 3 * i + j)
        {
          ghost var n := 3 * i + j;
          assert b[n] == buttons[i, j];
          assert n / 3 == i && n % 3 == j;
          assert EmptyAmong(b, n + 1) == EmptyAmong(b, n) + if b[n] == Empty then [(i, j)] else [];
          if buttons[i, j] == Empty {
            cells := cells + [(i, j)];
          }
        }
      }
    }

    /**
     * onCellClicked: ignored while the game is over, on a filled cell or on
     * the CPU's turn; otherwise the player's mark is placed and the result is
     * decided: a line wins (and submits the cumulative playerScore), a full
     * board draws, else the CPU's move is scheduled.
     */
    method OnCellClicked(r: int, c: int) returns (submitted: Option<ScoreManager.Submission>, cpuScheduled: bool)
      requires Valid() && 0 <= r < 3 && 0 <= c < 3
      modifies this, buttons
      ensures Valid()
      ensures playerScore >= old(playerScore) && cpuScore == old(cpuScore)
      ensures !old(gameActive) || old(Board())[3 * r + c] != Empty || !old(playerTurn) ==>
        && Board() == old(Board()) && submitted == None && !cpuScheduled
        && gameActive == old(gameActive) && playerTurn == old(playerTurn) && roundCount == old(roundCount)
        && playerScore == old(playerScore)
      ensures old(gameActive) && old(Board())[3 * r + c] == Empty && old(playerTurn) ==>
        && Board() == old(Board())[3 * r + c := PLAYER_SYMBOL]
        && roundCount == old(roundCount) + 1
        && (Wins(Board(), PLAYER_SYMBOL) ==>
              !gameActive && playerTurn && playerScore == old(playerScore) + 1 && submitted == Some(ScoreManager.Submission(GAME_NAME, playerScore))
              && !cpuScheduled)
        && (!Wins(Board(), PLAYER_SYMBOL) && roundCount == 9 ==>
              !gameActive && playerTurn && playerScore == old(playerScore) && submitted == None && !cpuScheduled)
        && (!Wins(Board(), PLAYER_SYMBOL) && roundCount < 9 ==>
              gameActive && !playerTurn && playerScore == old(playerScore) && submitted == None && cpuScheduled)
    {
      submitted, cpuScheduled := None, false;
      if !gameActive || buttons[r, c] != Empty || !playerTurn {
        return;
      }
      ghost var before := Board();
      assert before[3 * r + c] == Empty;
      MakeMove(r, c, PLAYER_SYMBOL);
      FillOne(before, 3 * r + c, PLAYER_SYMBOL);
      NoLineForOther(before, 3 * r + c, PLAYER_SYMBOL, CPU_SYMBOL);
      var won := CheckWin(PLAYER_SYMBOL);
      if won {
        // playerWins
        gameActive := false;
        playerScore := playerScore + 1;
        submitted := Some(ScoreManager.Submission(GAME_NAME, playerScore));
      } else if roundCount == 9 {
        // draw
        gameActive := false;
      } else {
        playerTurn := false;
        cpuScheduled := true;
      }
    }

    /**
     * cpuMove, run when its delay elapses: nothing if the game is over;
     * otherwise the CPU marks the empty cell at index `pick` of the scan and
     * the result is decided as for the player (a CPU win submits nothing).
     */
    method CpuMove(pick: nat)
      requires Valid()
      requires gameActive ==> pick < |EmptyCells(Board())|
      modifies this, buttons
      ensures Valid()
      ensures playerScore == old(playerScore) && cpuScore >= old(cpuScore)
      ensures !old(gameActive) ==>
        Board() == old(Board()) && !gameActive && playerTurn == old(playerTurn) && roundCount == old(roundCount)
        && cpuScore == old(cpuScore)
      ensures old(gameActive) ==>
        var cell := EmptyCells(old(Board()))[pick];
        && old(Board())[3 * cell.0 + cell.1] == Empty
        && Board() == old(Board())[3 * cell.0 + cell.1 := CPU_SYMBOL]
        && roundCount == old(roundCount) + 1
        && (Wins(Board(), CPU_SYMBOL) ==> !gameActive && playerTurn == old(playerTurn) && cpuScore == old(cpuScore) + 1)
        && (!Wins(Board(), CPU_SYMBOL) && roundCount == 9 ==>
              !gameActive && playerTurn == old(playerTurn) && cpuScore == old(cpuScore))
        && (!Wins(Board(), CPU_SYMBOL) && roundCount < 9 ==> gameActive && playerTurn && cpuScore == old(cpuScore))
    {
      if !gameActive {
        return;
      }
      var emptyCells := CollectEmptyCells();
      EmptyCellsCount(Board());
      if emptyCells != [] {
        ghost var before := Board();
        var move := emptyCells[pick];
        assert move in emptyCells;
        MakeMove(move.0, move.1, CPU_SYMBOL);
        FillOne(before, 3 * move.0 + move.1, CPU_SYMBOL);
        NoLineForOther(before, 3 * move.0 + move.1, CPU_SYMBOL, PLAYER_SYMBOL);
        var won := CheckWin(CPU_SYMBOL);
        if won {
          // cpuWins
          gameActive := false;
          cpuScore := cpuScore + 1;
        } else if roundCount == 9 {
          // draw
          gameActive := false;
        } else {
          playerTurn := true;
        }
      }
    }

    /** resetBoard: clears every cell. */
    method ResetBoard()
      requires HasGrid()
      modifies buttons
      ensures Board() == AllEmpty()
    {
      for i := 0 to 3
        invariant forall i', j' :: 0 <= i' < i && 0 <= j' < 3 ==> buttons[i', j'] == Empty
      {
        for j := 0 to 3
          invariant forall i', j' :: 0 <= i' < i && 0 <= j' < 3 ==> buttons[i', j'] == Empty
          invariant forall j' :: 0 <= j' < j ==> buttons[i, j'] == Empty
        {
          buttons[i, j] := Empty;
        }
      }
    }

    /** resetGame: an empty board and a new game; both scores are kept. */
    method ResetGame()
      requires Valid()
      modifies this, buttons
      ensures Valid()
      ensures Board() == AllEmpty()
      ensures gameActive && playerTurn && roundCount == 0
      ensures playerScore == old(playerScore) && cpuScore == old(cpuScore)
    {
      ResetBoard();
      gameActive := true;
      playerTurn := true;
      roundCount := 0;
      assert !Wins(AllEmpty(), PLAYER_SYMBOL) && !Wins(AllEmpty(), CPU_SYMBOL);
    }
  }

  /** A game in progress always has an empty cell for the CPU to take. */
  lemma ActiveGameHasEmptyCell(b: seq<Mark>, roundCount: int)
    requires IsBoard(b) && roundCount == Filled(b) && roundCount < 9
    ensures EmptyCells(b) != []
  {
    EmptyCellsCount(b);
  }
}
