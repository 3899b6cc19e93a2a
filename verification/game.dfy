/**
 * The page's game state and its turn handling: the `gameState` array and
 * `currentPlayer`, reset, the click guard, the player's move and the
 * computer's reply. Only the player's mark `X` is ever stored in
 * `currentPlayer`, so the terminal tests after the computer's move look at
 * `X`'s lines, never at `O`'s.
 */
module Game {
  import opened Board
  import opened Opponent

  class TicTacToe {
    var gameState: array<Cell>
    var currentPlayer: Mark

    /** The board has nine cells, and the turn field holds `X`: the page never stores any other mark there. */
    ghost predicate Valid()
      reads this
    {
      gameState.Length == 9 && currentPlayer == X
    }

    /** The board as a value. */
    function Cells(): Board
      reads this, gameState
      requires Valid()
    {
      gameState[..]
    }

    /** Page load: an empty board with the player to move, then `initializeGame`. */
    constructor ()
      ensures Valid() && fresh(gameState)
      ensures Cells() == EmptyBoard && currentPlayer == X
    {
      gameState := new Cell[9](_ => Empty);
      currentPlayer := X;
      new;
      InitializeGame();
    }

    /** `initializeGame`: clears every cell and gives the turn to the player. */
    method InitializeGame()
      requires Valid()
      modifies this`currentPlayer, gameState
      ensures Valid()
      ensures Cells() == EmptyBoard && currentPlayer == X
    {
      for i := 0 to gameState.Length
        invariant forall j :: 0 <= j < i ==> gameState[j] == Empty
      {
        gameState[i] := Empty;
      }
      assert gameState[..] == EmptyBoard;
      currentPlayer := X;
    }

    /**
     * `findBestMove`: the loop over the winning lines with its early returns,
     * then the empty-cell fallback picked by `roll`. It only reads the board.
     */
    method FindBestMove(roll: nat) returns (move: int)
      requires Valid()
      ensures move == BestMove(Cells(), roll)
    {
      for i := 0 to |WinningConditions|
        invariant ScanLines(Cells(), WinningConditions[i..]) == ScanLines(Cells(), WinningConditions)
      {
        var condition := WinningConditions[i];
        assert WinningConditions[i..][0] == condition;
        assert WinningConditions[i..][1..] == WinningConditions[i + 1..];
        var a, b, c := condition.a, condition.b, condition.c;
        if gameState[a] == gameState[b] && gameState[a] != Empty && gameState[c] == Empty {
          return c;
        }
        if gameState[a] == gameState[c] && gameState[a] != Empty && gameState[b] == Empty {
          return b;
        }
        if gameState[b] == gameState[c] && gameState[b] != Empty && gameState[a] == Empty {
          return a;
        }
      }
      var emptyCells := EmptyCells(Cells());
      if |emptyCells| > 0 {
        return emptyCells[roll % |emptyCells|];
      }
      return -1;
    }

    /**
     * `aiMove`: `O` goes where `findBestMove` says (nowhere on a full board);
     * then, unless `currentPlayer` has a line or the board is full, the turn
     * goes back to the player. `reported` is what `updateGameStatus` shows,
     * or `None` when it is not called.
     */
    method AiMove(roll: nat) returns (reported: Option<Status>)
      requires Valid()
      modifies this`currentPlayer, gameState
      ensures Valid()
      ensures var m := BestMove(old(Cells()), roll);
        Cells() == if m == -1 then old(Cells()) else old(Cells())[m := O]
      ensures IsTerminal(Cells(), old(currentPlayer)) ==>
        currentPlayer == old(currentPlayer) && reported == Some(GameStatus(Cells(), currentPlayer))
      ensures !IsTerminal(Cells(), old(currentPlayer)) ==> currentPlayer == X && reported == None
    {
      var moveIndex := FindBestMove(roll);
      if moveIndex != -1 {
        gameState[moveIndex] := O;
      }
      if CheckWinner(Cells(), currentPlayer) || CheckTie(Cells()) {
        reported := Some(GameStatus(Cells(), currentPlayer));
        return;
      }
      currentPlayer := X;
      reported := None;
    }

    /**
     * `handleCellClick`: the current player's mark goes into the cell; a
     * terminal board ends the turn, otherwise the computer replies.
     */
    method HandleCellClick(index: Index, roll: nat) returns (reported: Option<Status>)
      requires Valid()
      modifies this`currentPlayer, gameState
      ensures Valid()
      ensures var mid := old(Cells())[index := old(currentPlayer)];
        IsTerminal(mid, old(currentPlayer)) ==>
          && Cells() == mid
          && currentPlayer == old(currentPlayer)
          && reported == Some(GameStatus(mid, currentPlayer))
      ensures var mid := old(Cells())[index := old(currentPlayer)];
        !IsTerminal(mid, old(currentPlayer)) ==>
          var m := BestMove(mid, roll);
          && 0 <= m < 9 && mid[m] == Empty
          && Cells() == mid[m := O]
          && (IsTerminal(Cells(), old(currentPlayer)) ==>
                currentPlayer == old(currentPlayer) && reported == Some(GameStatus(Cells(), currentPlayer)))
          && (!IsTerminal(Cells(), old(currentPlayer)) ==> currentPlayer == X && reported == None)
    {
      gameState[index] := currentPlayer;
      if CheckWinner(Cells(), currentPlayer) || CheckTie(Cells()) {
        reported := Some(GameStatus(Cells(), currentPlayer));
        return;
      }
      reported := AiMove(roll);
    }

    /**
     * A click on cell `index`: applied only when it is the player's turn and
     * the cell is empty. An applied click puts `X` in that cell alone; if that
     * ends the game no `O` is placed, otherwise exactly one other, previously
     * empty cell receives `O`. Either way the player is to move afterwards.
     */
    method ClickCell(index: Index, roll: nat) returns (reported: Option<Status>)
      requires Valid()
      modifies this`currentPlayer, gameState
      ensures Valid()
      ensures !ClickAccepted(old(Cells()), old(currentPlayer), index) ==>
        Cells() == old(Cells()) && currentPlayer == old(currentPlayer) && reported == None
      ensures ClickAccepted(old(Cells()), old(currentPlayer), index) ==>
        var mid := old(Cells())[index := X];
        && currentPlayer == X
        && (IsTerminal(mid, X) ==> Cells() == mid && reported == Some(GameStatus(mid, X)))
        && (!IsTerminal(mid, X) ==>
              var m := BestMove(mid, roll);
              && 0 <= m < 9 && m != index && old(Cells())[m] == Empty
              && Cells() == mid[m := O]
              && reported == if IsTerminal(Cells(), X) then Some(GameStatus(Cells(), X)) else None)
      ensures reported != Some(Win(O))
    {
      if currentPlayer == X && gameState[index] == Empty {
        reported := HandleCellClick(index, roll);
      } else {
        reported := None;
      }
    }
  }
}
